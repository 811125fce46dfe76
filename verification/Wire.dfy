/** The fixed 40-byte data header: its little-endian layout, its decoder and the
    proof that the two are inverse to each other. */
module Wire {
  import opened Base

  const PROTOCOL_VERSION: U16 := 1
  const DATA_HEADER_SIZE: nat := 40
  const DATA_MAGIC: U32 := 0x4950_4653

  /** The bytes of `IPFUSCH_CTRL`, which open every control datagram. */
  const CTRL_PREFIX: Bytes := [73, 80, 70, 85, 83, 67, 72, 95, 67, 84, 82, 76]

  datatype DataHeader = DataHeader(
    magic: U32,
    version: U16,
    flags: U16,
    sessionId: U64,
    streamId: U32,
    seqNo: U64,
    sendNs: U64,
    payloadLen: U32)

  datatype WireError = InvalidPacketHeader | ProtocolVersionMismatch(expected: U16, got: U16)

  /** The header a client stamps on one packet. */
  function NewHeader(sessionId: U64, streamId: U32, seqNo: U64, sendNs: U64, payloadLen: U32): DataHeader {
    DataHeader(DATA_MAGIC, PROTOCOL_VERSION, 0, sessionId, streamId, seqNo, sendNs, payloadLen)
  }

  // ----- little-endian integers

  function Pow256(w: nat): nat {
    if w == 0 then 1 else 256 * Pow256(w - 1)
  }

  function LittleEndian(v: nat, w: nat): (bs: Bytes)
    ensures |bs| == w
  {
    if w == 0 then [] else [v % 256] + LittleEndian(v / 256, w - 1)
  }

  function FromLittleEndian(bs: Bytes): nat {
    if bs == [] then 0 else bs[0] + 256 * FromLittleEndian(bs[1..])
  }

  lemma {:induction false} LittleEndianRoundTrip(v: nat, w: nat)
    requires v < Pow256(w)
    ensures FromLittleEndian(LittleEndian(v, w)) == v
  {
    if w > 0 {
      var bs := LittleEndian(v, w);
      assert bs[1..] == LittleEndian(v / 256, w - 1);
      LittleEndianRoundTrip(v / 256, w - 1);
    }
  }

  lemma {:induction false} LittleEndianSurjective(bs: Bytes)
    ensures FromLittleEndian(bs) < Pow256(|bs|)
    ensures LittleEndian(FromLittleEndian(bs), |bs|) == bs
  {
    if bs != [] {
      var rest := FromLittleEndian(bs[1..]);
      LittleEndianSurjective(bs[1..]);
      assert FromLittleEndian(bs) == bs[0] + 256 * rest;
      assert (bs[0] + 256 * rest) % 256 == bs[0] && (bs[0] + 256 * rest) / 256 == rest;
    }
  }

  lemma Widths()
    ensures Pow256(2) == 0x1_0000 && Pow256(4) == 0x1_0000_0000 && Pow256(8) == TWO_64
  {
    assert Pow256(2) == 0x1_0000;
    assert Pow256(4) == 256 * (256 * Pow256(2));
    assert Pow256(6) == 256 * (256 * Pow256(4));
    assert Pow256(8) == 256 * (256 * Pow256(6));
  }

  // ----- the header layout

  function EncodeHeader(h: DataHeader): (bs: Bytes)
    ensures |bs| == DATA_HEADER_SIZE
  {
    LittleEndian(h.magic, 4) + LittleEndian(h.version, 2) + LittleEndian(h.flags, 2)
    + LittleEndian(h.sessionId, 8) + LittleEndian(h.streamId, 4) + LittleEndian(h.seqNo, 8)
    + LittleEndian(h.sendNs, 8) + LittleEndian(h.payloadLen, 4)
  }

  method CopyFromSlice(buf: array<Byte>, at: nat, src: Bytes)
    requires at + |src| <= buf.Length
    modifies buf
    ensures buf[..at + |src|] == old(buf[..at]) + src
    ensures buf[at + |src|..] == old(buf[at + |src|..])
  {
    for i := 0 to |src|
      invariant buf[..at] == old(buf[..at])
      invariant buf[at..at + i] == src[..i]
      invariant buf[at + i..] == old(buf[at + i..])
    {
      buf[at + i] := src[i];
    }
  }

  /** Fills a zeroed 40-byte buffer field by field. */
  method Encode(h: DataHeader) returns (buf: array<Byte>)
    ensures fresh(buf) && buf[..] == EncodeHeader(h)
  {
    buf := new Byte[DATA_HEADER_SIZE](_ => 0);
    CopyFromSlice(buf, 0, LittleEndian(h.magic, 4));
    CopyFromSlice(buf, 4, LittleEndian(h.version, 2));
    CopyFromSlice(buf, 6, LittleEndian(h.flags, 2));
    CopyFromSlice(buf, 8, LittleEndian(h.sessionId, 8));
    CopyFromSlice(buf, 16, LittleEndian(h.streamId, 4));
    CopyFromSlice(buf, 20, LittleEndian(h.seqNo, 8));
    CopyFromSlice(buf, 28, LittleEndian(h.sendNs, 8));
    CopyFromSlice(buf, 36, LittleEndian(h.payloadLen, 4));
    assert buf[..] == buf[..40];
  }

  function Field(bs: Bytes, lo: nat, hi: nat): (v: nat)
    requires lo <= hi <= |bs|
    ensures v < Pow256(hi - lo)
  {
    LittleEndianSurjective(bs[lo..hi]);
    FromLittleEndian(bs[lo..hi])
  }

  function DecodeHeader(bs: Bytes): Result<DataHeader, WireError> {
    if |bs| != DATA_HEADER_SIZE then Err(InvalidPacketHeader)
    else
      Widths();
      var magic := Field(bs, 0, 4);
      var version := Field(bs, 4, 6);
      if magic != DATA_MAGIC then Err(InvalidPacketHeader)
      else if version != PROTOCOL_VERSION then Err(ProtocolVersionMismatch(PROTOCOL_VERSION, version))
      else Ok(DataHeader(magic, version, Field(bs, 6, 8), Field(bs, 8, 16), Field(bs, 16, 20),
                         Field(bs, 20, 28), Field(bs, 28, 36), Field(bs, 36, 40)))
  }

  /** Byte `k` of a little-endian number is its digit number `k` to the base 256. */
  lemma {:induction false} LittleEndianDigit(v: nat, w: nat, k: nat)
    requires k < w
    ensures Pow256(k) > 0 && LittleEndian(v, w)[k] == v / Pow256(k) % 256
  {
    PowerIsPositive(k);
    if k > 0 {
      PowerIsPositive(k - 1);
      LittleEndianDigit(v / 256, w - 1, k - 1);
      DivideTwice(v, 256, Pow256(k - 1));
    }
  }

  lemma {:induction false} PowerIsPositive(k: nat)
    ensures Pow256(k) > 0
  {
    if k > 0 {
      PowerIsPositive(k - 1);
    }
  }

  lemma DivideTwice(v: nat, a: nat, b: nat)
    requires a > 0 && b > 0
    ensures a * b > 0 && v / a / b == v / (a * b)
  {
    var q := v / (a * b);
    var r := v % (a * b);
    assert v == a * (b * q) + r;
    var x := v / a;
    assert v == a * x + v % a;
    assert a * (b * q + b) == a * (b * q) + a * b;
    assert b * q <= x < b * q + b by {
      if x < b * q {
        MulMonotone(x + 1, b * q, a);
      }
      if x >= b * q + b {
        MulMonotone(b * q + b, x, a);
      }
    }
    assert x / b == q by {
      assert x == b * q + (x - b * q);
      QuotientIs(x, b, q, x - b * q);
    }
  }

  lemma QuotientIs(x: nat, b: nat, q: nat, r: nat)
    requires x == b * q + r && r < b
    ensures x / b == q
  {
    var d := x / b;
    assert x == b * d + x % b;
    if d < q {
      MulMonotone(d + 1, q, b);
    }
    if d > q {
      MulMonotone(q + 1, d, b);
    }
  }

  /** Where the fields lie in the forty bytes. */
  lemma HeaderLayout(h: DataHeader)
    ensures var bs := EncodeHeader(h);
            && |bs| == 40
            && bs[0..4] == LittleEndian(h.magic, 4) && bs[4..6] == LittleEndian(h.version, 2)
            && bs[6..8] == LittleEndian(h.flags, 2) && bs[8..16] == LittleEndian(h.sessionId, 8)
            && bs[16..20] == LittleEndian(h.streamId, 4) && bs[20..28] == LittleEndian(h.seqNo, 8)
            && bs[28..36] == LittleEndian(h.sendNs, 8) && bs[36..40] == LittleEndian(h.payloadLen, 4)
  {
    hide LittleEndian;
  }

  /** What the protocol is recognized by: the bytes of `SFPI`, version 1, and for control
      datagrams the text `IPFUSCH_CTRL`. */
  lemma ProtocolMarks(sessionId: U64, streamId: U32, seqNo: U64, sendNs: U64, payloadLen: U32)
    ensures NewHeader(sessionId, streamId, seqNo, sendNs, payloadLen)
         == DataHeader(0x4950_4653, 1, 0, sessionId, streamId, seqNo, sendNs, payloadLen)
    ensures LittleEndian(DATA_MAGIC, 4) == ['S' as int, 'F' as int, 'P' as int, 'I' as int]
    ensures |CTRL_PREFIX| == 12 && forall i :: 0 <= i < 12 ==> CTRL_PREFIX[i] == "IPFUSCH_CTRL"[i] as int
  {
    assert LittleEndian(0x4950_4653, 4) == [0x53, 0x46, 0x50, 0x49];
  }

  /** A header comes back from the wire exactly when its magic and version are the protocol's. */
  lemma DecodeOfEncode(h: DataHeader)
    ensures DecodeHeader(EncodeHeader(h)).Ok? <==> h.magic == DATA_MAGIC && h.version == PROTOCOL_VERSION
    ensures DecodeHeader(EncodeHeader(h)).Ok? ==> DecodeHeader(EncodeHeader(h)).value == h
  {
    Widths();
    var bs := EncodeHeader(h);
    assert bs[0..4] == LittleEndian(h.magic, 4);
    assert bs[4..6] == LittleEndian(h.version, 2);
    assert bs[6..8] == LittleEndian(h.flags, 2);
    assert bs[8..16] == LittleEndian(h.sessionId, 8);
    assert bs[16..20] == LittleEndian(h.streamId, 4);
    assert bs[20..28] == LittleEndian(h.seqNo, 8);
    assert bs[28..36] == LittleEndian(h.sendNs, 8);
    assert bs[36..40] == LittleEndian(h.payloadLen, 4);
    LittleEndianRoundTrip(h.magic, 4);
    LittleEndianRoundTrip(h.version, 2);
    LittleEndianRoundTrip(h.flags, 2);
    LittleEndianRoundTrip(h.sessionId, 8);
    LittleEndianRoundTrip(h.streamId, 4);
    LittleEndianRoundTrip(h.seqNo, 8);
    LittleEndianRoundTrip(h.sendNs, 8);
    LittleEndianRoundTrip(h.payloadLen, 4);
  }

  /** Whatever the decoder accepts is the encoding of what it returns, so echoing the
      received bytes verbatim is the same as re-encoding the decoded header. */
  lemma EncodeOfDecode(bs: Bytes)
    requires DecodeHeader(bs).Ok?
    ensures EncodeHeader(DecodeHeader(bs).value) == bs
  {
    LittleEndianSurjective(bs[0..4]);
    LittleEndianSurjective(bs[4..6]);
    LittleEndianSurjective(bs[6..8]);
    LittleEndianSurjective(bs[8..16]);
    LittleEndianSurjective(bs[16..20]);
    LittleEndianSurjective(bs[20..28]);
    LittleEndianSurjective(bs[28..36]);
    LittleEndianSurjective(bs[36..40]);
    assert bs == bs[0..4] + bs[4..6] + bs[6..8] + bs[8..16] + bs[16..20] + bs[20..28] + bs[28..36] + bs[36..40];
  }

  lemma MagicByte(bs: Bytes)
    requires DecodeHeader(bs).Ok?
    ensures bs[0] == 'S' as int
  {
    assert Field(bs, 0, 4) == FromLittleEndian(bs[0..4]) == DATA_MAGIC;
    assert FromLittleEndian(bs[0..4]) % 256 == bs[0];
  }

  /** No bytes that open with the control prefix carry a valid data header: the
      little-endian magic starts with `S`, the prefix with `I`. */
  lemma ControlIsNeverData(bs: Bytes)
    requires StartsWith(bs, CTRL_PREFIX) && |bs| >= DATA_HEADER_SIZE
    ensures DecodeHeader(bs[..DATA_HEADER_SIZE]).Err?
  {
    var head := bs[..DATA_HEADER_SIZE];
    assert head[0] == bs[..|CTRL_PREFIX|][0] == CTRL_PREFIX[0];
    if DecodeHeader(head).Ok? {
      MagicByte(head);
    }
  }
}
