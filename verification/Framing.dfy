/** Packets as they travel on a byte stream: header, then payload. */
module Framing {
  import opened Base
  import opened Wire

  datatype Packet = Packet(header: DataHeader, payload: Bytes)
  {
    /** A packet the peer can parse: protocol magic and version, announced length correct. */
    predicate WellFormed() {
      header.magic == DATA_MAGIC && header.version == PROTOCOL_VERSION && header.payloadLen == |payload|
    }
  }

  ghost predicate AllWellFormed(ps: seq<Packet>) {
    forall i :: 0 <= i < |ps| ==> ps[i].WellFormed()
  }

  function Frame(p: Packet): (bs: Bytes)
    ensures |bs| == DATA_HEADER_SIZE + |p.payload|
  {
    EncodeHeader(p.header) + p.payload
  }

  function Frames(ps: seq<Packet>): Bytes {
    if ps == [] then [] else Frame(ps[0]) + Frames(ps[1..])
  }

  /** The echo of a packet list: the headers alone, in order. */
  function Headers(ps: seq<Packet>): Bytes {
    if ps == [] then [] else EncodeHeader(ps[0].header) + Headers(ps[1..])
  }

  lemma {:induction false} FramesConcat(a: seq<Packet>, b: seq<Packet>)
    ensures Frames(a + b) == Frames(a) + Frames(b)
    ensures Headers(a + b) == Headers(a) + Headers(b)
  {
    hide EncodeHeader, Frame;
    if a == [] {
      assert a + b == b;
    } else {
      assert (a + b)[1..] == a[1..] + b;
      FramesConcat(a[1..], b);
    }
  }

  lemma FramesOne(p: Packet)
    ensures Frames([p]) == Frame(p) && Headers([p]) == EncodeHeader(p.header)
  {
    assert [p][1..] == [];
  }

  lemma {:induction false} HeadersLength(ps: seq<Packet>)
    ensures |Headers(ps)| == DATA_HEADER_SIZE * |ps|
  {
    if ps != [] {
      HeadersLength(ps[1..]);
    }
  }
}
