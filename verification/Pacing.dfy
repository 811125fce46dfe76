/** How much a paced stream, and a whole run of them, can send by a given time. */
module Pacing {
  import opened Base
  import opened Stream

  const NANOS_PER_SECOND: nat := 1_000_000_000

  datatype Transport = Tcp | Udp | Quic

  datatype RateMode = Auto | Bps(bps: U64)

  /** The rate a run aims at: the one asked for, or a fixed one per transport. */
  function ResolveRate(rate: RateMode, transport: Transport): Option<nat> {
    match rate
    case Bps(v) => Some(v)
    case Auto =>
      match transport
      case Tcp => Some(80_000_000_000)
      case Udp => Some(2_000_000_000)
      case Quic => Some(1_000_000_000)
  }

  /** Each stream gets an equal share, rounded down, but never less than one bit per second. */
  function PerStreamRate(resolved: Option<nat>, streams: nat): Option<nat>
    requires streams >= 1
  {
    match resolved
    case None => None
    case Some(v) => Some(Max(1, v / streams))
  }

  /** The bits of one payload, scaled so that dividing by a rate gives nanoseconds. */
  function BitNanos(payload: nat): nat {
    payload * 8 * NANOS_PER_SECOND
  }

  lemma MulAssociates(a: int, b: int, c: int)
    ensures a * (b * c) == a * b * c
  {
  }

  /** What the spacing accounts for: the bits of one payload, unless their time at the rate
      is more than 64 bits of nanoseconds. */
  function PacedBits(payload: nat, bps: nat): nat {
    Min(BitNanos(payload), TWO_64 * bps)
  }

  /** The delay is the exact spacing rounded down, or one nanosecond when that is nothing;
      it falls short of the spacing exactly when the spacing does not fit 64 bits. */
  lemma DelayIsTight(payload: nat, bps: nat)
    requires bps > 0
    ensures var d := PacingDelay(payload, Some(bps)).value;
            && (BitNanos(payload) < (d + 1) * bps <==> BitNanos(payload) < TWO_64 * bps)
            && PacedBits(payload, bps) <= (d + 1) * bps
            && (d > 1 ==> d * bps <= BitNanos(payload))
  {
    var bits := BitNanos(payload);
    var q := bits / bps;
    assert bits == q * bps + bits % bps;
    assert (q + 1) * bps == q * bps + bps;
    var d := PacingDelay(payload, Some(bps)).value;
    if q < TWO_64 {
      MulMonotone(q + 1, d + 1, bps);
      MulMonotone(q + 1, TWO_64, bps);
    } else {
      MulMonotone(TWO_64, q, bps);
    }
  }

  /** The spacing fits 64 bits at every rate above one bit per second, and at one bit per
      second up to a payload of 2305843009 bytes. */
  lemma PacedBitsAreAll(payload: U32, bps: nat)
    requires bps > 0
    ensures BitNanos(payload) < TWO_64 * bps <==> bps >= 2 || payload <= 2_305_843_009
    ensures bps >= 2 || payload <= 2_305_843_009 ==> PacedBits(payload, bps) == BitNanos(payload)
  {
    if bps >= 2 {
      MulMonotone(2, bps, TWO_64);
    }
  }

  lemma Regroup(d: nat, bps: nat, gaps: nat)
    ensures ((d + 1) * bps) * gaps == bps * (gaps * d + gaps)
  {
    assert ((d + 1) * bps) * gaps == bps * (gaps * (d + 1));
  }

  /** One byte more, and the delay of 64 bits falls short of the spacing. */
  lemma LargestPayloadAtOneBit()
    ensures PacingDelay(2_305_843_010, Some(1)) == Some(TWO_64 - 1)
    ensures (PacingDelay(2_305_843_010, Some(1)).value + 1) * 1 <= BitNanos(2_305_843_010)
  {
  }

  /** By the time its `k`-th packet is stamped, a stream has sent its first packet plus at
      most `bps` bits per second of schedule, each gap counted one nanosecond long. */
  lemma StreamEnvelope(stamps: seq<nat>, t0: nat, payload: nat, bps: nat, k: nat, t: nat)
    requires bps > 0 && PacedFrom(stamps, t0, PacingDelay(payload, Some(bps)).value)
    requires 1 <= k <= |stamps| && stamps[k - 1] <= t
    ensures t0 <= t
    ensures (k - 1) * PacedBits(payload, bps) <= bps * ((t - t0) + (k - 1))
  {
    hide PacedBits;
    var d := PacingDelay(payload, Some(bps)).value;
    hide PacingDelay;
    var bits := PacedBits(payload, bps);
    assert t0 + (k - 1) * d <= t;
    DelayIsTight(payload, bps);
    MulMonotone(bits, (d + 1) * bps, k - 1);
    Regroup(d, bps, k - 1);
    MulMonotone((k - 1) * d + (k - 1), (t - t0) + (k - 1), bps);
  }

  /** Dividing a rate among the streams overspends it exactly when there are more streams
      than bits per second; otherwise less than one bit per second per stream is lost. */
  lemma RateSplit(rate: nat, streams: nat)
    requires streams >= 1
    ensures var per := PerStreamRate(Some(rate), streams).value;
            && (streams * per <= rate <==> streams <= rate)
            && (streams <= rate ==> rate - streams * per < streams)
  {
    assert rate == (rate / streams) * streams + rate % streams;
    if rate < streams {
      assert rate / streams == 0;
    } else {
      assert rate / streams >= 1 by {
        if rate / streams < 1 {
          MulMonotone(rate / streams, 0, streams);
        }
      }
      assert streams * (rate / streams) == (rate / streams) * streams;
    }
  }

  /** Two streams overspend a rate of one bit per second: each is given all of it. */
  lemma TwoStreamsOverspendOneBit()
    ensures 2 * PerStreamRate(Some(1), 2).value > 1
  {
    RateSplit(1, 2);
  }

  /** The automatic rates are ordered by transport, and no admissible number of streams
      makes their shares overspend them. */
  lemma AutoNeverOverspends(transport: Transport, streams: U16)
    requires streams >= 1
    ensures ResolveRate(Auto, transport).Some?
    ensures var rate := ResolveRate(Auto, transport).value;
            streams * PerStreamRate(Some(rate), streams).value <= rate
    ensures ResolveRate(Auto, Tcp).value > ResolveRate(Auto, Udp).value > ResolveRate(Auto, Quic).value
    ensures ResolveRate(Auto, Tcp) == Some(80_000_000_000) && ResolveRate(Auto, Udp) == Some(2_000_000_000)
    ensures ResolveRate(Auto, Quic) == Some(1_000_000_000) && forall v: U64 :: ResolveRate(Bps(v), transport) == Some(v)
  {
    RateSplit(ResolveRate(Auto, transport).value, streams);
  }

  /** One stream of a run: its send times and the start of its schedule. */
  datatype Sender = Sender(stamps: seq<nat>, firstSlot: nat)

  function AfterFirst(k: nat): nat {
    if k == 0 then 0 else k - 1
  }

  /** The packets after the first that have been stamped, over all senders. */
  function LaterPackets(counts: seq<nat>): nat {
    if counts == [] then 0 else AfterFirst(counts[0]) + LaterPackets(counts[1..])
  }

  /** A sender on the given schedule stamped its first `k` packets by time `t`. */
  ghost predicate SentInTime(s: Sender, k: nat, payload: nat, per: nat, t: nat, from: nat) {
    && per > 0
    && PacedFrom(s.stamps, s.firstSlot, PacingDelay(payload, Some(per)).value)
    && s.firstSlot >= from
    && k <= |s.stamps|
    && (k > 0 ==> s.stamps[k - 1] <= t)
  }

  ghost predicate SentBy(senders: seq<Sender>, counts: seq<nat>, payload: nat, per: nat, t: nat, from: nat) {
    && |counts| == |senders|
    && forall i :: 0 <= i < |senders| ==> SentInTime(senders[i], counts[i], payload, per, t, from)
  }

  lemma Distribute(a: int, b: int, c: int)
    ensures (a + b) * c == a * c + b * c
  {
  }

  lemma OneSender(s: Sender, k: nat, payload: nat, per: nat, t: nat, from: nat, most: nat)
    requires SentInTime(s, k, payload, per, t, from) && from <= t && k <= most + 1
    ensures AfterFirst(k) * PacedBits(payload, per) <= per * ((t - from) + most)
  {
    hide PacingDelay, PacedBits;
    if k > 0 {
      StreamEnvelope(s.stamps, s.firstSlot, payload, per, k, t);
      MulMonotone(t - s.firstSlot + (k - 1), t - from + most, per);
      assert AfterFirst(k) == k - 1;
    }
  }

  lemma {:induction false} SendersEnvelope(
      senders: seq<Sender>, counts: seq<nat>, payload: nat, per: nat, t: nat, from: nat, most: nat)
    requires from <= t && SentBy(senders, counts, payload, per, t, from)
    requires forall i :: 0 <= i < |counts| ==> counts[i] <= most + 1
    ensures LaterPackets(counts) * PacedBits(payload, per)
            <= |senders| * (per * ((t - from) + most))
  {
    hide PacedBits, SentInTime;
    if senders != [] {
      OneSender(senders[0], counts[0], payload, per, t, from, most);
      SendersEnvelope(senders[1..], counts[1..], payload, per, t, from, most);
      Distribute(AfterFirst(counts[0]), LaterPackets(counts[1..]), PacedBits(payload, per));
      Distribute(1, |senders| - 1, per * ((t - from) + most));
    }
  }

  /** All streams together stay within the rate resolved for the run, provided it allows
      each of them one bit per second. */
  lemma RunEnvelope(senders: seq<Sender>, counts: seq<nat>, payload: nat, rate: nat, t: nat, from: nat, most: nat)
    requires 1 <= |senders| <= rate && from <= t
    requires SentBy(senders, counts, payload, PerStreamRate(Some(rate), |senders|).value, t, from)
    requires forall i :: 0 <= i < |counts| ==> counts[i] <= most + 1
    ensures LaterPackets(counts) * PacedBits(payload, PerStreamRate(Some(rate), |senders|).value)
            <= rate * ((t - from) + most)
  {
    hide PacingDelay, PacedBits, SentBy, LaterPackets;
    var per := PerStreamRate(Some(rate), |senders|).value;
    SendersEnvelope(senders, counts, payload, per, t, from, most);
    RateSplit(rate, |senders|);
    MulMonotone(|senders| * per, rate, (t - from) + most);
    MulAssociates(|senders|, per, (t - from) + most);
  }

  /** A paced stream whose packets, but for the last, are stamped before `end` makes at
      most one send per delay, rounded up, and one more. */
  lemma SendBound(stamps: seq<nat>, t0: nat, delay: nat, end: nat)
    requires delay >= 1 && PacedFrom(stamps, t0, delay)
    requires forall i :: 0 <= i < |stamps| - 1 ==> stamps[i] < end
    ensures |stamps| <= (Max(0, end - t0) + delay - 1) / delay + 1
  {
    var n := |stamps|;
    if n >= 2 {
      assert stamps[n - 2] >= t0 + (n - 2) * delay;
      var span := end - t0;
      assert (n - 1) * delay <= span + delay - 1;
      var q := (span + delay - 1) / delay;
      assert span + delay - 1 < (q + 1) * delay;
      if q < n - 1 {
        MulMonotone(q + 1, n - 1, delay);
      }
    }
  }
}
