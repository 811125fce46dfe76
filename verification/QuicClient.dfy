/**
 The QUIC client, over a stream that keeps its order. Acknowledgements are read byte by
 byte under the timeout; bytes of one that the timeout cuts short are gone.
 */
module QuicClient {
  import opened Base
  import opened Wire
  import opened Framing
  import opened Stream
  import opened StopAndWait

  /** One round: how many more frames the server echoes, and how many bytes of what it has
      written arrive before the timeout. */
  datatype QuicTurn = QuicTurn(timing: Timing, writeFails: bool, echoes: nat, arrives: nat)

  type QuicNetwork = nat -> QuicTurn

  function TimingsOf(net: QuicNetwork): Timings {
    (i: nat) => net(i).timing
  }

  // ----- what the network and the server do

  /** The packets a stream has sent, given when each was stamped. */
  function SentPackets(run: Run, stamps: seq<nat>): (packets: seq<Packet>)
    requires |stamps| < TWO_64
    ensures |packets| == |stamps|
  {
    seq(|stamps|, i requires 0 <= i < |stamps| => NewPacket(run, i + 1, stamps[i]))
  }

  /** How many frames the server has echoed in the first `n` rounds. */
  function Echoed(net: QuicNetwork, n: nat): (e: nat)
    ensures e <= n
  {
    if n == 0 then 0 else Min(n, Echoed(net, n - 1) + net(n - 1).echoes)
  }

  /** As many of the available bytes as arrive, at most a header. */
  function Portion(available: nat, arrives: nat): nat {
    Min(available, Min(DATA_HEADER_SIZE, arrives))
  }

  /** How many bytes the client has read off the stream in the first `n` rounds. */
  function Position(net: QuicNetwork, n: nat): (p: nat)
    ensures p <= DATA_HEADER_SIZE * Echoed(net, n)
  {
    if n == 0 then 0
    else
      var before := Position(net, n - 1);
      before + Portion(DATA_HEADER_SIZE * Echoed(net, n) - before, net(n - 1).arrives)
  }

  /** Round `i` took a whole header off the stream. */
  predicate TookHeader(net: QuicNetwork, i: nat) {
    Position(net, i + 1) == Position(net, i) + DATA_HEADER_SIZE
  }

  /** The 40 bytes from position `p` of all the answers to a stream's packets. */
  function Slice(run: Run, stamps: seq<nat>, p: nat): Bytes
    requires |stamps| < TWO_64 && p + DATA_HEADER_SIZE <= DATA_HEADER_SIZE * |stamps|
  {
    HeadersLength(SentPackets(run, stamps));
    Headers(SentPackets(run, stamps))[p..p + DATA_HEADER_SIZE]
  }

  /** The answer read in the round of the last of `stamps`. */
  function AnswerOf(run: Run, net: QuicNetwork, stamps: seq<nat>): Answer
    requires 0 < |stamps| < TWO_64
  {
    var n := |stamps| - 1;
    if !TookHeader(net, n) then NoAnswer else ReadHeader(Slice(run, stamps, Position(net, n)))
  }

  /** The event of the round of the last of `stamps` credits its packet exactly if the answer
      read in that round names it; an unreadable answer leaves no event. */
  ghost predicate CreditsRound(run: Run, net: QuicNetwork, stamps: seq<nat>, e: PacketEvent)
    requires 0 < |stamps| < TWO_64
  {
    var answer := AnswerOf(run, net, stamps);
    !answer.Undecodable? && (e.recvNs.Some? <==> answer == Answered(|stamps|))
  }

  ghost predicate Credits(run: Run, net: QuicNetwork, log: seq<PacketEvent>) {
    && |log| < TWO_64
    && forall i :: 0 <= i < |log| ==> CreditsRound(run, net, SendTimes(log)[..i + 1], log[i])
  }

  lemma CreditsSnoc(run: Run, net: QuicNetwork, log: seq<PacketEvent>, e: PacketEvent)
    requires Credits(run, net, log) && |log| + 1 < TWO_64
    requires CreditsRound(run, net, SendTimes(log) + [e.sendNs], e)
    ensures Credits(run, net, log + [e])
  {
    hide CreditsRound;
    var log' := log + [e];
    assert SendTimes(log') == SendTimes(log) + [e.sendNs];
    forall i | 0 <= i < |log'| ensures CreditsRound(run, net, SendTimes(log')[..i + 1], log'[i]) {
      assert SendTimes(log')[..i + 1] == if i < |log| then SendTimes(log)[..i + 1] else SendTimes(log');
    }
  }

  // ----- the client

  /** What is on the stream after `|stamps|` rounds and not yet read. */
  ghost predicate OnStream(run: Run, net: QuicNetwork, stamps: seq<nat>, sent: seq<Packet>, echoed: nat, unread: Bytes) {
    && |stamps| < TWO_64
    && sent == SentPackets(run, stamps) && echoed == Echoed(net, |stamps|)
    && |Headers(sent[..echoed])| == DATA_HEADER_SIZE * echoed
    && unread == Headers(sent[..echoed])[Position(net, |stamps|)..]
  }

  lemma NothingOnStream(run: Run, net: QuicNetwork)
    ensures OnStream(run, net, [], [], 0, []) && Credits(run, net, []) && SendTimes([]) == []
  {
  }

  lemma PacketJoins(run: Run, stamps: seq<nat>, stamp: nat)
    requires |stamps| + 1 < TWO_64
    ensures SentPackets(run, stamps + [stamp]) == SentPackets(run, stamps) + [NewPacket(run, |stamps| + 1, stamp)]
  {
    hide NewPacket;
  }

  lemma HeadersLead(ps: seq<Packet>, e: nat)
    requires e <= |ps|
    ensures Headers(ps[..e]) <= Headers(ps) && |Headers(ps[..e])| == DATA_HEADER_SIZE * e
  {
    assert ps == ps[..e] + ps[e..];
    FramesConcat(ps[..e], ps[e..]);
    HeadersLength(ps[..e]);
  }

  /** New echoes join what is unread. */
  lemma StreamGrows(sent: seq<Packet>, packet: Packet, p: nat, echoed: nat, echoed': nat)
    requires echoed <= |sent| && echoed <= echoed' <= |sent| + 1 && p <= DATA_HEADER_SIZE * echoed
    ensures var sent' := sent + [packet];
            && |Headers(sent[..echoed])| == DATA_HEADER_SIZE * echoed
            && |Headers(sent'[..echoed'])| == DATA_HEADER_SIZE * echoed'
            && Headers(sent'[..echoed']) <= Headers(sent')
            && Headers(sent[..echoed])[p..] + Headers(sent'[echoed..echoed']) == Headers(sent'[..echoed'])[p..]
  {
    hide Headers;
    var sent' := sent + [packet];
    HeadersLead(sent, echoed);
    HeadersLead(sent', echoed');
    assert sent'[..echoed] == sent[..echoed];
    assert sent'[..echoed'] == sent[..echoed] + sent'[echoed..echoed'];
    FramesConcat(sent[..echoed], sent'[echoed..echoed']);
  }

  /** A round on the stream: the server's new echoes join what is unread, the client takes
      its portion off the front; if that is a whole header, it is the round's answer. */
  lemma RoundOnStream(run: Run, net: QuicNetwork, stamps: seq<nat>, sent: seq<Packet>, echoed: nat, unread: Bytes,
                      stamp: nat, echoed': nat)
    requires OnStream(run, net, stamps, sent, echoed, unread) && |stamps| + 1 < TWO_64
    requires echoed' == Min(|stamps| + 1, echoed + net(|stamps|).echoes)
    ensures var sent' := sent + [NewPacket(run, |stamps| + 1, stamp)];
            var stream := unread + Headers(sent'[echoed..echoed']);
            var k := Portion(|stream|, net(|stamps|).arrives);
            && OnStream(run, net, stamps + [stamp], sent', echoed', stream[k..])
            && AnswerOf(run, net, stamps + [stamp])
               == if k < DATA_HEADER_SIZE then NoAnswer else ReadHeader(stream[..k])
  {
    hide NewPacket, ReadHeader, Headers, SentPackets, Position, Portion, TookHeader, AnswerOf;
    var n, packet, p := |stamps|, NewPacket(run, |stamps| + 1, stamp), Position(net, |stamps|);
    var sent' := sent + [packet];
    PacketJoins(run, stamps, stamp);
    StreamGrows(sent, packet, p, echoed, echoed');
    var stream, whole := unread + Headers(sent'[echoed..echoed']), Headers(sent'[..echoed']);
    var k := Portion(|stream|, net(n).arrives);
    PositionAfter(net, n, |stream|);
    Cut(whole, Headers(sent'), p, k);
    AnswerHere(run, net, stamps + [stamp], stream[..k]);
  }

  lemma PositionAfter(net: QuicNetwork, n: nat, available: nat)
    requires available == DATA_HEADER_SIZE * Echoed(net, n + 1) - Position(net, n)
    ensures var k := Portion(available, net(n).arrives);
            && k <= available && k <= DATA_HEADER_SIZE && Position(net, n + 1) == Position(net, n) + k
            && (TookHeader(net, n) <==> k == DATA_HEADER_SIZE)
  {
    hide Echoed;
  }

  lemma Cut(part: Bytes, whole: Bytes, p: nat, k: nat)
    requires part <= whole && p + k <= |part|
    ensures part[p..][..k] == whole[p..p + k] && part[p..][k..] == part[p + k..]
  {
  }

  lemma AnswerHere(run: Run, net: QuicNetwork, stamps: seq<nat>, taken: Bytes)
    requires 0 < |stamps| < TWO_64 && |taken| <= DATA_HEADER_SIZE
    requires TookHeader(net, |stamps| - 1) <==> |taken| == DATA_HEADER_SIZE
    requires TookHeader(net, |stamps| - 1) ==>
               var p, answers := Position(net, |stamps| - 1), Headers(SentPackets(run, stamps));
               p + DATA_HEADER_SIZE <= |answers| && taken == answers[p..p + DATA_HEADER_SIZE]
    ensures AnswerOf(run, net, stamps) == if |taken| < DATA_HEADER_SIZE then NoAnswer else ReadHeader(taken)
  {
    hide ReadHeader, Headers, SentPackets, Position, Echoed, TookHeader;
  }

  /** Writes one packet; the server echoes what the round lets it, and the client reads a
      header's worth of the stream, or as much as arrives before the timeout. */
  method Exchange(run: Run, net: QuicNetwork, ghost stamps: seq<nat>, sent: seq<Packet>, echoed: nat, unread: Bytes,
                  stamp: nat)
    returns (sent': seq<Packet>, echoed': nat, unread': Bytes, answer: Answer)
    requires OnStream(run, net, stamps, sent, echoed, unread) && |stamps| < TWO_64 - 1
    ensures OnStream(run, net, stamps + [stamp], sent', echoed', unread')
    ensures answer == AnswerOf(run, net, stamps + [stamp])
  {
    hide ReadHeader, NewPacket, Headers, AnswerOf;
    var turn := net(|sent|);
    echoed' := Min(|sent| + 1, echoed + turn.echoes);
    RoundOnStream(run, net, stamps, sent, echoed, unread, stamp, echoed');
    sent' := sent + [NewPacket(run, |sent| + 1, stamp)];
    var stream := unread + Headers(sent'[echoed..echoed']);
    var k := Portion(|stream|, turn.arrives);
    answer := if k < DATA_HEADER_SIZE then NoAnswer else ReadHeader(stream[..k]);
    unread' := stream[k..];
  }

  /** A QUIC stream, for whatever the network and the server do within their order. It ends
      within a write and a timeout of its last packet, and fails only if writing fails, or
      on an unreadable answer. */
  method RunStreamQuic(run: Run, net: QuicNetwork)
    returns (ok: bool, log: seq<PacketEvent>, finished: nat, ghost warm: nat)
    requires forall i :: net(i).timing.Sum(run.timeout) >= 1
    ensures SequentialLog(log, run.streamId, run.payload, warm) && WarmedUp(log, run.WarmupUntil())
    ensures OnSchedule(run, SendTimes(log)) && warm <= |log|
    ensures Credits(run, net, log)
    ensures Timed(run, TimingsOf(net), log, finished) && forall i :: 0 <= i < |log| ==> !net(i).writeFails
    ensures ok <==> finished >= run.End()
    ensures !ok ==> || |log| + 1 >= TWO_64 || net(|log|).writeFails
                    || AnswerOf(run, net, SendTimes(log) + [StampOf(run, TimingsOf(net), |log|)]) == Undecodable
  {
    hide OnStream, AnswerOf, Credits, InRounds, OnSchedule, SequentialLog, WarmedUp, SendTimes, Timed,
         StampOf;
    var now, nextSend, seqNo := run.firstSlot, run.firstSlot, 0;
    var sent: seq<Packet>, echoed, unread: Bytes := [], 0, [];
    log, warm := [], 0;
    ghost var timings := TimingsOf(net);
    NoRounds(run, timings);
    NothingOnStream(run, net);
    while now < run.End()
      invariant InRounds(run, timings, log, warm, nextSend, now) && Credits(run, net, log)
      invariant |log| == seqNo < TWO_64
      invariant OnStream(run, net, SendTimes(log), sent, echoed, unread)
      invariant forall i :: 0 <= i < |log| ==> !net(i).writeFails
      decreases run.End() - now
    {
      var turn := net(seqNo);
      RoundsDone(run, timings, log, warm, nextSend, now);
      var sendNs, next := AwaitSlot(run, now, nextSend, turn.timing);
      assert sendNs == StampOf(run, timings, seqNo) by {
        StampNow(run, timings, log, warm, nextSend, now, sendNs, next);
      }
      if seqNo + 1 >= TWO_64 || turn.writeFails {
        return false, log, now, warm;
      }
      seqNo := seqNo + 1;
      var written := sendNs + turn.timing.sending;
      var answer;
      sent, echoed, unread, answer := Exchange(run, net, SendTimes(log), sent, echoed, unread, sendNs);
      if answer.Undecodable? {
        return false, log, now, warm;
      }
      var later := written + turn.timing.Wait(run.timeout);
      var recvNs := if answer == Answered(seqNo) then Some(later) else None;
      var e := RoundEvent(run, seqNo, sendNs, written, recvNs);
      RoundJoins(run, timings, log, warm, nextSend, now, sendNs, next, recvNs);
      CreditsSnoc(run, net, log, e);
      log, now, nextSend := log + [e], later, next;
      if !e.measured {
        warm := seqNo;
      }
    }
    RoundsDone(run, timings, log, warm, nextSend, now);
    ok, finished := true, now;
  }

  // ----- which packets are credited

  /** In every round up to and including the `i`-th the server echoed at least one frame and
      a whole acknowledgement arrived in time. */
  ghost predicate AnsweredThrough(net: QuicNetwork, i: nat) {
    forall j :: 0 <= j <= i ==> net(j).echoes >= 1 && net(j).arrives >= DATA_HEADER_SIZE
  }

  /** The 40 bytes at a whole answer's place are that answer. */
  lemma {:induction false} HeaderAt(ps: seq<Packet>, j: nat)
    requires j < |ps|
    ensures DATA_HEADER_SIZE * (j + 1) <= |Headers(ps)|
    ensures Headers(ps)[DATA_HEADER_SIZE * j..DATA_HEADER_SIZE * (j + 1)] == EncodeHeader(ps[j].header)
  {
    hide EncodeHeader;
    if j > 0 {
      HeaderAt(ps[1..], j - 1);
      var lo := DATA_HEADER_SIZE * (j - 1);
      assert Headers(ps)[lo + DATA_HEADER_SIZE..lo + 2 * DATA_HEADER_SIZE] == Headers(ps[1..])[lo..lo + DATA_HEADER_SIZE];
    }
  }

  lemma AnswerAt(run: Run, stamps: seq<nat>, j: nat)
    requires j < |stamps| < TWO_64
    ensures ReadHeader(Slice(run, stamps, DATA_HEADER_SIZE * j)) == Answered(j + 1)
  {
    hide EncodeHeader, DecodeHeader, Headers;
    var packets := SentPackets(run, stamps);
    HeaderAt(packets, j);
    DecodeOfEncode(packets[j].header);
  }

  lemma Step(net: QuicNetwork, n: nat)
    ensures Position(net, n) <= Position(net, n + 1) <= Position(net, n) + DATA_HEADER_SIZE
    ensures Position(net, n) == DATA_HEADER_SIZE * n && Echoed(net, n) == n ==>
              (TookHeader(net, n) <==> net(n).echoes >= 1 && net(n).arrives >= DATA_HEADER_SIZE)
    ensures TookHeader(net, n) && Position(net, n) == DATA_HEADER_SIZE * n ==> Echoed(net, n + 1) == n + 1
  {
  }

  lemma ThroughStep(net: QuicNetwork, n: nat)
    ensures AnsweredThrough(net, n) <==>
              (n > 0 ==> AnsweredThrough(net, n - 1)) && net(n).echoes >= 1 && net(n).arrives >= DATA_HEADER_SIZE
  {
  }

  /** The client is a whole header per round into the stream exactly as long as every round
      was answered. */
  lemma {:induction false} KeepsUp(net: QuicNetwork, n: nat)
    ensures Position(net, n) <= DATA_HEADER_SIZE * n
    ensures Position(net, n) == DATA_HEADER_SIZE * n ==> Echoed(net, n) == n
    ensures Position(net, n) == DATA_HEADER_SIZE * n <==> (n > 0 ==> AnsweredThrough(net, n - 1))
  {
    if n > 0 {
      KeepsUp(net, n - 1);
      Step(net, n - 1);
      ThroughStep(net, n - 1);
      hide Position, Echoed, AnsweredThrough;
    }
  }

  /** The round of the last of `stamps` took 40 bytes that begin inside one answer, end inside
      the next, and happen to be a header that names its packet. */
  ghost predicate Faked(run: Run, net: QuicNetwork, stamps: seq<nat>)
    requires 0 < |stamps| < TWO_64
  {
    var n, p := |stamps| - 1, Position(net, |stamps| - 1);
    TookHeader(net, n) && p % DATA_HEADER_SIZE != 0 && ReadHeader(Slice(run, stamps, p)) == Answered(|stamps|)
  }

  /** A round's packet is credited exactly if it and all before it were answered in whole and
      in time: that holds of a round exactly unless it is faked. */
  lemma CreditIffAnswered(run: Run, net: QuicNetwork, stamps: seq<nat>)
    requires 0 < |stamps| < TWO_64
    ensures (AnswerOf(run, net, stamps) == Answered(|stamps|) <==> AnsweredThrough(net, |stamps| - 1))
       <==> !Faked(run, net, stamps)
    ensures Faked(run, net, stamps) ==> !AnsweredThrough(net, |stamps| - 1)
  {
    hide ReadHeader, Slice, AnsweredThrough, Position, Echoed;
    var n := |stamps| - 1;
    KeepsUp(net, n);
    KeepsUp(net, n + 1);
    Step(net, n);
    if TookHeader(net, n) {
      var p := Position(net, n);
      if p % DATA_HEADER_SIZE == 0 {
        assert p == DATA_HEADER_SIZE * (p / DATA_HEADER_SIZE);
        AnswerAt(run, stamps, p / DATA_HEADER_SIZE);
      }
    }
  }

  /** No 40 bytes astride two answers to earlier packets, or to the last of them and this
      one, name the packet of the last of `stamps`. */
  ghost predicate Unmistakable(run: Run, stamps: seq<nat>)
    requires 0 < |stamps| < TWO_64
  {
    forall p :: 0 <= p < DATA_HEADER_SIZE * (|stamps| - 1) && p % DATA_HEADER_SIZE != 0 ==>
      ReadHeader(Slice(run, stamps, p)) != Answered(|stamps|)
  }

  /** A network that brings the reader to position `p` and, in round `n`, 40 bytes more. */
  function ReachesIn(p: nat, n: nat): QuicNetwork {
    (i: nat) => QuicTurn(
      Timing(0, 0, 1, 0), false, 1,
      if i < p / DATA_HEADER_SIZE || i == n then DATA_HEADER_SIZE
      else if i == p / DATA_HEADER_SIZE then p % DATA_HEADER_SIZE
      else 0)
  }

  lemma {:induction false} ReachesPosition(p: nat, n: nat, k: nat)
    requires k <= n && p < DATA_HEADER_SIZE * n
    ensures Echoed(ReachesIn(p, n), k) == k
    ensures Position(ReachesIn(p, n), k) == Min(p, DATA_HEADER_SIZE * k)
  {
    if k > 0 {
      ReachesPosition(p, n, k - 1);
      var q := p / DATA_HEADER_SIZE;
      assert p == DATA_HEADER_SIZE * q + p % DATA_HEADER_SIZE;
    }
  }

  /** Whether credit can ever be mistaken depends on the bytes alone: it follows the answers
      on every network exactly if no bytes astride two answers name the packet. */
  lemma CreditIsSoundIff(run: Run, stamps: seq<nat>)
    requires 0 < |stamps| < TWO_64
    ensures (forall net :: AnswerOf(run, net, stamps) == Answered(|stamps|) <==> AnsweredThrough(net, |stamps| - 1))
       <==> Unmistakable(run, stamps)
  {
    hide AnsweredThrough, AnswerOf, Slice, ReadHeader;
    if Unmistakable(run, stamps) {
      forall net ensures AnswerOf(run, net, stamps) == Answered(|stamps|) <==> AnsweredThrough(net, |stamps| - 1) {
        CreditIffAnswered(run, net, stamps);
        KeepsUp(net, |stamps| - 1);
      }
    } else {
      var p :| 0 <= p < DATA_HEADER_SIZE * (|stamps| - 1) && p % DATA_HEADER_SIZE != 0
               && ReadHeader(Slice(run, stamps, p)) == Answered(|stamps|);
      FakedIsReached(run, stamps, p);
      CreditIffAnswered(run, ReachesIn(p, |stamps| - 1), stamps);
    }
  }

  lemma FakedIsReached(run: Run, stamps: seq<nat>, p: nat)
    requires 0 < |stamps| < TWO_64 && p < DATA_HEADER_SIZE * (|stamps| - 1) && p % DATA_HEADER_SIZE != 0
    requires ReadHeader(Slice(run, stamps, p)) == Answered(|stamps|)
    ensures Faked(run, ReachesIn(p, |stamps| - 1), stamps)
  {
    hide Slice, ReadHeader;
    var n := |stamps| - 1;
    ReachesPosition(p, n, n);
    assert Echoed(ReachesIn(p, n), n + 1) == n + 1;
  }

  /** Until an answer is missed or cut, rounds are answered and credited; the round that
      misses or cuts one reads no header. */
  lemma FirstMissIsNoAnswer(run: Run, net: QuicNetwork, stamps: seq<nat>)
    requires 0 < |stamps| < TWO_64 && !AnsweredThrough(net, |stamps| - 1)
    requires |stamps| > 1 ==> AnsweredThrough(net, |stamps| - 2)
    ensures AnswerOf(run, net, stamps) == NoAnswer
  {
    hide Slice, ReadHeader, AnsweredThrough, Echoed, Position;
    KeepsUp(net, |stamps| - 1);
    KeepsUp(net, |stamps|);
  }

  ghost predicate FakedIn(run: Run, net: QuicNetwork, log: seq<PacketEvent>, i: nat)
    requires i < |log| < TWO_64
  {
    Faked(run, net, SendTimes(log)[..i + 1])
  }

  /** No round of the log was faked. */
  ghost predicate NeverFaked(run: Run, net: QuicNetwork, log: seq<PacketEvent>)
    requires |log| < TWO_64
  {
    forall i :: 0 <= i < |log| ==> !FakedIn(run, net, log, i)
  }

  lemma RoundCredited(run: Run, net: QuicNetwork, log: seq<PacketEvent>, i: nat)
    requires Credits(run, net, log) && i < |log|
    ensures (log[i].recvNs.Some? <==> AnsweredThrough(net, i)) <==> !FakedIn(run, net, log, i)
    ensures FakedIn(run, net, log, i) ==> log[i].recvNs.Some? && !AnsweredThrough(net, i)
  {
    hide AnswerOf, Faked, AnsweredThrough, SendTimes;
    assert CreditsRound(run, net, SendTimes(log)[..i + 1], log[i]);
    CreditIffAnswered(run, net, SendTimes(log)[..i + 1]);
  }

  lemma FirstMissUncredited(run: Run, net: QuicNetwork, log: seq<PacketEvent>, c: nat)
    requires Credits(run, net, log) && c < |log|
    requires !AnsweredThrough(net, c) && (c > 0 ==> AnsweredThrough(net, c - 1))
    ensures log[c].recvNs.None?
  {
    hide AnswerOf, AnsweredThrough, SendTimes;
    assert CreditsRound(run, net, SendTimes(log)[..c + 1], log[c]);
    FirstMissIsNoAnswer(run, net, SendTimes(log)[..c + 1]);
  }

  /** So the credited packets of a QUIC stream are a prefix, namely those answered together
      with all before them, exactly if no round was faked. */
  lemma CreditsArePrefix(run: Run, net: QuicNetwork, log: seq<PacketEvent>, warm: nat)
    requires SequentialLog(log, run.streamId, run.payload, warm) && warm <= |log| && Credits(run, net, log)
    ensures NeverFaked(run, net, log)
       <==> forall i :: 0 <= i < |log| ==> (log[i].recvNs.Some? <==> AnsweredThrough(net, i))
    ensures NeverFaked(run, net, log)
       <==> FinishedLog(log, run.streamId, run.payload, |log|, CountThrough(net, |log|), warm)
    ensures NeverFaked(run, net, log)
       <==> exists credited :: FinishedLog(log, run.streamId, run.payload, |log|, credited, warm)
  {
    hide CreditsRound, AnsweredThrough, FinishedLog, SequentialLog, FakedIn;
    forall i | 0 <= i < |log|
      ensures (log[i].recvNs.Some? <==> AnsweredThrough(net, i)) <==> !FakedIn(run, net, log, i)
    {
      RoundCredited(run, net, log, i);
    }
    if NeverFaked(run, net, log) {
      PrefixIsFinished(run, log, CountThrough(net, |log|), warm);
    } else {
      var i :| 0 <= i < |log| && FakedIn(run, net, log, i);
      RoundCredited(run, net, log, i);
      var c := CountThrough(net, i + 1);
      FirstMissUncredited(run, net, log, c);
      NotPrefix(run, log, warm, c, i);
    }
  }

  lemma NotPrefix(run: Run, log: seq<PacketEvent>, warm: nat, c: nat, i: nat)
    requires c < i < |log| && log[c].recvNs.None? && log[i].recvNs.Some?
    ensures forall credited :: !FinishedLog(log, run.streamId, run.payload, |log|, credited, warm)
  {
  }

  /** How many of the first `n` rounds are answered together with all before them. */
  ghost function CountThrough(net: QuicNetwork, n: nat): (c: nat)
    ensures c <= n
    ensures forall i :: 0 <= i < n ==> (AnsweredThrough(net, i) <==> i < c)
  {
    if n == 0 then 0
    else if AnsweredThrough(net, n - 1) then n
    else CountThrough(net, n - 1)
  }

  lemma PrefixIsFinished(run: Run, log: seq<PacketEvent>, credited: nat, warm: nat)
    requires SequentialLog(log, run.streamId, run.payload, warm) && warm <= |log| && credited <= |log|
    requires forall i :: 0 <= i < |log| ==> (log[i].recvNs.Some? <==> i < credited)
    ensures FinishedLog(log, run.streamId, run.payload, |log|, credited, warm)
  {
  }

  // ----- one missed answer

  /** The server echoes every packet at once, and every answer arrives in its round but the
      first, which arrives after the first packet's timeout. */
  function FirstAnswerMissed(timeout: nat): QuicNetwork {
    (i: nat) => if i == 0 then QuicTurn(Timing(0, 0, 1, timeout), false, 1, 0)
                else QuicTurn(Timing(0, 0, 1, 0), false, 1, DATA_HEADER_SIZE)
  }

  lemma {:induction false} OneBehind(timeout: nat, n: nat)
    ensures Echoed(FirstAnswerMissed(timeout), n) == n
    ensures Position(FirstAnswerMissed(timeout), n) == DATA_HEADER_SIZE * Max(0, n - 1)
  {
    if n > 0 {
      OneBehind(timeout, n - 1);
    }
  }

  /** One missed answer costs all packets their credit: from then on each round reads the
      answer to the packet before. */
  lemma OneMissCostsAll(run: Run, timeout: nat, stamps: seq<nat>)
    requires 0 < |stamps| < TWO_64
    ensures var answer, n := AnswerOf(run, FirstAnswerMissed(timeout), stamps), |stamps|;
            answer == (if n == 1 then NoAnswer else Answered(n - 1)) && answer != Answered(n)
  {
    hide ReadHeader, Slice, Position, Echoed;
    var n := |stamps| - 1;
    OneBehind(timeout, n);
    OneBehind(timeout, n + 1);
    if n > 0 {
      AnswerAt(run, stamps, n - 1);
    }
  }

  // ----- an answer cut short

  /** The first round reads eight bytes of its answer and then waits until the timeout, which
      throws them away; the others read forty bytes at once. */
  function FirstAnswerCut(timeout: nat): QuicNetwork {
    (i: nat) => if i == 0 then QuicTurn(Timing(0, 0, 1, timeout), false, 1, 8)
                else QuicTurn(Timing(0, 0, 1, 0), false, 1, DATA_HEADER_SIZE)
  }

  /** A session number whose low bytes spell the magic and the version. */
  const SPELLS_MAGIC: U64 := 0x1_4950_4653

  /** The header that the second round reads in `CutAnswerFakesCredit`. */
  function Astride(): DataHeader {
    DataHeader(DATA_MAGIC, PROTOCOL_VERSION, 0, 0x1_0000_0000, 0, 2, 0x4950_4653_0000_0000, 1)
  }

  /** A round can be faked: if the timeout cuts the first acknowledgement after eight bytes,
      and the session number spells magic and version, then the bytes the second round reads
      are a header again, which names the time of the first packet's stamp. If that is 2, the
      second packet is credited, whenever it was sent, although the first was not and no
      answer to the second has been read. */
  lemma CutAnswerFakesCredit(run: Run, timeout: nat, t: nat)
    requires run.sessionId == SPELLS_MAGIC && run.streamId == 0 && run.payload == 0
    ensures var net := FirstAnswerCut(timeout);
            && AnswerOf(run, net, [2]) == NoAnswer
            && AnswerOf(run, net, [2, t]) == Answered(2)
            && Faked(run, net, [2, t]) && !AnsweredThrough(net, 1)
  {
    var net := FirstAnswerCut(timeout);
    assert Echoed(net, 0) == 0 && Echoed(net, 1) == 1 && Echoed(net, 2) == 2;
    assert Position(net, 0) == 0 && Position(net, 1) == 8 && Position(net, 2) == 48;
    assert net(0).arrives == 8;
    SliceIsAstride(run, t);
    DecodeOfEncode(Astride());
  }

  /** And such a run exists: an unpaced stream whose schedule starts at 2. */
  lemma CutAnswerRun(run: Run, timeout: nat)
    requires run.firstSlot == 2 && run.rateBps.None?
    ensures StampOf(run, TimingsOf(FirstAnswerCut(timeout)), 0) == 2
    ensures StampOf(run, TimingsOf(FirstAnswerCut(timeout)), 1) == 3 + Min(timeout, run.timeout)
  {
    var timings := TimingsOf(FirstAnswerCut(timeout));
    assert StartOf(run, timings, 0) == 2 && timings(0) == Timing(0, 0, 1, timeout) && timings(1) == Timing(0, 0, 1, 0);
    assert StampOf(run, timings, 0) == 2;
    assert StartOf(run, timings, 1) == 3 + Min(timeout, run.timeout);
  }

  lemma SliceIsAstride(run: Run, t: nat)
    requires run.sessionId == SPELLS_MAGIC && run.streamId == 0 && run.payload == 0
    ensures Slice(run, [2, t], 8) == EncodeHeader(Astride())
  {
    hide EncodeHeader, LittleEndian;
    var packets := SentPackets(run, [2, t]);
    var first, second := EncodeHeader(packets[0].header), EncodeHeader(packets[1].header);
    TwoHeaders(packets);
    assert Headers(packets)[8..48] == first[8..] + second[..8];
    AstrideBytes(packets[0].header, packets[1].header);
  }

  lemma AstrideBytes(first: DataHeader, second: DataHeader)
    requires first.sessionId == SPELLS_MAGIC && first.streamId == 0 && first.seqNo == 1 && first.sendNs == 2
    requires first.payloadLen == 0
    requires second.magic == DATA_MAGIC && second.version == PROTOCOL_VERSION && second.flags == 0
    ensures EncodeHeader(first)[8..] + EncodeHeader(second)[..8] == EncodeHeader(Astride())
  {
    hide LittleEndian;
    Literals();
    ProtocolMarks(0, 0, 0, 0, 0);
    LiteralSession();
    LiteralPower();
    LiteralShifted();
    Pieces(first, second);
    assert [] + [0x53, 0x46, 0x50, 0x49] + [1, 0] + [0, 0] == [0x53, 0x46, 0x50, 0x49, 1, 0, 0, 0];
  }

  /** A number below 256 is its own first byte, and zeros follow. */
  lemma {:induction false} SmallNumber(v: nat, w: nat)
    requires v < 256 && w > 0
    ensures LittleEndian(v, w) == [v] + seq(w - 1, _ => 0)
  {
    if w > 1 {
      SmallNumber(0, w - 1);
    }
  }

  lemma Literals()
    ensures LittleEndian(2, 8) == [2, 0, 0, 0, 0, 0, 0, 0] && LittleEndian(1, 8) == [1, 0, 0, 0, 0, 0, 0, 0]
    ensures LittleEndian(1, 4) == [1, 0, 0, 0] && LittleEndian(0, 4) == [0, 0, 0, 0]
    ensures LittleEndian(1, 2) == [1, 0] && LittleEndian(0, 2) == [0, 0]
  {
    hide LittleEndian;
    SmallNumber(2, 8);
    SmallNumber(1, 8);
    SmallNumber(1, 4);
    SmallNumber(0, 4);
    SmallNumber(1, 2);
    SmallNumber(0, 2);
  }

  lemma LiteralSession()
    ensures LittleEndian(0x1_4950_4653, 8) == [0x53, 0x46, 0x50, 0x49, 1, 0, 0, 0]
  {
  }

  lemma LiteralPower()
    ensures LittleEndian(0x1_0000_0000, 8) == [0, 0, 0, 0, 1, 0, 0, 0]
  {
  }

  lemma LiteralShifted()
    ensures LittleEndian(0x4950_4653_0000_0000, 8) == [0, 0, 0, 0, 0x53, 0x46, 0x50, 0x49]
  {
  }

  lemma Pieces(first: DataHeader, second: DataHeader)
    ensures EncodeHeader(first)[8..]
         == LittleEndian(first.sessionId, 8) + LittleEndian(first.streamId, 4) + LittleEndian(first.seqNo, 8)
            + LittleEndian(first.sendNs, 8) + LittleEndian(first.payloadLen, 4)
    ensures EncodeHeader(second)[..8]
         == LittleEndian(second.magic, 4) + LittleEndian(second.version, 2) + LittleEndian(second.flags, 2)
  {
    hide LittleEndian;
  }

  lemma TwoHeaders(packets: seq<Packet>)
    requires |packets| == 2
    ensures Headers(packets) == EncodeHeader(packets[0].header) + EncodeHeader(packets[1].header)
  {
    hide EncodeHeader;
    assert packets == [packets[0]] + [packets[1]];
    FramesConcat([packets[0]], [packets[1]]);
    FramesOne(packets[0]);
    FramesOne(packets[1]);
  }
}
