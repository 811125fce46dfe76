/** The UDP client, over a network that may lose, repeat, delay and reorder datagrams. */
module UdpClient {
  import opened Base
  import opened Wire
  import opened Framing
  import opened Stream
  import opened Control
  import opened UdpServer
  import opened StopAndWait

  /** One round: which of the datagrams sent so far reach the server during it, and which of
      the datagrams the server has sent by then, if any, the client receives. */
  datatype UdpTurn = UdpTurn(timing: Timing, sendFails: bool, deliveries: seq<nat>, arrival: Option<nat>)

  type UdpNetwork = nat -> UdpTurn

  function TimingsOf(net: UdpNetwork): Timings {
    (i: nat) => net(i).timing
  }

  // ----- what the network and the server do

  /** The server's answer to a data frame of a peer it serves. */
  function EchoOf(frame: Bytes): Option<Bytes> {
    if CarriesHeader(frame) then Some(frame[..DATA_HEADER_SIZE]) else None
  }

  /** `EchoOf` is what the UDP server does with a client's packet, once it serves the peer. */
  lemma EchoOfIsServed(codec: Codec, token: Option<string>, inbox: seq<Datagram>, outbox: seq<Option<Bytes>>, i: nat,
                       run: Run, seqNo: nat, sendNs: nat)
    requires AnswersProperly(codec, token, inbox, outbox) && i < |inbox| && seqNo < TWO_64
    requires token.None? || Greeted(codec, token, inbox, i, inbox[i].peer)
    requires inbox[i].frame == Frame(NewPacket(run, seqNo, sendNs))
    ensures outbox[i] == EchoOf(inbox[i].frame)
         == Some(EncodeHeader(NewPacket(run, seqNo, sendNs).header))
  {
    hide DecodeHeader, EncodeHeader;
    assert AnsweredProperly(codec, token, inbox, outbox, i);
    var frame := inbox[i].frame;
    EchoOfPacket(run, seqNo, sendNs);
    if StartsWith(frame, CTRL_PREFIX) {
      ControlIsNeverData(frame);
    }
  }

  lemma EchoOfPacket(run: Run, seqNo: nat, sendNs: nat)
    requires seqNo < TWO_64
    ensures var p := NewPacket(run, seqNo, sendNs);
            EchoOf(Frame(p)) == Some(EncodeHeader(p.header)) && ReadHeader(EncodeHeader(p.header)) == Answered(seqNo)
  {
    hide DecodeHeader, EncodeHeader;
    var p := NewPacket(run, seqNo, sendNs);
    assert Frame(p)[..DATA_HEADER_SIZE] == EncodeHeader(p.header);
    DecodeOfEncode(p.header);
  }

  /** The datagrams a stream has sent, given when each was stamped. */
  function SentFrames(run: Run, stamps: seq<nat>): (frames: seq<Bytes>)
    requires |stamps| < TWO_64
    ensures |frames| == |stamps|
  {
    seq(|stamps|, i requires 0 <= i < |stamps| => Frame(NewPacket(run, i + 1, stamps[i])))
  }

  /** The server's datagrams to the client after some of `frames` have reached it. */
  function AfterDeliveries(frames: seq<Bytes>, deliveries: seq<nat>, replies: seq<Bytes>): seq<Bytes> {
    if deliveries == [] then replies
    else
      var before, d := AfterDeliveries(frames, deliveries[..|deliveries| - 1], replies), deliveries[|deliveries| - 1];
      if d < |frames| && EchoOf(frames[d]).Some? then before + [EchoOf(frames[d]).value] else before
  }

  /** All the server has sent the client by the time the round of the last of `stamps` reads
      its answer: `strays` from before the stream, then echoes. */
  function Replies(run: Run, net: UdpNetwork, strays: seq<Bytes>, stamps: seq<nat>): seq<Bytes>
    requires |stamps| < TWO_64
  {
    if stamps == [] then strays
    else
      var n := |stamps| - 1;
      AfterDeliveries(SentFrames(run, stamps), net(n).deliveries, Replies(run, net, strays, stamps[..n]))
  }

  /** What the client makes of the datagram it receives, if any, into a 40-byte buffer: a
      shorter one counts as no answer, one that is not a data header ends the stream. */
  function Receive(replies: seq<Bytes>, arrival: Option<nat>): Answer {
    if arrival.None? || arrival.value >= |replies| then NoAnswer
    else if |replies[arrival.value]| < DATA_HEADER_SIZE then NoAnswer
    else ReadHeader(replies[arrival.value][..DATA_HEADER_SIZE])
  }

  /** The answer read in the round of the last of `stamps`. */
  function AnswerOf(run: Run, net: UdpNetwork, strays: seq<Bytes>, stamps: seq<nat>): Answer
    requires 0 < |stamps| < TWO_64
  {
    Receive(Replies(run, net, strays, stamps), net(|stamps| - 1).arrival)
  }

  /** The event of the round of the last of `stamps` credits its packet exactly if the answer
      read in that round names it; an unreadable answer leaves no event. */
  ghost predicate CreditsRound(run: Run, net: UdpNetwork, strays: seq<Bytes>, stamps: seq<nat>, e: PacketEvent)
    requires 0 < |stamps| < TWO_64
  {
    var answer := AnswerOf(run, net, strays, stamps);
    !answer.Undecodable? && (e.recvNs.Some? <==> answer == Answered(|stamps|))
  }

  ghost predicate Credits(run: Run, net: UdpNetwork, strays: seq<Bytes>, log: seq<PacketEvent>) {
    && |log| < TWO_64
    && forall i :: 0 <= i < |log| ==> CreditsRound(run, net, strays, SendTimes(log)[..i + 1], log[i])
  }

  lemma CreditsSnoc(run: Run, net: UdpNetwork, strays: seq<Bytes>, log: seq<PacketEvent>, e: PacketEvent)
    requires Credits(run, net, strays, log) && |log| + 1 < TWO_64
    requires CreditsRound(run, net, strays, SendTimes(log) + [e.sendNs], e)
    ensures Credits(run, net, strays, log + [e])
  {
    hide CreditsRound;
    var log' := log + [e];
    assert SendTimes(log') == SendTimes(log) + [e.sendNs];
    forall i | 0 <= i < |log'| ensures CreditsRound(run, net, strays, SendTimes(log')[..i + 1], log'[i]) {
      assert SendTimes(log')[..i + 1] == if i < |log| then SendTimes(log)[..i + 1] else SendTimes(log');
    }
  }

  // ----- the client

  /** Delivers some of the datagrams sent so far to the server, which echoes each. */
  method DeliverToServer(frames: seq<Bytes>, deliveries: seq<nat>, replies: seq<Bytes>) returns (replies': seq<Bytes>)
    ensures replies' == AfterDeliveries(frames, deliveries, replies)
  {
    hide EchoOf;
    replies' := replies;
    for i := 0 to |deliveries|
      invariant replies' == AfterDeliveries(frames, deliveries[..i], replies)
    {
      assert deliveries[..i + 1][..i] == deliveries[..i];
      if deliveries[i] < |frames| {
        var echo := EchoOf(frames[deliveries[i]]);
        if echo.Some? {
          replies' := replies' + [echo.value];
        }
      }
    }
    assert deliveries[..|deliveries|] == deliveries;
  }

  lemma FrameJoins(run: Run, stamps: seq<nat>, stamp: nat)
    requires |stamps| + 1 < TWO_64
    ensures SentFrames(run, stamps + [stamp]) == SentFrames(run, stamps) + [Frame(NewPacket(run, |stamps| + 1, stamp))]
  {
    hide Frame, NewPacket;
  }

  lemma RepliesGrow(run: Run, net: UdpNetwork, strays: seq<Bytes>, stamps: seq<nat>, stamp: nat)
    requires |stamps| + 1 < TWO_64
    ensures Replies(run, net, strays, stamps + [stamp])
         == AfterDeliveries(SentFrames(run, stamps + [stamp]), net(|stamps|).deliveries, Replies(run, net, strays, stamps))
  {
    hide AfterDeliveries, SentFrames;
    assert (stamps + [stamp])[..|stamps|] == stamps;
  }

  /** A UDP stream, for whatever the network does with its datagrams and whatever control
      datagrams are still on their way when it starts. It ends within a write and a timeout
      of its last packet, and fails only if sending fails, or on an unreadable answer. */
  method RunStreamUdp(run: Run, net: UdpNetwork, strays: seq<Bytes>)
    returns (ok: bool, log: seq<PacketEvent>, finished: nat, ghost warm: nat)
    requires forall i :: net(i).timing.Sum(run.timeout) >= 1
    ensures SequentialLog(log, run.streamId, run.payload, warm) && WarmedUp(log, run.WarmupUntil())
    ensures OnSchedule(run, SendTimes(log)) && warm <= |log|
    ensures Credits(run, net, strays, log)
    ensures Timed(run, TimingsOf(net), log, finished) && forall i :: 0 <= i < |log| ==> !net(i).sendFails
    ensures ok <==> finished >= run.End()
    ensures !ok ==> || |log| + 1 >= TWO_64 || net(|log|).sendFails
                    || AnswerOf(run, net, strays, SendTimes(log) + [StampOf(run, TimingsOf(net), |log|)]) == Undecodable
  {
    hide ReadHeader, Frame, NewPacket, SentFrames, AfterDeliveries, Replies, Credits, InRounds, OnSchedule,
         SequentialLog, WarmedUp, SendTimes, Timed,
         StampOf;
    var now, nextSend, seqNo := run.firstSlot, run.firstSlot, 0;
    var sent: seq<Bytes>, replies := [], strays;
    log, warm := [], 0;
    ghost var timings := TimingsOf(net);
    NoRounds(run, timings);
    Beginning(run, net, strays);
    while now < run.End()
      invariant InRounds(run, timings, log, warm, nextSend, now) && Credits(run, net, strays, log)
      invariant |log| == seqNo < TWO_64
      invariant sent == SentFrames(run, SendTimes(log)) && replies == Replies(run, net, strays, SendTimes(log))
      invariant forall i :: 0 <= i < |log| ==> !net(i).sendFails
      decreases run.End() - now
    {
      var turn := net(seqNo);
      RoundsDone(run, timings, log, warm, nextSend, now);
      var sendNs, next := AwaitSlot(run, now, nextSend, turn.timing);
      assert sendNs == StampOf(run, timings, seqNo) by {
        StampNow(run, timings, log, warm, nextSend, now, sendNs, next);
      }
      if seqNo + 1 >= TWO_64 || turn.sendFails {
        return false, log, now, warm;
      }
      seqNo := seqNo + 1;
      FrameJoins(run, SendTimes(log), sendNs);
      RepliesGrow(run, net, strays, SendTimes(log), sendNs);
      sent := sent + [Frame(NewPacket(run, seqNo, sendNs))];
      var written := sendNs + turn.timing.sending;
      replies := DeliverToServer(sent, turn.deliveries, replies);
      var answer := Receive(replies, turn.arrival);
      assert answer == AnswerOf(run, net, strays, SendTimes(log) + [sendNs]);
      if answer.Undecodable? {
        return false, log, now, warm;
      }
      var later := written + turn.timing.Wait(run.timeout);
      var recvNs := if answer == Answered(seqNo) then Some(later) else None;
      var e := RoundEvent(run, seqNo, sendNs, written, recvNs);
      RoundJoins(run, timings, log, warm, nextSend, now, sendNs, next, recvNs);
      CreditsSnoc(run, net, strays, log, e);
      log, now, nextSend := log + [e], later, next;
      if !e.measured {
        warm := seqNo;
      }
    }
    RoundsDone(run, timings, log, warm, nextSend, now);
    ok, finished := true, now;
  }

  lemma Beginning(run: Run, net: UdpNetwork, strays: seq<Bytes>)
    ensures Credits(run, net, strays, []) && SentFrames(run, []) == []
    ensures Replies(run, net, strays, []) == strays && SendTimes([]) == []
  {
  }

  // ----- what a credit means

  /** The echo of packet `d + 1`, delivered in round `j`. */
  ghost predicate EchoedIn(run: Run, net: UdpNetwork, stamps: seq<nat>, reply: Bytes, d: nat, j: nat)
    requires |stamps| < TWO_64
  {
    && d <= j < |stamps| && d in net(j).deliveries
    && reply == EncodeHeader(NewPacket(run, d + 1, stamps[d]).header)
  }

  lemma {:induction false} DeliveriesAreGenuine(run: Run, stamps: seq<nat>, deliveries: seq<nat>, replies: seq<Bytes>)
    requires |stamps| < TWO_64
    ensures forall r :: r in AfterDeliveries(SentFrames(run, stamps), deliveries, replies) ==>
              || r in replies
              || exists d :: 0 <= d < |stamps| && d in deliveries
                             && r == EncodeHeader(NewPacket(run, d + 1, stamps[d]).header)
  {
    hide EchoOf, EncodeHeader, Frame, NewPacket;
    if deliveries != [] {
      var init, d := deliveries[..|deliveries| - 1], deliveries[|deliveries| - 1];
      DeliveriesAreGenuine(run, stamps, init, replies);
      if d < |stamps| {
        EchoOfPacket(run, d + 1, stamps[d]);
      }
    }
  }

  /** Everything the server sends during a stream echoes a packet delivered to it. */
  lemma {:induction false} RepliesAreGenuine(run: Run, net: UdpNetwork, strays: seq<Bytes>, stamps: seq<nat>)
    requires |stamps| < TWO_64
    ensures forall r :: r in Replies(run, net, strays, stamps) ==>
              r in strays || exists d: nat, j: nat :: EchoedIn(run, net, stamps, r, d, j)
  {
    hide EncodeHeader, NewPacket, AfterDeliveries, SentFrames;
    if stamps != [] {
      var n := |stamps| - 1;
      RepliesAreGenuine(run, net, strays, stamps[..n]);
      DeliveriesAreGenuine(run, stamps, net(n).deliveries, Replies(run, net, strays, stamps[..n]));
      forall r | r in Replies(run, net, strays, stamps)
        ensures r in strays || exists d: nat, j: nat :: EchoedIn(run, net, stamps, r, d, j)
      {
        if r in Replies(run, net, strays, stamps[..n]) {
          if r !in strays {
            var d: nat, j: nat :| EchoedIn(run, net, stamps[..n], r, d, j);
            assert EchoedIn(run, net, stamps, r, d, j);
          }
        } else {
          var d :| 0 <= d < |stamps| && d in net(n).deliveries
                   && r == EncodeHeader(NewPacket(run, d + 1, stamps[d]).header);
          assert EchoedIn(run, net, stamps, r, d, n);
        }
      }
    }
  }

  /** An answer that names a packet proves that the server received that packet, in this
      round or an earlier one; an answer that earns credit, in this very round. An unreadable
      answer can only be a control datagram from before the stream. */
  lemma AnswerNamesItsPacket(run: Run, net: UdpNetwork, strays: seq<Bytes>, stamps: seq<nat>)
    requires 0 < |stamps| < TWO_64
    requires forall s :: s in strays ==> StartsWith(s, CTRL_PREFIX)
    ensures var answer, n := AnswerOf(run, net, strays, stamps), |stamps|;
            && (answer.Answered? ==>
                  && 0 < answer.seqNo <= n
                  && (exists j :: answer.seqNo - 1 <= j < n && answer.seqNo - 1 in net(j).deliveries)
                  && (answer == Answered(n) ==> n - 1 in net(n - 1).deliveries))
            && (answer.Undecodable? ==> net(n - 1).arrival.Some? && Replies(run, net, strays, stamps)[net(n - 1).arrival.value] in strays)
  {
    hide ReadHeader, EncodeHeader, NewPacket, Replies, StartsWith;
    var answer, arrival := AnswerOf(run, net, strays, stamps), net(|stamps| - 1).arrival;
    if !answer.NoAnswer? {
      var reply := Replies(run, net, strays, stamps)[arrival.value];
      RepliesAreGenuine(run, net, strays, stamps);
      if reply in strays {
        assert answer.Undecodable? by { StrayIsUnreadable(reply); }
      } else {
        var d: nat, j: nat :| EchoedIn(run, net, stamps, reply, d, j);
        EchoOfPacket(run, d + 1, stamps[d]);
        assert reply[..DATA_HEADER_SIZE] == reply;
      }
    }
  }

  /** So every packet a UDP stream credits was received by the server in its own round. */
  lemma CreditedWasDelivered(run: Run, net: UdpNetwork, strays: seq<Bytes>, log: seq<PacketEvent>, i: nat)
    requires Credits(run, net, strays, log) && forall s :: s in strays ==> StartsWith(s, CTRL_PREFIX)
    requires i < |log| && log[i].recvNs.Some?
    ensures i in net(i).deliveries
  {
    hide AnswerOf, StartsWith;
    assert CreditsRound(run, net, strays, SendTimes(log)[..i + 1], log[i]);
    AnswerNamesItsPacket(run, net, strays, SendTimes(log)[..i + 1]);
  }

  lemma StrayIsUnreadable(bs: Bytes)
    requires StartsWith(bs, CTRL_PREFIX) && |bs| >= DATA_HEADER_SIZE
    ensures ReadHeader(bs[..DATA_HEADER_SIZE]) == Undecodable
  {
    hide StartsWith;
    ControlIsNeverData(bs);
  }

  // ----- sockets that keep their order

  /** The packets, counted from zero, that reached the server in the first `n` rounds. */
  function DeliveredBy(net: UdpNetwork, n: nat): seq<nat> {
    if n == 0 then [] else DeliveredBy(net, n - 1) + net(n - 1).deliveries
  }

  /** Packets reach the server in order and at most once, at once or later or never. */
  ghost predicate InOrderPath(net: UdpNetwork, n: nat) {
    && (forall j :: 0 <= j < n ==> SentByThen(net(j).deliveries, j))
    && forall a, b :: 0 <= a < b < |DeliveredBy(net, n)| ==> DeliveredBy(net, n)[a] < DeliveredBy(net, n)[b]
  }

  predicate SentByThen(deliveries: seq<nat>, j: int) {
    forall k :: 0 <= k < |deliveries| ==> deliveries[k] <= j
  }

  /** How many datagrams the socket has handed the client in the first `n` rounds, if
      `strays` were waiting before the first. */
  function HandedOut(net: UdpNetwork, strays: nat, n: nat): (h: nat)
    ensures h <= strays + |DeliveredBy(net, n)|
  {
    if n == 0 then 0
    else
      var h := HandedOut(net, strays, n - 1);
      if net(n - 1).arrival == Some(h) && h < strays + |DeliveredBy(net, n)| then h + 1 else h
  }

  /** The datagrams sent by the server that the client has not received after `n` rounds. */
  function Unread(net: UdpNetwork, strays: nat, n: nat): nat {
    strays + |DeliveredBy(net, n)| - HandedOut(net, strays, n)
  }

  /** Each round receives the next datagram in order, or none. */
  ghost predicate InOrderSocket(net: UdpNetwork, strays: nat, n: nat) {
    forall j :: 0 <= j < n ==> net(j).arrival.Some? ==> net(j).arrival.value == HandedOut(net, strays, j)
  }

  function Echoes(run: Run, stamps: seq<nat>, ds: seq<nat>): seq<Bytes>
    requires |stamps| < TWO_64 && SentByThen(ds, |stamps| - 1)
  {
    seq(|ds|, k requires 0 <= k < |ds| => EncodeHeader(NewPacket(run, ds[k] + 1, stamps[ds[k]]).header))
  }

  lemma {:induction false} DeliveriesAreEchoed(run: Run, stamps: seq<nat>, ds: seq<nat>, replies: seq<Bytes>)
    requires |stamps| < TWO_64 && SentByThen(ds, |stamps| - 1)
    ensures AfterDeliveries(SentFrames(run, stamps), ds, replies) == replies + Echoes(run, stamps, ds)
  {
    hide EchoOf, EncodeHeader, Frame, NewPacket;
    if ds != [] {
      var init, d := ds[..|ds| - 1], ds[|ds| - 1];
      DeliveriesAreEchoed(run, stamps, init, replies);
      EchoOfPacket(run, d + 1, stamps[d]);
      assert Echoes(run, stamps, ds) == Echoes(run, stamps, init) + [EchoOf(SentFrames(run, stamps)[d]).value];
    }
  }

  lemma {:induction false} DeliveredAreSent(net: UdpNetwork, n: nat)
    requires forall j :: 0 <= j < n ==> SentByThen(net(j).deliveries, j)
    ensures SentByThen(DeliveredBy(net, n), n - 1)
  {
    if n > 0 {
      DeliveredAreSent(net, n - 1);
    }
  }

  lemma EchoesConcat(run: Run, stamps: seq<nat>, a: seq<nat>, b: seq<nat>)
    requires 0 < |stamps| < TWO_64 && SentByThen(a, |stamps| - 2) && SentByThen(b, |stamps| - 1)
    ensures SentByThen(a, |stamps| - 1) && SentByThen(a + b, |stamps| - 1)
    ensures Echoes(run, stamps[..|stamps| - 1], a) == Echoes(run, stamps, a)
    ensures Echoes(run, stamps, a + b) == Echoes(run, stamps, a) + Echoes(run, stamps, b)
  {
    hide EncodeHeader, NewPacket;
  }

  /** What the server has sent: the strays, then one echo per delivery, in order. */
  lemma {:induction false} RepliesAreEchoes(run: Run, net: UdpNetwork, strays: seq<Bytes>, stamps: seq<nat>)
    requires |stamps| < TWO_64
    requires forall j :: 0 <= j < |stamps| ==> SentByThen(net(j).deliveries, j)
    ensures SentByThen(DeliveredBy(net, |stamps|), |stamps| - 1)
    ensures Replies(run, net, strays, stamps) == strays + Echoes(run, stamps, DeliveredBy(net, |stamps|))
  {
    hide AfterDeliveries, SentFrames;
    DeliveredAreSent(net, |stamps|);
    if stamps != [] {
      var n := |stamps| - 1;
      var ds := net(n).deliveries;
      DeliveriesAreEchoed(run, stamps, ds, Replies(run, net, strays, stamps[..n]));
      RepliesAreEchoes(run, net, strays, stamps[..n]);
      EchoesConcat(run, stamps, DeliveredBy(net, n), ds);
      Regroup(strays, Echoes(run, stamps, DeliveredBy(net, n)), Echoes(run, stamps, ds));
    }
  }

  lemma Regroup(a: seq<Bytes>, b: seq<Bytes>, c: seq<Bytes>)
    ensures a + b + c == a + (b + c)
  {
  }

  /** What the client makes of the datagram number `h` of strays and echoes. */
  lemma EchoRead(run: Run, strays: seq<Bytes>, stamps: seq<nat>, ds: seq<nat>, h: nat)
    requires |stamps| < TWO_64 && SentByThen(ds, |stamps| - 1)
    requires forall s :: s in strays ==> StartsWith(s, CTRL_PREFIX)
    ensures var answer := Receive(strays + Echoes(run, stamps, ds), Some(h));
            && (h < |strays| ==> !answer.Answered?)
            && (|strays| <= h < |strays| + |ds| ==> answer == Answered(ds[h - |strays|] + 1))
            && (h >= |strays| + |ds| ==> answer == NoAnswer)
  {
    hide ReadHeader, EncodeHeader, NewPacket, StartsWith;
    var replies := strays + Echoes(run, stamps, ds);
    if h < |strays| {
      assert replies[h] == strays[h] && strays[h] in strays;
      if |replies[h]| >= DATA_HEADER_SIZE {
        StrayIsUnreadable(replies[h]);
      }
    } else if h < |replies| {
      var d := ds[h - |strays|];
      EchoOfPacket(run, d + 1, stamps[d]);
      assert replies[h] == EncodeHeader(NewPacket(run, d + 1, stamps[d]).header);
      assert replies[h][..DATA_HEADER_SIZE] == replies[h];
    }
  }

  /** In an ascending list the highest number there can be is the last. */
  lemma HighestIsLast(ds: seq<nat>, n: nat)
    requires (forall a, b :: 0 <= a < b < |ds| ==> ds[a] < ds[b]) && SentByThen(ds, n)
    ensures forall k :: 0 <= k < |ds| - 1 ==> ds[k] < n
  {
    if ds != [] {
      assert ds[|ds| - 1] <= n;
      assert forall k :: 0 <= k < |ds| - 1 ==> ds[k] < ds[|ds| - 1];
    }
  }

  /** On an in-order path and socket a packet is credited exactly if its round receives a
      datagram, the packet's own echo is already there, and nothing else is still unread. */
  lemma InOrderCredit(run: Run, net: UdpNetwork, strays: seq<Bytes>, stamps: seq<nat>)
    requires 0 < |stamps| < TWO_64 && forall s :: s in strays ==> StartsWith(s, CTRL_PREFIX)
    requires InOrderPath(net, |stamps|) && InOrderSocket(net, |strays|, |stamps|)
    ensures var n, ds := |stamps|, DeliveredBy(net, |stamps|);
            AnswerOf(run, net, strays, stamps) == Answered(n)
            <==> && net(n - 1).arrival.Some?
                 && ds != [] && ds[|ds| - 1] == n - 1
                 && HandedOut(net, |strays|, n - 1) == |strays| + |ds| - 1
  {
    hide Receive, Echoes, AnswerOf, StartsWith, DeliveredBy, HandedOut, InOrderPath, InOrderSocket, SentByThen;
    var n, ds, h := |stamps|, DeliveredBy(net, |stamps|), HandedOut(net, |strays|, |stamps| - 1);
    InOrderFacts(net, |strays|, n);
    InOrderAnswer(run, net, strays, stamps);
    if net(n - 1).arrival.Some? {
      EchoRead(run, strays, stamps, ds, h);
    } else {
      NothingReceived(strays + Echoes(run, stamps, ds));
    }
  }

  lemma InOrderFacts(net: UdpNetwork, strays: nat, n: nat)
    requires n > 0 && InOrderPath(net, n) && InOrderSocket(net, strays, n)
    ensures var ds := DeliveredBy(net, n);
            && SentByThen(ds, n - 1)
            && (forall k :: 0 <= k < |ds| - 1 ==> ds[k] < n - 1)
            && (net(n - 1).arrival.Some? ==> net(n - 1).arrival.value == HandedOut(net, strays, n - 1))
  {
    hide DeliveredBy, HandedOut, SentByThen;
    DeliveredAreSent(net, n);
    HighestIsLast(DeliveredBy(net, n), n - 1);
  }

  lemma InOrderAnswer(run: Run, net: UdpNetwork, strays: seq<Bytes>, stamps: seq<nat>)
    requires 0 < |stamps| < TWO_64 && InOrderPath(net, |stamps|)
    requires SentByThen(DeliveredBy(net, |stamps|), |stamps| - 1)
    ensures AnswerOf(run, net, strays, stamps)
         == Receive(strays + Echoes(run, stamps, DeliveredBy(net, |stamps|)), net(|stamps| - 1).arrival)
  {
    hide Receive, Echoes, Replies, DeliveredBy, SentByThen;
    RepliesAreEchoes(run, net, strays, stamps);
  }

  lemma NothingReceived(replies: seq<Bytes>)
    ensures Receive(replies, None) == NoAnswer
  {
  }

  lemma {:induction false} BacklogStays(net: UdpNetwork, strays: nat, a: nat, n: nat)
    requires a <= n && Unread(net, strays, a) >= 1
    requires forall j :: a <= j < n ==> net(j).deliveries != []
    ensures Unread(net, strays, n) >= 1
  {
    if a < n {
      BacklogStays(net, strays, a, n - 1);
    }
  }

  /** Once an answer is late, so that an echo is left unread, no packet is credited as long as
      every round delivers its packet: nothing uses the backlog up. */
  lemma BacklogCostsCredit(run: Run, net: UdpNetwork, strays: seq<Bytes>, stamps: seq<nat>, a: nat)
    requires 0 < |stamps| < TWO_64 && forall s :: s in strays ==> StartsWith(s, CTRL_PREFIX)
    requires InOrderPath(net, |stamps|) && InOrderSocket(net, |strays|, |stamps|)
    requires a < |stamps| && Unread(net, |strays|, a) >= 1
    requires forall j :: a <= j < |stamps| ==> net(j).deliveries != []
    ensures AnswerOf(run, net, strays, stamps) != Answered(|stamps|)
  {
    hide AnswerOf, HandedOut, StartsWith, InOrderPath, InOrderSocket;
    InOrderCredit(run, net, strays, stamps);
    BacklogStays(net, |strays|, a, |stamps| - 1);
  }

  // ----- one late answer

  /** A network that delivers every packet at once and returns the echoes in order, one a
      round, but the first of them only after the first packet's timeout. */
  function FirstAnswerLate(timeout: nat): UdpNetwork {
    (i: nat) => if i == 0 then UdpTurn(Timing(0, 0, 1, timeout), false, [0], None)
                else UdpTurn(Timing(0, 0, 1, 0), false, [i], Some(i - 1))
  }

  lemma {:induction false} LateDeliveries(timeout: nat, n: nat)
    ensures var ds := DeliveredBy(FirstAnswerLate(timeout), n);
            |ds| == n && forall k :: 0 <= k < n ==> ds[k] == k
    ensures HandedOut(FirstAnswerLate(timeout), 0, n) == Max(0, n - 1)
  {
    if n > 0 {
      LateDeliveries(timeout, n - 1);
    }
  }

  /** One late answer costs all later packets their credit, although every packet reaches
      the server and every echo but the first is back in its own round: each round reads the
      echo of the packet before. */
  lemma OneLateAnswerCostsAll(run: Run, timeout: nat, stamps: seq<nat>)
    requires 0 < |stamps| < TWO_64
    ensures var net, n := FirstAnswerLate(timeout), |stamps|;
            var answer := AnswerOf(run, net, [], stamps);
            && n - 1 in net(n - 1).deliveries
            && EncodeHeader(NewPacket(run, n, stamps[n - 1]).header) in Replies(run, net, [], stamps)
            && answer == (if n == 1 then NoAnswer else Answered(n - 1))
            && answer != Answered(n)
  {
    hide EncodeHeader, NewPacket, Replies, ReadHeader, DeliveredBy;
    var net, n := FirstAnswerLate(timeout), |stamps|;
    LateDeliveries(timeout, n);
    RepliesAreEchoes(run, net, [], stamps);
    var replies := Replies(run, net, [], stamps);
    assert replies[n - 1] == EncodeHeader(NewPacket(run, n, stamps[n - 1]).header);
    if n > 1 {
      EchoOfPacket(run, n - 1, stamps[n - 2]);
      assert replies[n - 2] == EncodeHeader(NewPacket(run, n - 1, stamps[n - 2]).header);
      assert replies[n - 2][..DATA_HEADER_SIZE] == replies[n - 2];
    }
  }

  /** The same, but the second packet is lost on its way to the server. */
  function ThenOneLost(timeout: nat): UdpNetwork {
    (i: nat) => if i == 0 then UdpTurn(Timing(0, 0, 1, timeout), false, [0], None)
                else if i == 1 then UdpTurn(Timing(0, 0, 1, 0), false, [], Some(0))
                else UdpTurn(Timing(0, 0, 1, 0), false, [i], Some(i - 1))
  }

  /** The lost packet's round reads the late echo, which uses the backlog up: the third packet
      is credited again. */
  lemma LossUsesUpBacklog(run: Run, timeout: nat, a: nat, b: nat, c: nat)
    ensures AnswerOf(run, ThenOneLost(timeout), [], [a, b, c]) == Answered(3)
  {
    hide AnswerOf;
    var net := ThenOneLost(timeout);
    assert DeliveredBy(net, 0) == [] && DeliveredBy(net, 1) == [0] && DeliveredBy(net, 2) == [0];
    assert DeliveredBy(net, 3) == [0, 2];
    assert HandedOut(net, 0, 0) == 0 && HandedOut(net, 0, 1) == 0 && HandedOut(net, 0, 2) == 1;
    assert InOrderPath(net, 3) && InOrderSocket(net, 0, 3);
    InOrderCredit(run, net, [], [a, b, c]);
  }
}
