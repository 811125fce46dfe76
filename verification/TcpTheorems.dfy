/** The properties of TCP streams that follow from the invariant, for every schedule. */
module TcpTheorems {
  import opened Base
  import opened Wire
  import opened Framing
  import opened Stream
  import opened Pacing
  import opened TcpSession
  import opened TcpInvariant
  import opened TcpPreservation
  import opened TcpClientSteps

  // ----- conservation on the wire

  /** The packets sent and not yet acknowledged, in order, are the queued acknowledgements,
      then the headers travelling back, then the frames at or before the server; no byte is
      lost, duplicated or out of place, wherever the client stands between writing a packet
      and recording it. */
  lemma WireConservation(run: Run, acts: seq<Act>)
    ensures var s := Exec(run, acts);
            var net, sent, r := s.net, s.hist.sent, |s.net.recvs|;
            && 0 <= Acked(s) <= r <= net.echoed <= EchoesBegun(net) <= |sent| == s.client.seqNo
            && (forall i :: 0 <= i < |sent| ==> sent[i].header.seqNo == i + 1)
            && (forall j :: 0 <= j < |net.ackQueue| ==> net.ackQueue[j].seqNo == Acked(s) + j + 1)
            && net.ackBuf + net.down + EchoRest(net.phase) == Headers(sent[r..EchoesBegun(net)])
            && UpInv(net.phase, net.echoed, net.up, sent, Unwritten(s.client.pc))
  {
    hide EncodeHeader, DecodeHeader, Frames, Headers, PendingInv, LogInv, PaceInv, TimeInv, EndInv, DrainInv, Exec, UpInv;
    ExecInv(run, acts);
  }

  /** While the loop runs, `pending` together with the packet just written but not yet
      inserted is exactly the range of unacknowledged sequence numbers. */
  lemma PendingConservation(run: Run, acts: seq<Act>, k: nat)
    requires var pc := Exec(run, acts).client.pc; !pc.Flush? && !pc.Done? && !pc.Failed?
    ensures var s := Exec(run, acts);
            (k in s.client.pending || (MidSend(s.client.pc) && k == s.client.seqNo))
            <==> Acked(s) < k <= s.client.seqNo
  {
    hide EncodeHeader, DecodeHeader, Frames, Headers, LogInv, PaceInv, TimeInv, WireInv, EndInv, DrainInv, Exec;
    ExecInv(run, acts);
    PendingIsRange(run, Exec(run, acts));
  }

  /** An acknowledgement taken off the queue always finds its packet in `pending`. */
  lemma AcksAlwaysHit(run: Run, acts: seq<Act>)
    requires var s := Exec(run, acts); Popping(s.client.pc) && s.net.ackQueue != []
    ensures var s := Exec(run, acts);
            s.net.ackQueue[0].seqNo == Acked(s) + 1 && s.net.ackQueue[0].seqNo in s.client.pending
  {
    ExecInv(run, acts);
    AckHitsPending(run, Exec(run, acts));
  }

  /** Neither side ever meets a header it cannot decode: each stops exactly when the
      schedule stops it. */
  lemma {:induction false} ServerNeverRejects(run: Run, acts: seq<Act>)
    ensures Exec(run, acts).net.serverUp <==> Env(ServerStops) !in acts
    ensures Exec(run, acts).net.readerUp <==> Env(ReaderStops) !in acts
  {
    hide EncodeHeader, DecodeHeader, Frames, Headers, Next, Inv;
    if acts != [] {
      var before, a := acts[..|acts| - 1], acts[|acts| - 1];
      assert acts == before + [a];
      ServerNeverRejects(run, before);
      ExecInv(run, before);
      NextKeepsUp(run, Exec(run, before), a);
    }
  }

  lemma NextKeepsUp(run: Run, s: State, a: Act)
    requires Inv(run, s)
    ensures Next(run, s, a).net.serverUp <==> s.net.serverUp && a != Env(ServerStops)
    ensures Next(run, s, a).net.readerUp <==> s.net.readerUp && a != Env(ReaderStops)
  {
    hide EncodeHeader, DecodeHeader, Frames, Headers, PendingInv, LogInv, PaceInv, TimeInv, WireInv, EnvStep;
    match a
    case Env(e) => EnvWire(s.net, e, run, s.hist, Unwritten(s.client.pc));
    case Step(n) =>
    case WriteError =>
  }

  // ----- the window

  /** Unacknowledged packets never exceed the window, which lies between 8 and 256, nor
      their payloads 4 MiB or eight packets, whichever is more. */
  lemma WindowBound(run: Run, acts: seq<Act>)
    ensures var s := Exec(run, acts);
            && 8 <= run.MaxInflight() <= 256
            && |s.client.pending| <= run.MaxInflight()
            && s.client.seqNo - Acked(s) <= run.MaxInflight()
            && (s.client.seqNo - Acked(s)) * run.payload <= Max(4 * 1024 * 1024, 8 * run.payload)
  {
    hide EncodeHeader, DecodeHeader, Frames, Headers, LogInv, PaceInv, TimeInv, WireInv, EndInv, DrainInv, Exec;
    ExecInv(run, acts);
    var s := Exec(run, acts);
    PendingFits(s.client, s.hist, Acked(s), run);
    var inflight := s.client.seqNo - Acked(s);
    WindowBytes(run);
    MulMonotone(inflight, run.MaxInflight(), run.payload);
  }

  /** The window in figures: 256 packets if they fit 4 MiB, 8 if not even 8 do, and else as
      many as do. */
  lemma WindowInFigures(run: Run)
    ensures var w := run.MaxInflight();
            && (256 * run.payload <= 4_194_304 ==> w == 256)
            && (8 * run.payload > 4_194_304 ==> w == 8)
            && (8 * run.payload <= 4_194_304 < 256 * run.payload ==>
                  w * run.payload <= 4_194_304 < (w + 1) * run.payload)
  {
    if run.payload > 0 {
      QuotientBounds(4_194_304, run.payload);
      var q := 4_194_304 / run.payload;
      MulMonotone(Min(q + 1, 8), 8, run.payload);
      MulMonotone(8, Max(q, 8), run.payload);
      MulMonotone(Min(q + 1, 256), 256, run.payload);
      MulMonotone(256, Max(q, 256), run.payload);
    }
  }

  lemma QuotientBounds(total: nat, part: nat)
    requires part > 0
    ensures total / part * part <= total < (total / part + 1) * part
  {
    var q := total / part;
    assert total == part * q + total % part;
    assert (q + 1) * part == part * q + part;
  }

  lemma PendingFits(c: Client, hist: History, acked: int, run: Run)
    requires PendingInv(run, c, hist, acked) && 0 <= acked <= |hist.inserts|
    ensures |c.pending| <= |hist.inserts| - acked
  {
    RangeBound(c.pending.Keys, acked, |hist.inserts|);
  }

  lemma {:induction false} RangeBound(ks: set<nat>, lo: nat, hi: nat)
    requires lo <= hi && forall k :: k in ks ==> lo < k <= hi
    ensures |ks| <= hi - lo
  {
    if lo == hi {
      assert ks == {};
    } else {
      RangeBound(ks - {hi}, lo, hi - 1);
      assert |ks| <= |ks - {hi}| + 1;
    }
  }

  lemma WindowBytes(run: Run)
    ensures run.MaxInflight() * run.payload <= Max(4 * 1024 * 1024, 8 * run.payload)
  {
    if run.payload > 0 {
      var q := 4 * 1024 * 1024 / run.payload;
      assert q * run.payload <= 4 * 1024 * 1024;
      MulMonotone(Min(256, q), q, run.payload);
    }
  }

  // ----- the clock

  /** Packets leave on schedule; only the last can be stamped at or after the end; and the
      number of packets and of drain sleeps is bounded. */
  lemma SendsAndDrainsAreBounded(run: Run, acts: seq<Act>)
    ensures var s := Exec(run, acts);
            var stamps, n := s.hist.stamps, |s.hist.stamps|;
            && n == s.client.seqNo
            && (forall i :: 0 <= i < n - 1 ==> stamps[i] < run.start + run.warmup + run.duration)
            && (run.Delay().Some? ==>
                  var d := run.Delay().value;
                  && PacedFrom(stamps, run.firstSlot, d)
                  && n <= (Max(0, run.End() - run.firstSlot) + d - 1) / d + 1)
            && s.hist.drainRounds <= run.timeout / 1_000_000 + 1
  {
    hide EncodeHeader, DecodeHeader, Frames, Headers, PendingInv, LogInv, TimeInv, WireInv, Exec;
    ExecInv(run, acts);
    var s := Exec(run, acts);
    if run.Delay().Some? {
      SendBound(s.hist.stamps, run.firstSlot, run.Delay().value, run.End());
    }
  }

  /** In no reachable state has a packet been given up for lost before the drain deadline,
      which lies a timeout after the end, nor has the loop been left before the end. */
  lemma LossIsNotHasty(run: Run, acts: seq<Act>)
    ensures var s, end := Exec(run, acts), run.start + run.warmup + run.duration;
            && ((exists e :: e in s.client.events && e.recvNs.None?) ==> s.net.now >= end + run.timeout)
            && (s.client.pc.Flush? || s.client.pc.Done? ==> s.net.now >= end)
  {
    hide EncodeHeader, DecodeHeader, Frames, Headers, PaceInv, WireInv, DrainInv, Exec, TimeInv;
    ExecInv(run, acts);
    var s := Exec(run, acts);
    if e :| e in s.client.events && e.recvNs.None? {
      assert Acked(s) < |s.hist.inserts|;
    }
  }

  // ----- the log

  /** At every moment the acknowledged part of the log is causal and in sequence. */
  lemma LogIsCausal(run: Run, acts: seq<Act>)
    ensures Causal(Exec(run, acts).client.events)
  {
    hide EncodeHeader, DecodeHeader, Frames, Headers, PendingInv, PaceInv, WireInv, EndInv, DrainInv, Exec;
    ExecInv(run, acts);
  }

  lemma {:induction false} DistinctLength(log: seq<PacketEvent>, lo: nat, hi: nat)
    requires lo <= hi
    requires forall i, j :: 0 <= i < j < |log| ==> log[i].seqNo != log[j].seqNo
    requires forall k: nat :: lo < k <= hi <==> Reported(log, k)
    ensures |log| == hi - lo
  {
    if lo == hi {
      if log != [] {
        assert Reported(log, log[0].seqNo);
      }
    } else {
      assert Reported(log, hi);
      var i :| 0 <= i < |log| && log[i].seqNo == hi;
      var rest := log[..i] + log[i + 1..];
      forall k: nat ensures lo < k <= hi - 1 <==> Reported(rest, k) {
        if lo < k <= hi - 1 {
          assert Reported(log, k);
          var j :| 0 <= j < |log| && log[j].seqNo == k;
          assert rest[if j < i then j else j - 1].seqNo == k;
        }
        if Reported(rest, k) {
          var j :| 0 <= j < |rest| && rest[j].seqNo == k;
          assert log[if j < i then j else j + 1].seqNo == k;
          assert Reported(log, k);
        }
      }
      DistinctLength(rest, lo, hi - 1);
    }
  }

  /** When nothing is pending, the tail of the log covers the unacknowledged packets. */
  lemma TailCovers(run: Run, c: Client, hist: History, acked: nat, recvs: seq<nat>)
    requires PendingInv(run, c, hist, acked) && c.pending == map[]
    requires LogInv(run, c.events, hist, recvs, acked)
    ensures |c.events| == |hist.inserts|
  {
    var n, tail := |hist.inserts|, c.events[acked..];
    forall k: nat ensures acked < k <= n <==> Reported(tail, k) {
      if Reported(tail, k) {
        var i :| 0 <= i < |tail| && tail[i].seqNo == k;
        assert c.events[acked + i].seqNo == k;
      }
    }
    DistinctLength(tail, acked, n);
  }

  /** A TCP run that ends normally has reported each of its packets exactly once: first the
      acknowledged ones in order, then the lost ones, measured from the first packet
      recorded after the warm-up. */
  lemma FinishedRun(run: Run, acts: seq<Act>)
    requires Exec(run, acts).client.pc.Done?
    ensures var s := Exec(run, acts);
            && 0 <= Acked(s)
            && FinishedLog(s.client.events, run.streamId, run.payload, s.client.seqNo, Acked(s),
                           WarmCount(s.hist.inserts, run.WarmupUntil()))
  {
    hide EncodeHeader, DecodeHeader, Frames, Headers, PaceInv, WireInv, EndInv, DrainInv, Exec, PendingInv, FinishedLog;
    ExecInv(run, acts);
    var s := Exec(run, acts);
    PendingIsEmpty(run, s.client, s.hist, Acked(s));
    TailCovers(run, s.client, s.hist, Acked(s), s.net.recvs);
    WarmIsPrefix(s.hist.inserts, run.WarmupUntil());
    LogIsFinished(run, s.client.events, s.hist, s.net.recvs, Acked(s));
  }

  lemma PendingIsEmpty(run: Run, c: Client, hist: History, acked: int)
    requires PendingInv(run, c, hist, acked) && c.pc.Done?
    ensures c.pending == map[]
  {
  }

  lemma LogIsFinished(run: Run, events: seq<PacketEvent>, hist: History, recvs: seq<nat>, acked: nat)
    requires LogInv(run, events, hist, recvs, acked) && |events| == |hist.inserts|
    requires var w := WarmCount(hist.inserts, run.WarmupUntil());
             forall i :: 0 <= i < |hist.inserts| ==> (hist.inserts[i] < run.WarmupUntil() <==> i < w)
    ensures FinishedLog(events, run.streamId, run.payload, |events|, acked, WarmCount(hist.inserts, run.WarmupUntil()))
  {
  }
}
