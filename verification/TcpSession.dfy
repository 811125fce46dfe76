/**
 One TCP stream as a step system: the client's send loop, the spawned reader of
 acknowledgements and the server's echo loop, joined by two byte pipes and the
 acknowledgement queue. Every step may be interleaved with every other, byte by byte.
 */
module TcpSession {
  import opened Base
  import opened Wire
  import opened Framing
  import opened Stream

  // ----- state

  datatype Ack = Ack(seqNo: nat, recvNs: nat)

  datatype Flight = Flight(sendNs: nat, measured: bool)

  datatype ServerPhase =
    | ReadingHeader(got: Bytes)
    | ReadingPayload(header: Bytes, need: nat)
    | Echoing(rest: Bytes)

  /** Everything outside the send loop. `up` and `down` hold the bytes written and not
      yet read; `echoed` counts finished echoes and `recvs` records when each
      acknowledgement was stamped. */
  datatype Net = Net(
    now: nat,
    up: Bytes,
    serverUp: bool,
    phase: ServerPhase,
    echoed: nat,
    down: Bytes,
    readerUp: bool,
    ackBuf: Bytes,
    ackQueue: seq<Ack>,
    recvs: seq<nat>)

  /** Program points of the send loop. `Writing` and `Insert` lie between `write_all`
      and `pending.insert`; `Failed` keeps the bytes that were never written. */
  datatype Pc =
    | Top
    | TryRecv
    | CheckEnd
    | CheckDeadline
    | DrainSleep(until: nat)
    | WindowWait(until: nat)
    | Pace
    | Stamp
    | Writing(sendNs: nat, rest: Bytes)
    | Insert(sendNs: nat)
    | Flush
    | Done
    | Failed(unwritten: Bytes)

  datatype Client = Client(
    pc: Pc,
    seqNo: nat,
    nextSend: nat,
    pending: map<nat, Flight>,
    events: seq<PacketEvent>)

  /** What has happened: the packets stamped, their send and insert times, and the
      number of one-millisecond drain sleeps begun. */
  datatype History = History(
    sent: seq<Packet>,
    stamps: seq<nat>,
    inserts: seq<nat>,
    drainRounds: nat)

  datatype State = State(client: Client, net: Net, hist: History)

  // ----- environment steps

  datatype EnvAct =
    | Tick(dt: nat)
    | ServerRead(n: nat)
    | ServerWrite(n: nat)
    | ServerStops
    | ReaderRead(n: nat)
    | ReaderStops

  function Portion(n: nat, wanted: int, available: nat): nat {
    Max(0, Min(n, Min(wanted, available)))
  }

  function ServerReads(net: Net, n: nat): Net {
    match net.phase
    case ReadingHeader(got) =>
      var k := Portion(n, DATA_HEADER_SIZE - |got|, |net.up|);
      var got' := got + net.up[..k];
      var rest := net.(up := net.up[k..]);
      if |got'| < DATA_HEADER_SIZE then rest.(phase := ReadingHeader(got'))
      else (
        match DecodeHeader(got')
        case Err(_) => rest.(serverUp := false)
        case Ok(h) =>
          rest.(phase := if h.payloadLen > 0 then ReadingPayload(got', h.payloadLen) else Echoing(got'))
      )
    case ReadingPayload(header, need) =>
      var k := Portion(n, need, |net.up|);
      net.(up := net.up[k..],
           phase := if k == need then Echoing(header) else ReadingPayload(header, need - k))
    case Echoing(_) => net
  }

  function ServerWrites(net: Net, n: nat): Net {
    match net.phase
    case Echoing(rest) =>
      var k := Min(n, |rest|);
      if k == |rest| then
        net.(down := net.down + rest, phase := ReadingHeader([]), echoed := net.echoed + 1)
      else
        net.(down := net.down + rest[..k], phase := Echoing(rest[k..]))
    case _ => net
  }

  function ReaderReads(net: Net, n: nat): Net {
    var k := Portion(n, DATA_HEADER_SIZE - |net.ackBuf|, |net.down|);
    var buf := net.ackBuf + net.down[..k];
    var rest := net.(down := net.down[k..]);
    if |buf| < DATA_HEADER_SIZE then rest.(ackBuf := buf)
    else (
      match DecodeHeader(buf)
      case Err(_) => rest.(readerUp := false)
      case Ok(h) =>
        rest.(ackBuf := [],
              ackQueue := net.ackQueue + [Ack(h.seqNo, net.now)],
              recvs := net.recvs + [net.now])
    )
  }

  function EnvStep(net: Net, e: EnvAct): Net {
    match e
    case Tick(dt) => net.(now := net.now + dt)
    case ServerRead(n) => if net.serverUp then ServerReads(net, n) else net
    case ServerWrite(n) => if net.serverUp then ServerWrites(net, n) else net
    case ServerStops => net.(serverUp := false)
    case ReaderRead(n) => if net.readerUp then ReaderReads(net, n) else net
    case ReaderStops => net.(readerUp := false)
  }

  // ----- client steps

  function AckedEvent(run: Run, a: Ack, f: Flight): PacketEvent {
    PacketEvent(run.streamId, a.seqNo, run.payload, f.sendNs, Some(a.recvNs), f.measured)
  }

  function LostEvent(run: Run, seqNo: nat, f: Flight): PacketEvent {
    PacketEvent(run.streamId, seqNo, run.payload, f.sendNs, None, f.measured)
  }

  function Goto(s: State, pc: Pc): State {
    s.(client := s.client.(pc := pc))
  }

  /** Takes the oldest acknowledgement off the queue and reports it if it is pending. */
  function PopAck(run: Run, s: State, pc: Pc): State
    requires s.net.ackQueue != []
  {
    var a := s.net.ackQueue[0];
    var net := s.net.(ackQueue := s.net.ackQueue[1..]);
    var client := s.client.(pc := pc);
    if a.seqNo in client.pending then
      s.(net := net,
         client := client.(pending := client.pending - {a.seqNo},
                           events := client.events + [AckedEvent(run, a, client.pending[a.seqNo])]))
    else
      s.(net := net, client := client)
  }

  /** One step of the send loop. `n` is the number of bytes a write accepts, or the
      entry the final iteration over `pending` visits next. */
  function ClientStep(run: Run, s: State, n: nat): State {
    var c, now := s.client, s.net.now;
    match c.pc
    case Top => Goto(s, if now < run.End() || c.pending != map[] then TryRecv else Flush)
    case TryRecv => if s.net.ackQueue != [] then PopAck(run, s, TryRecv) else Goto(s, CheckEnd)
    case CheckEnd =>
      if now >= run.End() then Goto(s, CheckDeadline)
      else if |c.pending| >= run.MaxInflight() then Goto(s, WindowWait(now + 2 * MILLISECOND))
      else Goto(s, Pace)
    case CheckDeadline =>
      if now >= run.DrainDeadline() then Goto(s, Flush)
      else Goto(s, DrainSleep(now + MILLISECOND)).(hist := s.hist.(drainRounds := s.hist.drainRounds + 1))
    case DrainSleep(until) => if now >= until then Goto(s, Top) else s
    case WindowWait(until) =>
      if s.net.ackQueue != [] then PopAck(run, s, Top)
      else if !s.net.readerUp || now >= until then Goto(s, Top)
      else s
    case Pace =>
      (match run.Delay()
       case None => Goto(s, Stamp)
       case Some(d) =>
         if now < c.nextSend then s
         else s.(client := c.(pc := Stamp, nextSend := c.nextSend + d)))
    case Stamp =>
      if c.seqNo + 1 >= TWO_64 then Goto(s, Failed([]))
      else
        var p := NewPacket(run, c.seqNo + 1, now);
        s.(client := c.(pc := Writing(now, Frame(p)), seqNo := c.seqNo + 1),
           hist := s.hist.(sent := s.hist.sent + [p], stamps := s.hist.stamps + [now]))
    case Writing(sendNs, rest) =>
      var k := Min(n, |rest|);
      s.(net := s.net.(up := s.net.up + rest[..k]),
         client := c.(pc := if k == |rest| then Insert(sendNs) else Writing(sendNs, rest[k..])))
    case Insert(sendNs) =>
      s.(client := c.(pc := Top, pending := c.pending[c.seqNo := Flight(sendNs, now >= run.WarmupUntil())]),
         hist := s.hist.(inserts := s.hist.inserts + [now]))
    case Flush =>
      if c.pending == map[] then Goto(s, Done)
      else if n in c.pending then
        s.(client := c.(pending := c.pending - {n}, events := c.events + [LostEvent(run, n, c.pending[n])]))
      else s
    case Done => s
    case Failed(_) => s
  }

  // ----- runs

  datatype Act = Env(e: EnvAct) | Step(n: nat) | WriteError

  function Next(run: Run, s: State, a: Act): State {
    match a
    case Env(e) => s.(net := EnvStep(s.net, e))
    case Step(n) => ClientStep(run, s, n)
    case WriteError => if s.client.pc.Writing? then Goto(s, Failed(s.client.pc.rest)) else s
  }

  function Init(run: Run): State {
    State(Client(Top, 0, run.firstSlot, map[], []),
          Net(run.firstSlot, [], true, ReadingHeader([]), 0, [], true, [], [], []),
          History([], [], [], 0))
  }

  /** The state after a schedule, the last act being the latest. */
  function Exec(run: Run, acts: seq<Act>): State {
    if acts == [] then Init(run) else Next(run, Exec(run, acts[..|acts| - 1]), acts[|acts| - 1])
  }

  ghost predicate Reachable(run: Run, s: State) {
    exists acts :: s == Exec(run, acts)
  }

  lemma ReachableNext(run: Run, s: State, a: Act)
    requires Reachable(run, s)
    ensures Reachable(run, Next(run, s, a))
  {
    var acts :| s == Exec(run, acts);
    assert (acts + [a])[..|acts|] == acts;
    assert Exec(run, acts + [a]) == Next(run, s, a);
  }
}
