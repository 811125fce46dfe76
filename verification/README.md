# ipfusch, modelled and proved in Dafny

ipfusch measures a network path. A client opens several streams to a server, sends paced,
numbered packets, and the server echoes each packet's 40-byte header. Every packet ends up
as one event: when it was sent, when its echo was received, if ever, and whether the warm-up
was over. The engine folds the events of all streams, in whatever order they arrive, into a
report: rows per stream, an aggregate, intervals.

This project models one benchmark run from the bytes on the wire to the rows of the report,
and proves what the parts promise each other.

| file | models |
|---|---|
| `Base`, `Framing`, `Stream` | shared types, packets on a byte stream, a stream's parameters, events and logs |
| `Wire` | the data header and its codec |
| `Echo` | the server's framed echo loop over a stream that arrives in arbitrary pieces |
| `Control`, `Handshake` | token check, control frames, a whole server connection, the client's conclusion |
| `UdpServer` | the UDP server with its set of authorized peers |
| `TcpSession` | one TCP stream as a step system: send loop, acknowledgement reader, server, byte pipes |
| `TcpInvariant`, `TcpPreservation`, `TcpClientSteps`, `TcpTheorems` | its invariant, the proof for every schedule, the consequences |
| `TcpTraces` | what the client, the reader and the server do as time goes on |
| `TcpPlay` | the session with the client driven by a schedule of what the environment does; a schedule determines the outcome |
| `TcpClient` | the send loop as a loop, each statement shown to be the step that `TcpPlay` makes; its termination |
| `ServerRefinement` | the step system's server writes what the echo loop of `Echo` writes |
| `StopAndWait`, `UdpClient`, `QuicClient` | what the UDP and QUIC clients share, and each of the two |
| `Pacing` | rates, delays, and how much paced streams can send |
| `Ranks`, `Report`, `ReportLemmas`, `Reducer`, `ReportTheorems` | quantiles, the report as a function of the log, the engine's event and tick loop, what every report satisfies |
| `EndToEnd` | the report rows of TCP, QUIC and UDP streams under any interleaving; a TCP run's rate |
| `RateText`, `Sweep` | rates as text, the sweep grid and its ranking |

## How it is modelled

- Times are whole nanoseconds on one unbounded clock; latencies are whole nanoseconds and
  the report's millisecond figures are left in that unit. The 64-bit nanosecond counter of
  the code (`crates/ipfusch-net/src/lib.rs:45-51`) would wrap after 584 years; the header
  carries the time modulo 2^64.
- Sequence numbers are 64-bit: a stream that would overflow them fails, as a build with
  overflow checks does.
- The payload length has type `U32`. The client casts it to 32 bits
  (`crates/ipfusch-net/src/client.rs:117`) and relies on it fitting.
- Sockets, task scheduling and timers are replaced by nondeterminism. In `TcpSession` a
  schedule is a list of acts: time passes, the server or the reader moves any number of
  bytes, stops, or the client takes its next step. A broken connection is a schedule in
  which a party stops or bytes are never delivered; a write may fail at any point. Theorems
  quantify over all schedules.
- The client has a program point of its own between `write_all` and `pending.insert`, so the
  server and the reader run between the two.
- In `TcpClient`, and in the UDP and QUIC clients, the schedule is an argument, and "some
  time passes in every round" is an explicit precondition of termination. A TCP write is
  assumed to accept at least one byte whenever it returns. Waits for an answer end at the
  timeout; what the scheduler adds counts as time before the next round's slot.
- The UDP and QUIC networks are functions from rounds to what happens in them. What the
  server has sent by each round, and so what the client reads, is defined from them, byte by
  byte for QUIC.
- A paced delay that does not fit 64 bits of nanoseconds is cut off there, as the code's
  conversion does (`crates/ipfusch-net/src/lib.rs:42`).
- The serializer of control messages and the token hash are parameters; the serializer is
  required to round-trip where a result depends on it.
- The percent-quantile's rank is `(n - 1) * percent / 100` rounded half up, in integers; the
  mean and all ratios are reals.
- The outcome of each benchmark of a sweep is an argument of `RunSweep`. Its loss is
  required to be nonnegative, which `AggregateIsConsistent` shows of every report.

## What the code does that is easily missed

- A QUIC stream never recovers from one missed answer: one acknowledgement is read per
  round, so from then on every answer is one packet late and every packet counts as lost
  (`QuicClient.CreditsArePrefix`, and for one concrete network `OneMissCostsAll`).
- A QUIC timeout that expires inside an acknowledgement throws away the bytes already read,
  and later reads start astride two answers. They end the stream with an error, unless those
  bytes happen to be a header: then a packet can be credited that was never answered
  (`QuicClient.CutAnswerFakesCredit`). `CreditIffAnswered` gives the exact condition for one
  round of one network, `CreditIsSoundIff` the bytes that are safe on every network.
- A late or repeated UDP echo uses up the wait of the packet then in flight, which is
  counted as lost even if its own echo is already there. On a path and a socket that keep
  their order, a packet is credited exactly if its echo is there and nothing else is unread
  (`UdpClient.InOrderCredit`). So one late echo costs every packet its credit for as long as
  no packet is lost (`BacklogCostsCredit`, and for one concrete network
  `OneLateAnswerCostsAll`); a loss uses the backlog up (`LossUsesUpBacklog`).
- Consecutive intervals share their boundary only if their ticks differ: two ticks at the
  same instant, which takes a late tick and a coarse clock, make the second interval pretend to
  the nominal length and overlap the first
  (`ReportTheorems.IntervalsTile` gives the exact condition, `SameInstantOverlaps` an input).
- Dividing the rate among the streams overspends it exactly when there are more streams than
  bits per second, because each stream gets at least one (`Pacing.RateSplit`, and
  `TwoStreamsOverspendOneBit`).
- At one bit per second, payloads above 2305843009 bytes leave too early, because the delay
  is cut off at 64 bits (`Pacing.PacedBitsAreAll`, `LargestPayloadAtOneBit`).
- A stream cut inside a header ends cleanly, one cut inside a payload with an error
  (`Echo.EchoOfCut`).

## Model

| member | source | states |
|---|---|---|
| Wire.Encode | crates/ipfusch-core/src/protocol.rs:69-80 | filling the zeroed buffer slice by slice yields the header's layout |
| Wire.DecodeOfEncode | crates/ipfusch-core/src/protocol.rs:69-109 | an encoded header decodes, and to itself, exactly if it has the protocol's magic and version |
| Wire.EncodeOfDecode | crates/ipfusch-core/src/protocol.rs:82-109 | whatever decodes is the encoding of the result, so the verbatim echo is the re-encoded header |
| Wire.ControlIsNeverData | crates/ipfusch-core/src/protocol.rs:82-91 | nothing that opens with the control prefix holds a valid data header |
| Wire.HeaderLayout | crates/ipfusch-core/src/protocol.rs:69-80 | which bytes hold which field |
| Wire.LittleEndianDigit | crates/ipfusch-core/src/protocol.rs:69-80 | each byte of a number is its digit to the base 256, least significant first |
| Wire.ProtocolMarks | crates/ipfusch-core/src/protocol.rs:1-67 | magic, version and control prefix, and what a new header is filled with |
| Echo.SegmentedReader.ReadExact | crates/ipfusch-net/src/server.rs:314-323 | fills exactly the slice asked for from any pieces; otherwise tells whether the stream ended or failed, and has used it up |
| Echo.HandleData | crates/ipfusch-net/src/server.rs:113-136 | the loop's output and end are a function of the input as a whole, for every segmentation, and of whether it ended or failed; the payload buffer always covers the slice read |
| Echo.EchoOfFrames | crates/ipfusch-net/src/server.rs:113-136 | over whole packets the output is exactly their headers in order, whatever follows |
| Echo.WholeFramesIsMaximal | crates/ipfusch-net/src/server.rs:116-130 | the frames counted as whole before a cut are all that fit |
| Echo.EchoOfCut | crates/ipfusch-net/src/server.rs:113-136 | cut after any number of bytes, exactly the whole frames are echoed; the end is clean if and only if the cut is not inside a payload |
| Echo.EchoOfFailure | crates/ipfusch-net/src/server.rs:113-136 | if the connection fails there instead, the same is echoed and the end is never clean |
| Echo.EchoOfBadHeader | crates/ipfusch-net/src/server.rs:116-120 | a header that does not decode ends the stream with its error, behind the echoes of the packets before it |
| Control.TokenMatches | crates/ipfusch-net/src/lib.rs:53-66 | the accumulated OR of XORs is zero exactly if all 32 bytes agree; no token accepts everyone, a missing hash is refused |
| Control.ControlRoundTrip | crates/ipfusch-net/src/server.rs:325-359 | a length-prefixed message is read back whole and the rest of the stream is untouched |
| Control.BadControlFrames | crates/ipfusch-net/src/server.rs:342-359 | a frame cut anywhere reads as a stream that ended too early, one whose body cannot be read is refused |
| Control.ControlLayout | crates/ipfusch-net/src/server.rs:325-374 | a control frame is a four-byte little-endian length and the body, a control datagram the prefix and the body |
| Control.ReadControlFrame | crates/ipfusch-net/src/server.rs:342-359 | reading from any pieces agrees with parsing the bytes as a whole, errors included |
| Control.DatagramRoundTrip | crates/ipfusch-net/src/server.rs:361-374 | a prefixed control datagram is recognized and read back |
| Handshake.HandleConnection | crates/ipfusch-net/src/server.rs:63-139 | the whole connection, handshake and echo, is a function of its input, and of whether it ended or failed, for every segmentation |
| Handshake.Verdicts | crates/ipfusch-net/src/server.rs:72-96 | what is accepted, which session the acknowledgement names and which reason it gives |
| Handshake.HandshakeAgreement | crates/ipfusch-net/src/client.rs:407-419 | for any bytes at all, a client that takes the answer as leave to send does so exactly if the server saw Hello with the right version and token, then StartSession, and went on to its data phase |
| Handshake.FailedHandshakeIsSilent | crates/ipfusch-net/src/server.rs:65-70 | unless two readable messages have come, nothing is written and the connection ends with the error |
| Handshake.SessionOutcome | crates/ipfusch-net/src/client.rs:315-347 | the opening a client sends, followed by its packets, is answered by an acknowledgement that accepts exactly if there is no server token or both hash alike, followed by the packets' headers if and only if it accepts |
| UdpServer.RunUdpServer | crates/ipfusch-net/src/server.rs:141-202 | every datagram of a run gets exactly the answer due, and the authorized peers are those with an accepted Hello so far |
| UdpServer.EchoNeedsHello | crates/ipfusch-net/src/server.rs:185-200 | with a token set, data is echoed only to a peer whose accepted Hello came earlier |
| UdpServer.ControlIsNeverEchoed | crates/ipfusch-net/src/server.rs:153-200 | no datagram with the control prefix is echoed as data, readable or not |
| UdpServer.JunkIsIgnored | crates/ipfusch-net/src/server.rs:185-200 | a datagram that is neither a control message nor holds a data header is not answered |
| UdpServer.UdpHandshakeAgreement | crates/ipfusch-net/src/client.rs:349-372 | the answer to a client's Hello accepts exactly if version and token are right |
| UdpServer.ControlAnswers | crates/ipfusch-net/src/server.rs:154-183 | only a Hello is answered, with session 0 and a reason exactly if it is refused |
| TcpClientSteps.ExecInv | crates/ipfusch-net/src/client.rs:27-145 | the invariant of the TCP stream holds after every schedule |
| TcpTheorems.WireConservation | crates/ipfusch-net/src/client.rs:36-127 | in every reachable state the unacknowledged packets are, in order and each once, queue, return wire, server, outgoing wire, down to the byte, also between write and insert |
| TcpTheorems.PendingConservation | crates/ipfusch-net/src/client.rs:57-126 | `pending` plus the packet written but not inserted is exactly the range of unacknowledged numbers |
| TcpTheorems.AcksAlwaysHit | crates/ipfusch-net/src/client.rs:61-98 | every acknowledgement taken off the queue is the next number and finds its packet pending |
| TcpTheorems.ServerNeverRejects | crates/ipfusch-net/src/client.rs:39-45 | server and reader never meet a header they cannot decode: each is up exactly as long as the schedule has not stopped it |
| TcpTheorems.WindowBound | crates/ipfusch-net/src/client.rs:58-99 | the window lies between 8 and 256; unacknowledged packets never exceed it, nor their bytes 4 MiB or eight payloads |
| TcpTheorems.WindowInFigures | crates/ipfusch-net/src/client.rs:58 | the window is 256 if so many packets fit 4 MiB, 8 if not even 8 do, and else as many as do |
| TcpTheorems.SendsAndDrainsAreBounded | crates/ipfusch-net/src/client.rs:50-107 | no send before its slot, only the last stamped at or after the end, at most one send per delay and one more, at most one drain sleep per millisecond of timeout and one more |
| TcpTheorems.LogIsCausal | crates/ipfusch-net/src/client.rs:37-73 | at every moment no packet was received before it was sent, and receive times follow the log |
| TcpTheorems.FinishedRun | crates/ipfusch-net/src/client.rs:60-139 | a run that ends normally reported each packet once: acknowledged ones first and in order, then lost ones, measured from the first packet after the warm-up |
| TcpTraces.AcksAreTaken | crates/ipfusch-net/src/client.rs:61-73 | every acknowledgement stamped before a round begins is reported in that round |
| TcpTraces.StampedIsReported | crates/ipfusch-net/src/client.rs:60-139 | so a finished run reports as acknowledged whatever was stamped when some round began; only what came later is lost |
| TcpTraces.OutcomeReportsStamped | crates/ipfusch-net/src/client.rs:60-139 | the same of the log a stream returns, for the schedule it followed |
| TcpTraces.SendsWhenItCan | crates/ipfusch-net/src/client.rs:75-121 | with time left and room in the window the client does nothing else before it has stamped the next packet |
| TcpTraces.SlotsAreTaken | crates/ipfusch-net/src/client.rs:101-107 | a packet whose slot has come is not held back |
| TcpTraces.StampsAreHonest | crates/ipfusch-net/src/client.rs:37-46 | send, insert and receive times are the time of the act that records them; a receive time comes with the last byte of an acknowledgement |
| TcpTraces.PacketsInFigures | crates/ipfusch-net/src/client.rs:109-123 | every packet sent carries these header fields, its stamp and a payload of zeros |
| TcpTraces.EventsInFigures | crates/ipfusch-net/src/client.rs:61-73 | an event gives its packet's stamp, its acknowledgement's time and whether it was recorded after the warm-up |
| TcpTraces.WaitsAreShort | crates/ipfusch-net/src/client.rs:75-99 | a wait for room lasts two milliseconds, a sleep of the drain phase one |
| TcpTraces.WaitsEnd | crates/ipfusch-net/src/client.rs:83-98 | a wait for room ends with the first acknowledgement, which it reports, when the reader has stopped, or when its time is up |
| TcpTraces.SleepsInFigures | crates/ipfusch-net/src/client.rs:75-107 | how long a client that follows a schedule sleeps: until its slot, or until its wait is over; nowhere else |
| TcpTraces.LeavesPromptly | crates/ipfusch-net/src/client.rs:60-81 | the loop is left exactly when the end has come and nothing is pending, or the drain deadline has passed |
| TcpTraces.ReaderStamps | crates/ipfusch-net/src/client.rs:37-46 | a whole acknowledgement that is read is stamped and queued under the next number |
| TcpTraces.ServerProgresses | crates/ipfusch-net/src/server.rs:113-136 | a server with bytes to read or write uses every chance it gets |
| TcpTheorems.LossIsNotHasty | crates/ipfusch-net/src/client.rs:52-139 | in no reachable state has a packet been written off as lost before the drain deadline, a timeout after the end of the run, whatever the schedule and however early the reader stopped |
| TcpPlay.OutcomeIsDetermined | crates/ipfusch-net/src/client.rs:60-145 | what the environment does at each point of the loop determines whether the stream fails and which events it reports, the acknowledged ones in place; only the order of the losses is open |
| TcpClient.TcpStream.RunStreamTcp | crates/ipfusch-net/src/client.rs:60-145 | the loop terminates if time passes, and stops at the point its schedule leads to, done or after a failed write |
| TcpClient.RunStream | crates/ipfusch-net/src/client.rs:27-145 | start to finish: outcome and log are the ones the schedule dictates; the log is causal, and unless a write failed it has the closed form of a finished run with at most one packet per delay and one more |
| ServerRefinement.StepServerRefinesEcho | crates/ipfusch-net/src/server.rs:113-136 | bytes written and still due by the step system's server are the echo loop's output for all bytes received, however arrivals, reads and writes are portioned and interleaved |
| ServerRefinement.FinishedServerIsEcho | crates/ipfusch-net/src/server.rs:113-136 | at every moment a fresh server has written a prefix of the echo loop's output for the bytes received so far; with its input used up and its echoes finished, all of it |
| UdpClient.RunStreamUdp | crates/ipfusch-net/src/client.rs:147-223 | for every lossy, repeating, delaying and reordering network the loop makes exactly the rounds that begin before the end, each stamped, written and over when pacing and the network's timing say, unless it fails for one of the reasons given; a packet is credited exactly if the datagram read in its round is an answer that names it |
| StopAndWait.EndsInTime | crates/ipfusch-net/src/client.rs:172-220 | the loop is over at most a write and a timeout after its last packet was stamped |
| StopAndWait.RoundInFigures | crates/ipfusch-net/src/client.rs:172-220 | when each round begins, sends, gives up and ends, and whether its packet is measured, from pacing, timing and timeout |
| UdpClient.CreditedWasDelivered | crates/ipfusch-net/src/client.rs:202-211 | every credited packet was received by the server in its own round |
| UdpClient.InOrderCredit | crates/ipfusch-net/src/client.rs:199-211 | on a path and a socket that keep their order, with losses and delays, a packet is credited exactly if its round receives a datagram, its echo is there and nothing else is unread |
| UdpClient.BacklogCostsCredit | crates/ipfusch-net/src/client.rs:199-211 | once an echo is left unread, no packet is credited as long as every round delivers one |
| UdpClient.OneLateAnswerCostsAll | crates/ipfusch-net/src/client.rs:199-211 | one late echo, then every echo in time and in order: each packet is delivered and its echo there, none is credited |
| UdpClient.LossUsesUpBacklog | crates/ipfusch-net/src/client.rs:199-211 | one late echo, then one lost packet: the packet after it is credited again |
| UdpClient.AnswerNamesItsPacket | crates/ipfusch-net/src/client.rs:199-209 | an answer that names a packet proves the server received it, in this round or earlier; an unreadable one was sent before the stream |
| UdpClient.EchoOfIsServed | crates/ipfusch-net/src/server.rs:185-200 | the UDP server answers a client's packet with its header, once it serves the peer |
| QuicClient.RunStreamQuic | crates/ipfusch-net/src/client.rs:225-313 | for every network that keeps the stream's order, partial reads included, a packet is credited exactly if its round read 40 bytes that name it; rounds, times, end and failure as over UDP |
| QuicClient.CreditIffAnswered | crates/ipfusch-net/src/client.rs:284-299 | that is the case exactly if it and all packets before it were answered in whole and in time; this equivalence holds of a round exactly unless the round took 40 bytes astride two answers that name its packet |
| QuicClient.CreditIsSoundIff | crates/ipfusch-net/src/client.rs:284-299 | it holds on every network exactly if no 40 bytes astride two answers name the packet |
| QuicClient.CreditsArePrefix | crates/ipfusch-net/src/client.rs:258-307 | credited packets are a prefix, the packets answered together with all before them, exactly if no round was faked |
| QuicClient.OneMissCostsAll | crates/ipfusch-net/src/client.rs:284-299 | one late answer, then every answer in time: no packet is credited |
| QuicClient.CutAnswerFakesCredit | crates/ipfusch-net/src/client.rs:284-299 | an input on which a cut answer earns a packet credit it should not have, whenever that packet was sent |
| QuicClient.CutAnswerRun | crates/ipfusch-net/src/client.rs:258-307 | the times at which a stream on that network stamps its first two packets, a whole timeout apart |
| Pacing.DelayIsTight | crates/ipfusch-net/src/lib.rs:35-43 | the delay is the exact spacing rounded down, or one nanosecond; it falls short exactly if the spacing does not fit 64 bits |
| Pacing.PacedBitsAreAll | crates/ipfusch-net/src/lib.rs:41-42 | it fits at two bits per second or more, and at one up to 2305843009 bytes |
| Pacing.LargestPayloadAtOneBit | crates/ipfusch-net/src/lib.rs:41-42 | one byte more and the delay falls short |
| Pacing.StreamEnvelope | crates/ipfusch-net/src/client.rs:101-107 | payload bits stamped by a time, as far as the 64-bit delay accounts for them, are at most one packet plus the rate over the elapsed schedule and one nanosecond per packet |
| Pacing.RateSplit | crates/ipfusch-engine/src/lib.rs:63 | the streams' shares stay within the rate exactly if there are no more streams than bits per second, and then less than one bit per second per stream is lost |
| Pacing.TwoStreamsOverspendOneBit | crates/ipfusch-engine/src/lib.rs:63 | an input on which the shares exceed the rate |
| Pacing.RunEnvelope | crates/ipfusch-engine/src/lib.rs:63-81 | all streams together stay within the resolved rate |
| Pacing.AutoNeverOverspends | crates/ipfusch-engine/src/lib.rs:429-474 | what the automatic rate is for each transport; no number of streams a run may have spends more than it; a rate asked for is taken as it is |
| Pacing.SendBound | crates/ipfusch-net/src/client.rs:60-107 | a paced stream of which only the last send may reach the end makes at most one send per delay, rounded up, and one more |
| Ranks.QuantileIsRanked | crates/ipfusch-engine/src/lib.rs:507-515 | the quantile is one of the values; with the rank (n - 1) times the percentage rounded half up, more than rank of the values are at most it, and all but rank at least |
| Ranks.QuantileIgnoresOrder | crates/ipfusch-engine/src/lib.rs:511-514 | the order of the samples does not matter |
| Ranks.QuantileIsMonotone | crates/ipfusch-engine/src/lib.rs:353-355 | a higher percentage never gives a lower value |
| Ranks.QuantileAtTheEdges | crates/ipfusch-engine/src/lib.rs:507-522 | percentages above 100 count as 100; without values quantile and mean are zero |
| Ranks.MeanIsBetween | crates/ipfusch-engine/src/lib.rs:517-522 | the mean lies between any bounds of the values, and times their number is their sum |
| Ranks.MeanIgnoresOrder | crates/ipfusch-engine/src/lib.rs:517-522 | the order of the samples does not matter to it |
| Reducer.AccumulatorSnoc | crates/ipfusch-engine/src/lib.rs:267-308 | what one event does to its stream's counters and samples is what the batch definitions over the longer log give |
| Reducer.AddToStream | crates/ipfusch-engine/src/lib.rs:276-307 | the in-place update keeps the accumulator equal to the batch definition |
| Reducer.RunReducer.ApplyEvent | crates/ipfusch-engine/src/lib.rs:267-308 | one event keeps every accumulator, total and sample list equal to its definition over the log |
| Reducer.RunReducer.OnTick | crates/ipfusch-engine/src/lib.rs:121-159 | a tick closes the interval of exactly the events since the last one; ticks before the measurement change nothing |
| Reducer.RunLoop | crates/ipfusch-engine/src/lib.rs:88-161 | over any interleaving of events and ticks the final state is what the measured log and the places of the ticks determine |
| Reducer.RunReducer.Finish | crates/ipfusch-engine/src/lib.rs:176-178 | rows and aggregate are a function of the log and the configured duration |
| ReportTheorems.ScheduleIndependence | crates/ipfusch-engine/src/lib.rs:100-161 | any two interleavings of the same per-stream events, ticks anywhere, give identical rows and aggregate, quantiles and jitter included |
| ReportTheorems.RowIsConsistent | crates/ipfusch-engine/src/lib.rs:359-378 | sent is acknowledged plus lost, one latency per acknowledgement, one jitter per neighbouring pair, their absolute difference; jitter is the mean, the quantiles are those of the latencies, throughput times the time measured is the bits sent |
| ReportTheorems.GlobalLatenciesArePermuted | crates/ipfusch-engine/src/lib.rs:287-290 | the latencies in order of arrival are a permutation of the streams' latencies |
| ReportTheorems.GlobalJittersArePermuted | crates/ipfusch-engine/src/lib.rs:291-297 | so are the jitters, though each compares neighbours of its own stream only |
| ReportTheorems.AggregateIsConsistent | crates/ipfusch-engine/src/lib.rs:380-407 | every aggregate counter, reordered packets included, is the sum over the streams; loss is a percentage and the ratio of its counters, so are throughput and packet rate; jitter is the mean and the quantiles are those of all samples in order of arrival |
| ReportTheorems.ReorderedIsZeroIff | crates/ipfusch-engine/src/lib.rs:300-303 | no packet counts as reordered exactly if acknowledgements were reported in sequence |
| ReportTheorems.IntervalIsConsistent | crates/ipfusch-engine/src/lib.rs:310-357 | each interval counts exactly the events between its cuts and ranks exactly their latencies; its jitter is the mean of one absolute difference for each of them that has an acknowledged neighbour in its stream; its loss, throughput and packet rate are the ratios of its counters and the time since the tick before; its index is its place |
| ReportTheorems.IntervalFigures | crates/ipfusch-engine/src/lib.rs:325-333 | an interval's throughput, packet rate and loss in figures, over the time since the tick before, and at least a microsecond |
| ReportTheorems.ReportFigures | crates/ipfusch-engine/src/lib.rs:176-178 | the rates of rows and aggregate in figures, over the configured duration, and at least a microsecond |
| ReportTheorems.IntervalsTelescope | crates/ipfusch-engine/src/lib.rs:139-158 | every counter summed over the intervals gives the totals at the last tick, so the totals less the tail |
| ReportTheorems.IntervalsTile | crates/ipfusch-engine/src/lib.rs:334-344 | the first interval starts at zero; when an interval starts where the last one ended, and when not, exactly |
| ReportTheorems.SameInstantOverlaps | crates/ipfusch-engine/src/lib.rs:334-344 | an input on which two intervals claim the same milliseconds |
| EndToEnd.ClosedFormRow | crates/ipfusch-engine/src/lib.rs:276-307 | of n packets, a acknowledged in order and w before the warm-up: sent n - w, acknowledged max(0, a - w), lost n - max(a, w), bytes sent times payload, none reordered |
| EndToEnd.FinishedIsInOrder | crates/ipfusch-engine/src/lib.rs:300-303 | the measured log of a finished TCP or QUIC stream has its acknowledgements in sequence and counts none as reordered |
| EndToEnd.SequentialIsInOrder | crates/ipfusch-engine/src/lib.rs:300-303 | so has the measured log of a client that waits for each answer, such as the UDP client, whatever is lost |
| EndToEnd.FinishedReport | crates/ipfusch-engine/src/lib.rs:100-161 | under any interleaving, the row of any stream that left a finished log follows from three numbers: packets sent, acknowledged, before the warm-up |
| ReportTheorems.RowsListStreams | crates/ipfusch-engine/src/lib.rs:359-378 | the rows are exactly the streams that have an accumulator, each once, in ascending order |
| EndToEnd.TcpReport | crates/ipfusch-engine/src/lib.rs:52-212 | for every schedule of every stream and every interleaving, a TCP stream has an accumulator exactly if it sent a measured packet, with the closed form, and no latency is clipped |
| EndToEnd.TcpReportTakesAcks | crates/ipfusch-engine/src/lib.rs:52-212 | acknowledgements stamped when some round of the stream began count as acknowledged in its row |
| EndToEnd.TcpRows | crates/ipfusch-engine/src/lib.rs:359-378 | so the report of a TCP run has one row for each such stream, ascending, with the closed form |
| EndToEnd.TcpAggregate | crates/ipfusch-engine/src/lib.rs:380-407 | and its aggregate has the closed forms added up and no reordered packet |
| EndToEnd.QuicReport | crates/ipfusch-engine/src/lib.rs:52-212 | the same for a QUIC stream: acknowledged are the measured rounds that read their own answer, and unless a round was faked these are the rounds answered together with all before them |
| EndToEnd.UdpReport | crates/ipfusch-engine/src/lib.rs:52-212 | the same for a UDP stream: acknowledged are the measured rounds that read their own echo, the rest lost |
| EndToEnd.SequentialReport | crates/ipfusch-engine/src/lib.rs:52-212 | the row of any stream whose client waits for each answer, with no latency clipped |
| EndToEnd.TcpRunKeepsRate | crates/ipfusch-engine/src/lib.rs:60-81 | all TCP streams of a run together keep to the rate resolved for it, in the bits the 64-bit delay accounts for |
| EndToEnd.StopAndWaitRunKeepsRate | crates/ipfusch-engine/src/lib.rs:60-81 | so do all UDP or all QUIC streams of a run |
| RateText.RateRoundTrip | crates/ipfusch-engine/src/lib.rs:485-490 | the label of auto or of any positive 64-bit rate parses back to it |
| RateText.DecimalIsCanonical | crates/ipfusch-engine/src/lib.rs:485-490 | a number is written most significant digit first, without leading zeros |
| RateText.UnitsInFigures | crates/ipfusch-cli/src/main.rs:503-533 | what digits with each unit stand for, and which error there is otherwise |
| RateText.SpaceAndCase | crates/ipfusch-cli/src/main.rs:503-507 | white space around a rate and the case of its letters do not matter |
| RateText.SpacesInFigures | crates/ipfusch-cli/src/main.rs:504 | the twenty-five characters that count as white space |
| RateText.ParseOfDigitsAndUnit | crates/ipfusch-cli/src/main.rs:503-533 | digits and a unit parse exactly if the product is positive and fits 64 bits, and to the product |
| RateText.AcceptedRates | crates/ipfusch-cli/src/main.rs:503-533 | exactly these texts are accepted, in any case and with any white space around them, and to this rate: auto, and digits, perhaps after a plus sign, with a known unit |
| RateText.ParseAllMeaning | crates/ipfusch-cli/src/main.rs:474-501 | a list parses to values exactly if each part does; otherwise the first part that does not gives the error |
| RateText.ParseRatesList | crates/ipfusch-cli/src/main.rs:492-501 | the list is all parts parsed in order, or the first part's error |
| RateText.ParseStreamsList | crates/ipfusch-cli/src/main.rs:474-490 | the list is all counts parsed in order, one per part, each from 1 to 65535, or the first part's error |
| RateText.RatesListRoundTrip | crates/ipfusch-cli/src/main.rs:492-501 | a nonempty list of labels joined by commas parses back to the same rates |
| Sweep.RunSweep | crates/ipfusch-engine/src/lib.rs:214-265 | the runs are a permutation of the whole grid, each with its point's own outcome, strictly ranked by score with ties in grid order; the top are the first of them; any failed benchmark fails the sweep |
| Sweep.SortRanks | crates/ipfusch-engine/src/lib.rs:241-245 | the stable sort keeps every run and ranks strictly |
| Sweep.TopIsBest | crates/ipfusch-engine/src/lib.rs:247-259 | whatever is left out of the top scores no more than anything kept |
| Sweep.ScorePenalizes | crates/ipfusch-engine/src/lib.rs:476-483 | at equal throughput, more latency or loss never improves a score |
| Sweep.ScoreInFigures | crates/ipfusch-engine/src/lib.rs:476-483 | what the three scores are, in Gbit/s, milliseconds and percent |
| Sweep.BalancedTrades | crates/ipfusch-engine/src/lib.rs:481 | at equal throughput the balanced ranking trades five milliseconds for a percent of loss |
| Sweep.GridAt | crates/ipfusch-engine/src/lib.rs:214-219 | the grid is walked stream count by stream count, each with all rates in turn |
| Sweep.RankedInFigures | crates/ipfusch-engine/src/lib.rs:241-245 | a run ranked before another scores more, or the same and was run earlier |
| Sweep.ScoreRewards | crates/ipfusch-engine/src/lib.rs:476-483 | at equal latency and loss, more throughput always scores strictly more |

## Left out

- Sockets, timers, task scheduling, QUIC's own machinery and certificates: replaced by nondeterministic steps and ordered or lossy channels.
- Blocking forever in a TCP write whose connection accepts no more bytes: the code has no timeout there, and the termination result assumes writes return.
- UdpClient.AnswerNamesItsPacket: takes it that nothing reaches the client's connected socket but control datagrams sent before the stream and the server's echoes.
- Echo.HandleData: does not model failing writes of the server, which end its connection.
- Binary floating point: throughput, mean, loss and scores are exact reals, the pacing delay and the quantile rank exact integers, so rounding of the code's 64-bit floats, infinities and NaN are not captured.
- The latency histogram: it rests on the rounding of a library that is not part of this model.
- Serialization of control message bodies and the token hash: parameters of the model.
- Lengths of control bodies above 32 bits fail the handshake; memory limits on announced lengths are not modelled.
- The 64 KiB receive buffer of the UDP server, which no datagram exceeds.
- Recommendations and their texts, run metadata, clocks of day, session numbers, the progress display, JSON output, completions, the launcher and comparison scripts: interface and plumbing.
- The TCP server's limit on concurrent clients, and accepting connections: no property of a run depends on it.
