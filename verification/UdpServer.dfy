/** The UDP server: one socket, many peers, control and data told apart by content. */
module UdpServer {
  import opened Base
  import opened Wire
  import opened Control

  type Peer = nat

  datatype Datagram = Datagram(peer: Peer, frame: Bytes)

  /** A Hello that the server accepts. */
  predicate AcceptedHello(codec: Codec, token: Option<string>, frame: Bytes) {
    match ParseDatagram(codec, frame)
    case Some(Hello(version, _, hash, _)) => version == PROTOCOL_VERSION && TokenAccepted(codec, token, hash)
    case _ => false
  }

  /** The frame carries a whole, valid data header. */
  predicate CarriesHeader(frame: Bytes) {
    |frame| >= DATA_HEADER_SIZE && DecodeHeader(frame[..DATA_HEADER_SIZE]).Ok?
  }

  /** Some earlier datagram of the same peer was an accepted Hello. */
  ghost predicate Greeted(codec: Codec, token: Option<string>, inbox: seq<Datagram>, i: nat, peer: Peer)
    requires i <= |inbox|
  {
    exists j :: 0 <= j < i && inbox[j].peer == peer && AcceptedHello(codec, token, inbox[j].frame)
  }

  /** The server's answer to a control message; only a Hello gets one. */
  function ControlAnswer(codec: Codec, token: Option<string>, frame: Bytes): Option<Bytes> {
    match ParseDatagram(codec, frame)
    case Some(Hello(_, _, _, _)) =>
      var accepted := AcceptedHello(codec, token, frame);
      Some(ControlDatagram(codec, Ack(0, accepted, if accepted then None else Some("token or protocol rejected"))))
    case _ => None
  }

  /** What each datagram of a run is answered with. A data echo needs a valid header and,
      when a token is set, an earlier accepted Hello from the same peer. */
  ghost predicate AnswersProperly(codec: Codec, token: Option<string>, inbox: seq<Datagram>,
                                  outbox: seq<Option<Bytes>>)
  {
    |outbox| == |inbox| && forall i :: 0 <= i < |inbox| ==> AnsweredProperly(codec, token, inbox, outbox, i)
  }

  ghost predicate AnsweredProperly(codec: Codec, token: Option<string>, inbox: seq<Datagram>,
                                   outbox: seq<Option<Bytes>>, i: nat)
    requires i < |inbox| == |outbox|
  {
    var d := inbox[i];
    if ParseDatagram(codec, d.frame).Some? then outbox[i] == ControlAnswer(codec, token, d.frame)
    else if (token.None? || Greeted(codec, token, inbox, i, d.peer)) && CarriesHeader(d.frame) then
      outbox[i] == Some(d.frame[..DATA_HEADER_SIZE])
    else outbox[i] == None
  }

  /** Serves datagrams one after another; `authorized` only ever grows. */
  method RunUdpServer(codec: Codec, token: Option<string>, inbox: seq<Datagram>)
    returns (outbox: seq<Option<Bytes>>, authorized: set<Peer>)
    ensures AnswersProperly(codec, token, inbox, outbox)
    ensures forall peer :: peer in authorized <==> Greeted(codec, token, inbox, |inbox|, peer)
  {
    hide DecodeHeader, StartsWith;
    authorized := {};
    outbox := [];
    for i := 0 to |inbox|
      invariant |outbox| == i
      invariant forall peer :: peer in authorized <==> Greeted(codec, token, inbox, i, peer)
      invariant AnswersProperly(codec, token, inbox[..i], outbox)
    {
      var Datagram(peer, frame) := inbox[i];
      var answer: Option<Bytes> := None;
      ghost var before := authorized;
      match ParseDatagram(codec, frame) {
        case Some(msg) =>
          if msg.Hello? {
            var matches := TokenMatches(codec, token, msg.tokenHash);
            var accepted := msg.version == PROTOCOL_VERSION && matches;
            if accepted {
              authorized := authorized + {peer};
            }
            var ack := Ack(0, accepted, if accepted then None else Some("token or protocol rejected"));
            answer := Some(ControlDatagram(codec, ack));
          }
        case None =>
          if token.None? || peer in authorized {
            if |frame| >= DATA_HEADER_SIZE && DecodeHeader(frame[..DATA_HEADER_SIZE]).Ok? {
              answer := Some(frame[..DATA_HEADER_SIZE]);
            }
          }
      }
      GreetedStep(codec, token, inbox, i);
      AnswerStep(codec, token, inbox, outbox, answer, i, before);
      outbox := outbox + [answer];
    }
    assert inbox[..|inbox|] == inbox;
  }

  lemma GreetedStep(codec: Codec, token: Option<string>, inbox: seq<Datagram>, i: nat)
    requires i < |inbox|
    ensures forall peer :: Greeted(codec, token, inbox, i + 1, peer) <==>
              Greeted(codec, token, inbox, i, peer)
              || (peer == inbox[i].peer && AcceptedHello(codec, token, inbox[i].frame))
  {
    hide AcceptedHello;
    forall peer
      ensures Greeted(codec, token, inbox, i + 1, peer) <==>
                Greeted(codec, token, inbox, i, peer)
                || (peer == inbox[i].peer && AcceptedHello(codec, token, inbox[i].frame))
    {
      if Greeted(codec, token, inbox, i + 1, peer) {
        var j :| 0 <= j < i + 1 && inbox[j].peer == peer && AcceptedHello(codec, token, inbox[j].frame);
      }
    }
  }

  /** Whether a peer was greeted before some datagram is settled by the datagrams before it. */
  lemma GreetedPrefix(codec: Codec, token: Option<string>, inbox: seq<Datagram>, n: nat, i: nat, peer: Peer)
    requires i <= n <= |inbox|
    ensures Greeted(codec, token, inbox[..n], i, peer) <==> Greeted(codec, token, inbox, i, peer)
  {
    hide AcceptedHello;
    if Greeted(codec, token, inbox, i, peer) {
      var j :| 0 <= j < i && inbox[j].peer == peer && AcceptedHello(codec, token, inbox[j].frame);
      assert inbox[..n][j] == inbox[j];
    }
  }

  lemma AnswerStep(codec: Codec, token: Option<string>, inbox: seq<Datagram>, outbox: seq<Option<Bytes>>,
                   answer: Option<Bytes>, i: nat, authorized: set<Peer>)
    requires i < |inbox| && |outbox| == i && AnswersProperly(codec, token, inbox[..i], outbox)
    requires forall peer :: peer in authorized <==> Greeted(codec, token, inbox, i, peer)
    requires var d := inbox[i];
             if ParseDatagram(codec, d.frame).Some? then answer == ControlAnswer(codec, token, d.frame)
             else if (token.None? || d.peer in authorized) && CarriesHeader(d.frame) then
               answer == Some(d.frame[..DATA_HEADER_SIZE])
             else answer == None
    ensures AnswersProperly(codec, token, inbox[..i + 1], outbox + [answer])
  {
    hide ParseDatagram, Greeted, ControlAnswer, CarriesHeader;
    var longer, outbox' := inbox[..i + 1], outbox + [answer];
    forall j | 0 <= j <= i
      ensures AnsweredProperly(codec, token, longer, outbox', j)
    {
      GreetedPrefix(codec, token, inbox, i + 1, j, inbox[j].peer);
      if j < i {
        assert AnsweredProperly(codec, token, inbox[..i], outbox, j);
        GreetedPrefix(codec, token, inbox, i, j, inbox[j].peer);
        assert longer[j] == inbox[..i][j] && outbox'[j] == outbox[j];
      }
    }
  }

  /** With a token set, a data echo goes only to a peer whose accepted Hello came earlier. */
  lemma EchoNeedsHello(codec: Codec, token: Option<string>, inbox: seq<Datagram>, outbox: seq<Option<Bytes>>, i: nat)
    requires AnswersProperly(codec, token, inbox, outbox) && i < |inbox| && token.Some?
    requires outbox[i].Some? && DecodeHeader(outbox[i].value).Ok?
    ensures Greeted(codec, token, inbox, i, inbox[i].peer)
    ensures |inbox[i].frame| >= DATA_HEADER_SIZE && outbox[i].value == inbox[i].frame[..DATA_HEADER_SIZE]
  {
    hide DecodeHeader;
    assert AnsweredProperly(codec, token, inbox, outbox, i);
    if ParseDatagram(codec, inbox[i].frame).Some? {
      var ack := outbox[i].value;
      assert ack[..|CTRL_PREFIX|] == CTRL_PREFIX;
      AckIsNotData(ack);
    }
  }

  lemma AckIsNotData(bs: Bytes)
    requires StartsWith(bs, CTRL_PREFIX)
    ensures DecodeHeader(bs).Err?
  {
    if |bs| == DATA_HEADER_SIZE {
      ControlIsNeverData(bs);
      assert bs[..DATA_HEADER_SIZE] == bs;
    }
  }

  /** A datagram that opens with the control prefix is never echoed as data, whether or not
      its body can be read: its answer, if any, is a control datagram too. */
  lemma ControlIsNeverEchoed(codec: Codec, token: Option<string>, inbox: seq<Datagram>,
                             outbox: seq<Option<Bytes>>, i: nat)
    requires AnswersProperly(codec, token, inbox, outbox) && i < |inbox|
    requires StartsWith(inbox[i].frame, CTRL_PREFIX)
    ensures outbox[i].Some? ==> StartsWith(outbox[i].value, CTRL_PREFIX) && DecodeHeader(outbox[i].value).Err?
  {
    hide DecodeHeader;
    assert AnsweredProperly(codec, token, inbox, outbox, i);
    var frame := inbox[i].frame;
    if ParseDatagram(codec, frame).Some? {
      if outbox[i].Some? {
        assert outbox[i].value[..|CTRL_PREFIX|] == CTRL_PREFIX;
        AckIsNotData(outbox[i].value);
      }
    } else if |frame| >= DATA_HEADER_SIZE {
      ControlIsNeverData(frame);
    }
  }

  /** A datagram that is too short for a data header, or holds none, is not answered, unless it
      is a control message. */
  lemma JunkIsIgnored(codec: Codec, token: Option<string>, inbox: seq<Datagram>, outbox: seq<Option<Bytes>>, i: nat)
    requires AnswersProperly(codec, token, inbox, outbox) && i < |inbox|
    requires var frame := inbox[i].frame;
             && (|frame| < 40 || DecodeHeader(frame[..40]).Err?)
             && (!StartsWith(frame, CTRL_PREFIX) || codec.deserialize(frame[12..]) == None)
    ensures outbox[i] == None
  {
    hide DecodeHeader;
    assert AnsweredProperly(codec, token, inbox, outbox, i);
  }

  /** Only a Hello is answered: with session 0, and a reason exactly if it is refused. */
  lemma ControlAnswers(codec: Codec, token: Option<string>, msg: ControlMessage)
    requires codec.Faithful()
    ensures var answer := ControlAnswer(codec, token, ControlDatagram(codec, msg));
            if !msg.Hello? then answer == None
            else
              var accepted := msg.version == 1
                && (token.None? || (msg.tokenHash.Some? && msg.tokenHash.value == codec.hashToken(token.value)));
              answer == Some(ControlDatagram(codec, if accepted then Ack(0, true, None)
                                                    else Ack(0, false, Some("token or protocol rejected"))))
  {
    DatagramRoundTrip(codec, msg);
  }

  /** A client's Hello and its reading of the answer agree with the server's decision. */
  lemma UdpHandshakeAgreement(codec: Codec, token: Option<string>, hello: ControlMessage)
    requires codec.Faithful() && hello.Hello?
    ensures var frame := ControlDatagram(codec, hello);
            var answer := ControlAnswer(codec, token, frame);
            && answer.Some?
            && ParseDatagram(codec, answer.value).Some?
            && ParseDatagram(codec, answer.value).value.Ack?
            && (ParseDatagram(codec, answer.value).value.accepted
                <==> hello.version == PROTOCOL_VERSION && TokenAccepted(codec, token, hello.tokenHash))
  {
    DatagramRoundTrip(codec, hello);
    var accepted := AcceptedHello(codec, token, ControlDatagram(codec, hello));
    DatagramRoundTrip(codec, Ack(0, accepted, if accepted then None else Some("token or protocol rejected")));
  }
}
