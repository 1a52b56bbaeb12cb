/** The forwarding of one published message from a connection to the others, with retransmissions. */
module Forward {
  import opened MqttSn
  import opened Options

  const MAX_RETRY: int := 2

  const CONNECTION_COUNT: int := 32

  /** The quality of service towards the gateway. */
  const QOS: Qos := 1

  /** Two bits per connection, where 3 is "not subscribed". */
  type Qos = x: int | 0 <= x < 4

  /** The body of an acknowledge, which has something behind its message id. */
  type Ack = s: seq<Octet> | |s| > 4 witness [0, 0, 0, 0, 0]

  /** How a wait ends: with an acknowledge for the message id or a timeout, and the connection still there or not. */
  datatype Reply = Reply(connected: bool, ack: Option<Ack>)

  type Replies = s: seq<Reply> | |s| == 3 witness [Reply(false, None), Reply(false, None), Reply(false, None)]

  /**
   * What the forwarder finds when it comes to a connection: how many message ids other coroutines have drawn since the
   * connection before, the tables, and how its waits end.
   */
  datatype Turn = Turn(others: nat, connected: bool, qos: Qos, gatewayTopicId: Word, replies: Replies)

  type Turns = s: seq<Turn> | |s| == CONNECTION_COUNT
    witness seq(CONNECTION_COUNT, _ => Turn(0, false, 3, 0, [Reply(false, None), Reply(false, None), Reply(false, None)]))

  /** The message that is forwarded. */
  datatype Job = Job(source: nat, topicIndex: Word, data: seq<Octet>)

  ghost predicate Fits(j: Job) {
    HEADER_LENGTH + |j.data| <= MAX_MESSAGE_LENGTH
  }

  // ----- acknowledges

  predicate Accepts(ack: Ack, topicId: Word) {
    |ack| > 5 && GetU16B(ack, 0) == topicId && ack[4] == 0
  }

  predicate Stops(r: Reply, topicId: Word) {
    !r.connected || (r.ack.Some? && Accepts(r.ack.value, topicId))
  }

  /** The body of a PUBACK of MQTT-SN 1.2, section 5.4.13. */
  function Puback(topicId: Word, msgId: Word, returnCode: Octet): (r: Ack)
    ensures |r| == 5
  {
    U16B(topicId) + U16B(msgId) + [returnCode]
  }

  /** A positive acknowledge stops the retransmissions exactly if it is longer than a PUBACK. */
  lemma AcceptedExactly(ack: Ack, topicId: Word, msgId: Word)
    requires Puback(topicId, msgId, 0) <= ack
    ensures Accepts(ack, topicId) <==> ack != Puback(topicId, msgId, 0)
  {
    ReadsBack(topicId);
    assert ack[..5] == Puback(topicId, msgId, 0);
    assert ack[0] == U16B(topicId)[0] && ack[1] == U16B(topicId)[1] && ack[4] == 0;
    assert |ack| == 5 ==> ack == ack[..5];
  }

  /** The octets that an acknowledge is copied into. */
  const ACK_BUFFER: nat := 8

  function Lesser(x: nat, y: nat): nat {
    if x < y then x else y
  }

  /** How many octets are copied: the length of the buffer has been overwritten by that of the acknowledge before. */
  function CopyLength(ack: Ack): nat {
    var length := |ack|;
    Lesser(length, |ack|)
  }

  /** Positive acknowledges that stop the attempts and stay inside their buffer have one to three octets too many. */
  lemma AcceptedInsideExactly(ack: Ack, topicId: Word, msgId: Word)
    requires Puback(topicId, msgId, 0) <= ack
    ensures CopyLength(ack) <= ACK_BUFFER <==> |ack| <= 8
    ensures Accepts(ack, topicId) && CopyLength(ack) <= ACK_BUFFER <==> 6 <= |ack| <= 8
  {
    AcceptedExactly(ack, topicId, msgId);
    assert |ack| == 5 ==> ack == Puback(topicId, msgId, 0);
  }

  // ----- one connection

  function TurnQos(i: nat, t: Turn): Qos {
    if i > 0 then t.qos else if t.gatewayTopicId == 0 then NOT_SUBSCRIBED else QOS
  }

  function TopicId(i: nat, t: Turn, j: Job): Word {
    if i == 0 then t.gatewayTopicId else (j.topicIndex + 1) % 0x1_0000
  }

  predicate Target(i: nat, t: Turn, j: Job) {
    i != j.source && t.connected && TurnQos(i, t) != NOT_SUBSCRIBED
  }

  function Flags(qos: Qos, k: nat): Octet {
    if k == 0 then MakeQos(qos) else SetDup(MakeQos(qos))
  }

  function Packet(qos: Qos, topicId: Word, msgId: Word, data: seq<Octet>, k: nat): seq<Octet>
    requires HEADER_LENGTH + |data| <= MAX_MESSAGE_LENGTH
  {
    Encode(Publish(Flags(qos, k), topicId, msgId, data))
  }

  /** The packets from attempt k on. */
  function Sent(qos: Qos, topicId: Word, msgId: Word, data: seq<Octet>, replies: Replies, k: nat): seq<seq<Octet>>
    requires k <= MAX_RETRY && HEADER_LENGTH + |data| <= MAX_MESSAGE_LENGTH
    decreases MAX_RETRY - k
  {
    [Packet(qos, topicId, msgId, data, k)]
    + if qos <= 0 || k == MAX_RETRY || Stops(replies[k], topicId) then []
      else Sent(qos, topicId, msgId, data, replies, k + 1)
  }

  /** The attempts differ in the duplicate flag only, and go on while nothing stops them. */
  lemma {:induction false} SentAt(qos: Qos, topicId: Word, msgId: Word, data: seq<Octet>, replies: Replies, k: nat, n: nat)
    requires k <= n <= MAX_RETRY && HEADER_LENGTH + |data| <= MAX_MESSAGE_LENGTH
    ensures var s := Sent(qos, topicId, msgId, data, replies, k);
            && 1 <= |s| <= MAX_RETRY - k + 1
            && (n - k < |s| <==> n == k || (qos > 0 && forall m :: k <= m < n ==> !Stops(replies[m], topicId)))
            && (n - k < |s| ==> s[n - k] == Packet(qos, topicId, msgId, data, n))
    decreases MAX_RETRY - k
  {
    hide Packet, Stops;
    if k < MAX_RETRY {
      SentAt(qos, topicId, msgId, data, replies, k + 1, if n == k then n + 1 else n);
    }
  }

  // ----- message ids of a job

  predicate Draws(i: nat, t: Turn, j: Job) {
    Target(i, t, j) && TurnQos(i, t) > 0
  }

  /** How many ids have been drawn, by this forwarder or another coroutine, before connection i. */
  function Drawn(j: Job, turns: Turns, i: nat): nat
    requires i <= CONNECTION_COUNT
  {
    if i == 0 then 0
    else Drawn(j, turns, i - 1) + turns[i - 1].others + if Draws(i - 1, turns[i - 1], j) then 1 else 0
  }

  /** The position of connection i's id among all ids, if it draws one. */
  function Position(j: Job, turns: Turns, i: nat): nat
    requires i < CONNECTION_COUNT
  {
    Drawn(j, turns, i) + turns[i].others + 1
  }

  function MsgId(start: Word, j: Job, turns: Turns, i: nat): Word
    requires i < CONNECTION_COUNT
  {
    if TurnQos(i, turns[i]) <= 0 then 0 else Draw(start, Position(j, turns, i))
  }

  lemma {:induction false} PositionsGrow(j: Job, turns: Turns, i: nat, k: nat)
    requires i < k < CONNECTION_COUNT && Draws(i, turns[i], j)
    ensures Position(j, turns, i) < Position(j, turns, k)
    decreases k
  {
    if i + 1 < k {
      PositionsGrow(j, turns, i, k - 1);
    }
  }

  /** The targets of a job that acknowledge have different message ids unless very many are drawn meanwhile. */
  lemma TargetsHaveOwnIds(start: Word, j: Job, turns: Turns, i: nat, k: nat)
    requires i < k < CONNECTION_COUNT && Draws(i, turns[i], j) && Draws(k, turns[k], j)
    requires Position(j, turns, k) < Position(j, turns, i) + PERIOD
    ensures MsgId(start, j, turns, i) != 0 && MsgId(start, j, turns, i) != MsgId(start, j, turns, k)
  {
    PositionsGrow(j, turns, i, k);
    IdsDistinct(start, Position(j, turns, i), Position(j, turns, k));
  }

  // ----- a job

  /** The packets for connection i. */
  function SentTo(start: Word, j: Job, turns: Turns, i: nat): seq<seq<Octet>>
    requires i < CONNECTION_COUNT && Fits(j)
  {
    var t := turns[i];
    if Target(i, t, j) then Sent(TurnQos(i, t), TopicId(i, t, j), MsgId(start, j, turns, i), j.data, t.replies, 0) else []
  }

  /**
   * Whatever the tables, the acknowledges and the other coroutines do: each connected subscriber except the source gets
   * the message, at most three times, and reads the same data, topic and message id each time, marked as a duplicate from
   * the second time on; and another attempt is made exactly if the message needs an acknowledge and nothing has stopped
   * the attempts before.
   */
  lemma ForwardedFaithfully(start: Word, j: Job, turns: Turns, i: nat, n: nat)
    requires i < CONNECTION_COUNT && n <= MAX_RETRY && Fits(j)
    ensures var t, s := turns[i], SentTo(start, j, turns, i);
            && |s| <= MAX_RETRY + 1
            && (s != [] <==> Target(i, t, j))
            && (n < |s| <==>
                  Target(i, t, j)
                  && (n == 0 || (TurnQos(i, t) > 0 && forall m :: 0 <= m < n ==> !Stops(t.replies[m], TopicId(i, t, j)))))
            && (n < |s| ==>
                  && |s[n]| >= HEADER_LENGTH
                  && var p := Parse(s[n]);
                     && p.Some? && p.value.data == j.data
                     && p.value.topicId == TopicId(i, t, j) && p.value.msgId == MsgId(start, j, turns, i)
                     && GetQos(p.value.flags) == TurnQos(i, t) && (IsDup(p.value.flags) <==> n > 0))
  {
    hide Encode, Parse, Stops;
    var t := turns[i];
    if Target(i, t, j) {
      var qos := TurnQos(i, t);
      SentAt(qos, TopicId(i, t, j), MsgId(start, j, turns, i), j.data, t.replies, 0, n);
      ParseEncoded(Publish(Flags(qos, n), TopicId(i, t, j), MsgId(start, j, turns, i), j.data));
      QosSurvives(qos);
    }
  }

  /** As long as the connection stays, a client that acknowledges as the protocol says is sent everything three times. */
  lemma PubackSendsThrice(start: Word, j: Job, turns: Turns, i: nat)
    requires i < CONNECTION_COUNT && Fits(j) && Draws(i, turns[i], j)
    requires forall m {:trigger turns[i].replies[m]} :: 0 <= m < 3 ==>
      turns[i].replies[m].connected
      && turns[i].replies[m].ack == Some(Puback(TopicId(i, turns[i], j), MsgId(start, j, turns, i), 0))
    ensures |SentTo(start, j, turns, i)| == 3
  {
    hide Sent;
    ForwardedFaithfully(start, j, turns, i, 2);
    var ack := Puback(TopicId(i, turns[i], j), MsgId(start, j, turns, i), 0);
    AcceptedExactly(ack, TopicId(i, turns[i], j), MsgId(start, j, turns, i));
  }

  // ----- the coroutine

  class Forwarder {
    /** The message buffer: the data stays at its place behind the header, which is written anew for each packet. */
    const message: array<Octet>
    var nextMsgId: Word

    ghost predicate Valid() {
      message.Length == MAX_MESSAGE_LENGTH
    }

    constructor (nextMsgId: Word)
      ensures Valid() && fresh(message) && this.nextMsgId == nextMsgId
    {
      message := new Octet[MAX_MESSAGE_LENGTH](_ => 0);
      this.nextMsgId := nextMsgId;
    }

    method GetNextMsgId() returns (id: Word)
      modifies this`nextMsgId
      ensures id == nextMsgId == NextMsgId(old(nextMsgId))
    {
      var i := nextMsgId + 1;
      nextMsgId := (i + i / 0x1_0000) % 0x1_0000;
      id := nextMsgId;
    }

    /** Other coroutines of the broker draw ids while this one waits. */
    method Others(n: nat)
      modifies this`nextMsgId
      ensures nextMsgId == Draw(old(nextMsgId), n)
    {
      for k := 0 to n
        invariant nextMsgId == Draw(old(nextMsgId), k)
      {
        var _ := GetNextMsgId();
      }
    }

    method WritePacket(flags: Octet, topicId: Word, msgId: Word, length: nat) returns (packet: seq<Octet>)
      requires Valid() && HEADER_LENGTH + length <= MAX_MESSAGE_LENGTH
      modifies message
      ensures packet == Encode(Publish(flags, topicId, msgId, old(message[7..7 + length])))
      ensures message[7..] == old(message[7..])
    {
      message[1], message[2] := PUBLISH, flags;
      message[3], message[4] := topicId / 0x100, topicId % 0x100;
      message[5], message[6] := msgId / 0x100, msgId % 0x100;
      message[0] := 7 + length;
      packet := message[..7 + length];
      assert packet[7..] == message[7..7 + length] == old(message[7..7 + length]);
    }

    /** Sends to one connection until something stops the attempts. */
    method SendTo(qos: Qos, topicId: Word, msgId: Word, length: nat, replies: Replies) returns (sent: seq<seq<Octet>>)
      requires Valid() && HEADER_LENGTH + length <= MAX_MESSAGE_LENGTH
      modifies message
      ensures sent == Sent(qos, topicId, msgId, old(message[7..7 + length]), replies, 0)
      ensures message[7..] == old(message[7..])
    {
      hide Encode, SetDup, MakeQos, Flags, Accepts, Packet, Sent;
      ghost var data := message[7..7 + length];
      var flags, retry, done := MakeQos(qos), 0, false;
      FlagsFollow(qos, 0);
      sent := [];
      while retry <= MAX_RETRY && !done
        invariant 0 <= retry <= MAX_RETRY + 1 && message[7..] == old(message[7..])
        invariant !done && retry <= MAX_RETRY ==> flags == Flags(qos, retry)
        invariant Sent(qos, topicId, msgId, data, replies, 0)
                  == sent + if done || retry > MAX_RETRY then [] else Sent(qos, topicId, msgId, data, replies, retry)
        decreases MAX_RETRY - retry, !done
      {
        assert message[7..7 + length] == message[7..][..length] == data;
        var packet := WritePacket(flags, topicId, msgId, length);
        SentStep(qos, topicId, msgId, data, replies, retry, sent);
        FlagsFollow(qos, retry);
        sent := sent + [packet];
        if qos <= 0 {
          done := true;
        } else if !replies[retry].connected {
          done := true;
        } else if replies[retry].ack.Some? && Accepts(replies[retry].ack.value, topicId) {
          done := true;
        } else {
          flags := SetDup(flags);
          retry := retry + 1;
        }
      }
    }

    /** Publishes to all connections other than the source. */
    method Run(source: nat, topicIndex: Word, length: nat, turns: Turns) returns (sent: seq<seq<seq<Octet>>>)
      requires Valid() && HEADER_LENGTH + length <= MAX_MESSAGE_LENGTH
      modifies this`nextMsgId, message
      ensures var j := Job(source, topicIndex, old(message[7..7 + length]));
              && |sent| == CONNECTION_COUNT
              && (forall i {:trigger sent[i]} :: 0 <= i < CONNECTION_COUNT ==>
                   sent[i] == SentTo(old(nextMsgId), j, turns, i))
              && nextMsgId == Draw(old(nextMsgId), Drawn(j, turns, CONNECTION_COUNT))
    {
      hide Sent, SentTo, MsgId;
      ghost var j := Job(source, topicIndex, message[7..7 + length]);
      sent := [];
      for i := 0 to CONNECTION_COUNT
        invariant |sent| == i && message[7..] == old(message[7..])
        invariant nextMsgId == Draw(old(nextMsgId), Drawn(j, turns, i))
        invariant forall k {:trigger sent[k]} :: 0 <= k < i ==> sent[k] == SentTo(old(nextMsgId), j, turns, k)
      {
        assert message[7..7 + length] == message[7..][..length] == j.data;
        var packets := Visit(i, turns[i], source, topicIndex, length, j, turns, old(nextMsgId));
        sent := sent + [packets];
      }
    }

    /** One turn of the loop over the connections. */
    method Visit(i: nat, t: Turn, source: nat, topicIndex: Word, length: nat, ghost j: Job, ghost turns: Turns, ghost start: Word)
      returns (packets: seq<seq<Octet>>)
      requires Valid() && HEADER_LENGTH + length <= MAX_MESSAGE_LENGTH
      requires i < CONNECTION_COUNT && t == turns[i] && j == Job(source, topicIndex, message[7..7 + length])
      requires nextMsgId == Draw(start, Drawn(j, turns, i))
      modifies this`nextMsgId, message
      ensures packets == SentTo(start, j, turns, i)
      ensures nextMsgId == Draw(start, Drawn(j, turns, i + 1)) && message[7..] == old(message[7..])
    {
      hide Sent, Draw, NextMsgId;
      Others(t.others);
      DrawAgain(start, Drawn(j, turns, i), t.others);
      var qos, topicId: Word := t.qos, (topicIndex + 1) % 0x1_0000;
      if i == 0 {
        qos := if t.gatewayTopicId == 0 then NOT_SUBSCRIBED else QOS;
        topicId := t.gatewayTopicId;
      }
      packets := [];
      if i != source && t.connected && qos != NOT_SUBSCRIBED {
        var msgId := 0;
        if qos > 0 {
          msgId := GetNextMsgId();
          OneMore(start, Drawn(j, turns, i) + t.others);
        }
        packets := SendTo(qos, topicId, msgId, length, t.replies);
      }
    }
  }

  lemma OneMore(start: Word, n: nat)
    ensures Draw(start, n + 1) == NextMsgId(Draw(start, n))
  {
  }

  lemma FlagsFollow(qos: Qos, k: nat)
    ensures Flags(qos, 0) == MakeQos(qos) && SetDup(Flags(qos, k)) == Flags(qos, k + 1)
  {
  }

  /** One more packet behind those that have been sent. */
  lemma SentStep(qos: Qos, topicId: Word, msgId: Word, data: seq<Octet>, replies: Replies, k: nat, sent: seq<seq<Octet>>)
    requires k <= MAX_RETRY && HEADER_LENGTH + |data| <= MAX_MESSAGE_LENGTH
    ensures sent + Sent(qos, topicId, msgId, data, replies, k)
            == sent + [Encode(Publish(Flags(qos, k), topicId, msgId, data))]
               + if qos <= 0 || k == MAX_RETRY || Stops(replies[k], topicId) then []
                 else Sent(qos, topicId, msgId, data, replies, k + 1)
  {
    hide Encode, Stops, Flags;
  }
}
