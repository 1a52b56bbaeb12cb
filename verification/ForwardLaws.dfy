/** What a forwarded message looks like on the network, octet by octet, and the way from a publisher to a subscriber. */
module ForwardLaws {
  import opened Options
  import opened MqttSn
  import opened Forward
  import opened Sessions
  import opened TopicLaws

  // ----- reading

  /** What comes behind a message does not matter. */
  lemma TrailingIgnored(p: Publish, rest: seq<Octet>)
    requires |p.data| <= 57
    ensures Parse(Encode(p) + rest) == Some(p)
  {
    ParseEncoded(p);
    var m := Encode(p);
    assert forall i :: 0 <= i < |m| ==> (m + rest)[i] == m[i];
    assert (m + rest)[7..m[0]] == m[7..m[0]];
  }

  /** A message that is cut off is dropped. */
  lemma CutOffDropped(p: Publish, k: nat)
    requires |p.data| <= 57 && 3 <= k < 7 + |p.data|
    ensures Parse(Encode(p)[..k]) == None
  {
  }

  /** The form with a length of three octets is read alike. */
  lemma LongParsed(p: Publish, high: Octet, low: Octet)
    requires 256 * high + low == 9 + |p.data|
    ensures Parse([1, high, low, 0x0c, p.flags, p.topicId / 256, p.topicId % 256, p.msgId / 256, p.msgId % 256] + p.data) == Some(p)
  {
    var m := [1, high, low, 0x0c, p.flags, p.topicId / 256, p.topicId % 256, p.msgId / 256, p.msgId % 256] + p.data;
    assert m[9..|m|] == p.data;
    assert GetU16B(m, 5) == p.topicId && GetU16B(m, 7) == p.msgId;
  }

  // ----- writing

  /** The quality of service towards a connection. */
  function TargetQos(i: nat, t: Turn): int {
    if i == 0 then 1 else t.qos
  }

  /** The gateway and the clients have their own ids for a topic. */
  function TargetTopic(i: nat, t: Turn, j: Job): int {
    if i == 0 then t.gatewayTopicId else (j.topicIndex + 1) % 65536
  }

  /** What ends the attempts. */
  predicate Confirmed(r: Reply, topicId: int) {
    match r.ack
    case None => false
    case Some(ack) =>
      var high: int, low: int := ack[0], ack[1];
      |ack| >= 6 && 256 * high + low == topicId && ack[4] == 0
  }

  /** Who gets a message, and how often. */
  lemma SentExactly(start: Word, j: Job, turns: Turns, i: nat, n: nat)
    requires i < 32 && |j.data| <= 57 && n <= 2
    ensures var t, s := turns[i], SentTo(start, j, turns, i);
            && |s| <= 3
            && (n < |s| <==>
                  && i != j.source && t.connected && (if i == 0 then t.gatewayTopicId != 0 else t.qos != 3)
                  && (n == 0 || TargetQos(i, t) != 0)
                  && forall m | 0 <= m < n :: t.replies[m].connected && !Confirmed(t.replies[m], TargetTopic(i, t, j)))
  {
    ForwardedFaithfully(start, j, turns, i, n);
    hide SentTo, Sent;
    var t := turns[i];
    forall m | 0 <= m < n
      ensures Stops(t.replies[m], TargetTopic(i, t, j)) <==> !t.replies[m].connected || Confirmed(t.replies[m], TargetTopic(i, t, j))
    {
    }
  }

  lemma SentAre(start: Word, j: Job, turns: Turns, i: nat, n: nat)
    requires i < 32 && |j.data| <= 57 && n < |SentTo(start, j, turns, i)|
    ensures n <= 2
    ensures SentTo(start, j, turns, i)[n]
            == Packet(TurnQos(i, turns[i]), TopicId(i, turns[i], j), MsgId(start, j, turns, i), j.data, n)
  {
    hide Packet, MsgId, Stops;
    var t := turns[i];
    if n > 2 {
      SentAt(TurnQos(i, t), TopicId(i, t, j), MsgId(start, j, turns, i), j.data, t.replies, 0, 2);
    } else {
      SentAt(TurnQos(i, t), TopicId(i, t, j), MsgId(start, j, turns, i), j.data, t.replies, 0, n);
    }
  }

  lemma PacketIs(qos: Qos, topic: Word, id: Word, data: seq<Octet>, n: nat)
    requires |data| <= 57 && qos < 3
    ensures Packet(qos, topic, id, data, n)
            == [7 + |data|, 0x0c, 32 * qos + (if n > 0 then 128 else 0), topic / 256, topic % 256, id / 256, id % 256] + data
  {
  }

  /** The ids count from 1 to 65535 and begin again; without acknowledge there is none. */
  lemma MsgIdIs(start: Word, j: Job, turns: Turns, i: nat)
    requires i < 32
    ensures MsgId(start, j, turns, i)
            == if TurnQos(i, turns[i]) == 0 then 0 else (start + Position(j, turns, i) - 1) % 65535 + 1
  {
    if TurnQos(i, turns[i]) > 0 {
      DrawCounts(start, Position(j, turns, i));
    }
    hide Position, Draw, TurnQos;
  }

  /** Length, type, flags, topic id and message id in front of the data; the highest flag marks the repetitions. */
  lemma PacketOctets(start: Word, j: Job, turns: Turns, i: nat, n: nat)
    requires i < 32 && |j.data| <= 57 && n < |SentTo(start, j, turns, i)| && TargetQos(i, turns[i]) < 3
    ensures var qos, topic, id := TargetQos(i, turns[i]), TargetTopic(i, turns[i], j), MsgId(start, j, turns, i);
            && SentTo(start, j, turns, i)[n]
               == [7 + |j.data|, 0x0c, 32 * qos + (if n > 0 then 128 else 0), topic / 256, topic % 256, id / 256, id % 256] + j.data
            && id == if qos == 0 then 0 else (start + Position(j, turns, i) - 1) % 65535 + 1
  {
    SentExactly(start, j, turns, i, 0);
    SentAre(start, j, turns, i, n);
    MsgIdIs(start, j, turns, i);
    assert TurnQos(i, turns[i]) == TargetQos(i, turns[i]) && TopicId(i, turns[i], j) == TargetTopic(i, turns[i], j);
    hide *;
    PacketIs(TurnQos(i, turns[i]), TopicId(i, turns[i], j), MsgId(start, j, turns, i), j.data, n);
  }

  // ----- from a publisher to a subscriber

  /** The forwarder finds the tables as they are now. */
  ghost predicate AsNow(t: Broker, turns: Turns, k: nat)
    requires k < |t.topics|
  {
    forall i | 0 <= i < 32 :: turns[i].connected == t.connected[i] && turns[i].qos == t.topics[k].qos[i]
  }

  /** The first packet to slot i, which that client holds: the data under the id of topic k. */
  ghost predicate Reaches(t: Broker, e: Endpoint, k: Word, qos: int, start: Word, source: nat, data: seq<Octet>, turns: Turns, i: nat)
    requires |data| <= 57 && 0 <= qos < 3 && k < 65535
  {
    && 1 <= i < 32 && t.connected[i] && t.endpoints[i] == e
    && (i != source ==>
          var s := SentTo(start, Job(source, k, data), turns, i); var id := MsgId(start, Job(source, k, data), turns, i);
          |s| >= 1 && s[0] == [7 + |data|, 0x0c, 32 * qos, (k + 1) / 256, (k + 1) % 256, id / 256, id % 256] + data)
  }

  lemma FirstPacket(t: Broker, e: Endpoint, k: Word, qos: int, start: Word, source: nat, data: seq<Octet>, turns: Turns, i: nat)
    requires |data| <= 57 && 0 <= qos < 3 && k < 65535 && k < |t.topics| && AsNow(t, turns, k)
    requires 1 <= i < 32 && t.connected[i] && t.endpoints[i] == e && t.topics[k].qos[i] == qos
    ensures Reaches(t, e, k, qos, start, source, data, turns, i)
  {
    hide SentTo, MsgId, Parse, Confirmed;
    if i != source {
      var j := Job(source, k, data);
      assert turns[i].connected && turns[i].qos == qos;
      SentExactly(start, j, turns, i, 0);
      PacketOctets(start, j, turns, i, 0);
    }
  }

  lemma AskedRange(flags: Octet)
    ensures 0 <= Asked(flags) <= 3
  {
  }

  /**
   * Whatever has happened before: if a client publishes under the id that it was told for a name, then every other client
   * whose subscription to that name was confirmed, and neither ended nor changed since, is sent the data under the id that
   * it was told itself, with the quality of service that it asked for.
   */
  lemma PublishReaches(endpoints: seq<Endpoint>, events: seq<Event>, p: nat, id: int, n: nat, k: nat,
                       e: Endpoint, flags: Octet, start: Word, source: nat, data: seq<Octet>, turns: Turns) returns (i: nat)
    requires |endpoints| == 32 && |data| <= 57 && flags % 4 == 0
    requires Told(endpoints, events, p, id) && Told(endpoints, events, n, k + 1) && events[p].name == events[n].name
    requires Since(endpoints, events, n, e, k)
    requires var t := Run(Empty(endpoints), events).0; k < |t.topics| && AsNow(t, turns, k)
    ensures var t := Run(Empty(endpoints), events).0;
            && 1 <= id == k + 1 <= 1024 && PublishedTopic(t, flags, id) == k
            && 0 <= Asked(events[n].flags) < 3
            && Reaches(t, e, k, Asked(events[n].flags), start, source, data, turns, i)
  {
    var t, qos := Run(Empty(endpoints), events).0, Asked(events[n].flags);
    AskedRange(events[n].flags);
    SameTopicExactly(endpoints, events, p, n, id, k + 1);
    ToldName(endpoints, events, n, k + 1);
    NamesAlways(endpoints, events);
    assert qos != 3;
    hide Run, Told, Since, Total, Reaches, AsNow, Asked, Locate;
    ServedSince(endpoints, events, e, k, qos);
    i :| 1 <= i < 32 && t.connected[i] && t.endpoints[i] == e && t.topics[k].qos[i] == qos;
    FirstPacket(t, e, k, qos, start, source, data, turns, i);
  }
}
