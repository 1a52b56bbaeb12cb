/** What the next broker does with published packets: it drops what looks like the last message of the topic. */
module Delivery {
  import opened Options
  import opened MqttSn
  import opened Forward

  /** The number of forwarding coroutines. */
  const FORWARD_COUNT: int := 8

  /** The connection and id of the last message of a topic. */
  datatype Mark = Mark(connection: nat, msgId: Word)

  /** A packet that reaches a topic, and whether one of the forwarding coroutines waits for it. */
  datatype Arrival = Arrival(connection: nat, packet: seq<Octet>, idle: bool)

  /** Not the message that the topic has just seen. */
  predicate Fresh(mark: Mark, connection: nat, qos: int, msgId: Word) {
    qos > 0 ==> mark != Mark(connection, msgId)
  }

  function Marked(mark: Mark, connection: nat, qos: int, msgId: Word): Mark {
    if qos > 0 then Mark(connection, msgId) else mark
  }

  function Parsed(a: Arrival): Option<Publish> {
    if |a.packet| < 3 then None else Parse(a.packet)
  }

  /** The mark after the arrivals. */
  function MarkAfter(mark: Mark, s: seq<Arrival>): Mark {
    if s == [] then mark
    else
      var before, a := MarkAfter(mark, s[..|s| - 1]), s[|s| - 1];
      match Parsed(a)
      case None => before
      case Some(p) => Marked(before, a.connection, GetQos(p.flags), p.msgId)
  }

  /** The packet is new to the topic. */
  predicate Taken(mark: Mark, s: seq<Arrival>, j: nat)
    requires j < |s|
  {
    match Parsed(s[j])
    case None => false
    case Some(p) => Fresh(MarkAfter(mark, s[..j]), s[j].connection, GetQos(p.flags), p.msgId)
  }

  /** A packet that is new to the topic while no forwarding coroutine waits leaves its mark and is lost. */
  predicate Forwarded(mark: Mark, s: seq<Arrival>, j: nat)
    requires j < |s|
  {
    Taken(mark, s, j) && s[j].idle
  }

  // ----- when a packet is new

  /** The message: the one of that connection and id, which asks for an acknowledge. */
  predicate Own(a: Arrival, m: Mark) {
    Parsed(a).Some? && GetQos(Parsed(a).value.flags) > 0 && Mark(a.connection, Parsed(a).value.msgId) == m
  }

  /** Another message that asks for an acknowledge. */
  predicate Other(a: Arrival, m: Mark) {
    Parsed(a).Some? && GetQos(Parsed(a).value.flags) > 0 && Mark(a.connection, Parsed(a).value.msgId) != m
  }

  ghost predicate NoOther(s: seq<Arrival>, m: Mark, from: int, to: int)
    requires 0 <= from && to <= |s|
  {
    forall k :: from <= k < to ==> !Other(s[k], m)
  }

  lemma MarkStep(mark: Mark, s: seq<Arrival>, m: Mark)
    requires s != []
    ensures var last := s[|s| - 1];
            MarkAfter(mark, s) == m <==> Own(last, m) || (!Other(last, m) && MarkAfter(mark, s[..|s| - 1]) == m)
    ensures Own(s[|s| - 1], m) ==> !Other(s[|s| - 1], m)
  {
    hide Parsed, GetQos;
  }

  /** The message arrives at i, and no other one later. */
  ghost predicate LastAt(s: seq<Arrival>, m: Mark, i: nat) {
    i < |s| && Own(s[i], m) && NoOther(s, m, i + 1, |s|)
  }

  lemma LastStep(s: seq<Arrival>, m: Mark, i: nat)
    requires s != []
    ensures var n := |s| - 1;
            && (i < n ==> (LastAt(s, m, i) <==> LastAt(s[..n], m, i) && !Other(s[n], m)))
            && (LastAt(s, m, n) <==> Own(s[n], m))
            && (LastAt(s, m, i) ==> i <= n)
  {
    hide Own, Other;
  }

  /** The mark stands for a message if it did so before, or the message has arrived, and no other one since. */
  lemma {:induction false} MarkAfterExactly(mark: Mark, s: seq<Arrival>, m: Mark)
    ensures MarkAfter(mark, s) == m <==> (mark == m && NoOther(s, m, 0, |s|)) || exists i :: LastAt(s, m, i)
  {
    hide Own, Other, MarkAfter;
    if s == [] {
      MarkAfterNothing(mark);
    } else {
      var n := |s| - 1;
      MarkStep(mark, s, m);
      MarkAfterExactly(mark, s[..n], m);
      assert NoOther(s, m, 0, |s|) <==> NoOther(s[..n], m, 0, n) && !Other(s[n], m);
      LastStep(s, m, n);
      hide LastAt, NoOther;
      forall i: nat ensures LastAt(s, m, i) <==> (i == n && Own(s[n], m)) || (i < n && LastAt(s[..n], m, i) && !Other(s[n], m)) {
        LastStep(s, m, i);
      }
      forall i: nat | LastAt(s[..n], m, i) ensures i < n && (LastAt(s, m, i) <==> !Other(s[n], m)) {
        LastInside(s[..n], m, i);
        LastStep(s, m, i);
      }
    }
  }

  lemma LastInside(s: seq<Arrival>, m: Mark, i: nat)
    ensures LastAt(s, m, i) ==> i < |s|
  {
  }

  lemma MarkAfterNothing(mark: Mark)
    ensures MarkAfter(mark, []) == mark
  {
  }

  /** Some other message has arrived between the two. */
  ghost predicate Interrupted(s: seq<Arrival>, m: Mark, i: int, j: nat)
    requires -1 <= i && j <= |s|
  {
    exists k :: i < k < j && Other(s[k], m)
  }

  /**
   * An attempt is new to the topic exactly if another message has arrived since every earlier attempt, and since the start
   * if the topic started with the mark of this message.
   */
  ghost predicate Renewed(mark: Mark, s: seq<Arrival>, m: Mark, j: nat)
    requires j < |s|
  {
    && (forall i :: 0 <= i < j && Own(s[i], m) ==> Interrupted(s, m, i, j))
    && (mark == m ==> Interrupted(s, m, -1, j))
  }

  lemma TakenExactly(mark: Mark, s: seq<Arrival>, m: Mark, j: nat)
    requires j < |s| && Own(s[j], m)
    ensures Taken(mark, s, j) <==> Renewed(mark, s, m, j)
  {
    var before := s[..j];
    MarkAfterExactly(mark, before, m);
    assert Taken(mark, s, j) <==> MarkAfter(mark, before) != m;
    hide Own, Other, Taken, MarkAfter;
    assert NoOther(before, m, 0, |before|) <==> !Interrupted(s, m, -1, j);
    forall i: nat | i < j ensures LastAt(before, m, i) <==> Own(s[i], m) && !Interrupted(s, m, i, j) {
      assert forall k :: i < k < j ==> before[k] == s[k];
    }
    hide LastAt, Interrupted, NoOther;
    assert (exists i :: LastAt(before, m, i)) <==> exists i :: 0 <= i < j && Own(s[i], m) && !Interrupted(s, m, i, j) by {
      forall i: nat | LastAt(before, m, i) ensures i < j {
        LastInside(before, m, i);
      }
    }
  }

  // ----- how often a message is forwarded

  /** The attempts of a message that are forwarded. */
  ghost function ForwardedAt(mark: Mark, s: seq<Arrival>, m: Mark): set<nat> {
    set j: nat | j < |s| && Own(s[j], m) && Forwarded(mark, s, j)
  }

  /** An attempt behind which nothing else of the message's history counts: the topic has not just seen the message. */
  ghost predicate Live(mark: Mark, s: seq<Arrival>, m: Mark, i: nat) {
    i < |s| && Own(s[i], m) && (mark == m ==> Interrupted(s, m, -1, i))
  }

  /** Another message arrives between two attempts. */
  ghost predicate Mixed(mark: Mark, s: seq<Arrival>, m: Mark, i: nat, j: nat) {
    Live(mark, s, m, i) && j < |s| && Own(s[j], m) && Interrupted(s, m, i, j)
  }

  ghost predicate AllIdle(s: seq<Arrival>) {
    forall j :: 0 <= j < |s| ==> s[j].idle
  }

  /** The attempts that are forwarded are those that find the topic changed and a forwarding coroutine waiting. */
  lemma ForwardedExactly(mark: Mark, s: seq<Arrival>, m: Mark, j: nat)
    ensures j in ForwardedAt(mark, s, m) <==> j < |s| && Own(s[j], m) && Renewed(mark, s, m, j) && s[j].idle
  {
    if j < |s| && Own(s[j], m) {
      TakenExactly(mark, s, m, j);
    }
  }

  lemma OwnIsNotOther(a: Arrival, m: Mark)
    ensures !(Own(a, m) && Other(a, m))
  {
  }

  /** The first live attempt finds the topic changed. */
  lemma {:induction false} FirstLive(mark: Mark, s: seq<Arrival>, m: Mark, i: nat) returns (first: nat)
    requires Live(mark, s, m, i)
    ensures first <= i && Live(mark, s, m, first) && Renewed(mark, s, m, first)
    ensures forall j :: 0 <= j < first ==> !Live(mark, s, m, j)
  {
    if j :| 0 <= j < i && Live(mark, s, m, j) {
      first := FirstLive(mark, s, m, j);
    } else {
      first := i;
      hide Own, Other;
      forall j | 0 <= j < i && Own(s[j], m) ensures Interrupted(s, m, j, i) {
        assert !Live(mark, s, m, j);
        var k :| -1 < k < i && Other(s[k], m);
        OwnIsNotOther(s[j], m);
        assert k > j;
      }
    }
  }

  /** Where another message arrives between attempts, a second attempt finds the topic changed. */
  lemma {:induction false} FirstMixed(mark: Mark, s: seq<Arrival>, m: Mark, i: nat, j: nat) returns (second: nat)
    requires Mixed(mark, s, m, i, j)
    ensures i < second < |s| && Own(s[second], m) && Renewed(mark, s, m, second)
    decreases j
  {
    hide Own, Other;
    if p :| i < p < j && Own(s[p], m) && Interrupted(s, m, i, p) {
      second := FirstMixed(mark, s, m, i, p);
    } else {
      second := j;
      var k :| i < k < j && Other(s[k], m);
      forall p | 0 <= p < j && Own(s[p], m) ensures Interrupted(s, m, p, j) {
        OwnIsNotOther(s[p], m);
        assert p < k || !Interrupted(s, m, i, p);
      }
    }
  }

  /**
   * While forwarding coroutines wait, a message is forwarded once, however many of its attempts arrive, if and only if an
   * attempt arrives after the topic has forgotten an earlier message that looked the same, and from then on no other
   * message that asks for an acknowledge arrives between two of its attempts.
   */
  lemma OnceExactly(mark: Mark, s: seq<Arrival>, m: Mark)
    requires AllIdle(s)
    ensures |ForwardedAt(mark, s, m)| == 1 <==> (exists i :: Live(mark, s, m, i)) && !exists i, j :: Mixed(mark, s, m, i, j)
    ensures ForwardedAt(mark, s, m) == {} <==> !exists i :: Live(mark, s, m, i)
  {
    hide Own, Other;
    var at := ForwardedAt(mark, s, m);
    forall j | j in at ensures Live(mark, s, m, j) && Renewed(mark, s, m, j) {
      ForwardedExactly(mark, s, m, j);
    }
    if i :| Live(mark, s, m, i) {
      var first := FirstLive(mark, s, m, i);
      ForwardedExactly(mark, s, m, first);
      if p, j :| Mixed(mark, s, m, p, j) {
        var second := FirstMixed(mark, s, m, p, j);
        ForwardedExactly(mark, s, m, second);
        assert {first, second} <= at;
        TwoElements(at, first, second);
      } else {
        forall j | j in at ensures j == first {
          assert !Mixed(mark, s, m, first, j);
          assert first < j ==> Mixed(mark, s, m, first, j);
        }
        assert at == {first};
      }
    }
  }

  lemma TwoElements(s: set<nat>, a: nat, b: nat)
    requires a in s && b in s && a != b
    ensures |s| != 1 && s != {}
  {
    var rest := s - {a};
    assert b in rest && |s| == |rest| + 1;
  }

  // ----- lost messages

  /** The attempts that come after a lost one are dropped as repetitions until another message arrives. */
  lemma LostWhenBusy(mark: Mark, s: seq<Arrival>, m: Mark, i: nat, j: nat)
    requires i < j < |s| && Own(s[i], m) && Own(s[j], m) && !Interrupted(s, m, i, j)
    ensures j !in ForwardedAt(mark, s, m)
  {
    ForwardedExactly(mark, s, m, j);
  }

  // ----- the attempts of a forwarder

  /** All packets of that connection and id are attempts to send the job's message to connection i. */
  ghost predicate Attempts(s: seq<Arrival>, connection: nat, start: Word, j: Job, turns: Turns, i: nat)
    requires i < CONNECTION_COUNT && Fits(j)
  {
    forall n :: 0 <= n < |s| && Own(s[n], Mark(connection, MsgId(start, j, turns, i))) ==> s[n].packet in SentTo(start, j, turns, i)
  }

  /**
   * Any attempts that arrive, in whatever order, and mixed with whatever other packets: what is forwarded is the data of the
   * message, and it is forwarded once exactly under the condition above.
   */
  lemma DeliveredOnce(start: Word, j: Job, turns: Turns, i: nat, mark: Mark, connection: nat, s: seq<Arrival>)
    requires i < CONNECTION_COUNT && Fits(j) && Draws(i, turns[i], j)
    requires AllIdle(s) && Attempts(s, connection, start, j, turns, i)
    ensures var m := Mark(connection, MsgId(start, j, turns, i));
            && (forall n :: n in ForwardedAt(mark, s, m) ==> Parsed(s[n]).value.data == j.data)
            && (|ForwardedAt(mark, s, m)| == 1 <==> (exists n :: Live(mark, s, m, n)) && !exists n, k :: Mixed(mark, s, m, n, k))
  {
    hide Parse, GetQos, SentTo, Renewed, Live, Mixed, Forwarded;
    var m := Mark(connection, MsgId(start, j, turns, i));
    OnceExactly(mark, s, m);
    forall n | n in ForwardedAt(mark, s, m) ensures Parsed(s[n]).value.data == j.data {
      var sent := SentTo(start, j, turns, i);
      var k :| 0 <= k < |sent| && sent[k] == s[n].packet;
      ForwardedFaithfully(start, j, turns, i, 0);
      ForwardedFaithfully(start, j, turns, i, k);
    }
  }

  /** All attempts of a job that arrive one after the other, with nothing in between, make one message. */
  lemma AttemptsAlone(start: Word, j: Job, turns: Turns, i: nat, mark: Mark, connection: nat, s: seq<Arrival>)
    requires i < CONNECTION_COUNT && Fits(j) && Draws(i, turns[i], j) && s != [] && AllIdle(s)
    requires forall n :: 0 <= n < |s| ==> s[n].connection == connection && s[n].packet in SentTo(start, j, turns, i)
    requires mark != Mark(connection, MsgId(start, j, turns, i))
    ensures |ForwardedAt(mark, s, Mark(connection, MsgId(start, j, turns, i)))| == 1
  {
    hide Parse, GetQos, SentTo, MsgId;
    var m := Mark(connection, MsgId(start, j, turns, i));
    forall n | 0 <= n < |s| ensures Own(s[n], m) {
      var sent := SentTo(start, j, turns, i);
      var k :| 0 <= k < |sent| && sent[k] == s[n].packet;
      ForwardedFaithfully(start, j, turns, i, 0);
      ForwardedFaithfully(start, j, turns, i, k);
      OwnIsNotOther(s[n], m);
    }
    hide Own, Other;
    forall n | 0 <= n < |s| ensures !Other(s[n], m) {
      OwnIsNotOther(s[n], m);
    }
    OnceExactly(mark, s, m);
    assert Live(mark, s, m, 0);
  }

  /** A message without acknowledge is sent once, and forwarded whenever it arrives. */
  lemma Unacknowledged(start: Word, j: Job, turns: Turns, i: nat, mark: Mark, s: seq<Arrival>, n: nat)
    requires i < CONNECTION_COUNT && Fits(j) && Target(i, turns[i], j) && !Draws(i, turns[i], j)
    requires n < |s| && s[n].packet in SentTo(start, j, turns, i)
    ensures |SentTo(start, j, turns, i)| == 1 && Taken(mark, s, n) && Parsed(s[n]).value.data == j.data
  {
    hide Parse, GetQos, SentTo, MsgId;
    var sent := SentTo(start, j, turns, i);
    var k :| 0 <= k < |sent| && sent[k] == s[n].packet;
    ForwardedFaithfully(start, j, turns, i, 0);
    ForwardedFaithfully(start, j, turns, i, 1);
    ForwardedFaithfully(start, j, turns, i, k);
  }

  /** Two messages whose attempts alternate are forwarded again with every attempt. */
  lemma Alternating(connection: nat, topicId: Word, a: Word, b: Word, x: seq<Octet>, y: seq<Octet>, mark: Mark)
    requires a != b && |x| <= 57 && |y| <= 57 && mark != Mark(connection, a)
    ensures var s := [Arrival(connection, Packet(1, topicId, a, x, 0), true), Arrival(connection, Packet(1, topicId, b, y, 0), true),
                      Arrival(connection, Packet(1, topicId, a, x, 1), true)];
            ForwardedAt(mark, s, Mark(connection, a)) == {0, 2}
  {
    var s := [Arrival(connection, Packet(1, topicId, a, x, 0), true), Arrival(connection, Packet(1, topicId, b, y, 0), true),
              Arrival(connection, Packet(1, topicId, a, x, 1), true)];
    var m := Mark(connection, a);
    ParseEncoded(Publish(Flags(1, 0), topicId, a, x));
    ParseEncoded(Publish(Flags(1, 0), topicId, b, y));
    ParseEncoded(Publish(Flags(1, 1), topicId, a, x));
    QosSurvives(1);
    hide Parse, GetQos, Encode;
    assert Own(s[0], m) && Other(s[1], m) && Own(s[2], m);
    hide Own, Other;
    OwnIsNotOther(s[0], m);
    OwnIsNotOther(s[1], m);
    assert Interrupted(s, m, 0, 2);
    ForwardedExactly(mark, s, m, 0);
    ForwardedExactly(mark, s, m, 2);
  }
}
