/** The forwarding of a message while clients connect and disconnect: the broker's tables change during every wait. */
module ForwardRun {
  import opened Options
  import opened MqttSn
  import opened Forward
  import opened Sessions

  /** What happens to the tables while the forwarder waits, and the acknowledge that ends the wait, if any. */
  datatype Wait = Wait(events: seq<Event>, ack: Option<Ack>)

  type Waits = s: seq<Wait> | |s| == 3 witness [Wait([], None), Wait([], None), Wait([], None)]

  /** One connection: what happens before the forwarder comes to it, and during its waits. */
  datatype Visit = Visit(before: seq<Event>, others: nat, waits: Waits)

  type Visits = s: seq<Visit> | |s| == CONNECTION_COUNT
    witness seq(CONNECTION_COUNT, _ => Visit([], 0, [Wait([], None), Wait([], None), Wait([], None)]))

  /** Tables and the sessions that they stand for. */
  datatype World = World(tables: Broker, store: Store)

  ghost predicate Ok(w: World, topic: nat) {
    Represents(w.tables, w.store) && topic < |w.tables.topics|
  }

  function After(w: World, events: seq<Event>): World {
    World(Run(w.tables, events).0, StoreRun(w.store, events).0)
  }

  lemma ObtainGrows(t: Broker, name: string)
    ensures |ObtainTopic(t, name).0.topics| >= |t.topics|
  {
  }

  lemma StepGrows(t: Broker, e: Event)
    ensures |Step(t, e).0.topics| >= |t.topics|
  {
    hide ObtainTopic;
    if e.Register? || e.Subscribe? || e.LocalSubscribe? {
      ObtainGrows(t, e.name);
    }
  }

  lemma {:induction false} RunGrows(t: Broker, events: seq<Event>)
    ensures |Run(t, events).0.topics| >= |t.topics|
    decreases |events|
  {
    hide Step;
    if events != [] {
      StepGrows(t, events[0]);
      RunGrows(Step(t, events[0]).0, events[1..]);
    }
  }

  lemma AfterOk(w: World, events: seq<Event>, topic: nat)
    requires Ok(w, topic)
    ensures Ok(After(w, events), topic)
  {
    hide Represents;
    RunRefines(w.tables, w.store, events);
    RunGrows(w.tables, events);
  }

  // ----- one connection

  /** The world when attempt n is made. */
  function AtAttempt(w: World, waits: Waits, n: nat): World
    requires n <= 3
  {
    if n == 0 then w else After(AtAttempt(w, waits, n - 1), waits[n - 1].events)
  }

  lemma {:induction false} AttemptOk(w: World, waits: Waits, n: nat, topic: nat)
    requires Ok(w, topic) && n <= 3
    ensures Ok(AtAttempt(w, waits, n), topic)
  {
    hide Ok, After;
    if n > 0 {
      AttemptOk(w, waits, n - 1, topic);
      AfterOk(AtAttempt(w, waits, n - 1), waits[n - 1].events, topic);
    }
  }

  function ReplyOf(w: World, waits: Waits, i: nat, n: nat): Reply
    requires n < 3 && i < CONNECTION_COUNT
  {
    Reply(AtAttempt(w, waits, n + 1).tables.connected[i], waits[n].ack)
  }

  /** What the forwarder sees of connection i. */
  function TurnOf(w: World, v: Visit, i: nat, topic: nat): Turn
    requires i < CONNECTION_COUNT && topic < |w.tables.topics|
  {
    Turn(v.others, w.tables.connected[i], w.tables.topics[topic].qos[i], w.tables.topics[topic].gatewayTopicId,
         [ReplyOf(w, v.waits, i, 0), ReplyOf(w, v.waits, i, 1), ReplyOf(w, v.waits, i, 2)])
  }

  /** The number of waits from attempt n on. */
  function WaitCount(topicId: Word, replies: Replies, n: nat): (r: nat)
    requires n <= MAX_RETRY
    ensures 1 <= r <= MAX_RETRY + 1 - n
    decreases MAX_RETRY - n
  {
    if n == MAX_RETRY || Stops(replies[n], topicId) then 1 else 1 + WaitCount(topicId, replies, n + 1)
  }

  /** The forwarder waits after every attempt. */
  lemma {:induction false} WaitsAreAttempts(qos: Qos, topicId: Word, msgId: Word, data: seq<Octet>, replies: Replies, n: nat)
    requires n <= MAX_RETRY && HEADER_LENGTH + |data| <= MAX_MESSAGE_LENGTH && qos > 0
    ensures |Sent(qos, topicId, msgId, data, replies, n)| == WaitCount(topicId, replies, n)
    decreases MAX_RETRY - n
  {
    hide Packet, Stops;
    if n < MAX_RETRY {
      WaitsAreAttempts(qos, topicId, msgId, data, replies, n + 1);
    }
  }

  /** The world when the forwarder leaves connection i. */
  function Left(w: World, v: Visit, i: nat, j: Job): World
    requires i < CONNECTION_COUNT && j.topicIndex < |w.tables.topics|
  {
    var t := TurnOf(w, v, i, j.topicIndex);
    AtAttempt(w, v.waits, if Draws(i, t, j) then WaitCount(TopicId(i, t, j), t.replies, 0) else 0)
  }

  // ----- the whole job

  /** The world when the forwarder comes to connection i. */
  ghost function AtVisit(w: World, visits: Visits, i: nat, j: Job): (r: World)
    requires Ok(w, j.topicIndex) && i < CONNECTION_COUNT
    ensures Ok(r, j.topicIndex)
  {
    if i == 0 then
      AfterOk(w, visits[0].before, j.topicIndex);
      After(w, visits[0].before)
    else
      var former := AtVisit(w, visits, i - 1, j);
      LeftOk(former, visits[i - 1], i - 1, j);
      AfterOk(Left(former, visits[i - 1], i - 1, j), visits[i].before, j.topicIndex);
      After(Left(former, visits[i - 1], i - 1, j), visits[i].before)
  }

  lemma LeftOk(w: World, v: Visit, i: nat, j: Job)
    requires Ok(w, j.topicIndex) && i < CONNECTION_COUNT
    ensures Ok(Left(w, v, i, j), j.topicIndex)
  {
    hide Represents;
    var t := TurnOf(w, v, i, j.topicIndex);
    AttemptOk(w, v.waits, if Draws(i, t, j) then WaitCount(TopicId(i, t, j), t.replies, 0) else 0, j.topicIndex);
  }

  ghost function TurnsOf(w: World, visits: Visits, j: Job): (r: Turns)
    requires Ok(w, j.topicIndex)
    ensures forall i :: 0 <= i < CONNECTION_COUNT ==> r[i] == TurnOf(AtVisit(w, visits, i, j), visits[i], i, j.topicIndex)
  {
    seq(CONNECTION_COUNT, i requires 0 <= i < CONNECTION_COUNT => TurnOf(AtVisit(w, visits, i, j), visits[i], i, j.topicIndex))
  }

  // ----- who gets the message

  /** The client at that slot has a session with the topic. */
  ghost predicate Subscriber(w: World, i: nat, topic: nat)
    requires i < CONNECTION_COUNT
  {
    var e := w.tables.endpoints[i];
    ClientSlot(w.tables, i) && e in w.store.clients && topic in w.store.clients[e]
  }

  lemma SubscriberExactly(w: World, i: nat, topic: nat)
    requires Ok(w, topic) && 1 <= i < CONNECTION_COUNT
    ensures Subscriber(w, i, topic) <==> w.tables.connected[i] && w.tables.topics[topic].qos[i] != NOT_SUBSCRIBED
  {
    if w.tables.connected[i] {
      assert ClientSlot(w.tables, i);
      assert SlotOk(w.tables, w.store, i);
    }
  }

  /**
   * The message is sent to a client slot exactly if the client that holds it when the forwarder comes to it has subscribed
   * to the topic and is not the source, and to the gateway exactly if it is up and knows the topic.
   */
  lemma SentToSubscribers(w: World, visits: Visits, start: Word, j: Job, i: nat)
    requires Ok(w, j.topicIndex) && Fits(j) && i < CONNECTION_COUNT
    ensures var now := AtVisit(w, visits, i, j); var s := SentTo(start, j, TurnsOf(w, visits, j), i);
            && (i > 0 ==> (s != [] <==> i != j.source && Subscriber(now, i, j.topicIndex)))
            && (i == 0 ==> (s != [] <==> j.source != 0 && now.store.gatewayUp && now.tables.topics[j.topicIndex].gatewayTopicId != 0))
  {
    hide SentTo, AtVisit, Subscriber;
    var turns := TurnsOf(w, visits, j);
    var now := AtVisit(w, visits, i, j);
    ForwardedFaithfully(start, j, turns, i, 0);
    assert turns[i] == TurnOf(now, visits[i], i, j.topicIndex);
    if i > 0 {
      SubscriberExactly(now, i, j.topicIndex);
    } else {
      assert now.store.gatewayUp == now.tables.connected[0];
    }
  }

  // ----- where the later attempts go

  /** The event opens slot i for its source. */
  predicate Opens(t: Broker, e: Event, i: nat) {
    e.Connect? && i == if Find(t, e.source, 0) < 0 then FirstFree(t.connected, 1) else Find(t, e.source, 0)
  }

  /** The endpoints for which slot i is opened, one after the other. */
  function Openings(t: Broker, events: seq<Event>, i: nat): seq<Endpoint>
    decreases |events|
  {
    if events == [] then []
    else (if Opens(t, events[0], i) then [events[0].source] else []) + Openings(Step(t, events[0]).0, events[1..], i)
  }

  lemma StepEndpoint(t: Broker, e: Event, i: nat)
    requires 1 <= i < CONNECTION_COUNT
    ensures Step(t, e).0.endpoints[i] == if Opens(t, e, i) then e.source else t.endpoints[i]
  {
    hide Find, FirstFree, ObtainTopic;
  }

  function LastOf(s: seq<Endpoint>, otherwise: Endpoint): Endpoint {
    if s == [] then otherwise else s[|s| - 1]
  }

  /** A slot has the endpoint for which it was opened last. */
  lemma {:induction false} EndpointAfter(t: Broker, events: seq<Event>, i: nat)
    requires 1 <= i < CONNECTION_COUNT
    ensures Run(t, events).0.endpoints[i] == LastOf(Openings(t, events, i), t.endpoints[i])
    decreases |events|
  {
    hide Step, Opens;
    if events != [] {
      StepEndpoint(t, events[0], i);
      EndpointAfter(Step(t, events[0]).0, events[1..], i);
    }
  }

  /** The openings of slot i during the first n waits. */
  function OpeningsUntil(w: World, waits: Waits, i: nat, n: nat): seq<Endpoint>
    requires n <= 3
  {
    if n == 0 then []
    else OpeningsUntil(w, waits, i, n - 1) + Openings(AtAttempt(w, waits, n - 1).tables, waits[n - 1].events, i)
  }

  lemma {:induction false} EndpointAtAttempt(w: World, waits: Waits, i: nat, n: nat)
    requires 1 <= i < CONNECTION_COUNT && n <= 3
    ensures AtAttempt(w, waits, n).tables.endpoints[i] == LastOf(OpeningsUntil(w, waits, i, n), w.tables.endpoints[i])
  {
    hide Openings, Run, StoreRun;
    if n > 0 {
      EndpointAtAttempt(w, waits, i, n - 1);
      EndpointAfter(AtAttempt(w, waits, n - 1).tables, waits[n - 1].events, i);
    }
  }

  /** Where attempt n goes, and when that is the client of the first attempt, and when that client has subscribed. */
  ghost predicate GoesTo(first: World, waits: Waits, i: nat, topic: nat, n: nat)
    requires 1 <= i < CONNECTION_COUNT && n <= MAX_RETRY
  {
    var now := AtAttempt(first, waits, n);
    var openings := OpeningsUntil(first, waits, i, n);
    var e := now.tables.endpoints[i];
    && ClientSlot(now.tables, i) && e in now.store.clients
    && (e == first.tables.endpoints[i] <==> openings == [] || openings[|openings| - 1] == first.tables.endpoints[i])
    && topic < |now.tables.topics|
    && (Subscriber(now, i, topic) <==> now.tables.topics[topic].qos[i] != NOT_SUBSCRIBED)
  }

  /**
   * Every attempt goes to the client that holds the slot at that time, which has a session. It is the client that the first
   * attempt went to exactly if the slot has not been opened since, or was opened for that client last; and it has subscribed
   * exactly if the slot then has a quality of service, which the forwarder does not look at again.
   */
  lemma AttemptGoesTo(w: World, visits: Visits, start: Word, j: Job, i: nat, n: nat)
    requires Ok(w, j.topicIndex) && Fits(j) && 1 <= i < CONNECTION_COUNT && n <= MAX_RETRY
    ensures var first := AtVisit(w, visits, i, j);
            n < |SentTo(start, j, TurnsOf(w, visits, j), i)| ==> GoesTo(first, visits[i].waits, i, j.topicIndex, n)
  {
    hide SentTo, AtVisit, AtAttempt, OpeningsUntil, Subscriber;
    if n < |SentTo(start, j, TurnsOf(w, visits, j), i)| {
      var turns := TurnsOf(w, visits, j);
      var first := AtVisit(w, visits, i, j);
      var now := AtAttempt(first, visits[i].waits, n);
      ForwardedFaithfully(start, j, turns, i, n);
      EndpointAtAttempt(first, visits[i].waits, i, n);
      AttemptOk(first, visits[i].waits, n, j.topicIndex);
      assert turns[i] == TurnOf(first, visits[i], i, j.topicIndex);
      StillConnected(first, visits[i], i, j, n);
      SubscriberExactly(now, i, j.topicIndex);
      assert ClientSlot(now.tables, i);
      assert SlotOk(now.tables, now.store, i);
    }
  }

  /** An attempt is only made while the slot is in use. */
  lemma StillConnected(w: World, v: Visit, i: nat, j: Job, n: nat)
    requires Ok(w, j.topicIndex) && i < CONNECTION_COUNT && n <= MAX_RETRY
    requires var t := TurnOf(w, v, i, j.topicIndex);
             t.connected && (n > 0 ==> !Stops(t.replies[n - 1], TopicId(i, t, j)))
    ensures AtAttempt(w, v.waits, n).tables.connected[i]
  {
    hide AtAttempt;
    if n == 0 {
      AttemptZero(w, v.waits);
    }
  }

  lemma AttemptZero(w: World, waits: Waits)
    ensures AtAttempt(w, waits, 0) == w
  {
  }

  // ----- clients that stay and clients that leave

  /** The slot is held by the client. */
  ghost predicate Holds(t: Broker, i: nat, e: Endpoint) {
    ClientSlot(t, i) && t.endpoints[i] == e
  }

  lemma FoundElsewhere(t: Broker, source: Endpoint, i: nat, e: Endpoint)
    requires Distinct(t) && Holds(t, i, e)
    ensures Find(t, source, 0) == i ==> source == e
    ensures source == e ==> 0 <= Find(t, source, 0) <= i
    ensures source == e ==> Find(t, source, 0) == 0 || Find(t, source, 0) == i
  {
    hide Find;
    var k := Find(t, source, 0);
    assert t.connected[i];
    assert k > 0 ==> ClientSlot(t, k);
  }

  lemma StepHolds(t: Broker, event: Event, i: nat, e: Endpoint)
    requires Distinct(t) && Holds(t, i, e) && event != Disconnect(e)
    ensures Holds(Step(t, event).0, i, e)
  {
    hide ObtainTopic, FirstFree, Find, SetQos, ResetQos, Stored;
    if event.Connect? || event.Disconnect? {
      FoundElsewhere(t, event.source, i, e);
    }
  }

  /** A client that does not disconnect keeps its slot. */
  lemma {:induction false} StaysConnected(w: World, events: seq<Event>, i: nat, e: Endpoint)
    requires Represents(w.tables, w.store) && Holds(w.tables, i, e)
    requires forall event :: event in events ==> event != Disconnect(e)
    ensures Holds(Run(w.tables, events).0, i, e)
    decreases |events|
  {
    hide Step, StoreStep, Holds, Represents;
    if events != [] {
      assert events[0] in events && forall event :: event in events[1..] ==> event in events;
      Related(w);
      StepHolds(w.tables, events[0], i, e);
      StepRefines(w.tables, w.store, events[0]);
      StaysConnected(World(Step(w.tables, events[0]).0, StoreStep(w.store, events[0]).0), events[1..], i, e);
    }
  }

  lemma Related(w: World)
    requires Represents(w.tables, w.store)
    ensures Distinct(w.tables)
  {
  }

  /** All attempts go to a client that does not disconnect meanwhile. */
  lemma {:induction false} StayingClientGetsAll(w: World, waits: Waits, i: nat, e: Endpoint, n: nat, topic: nat)
    requires Ok(w, topic) && Holds(w.tables, i, e) && n <= 3
    requires forall k, event :: 0 <= k < n && event in waits[k].events ==> event != Disconnect(e)
    ensures Holds(AtAttempt(w, waits, n).tables, i, e)
  {
    hide Holds, Represents, Run, StoreRun;
    if n > 0 {
      StayingClientGetsAll(w, waits, i, e, n - 1, topic);
      AttemptOk(w, waits, n - 1, topic);
      StaysConnected(AtAttempt(w, waits, n - 1), waits[n - 1].events, i, e);
    }
  }

  /** A client that takes over the slot of one that leaves during the wait has not subscribed to anything. */
  lemma SlotTakenOver(t: Broker, i: nat, e: Endpoint, other: Endpoint)
    requires 1 <= i < CONNECTION_COUNT && Find(t, e, 0) == i && Find(t, other, 0) < 0
    requires forall k :: 1 <= k < i ==> t.connected[k]
    ensures var u := Run(t, [Disconnect(e), Connect(other)]).0;
            Holds(u, i, other) && forall k :: 0 <= k < |u.topics| ==> u.topics[k].qos[i] == NOT_SUBSCRIBED
  {
    var first, second := Disconnect(e), Connect(other);
    var u := Step(t, first).0;
    assert [first, second][1..] == [second] && [second][1..] == [];
    assert Run(t, [first, second]).0 == Step(u, second).0 by {
      assert Run(Step(u, second).0, []).0 == Step(u, second).0;
    }
    FindsNobody(t, u, other);
    FreeAt(u.connected, i, 1);
  }

  /** Who was not there before somebody left is not there afterwards. */
  lemma FindsNobody(t: Broker, u: Broker, e: Endpoint)
    requires Find(t, e, 0) < 0 && u.endpoints == t.endpoints
    requires forall k :: 0 <= k < CONNECTION_COUNT && u.connected[k] ==> t.connected[k]
    ensures Find(u, e, 0) < 0
  {
    forall k | 0 <= k < CONNECTION_COUNT && u.connected[k] ensures u.endpoints[k] != e {
      assert t.connected[k];
    }
  }

  lemma {:induction false} FreeAt(connected: seq<bool>, i: nat, from: nat)
    requires |connected| == CONNECTION_COUNT && from <= i < CONNECTION_COUNT && !connected[i]
    requires forall k :: from <= k < i ==> connected[k]
    ensures FirstFree(connected, from) == i
    decreases i - from
  {
    if from < i {
      FreeAt(connected, i, from + 1);
    }
  }

  /**
   * If the client leaves and another one connects during the first wait, and no acknowledge comes, the retransmission goes
   * to that other client.
   */
  lemma RetransmittedToAnother(w: World, visits: Visits, start: Word, j: Job, i: nat, e: Endpoint, other: Endpoint)
    requires Ok(w, j.topicIndex) && Fits(j) && 1 <= i < CONNECTION_COUNT
    requires var now := AtVisit(w, visits, i, j); var t := TurnOf(now, visits[i], i, j.topicIndex);
             && Draws(i, t, j) && Find(now.tables, e, 0) == i && Find(now.tables, other, 0) < 0
             && forall k :: 1 <= k < i ==> now.tables.connected[k]
    requires visits[i].waits[0] == Wait([Disconnect(e), Connect(other)], None)
    ensures |SentTo(start, j, TurnsOf(w, visits, j), i)| > 1
    ensures var later := AtAttempt(AtVisit(w, visits, i, j), visits[i].waits, 1);
            Holds(later.tables, i, other) && !Subscriber(later, i, j.topicIndex)
  {
    hide SentTo, AtVisit, Run, StoreRun, Subscriber, Find;
    var now := AtVisit(w, visits, i, j);
    var later := AtAttempt(now, visits[i].waits, 1);
    SlotTakenOver(now.tables, i, e, other);
    AttemptZero(now, visits[i].waits);
    assert later == After(now, visits[i].waits[0].events);
    AttemptOk(now, visits[i].waits, 1, j.topicIndex);
    SubscriberExactly(later, i, j.topicIndex);
    ForwardedFaithfully(start, j, TurnsOf(w, visits, j), i, 1);
  }

  /** A broker with one client, which has subscribed to one topic with quality of service 1. */
  function OneClient(endpoints: seq<Endpoint>, e: Endpoint): World
    requires |endpoints| == CONNECTION_COUNT
  {
    After(World(Empty(endpoints), Store(false, endpoints[0], [], {}, map[])), [Connect(e), Subscribe(e, MakeQos(1), "x")])
  }

  lemma TwoSteps(t: Broker, a: Event, b: Event)
    ensures Run(t, [a, b]).0 == Step(Step(t, a).0, b).0
  {
    hide Step;
    assert [a, b][1..] == [b] && [b][1..] == [];
    assert Run(Step(Step(t, a).0, b).0, []).0 == Step(Step(t, a).0, b).0;
  }

  lemma FirstConnects(endpoints: seq<Endpoint>, e: Endpoint)
    requires |endpoints| == CONNECTION_COUNT
    ensures var t := Step(Empty(endpoints), Connect(e)).0;
            && t.names == [] && t.endpoints == endpoints[1 := e] && t.connected == Empty(endpoints).connected[1 := true]
  {
    var t := Empty(endpoints);
    assert forall k :: 0 <= k < CONNECTION_COUNT ==> !t.connected[k];
    assert Find(t, e, 0) < 0;
    FreeAt(t.connected, 1, 1);
  }

  lemma FirstSubscribes(t: Broker, e: Endpoint)
    requires Find(t, e, 0) == 1 && t.names == []
    ensures var u := Step(t, Subscribe(e, MakeQos(1), "x")).0;
            && u.endpoints == t.endpoints && u.connected == t.connected && |u.topics| == 1 && u.topics[0].qos[1] == 1
  {
    assert Locate([], "x") == -1 && Size([]) == 0;
    assert Room([], "x");
    assert GetQos(MakeQos(1)) == 1;
    hide Find;
  }

  lemma OneClientIs(endpoints: seq<Endpoint>, e: Endpoint)
    requires |endpoints| == CONNECTION_COUNT
    ensures var w := OneClient(endpoints, e);
            && Ok(w, 0) && w.tables.endpoints == endpoints[1 := e] && w.tables.topics[0].qos[1] == 1
            && (forall k :: 0 <= k < CONNECTION_COUNT ==> (w.tables.connected[k] <==> k == 1))
            && Find(w.tables, e, 0) == 1 && forall other :: other != e ==> Find(w.tables, other, 0) < 0
  {
    var t := Empty(endpoints);
    var events := [Connect(e), Subscribe(e, MakeQos(1), "x")];
    EmptyOk(endpoints);
    RunRefines(t, Store(false, endpoints[0], [], {}, map[]), events);
    hide Represents, Step;
    TwoSteps(t, events[0], events[1]);
    FirstConnects(endpoints, e);
    var u := Step(t, events[0]).0;
    assert forall k :: 0 <= k < CONNECTION_COUNT ==> (u.connected[k] <==> k == 1);
    assert Find(u, e, 0) == 1;
    FirstSubscribes(u, e);
    var w := OneClient(endpoints, e).tables;
    assert w.connected == u.connected && w.endpoints == u.endpoints;
    forall other | other != e ensures Find(w, other, 0) < 0 {
      assert forall k :: 0 <= k < CONNECTION_COUNT && w.connected[k] ==> w.endpoints[k] != other;
    }
  }

  /** It happens: the subscriber leaves while the forwarder waits, and another client gets the message that it never asked for. */
  lemma TakeoverHappens(endpoints: seq<Endpoint>, e: Endpoint, other: Endpoint, data: seq<Octet>, start: Word) returns (visits: Visits)
    requires |endpoints| == CONNECTION_COUNT && e != other && |data| <= 57
    ensures Ok(OneClient(endpoints, e), 0)
    ensures var w := OneClient(endpoints, e); var j := Job(0, 0, data);
            && |SentTo(start, j, TurnsOf(w, visits, j), 1)| > 1
            && AtVisit(w, visits, 1, j) == w
            && var later := AtAttempt(w, visits[1].waits, 1);
               Holds(later.tables, 1, other) && !Subscriber(later, 1, 0)
  {
    var w, j := OneClient(endpoints, e), Job(0, 0, data);
    OneClientIs(endpoints, e);
    hide OneClient, Ok, SentTo, Represents;
    var quiet := Visit([], 0, [Wait([], None), Wait([], None), Wait([], None)]);
    var taken := Wait([Disconnect(e), Connect(other)], None);
    visits := seq(CONNECTION_COUNT, i => if i == 1 then Visit([], 0, [taken, Wait([], None), Wait([], None)]) else quiet);
    assert After(w, []) == w;
    assert AtVisit(w, visits, 0, j) == w;
    assert Left(w, visits[0], 0, j) == w;
    assert AtVisit(w, visits, 1, j) == w;
    RetransmittedToAnother(w, visits, start, j, 1, e, other);
  }
}
