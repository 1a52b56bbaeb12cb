/** What clients can rely on when they ask for topics, subscribe and leave. */
module TopicLaws {
  import opened Options
  import opened MqttSn
  import opened Forward
  import opened Sessions

  /** The length of all names. */
  function Total(names: seq<string>): nat {
    if names == [] then 0 else |names[0]| + Total(names[1..])
  }

  /** The name is new, and neither too many names nor too many characters are there already. */
  predicate Fits(names: seq<string>, name: string) {
    name !in names && |names| < 1024 && Total(names) + |name| <= 32768
  }

  ghost predicate NamesOk(names: seq<string>) {
    && (forall i, k :: 0 <= i < k < |names| ==> names[i] != names[k])
    && "" !in names && |names| <= 1024 && Total(names) <= 32768
  }

  ghost predicate Gateway(t: Broker, e: Endpoint) {
    t.connected[0] && t.endpoints[0] == e
  }

  ghost predicate Client(t: Broker, e: Endpoint) {
    exists i :: 1 <= i < 32 && t.connected[i] && t.endpoints[i] == e
  }

  // ----- one request for a name

  lemma {:induction false} TotalAppend(names: seq<string>, name: string)
    ensures Total(names + [name]) == Total(names) + |name|
  {
    if names == [] {
      assert names + [name] == [name];
      assert Total([name][1..]) == 0;
    } else {
      TotalAppend(names[1..], name);
      assert (names + [name])[1..] == names[1..] + [name];
    }
  }

  lemma {:induction false} TotalIs(names: seq<string>)
    ensures Size(names) == Total(names)
  {
    if names != [] {
      var n := |names| - 1;
      TotalIs(names[..n]);
      TotalAppend(names[..n], names[n]);
      assert names[..n] + [names[n]] == names;
    }
  }

  lemma {:induction false} LocateFromFinds(names: seq<string>, name: string, i: nat)
    requires i <= |names|
    ensures LocateFrom(names, name, i) < 0 <==> name !in names[i..]
    decreases |names| - i
  {
    if i < |names| {
      LocateFromFinds(names, name, i + 1);
      assert names[i..] == [names[i]] + names[i + 1..];
    }
  }

  lemma LocateFinds(names: seq<string>, name: string)
    ensures Locate(names, name) < 0 <==> name !in names
  {
    LocateFromFinds(names, name, 0);
    assert names[0..] == names;
  }

  lemma ObtainLaw(names: seq<string>, name: string)
    requires NamesOk(names)
    ensures var (after, k) := Obtain(names, name);
            && (k < 0 <==> name == "" || (name !in names && !Fits(names, name)))
            && (k >= 0 ==> after[k] == name && NamesOk(after))
            && after == if name != "" && Fits(names, name) then names + [name] else names
  {
    TotalIs(names);
    LocateFinds(names, name);
    TotalAppend(names, name);
    hide Locate, Size, Total;
  }

  lemma FindLaw(t: Broker, e: Endpoint)
    ensures Find(t, e, 0) == 0 <==> Gateway(t, e)
    ensures Find(t, e, 0) < 0 <==> !Gateway(t, e) && !Client(t, e)
  {
    hide Find;
    var i := Find(t, e, 0);
    assert t.connected[0] || !t.connected[0];
    if k :| 1 <= k < 32 && t.connected[k] && t.endpoints[k] == e {
      assert i >= 0;
    }
  }

  /** Whether the broker looks the name of the message up. */
  ghost predicate Asks(t: Broker, e: Event) {
    match e
    case Register(source, _, _) => Gateway(t, source) || Client(t, source)
    case Subscribe(source, _, _) => Client(t, source) && !Gateway(t, source)
    case LocalSubscribe(_) => true
    case _ => false
  }

  lemma StepNames(t: Broker, e: Event)
    ensures Step(t, e).0.names == if Asks(t, e) then Obtain(t.names, e.name).0 else t.names
  {
    hide Find, Obtain, ObtainTopic, Gateway, Client, Locate, FirstFree;
    if e.Register? || e.Subscribe? {
      FindLaw(t, e.source);
    }
  }

  /** A name is added exactly if somebody who may do so asks for it, it is new, and there is room; otherwise names stay. */
  lemma NamesAfter(t: Broker, e: Event)
    requires NamesOk(t.names)
    ensures NamesOk(Step(t, e).0.names)
    ensures Step(t, e).0.names
            == if Asks(t, e) && e.name != "" && Fits(t.names, e.name) then t.names + [e.name] else t.names
  {
    StepNames(t, e);
    hide Step, Obtain, NamesOk, Fits;
    if Asks(t, e) {
      ObtainLaw(t.names, e.name);
    }
  }

  /** The answer to a client that subscribes: its topic has the name, unless the name is empty or there is no room. */
  lemma SubscribeAnswer(t: Broker, source: Endpoint, flags: Octet, name: string)
    requires NamesOk(t.names)
    ensures var (u, answer) := Step(t, Subscribe(source, flags, name));
            if Gateway(t, source) then answer == Returned(NotSupported, 0)
            else if !Client(t, source) then answer == Disconnected
            else if name == "" || (name !in t.names && !Fits(t.names, name)) then answer == Returned(Congested, 0)
            else answer.Returned? && answer.code == Accepted && 1 <= answer.topicId <= |u.names| && u.names[answer.topicId - 1] == name
  {
    ObtainLaw(t.names, name);
    FindLaw(t, source);
    hide Find, Obtain, Gateway, Client, Fits, NamesOk;
  }

  /** So for a registration, except that the gateway's topic ids are its own. */
  lemma RegisterAnswer(t: Broker, source: Endpoint, topicId: Word, name: string)
    requires NamesOk(t.names)
    ensures var (u, answer) := Step(t, Register(source, topicId, name));
            if !Gateway(t, source) && !Client(t, source) then answer == Disconnected
            else if name == "" || (name !in t.names && !Fits(t.names, name)) then answer == Returned(Congested, topicId)
            else if Gateway(t, source) then answer == Returned(Accepted, topicId)
            else answer.Returned? && answer.code == Accepted && 1 <= answer.topicId <= |u.names| && u.names[answer.topicId - 1] == name
  {
    ObtainLaw(t.names, name);
    FindLaw(t, source);
    hide Find, Obtain, Gateway, Client, Fits, NamesOk;
  }

  /** The gateway's id of every topic, and whether the broker has subscribed to it there, after every message. */
  lemma GatewayTopicAfter(t: Broker, e: Event, k: nat)
    requires NamesOk(t.names) && k < |t.topics|
    ensures var u := Step(t, e).0; var id := t.topics[k].gatewayTopicId; var qos := t.topics[k].qos[0];
            && k < |u.topics|
            && (u.topics[k].gatewayTopicId, u.topics[k].qos[0])
               == match e
                  case Register(source, topicId, name) => (if Gateway(t, source) && t.names[k] == name then topicId else id, qos)
                  case Disconnect(source) => (id, if Gateway(t, source) then 3 else qos)
                  case GatewayConnect(_) => (0, 3)
                  case GatewayGranted(i, topicId, granted) => if i == k then (topicId, granted) else (id, qos)
                  case GatewayReleased(i) => (id, if i == k then 3 else qos)
                  case GatewayRegistered(i, topicId) => (if i == k then topicId else id, qos)
                  case _ => (id, qos)
  {
    if e.Register? || e.Subscribe? || e.LocalSubscribe? {
      ObtainLaw(t.names, e.name);
    }
    if e.Register? || e.Subscribe? || e.Disconnect? || e.Connect? {
      FindLaw(t, e.source);
    }
    hide Find, Obtain, Gateway, Client, Fits, Locate, FirstFree, Total;
  }

  // ----- runs

  lemma {:induction false} NamesRun(t: Broker, events: seq<Event>)
    requires NamesOk(t.names)
    ensures NamesOk(Run(t, events).0.names) && t.names <= Run(t, events).0.names
    decreases |events|
  {
    hide Step, NamesOk;
    if events != [] {
      NamesAfter(t, events[0]);
      NamesRun(Step(t, events[0]).0, events[1..]);
    }
  }

  /** In every state that the broker reaches the names of the topics are pairwise different, and there are not too many. */
  lemma NamesAlways(endpoints: seq<Endpoint>, events: seq<Event>)
    requires |endpoints| == 32
    ensures var names := Run(Empty(endpoints), events).0.names;
            && (forall i, k :: 0 <= i < k < |names| ==> names[i] != names[k])
            && "" !in names && |names| <= 1024 && Total(names) <= 32768
  {
    NamesRun(Empty(endpoints), events);
  }

  lemma {:induction false} RunLength(t: Broker, events: seq<Event>)
    ensures |Run(t, events).1| == |events|
    decreases |events|
  {
    hide Step;
    if events != [] {
      RunLength(Step(t, events[0]).0, events[1..]);
    }
  }

  /** The state before event k, its answer, and the rest of the run. */
  lemma {:induction false} RunAt(t: Broker, events: seq<Event>, k: nat)
    requires k < |events| == |Run(t, events).1|
    ensures var s := Run(t, events[..k]).0;
            && Run(t, events).1[k] == Step(s, events[k]).1
            && Run(t, events).0 == Run(Step(s, events[k]).0, events[k + 1..]).0
    decreases |events|
  {
    hide Step;
    if k == 0 {
      assert events[..0] == [];
    } else {
      var u := Step(t, events[0]).0;
      RunLength(u, events[1..]);
      RunAt(u, events[1..], k - 1);
      assert events[..k][1..] == events[1..][..k - 1] && events[1..][k..] == events[k + 1..];
    }
  }

  /** The answer to message k tells a client the id of a topic. */
  ghost predicate Told(endpoints: seq<Endpoint>, events: seq<Event>, k: nat, id: int)
    requires |endpoints| == 32
  {
    var (t, answers) := Run(Empty(endpoints), events);
    && k < |events| && |answers| == |events| && answers[k] == Returned(Accepted, id)
    && (events[k].Subscribe? || (events[k].Register? && !Gateway(Run(Empty(endpoints), events[..k]).0, events[k].source)))
  }

  /** A topic id that a client is told is the place of the name. */
  lemma AnswerTells(t: Broker, e: Event, id: int)
    requires NamesOk(t.names) && Step(t, e).1 == Returned(Accepted, id)
    requires e.Subscribe? || (e.Register? && !Gateway(t, e.source))
    ensures var names := Step(t, e).0.names; 1 <= id <= |names| && names[id - 1] == e.name
  {
    hide Step, Gateway, Client, Fits, NamesOk;
    if e.Subscribe? {
      SubscribeAnswer(t, e.source, e.flags, e.name);
    } else {
      RegisterAnswer(t, e.source, e.topicId, e.name);
    }
  }

  /** The id belongs to the name ever after. */
  lemma ToldName(endpoints: seq<Endpoint>, events: seq<Event>, k: nat, id: int)
    requires |endpoints| == 32 && Told(endpoints, events, k, id)
    ensures var names := Run(Empty(endpoints), events).0.names;
            1 <= id <= |names| && names[id - 1] == events[k].name
  {
    hide Run, Step, Gateway, NamesOk;
    var t, e := Run(Empty(endpoints), events[..k]).0, events[k];
    NamesAlwaysOk(endpoints, events[..k]);
    RunAt(Empty(endpoints), events, k);
    NamesAfter(t, e);
    NamesRun(Step(t, e).0, events[k + 1..]);
    AnswerTells(t, e, id);
  }

  /** Over any run, two clients are told the same topic id if and only if they have asked for the same name. */
  lemma SameTopicExactly(endpoints: seq<Endpoint>, events: seq<Event>, i: nat, k: nat, a: int, b: int)
    requires |endpoints| == 32 && Told(endpoints, events, i, a) && Told(endpoints, events, k, b)
    ensures a == b <==> events[i].name == events[k].name
  {
    ToldName(endpoints, events, i, a);
    ToldName(endpoints, events, k, b);
    NamesAlways(endpoints, events);
    hide Run, Told, Total;
    var names := Run(Empty(endpoints), events).0.names;
    assert names[a - 1] == names[b - 1] ==> a == b;
  }

  // ----- subscriptions

  /** The quality of service of a client's subscription, or 3. */
  function Quality(a: Store, e: Endpoint, k: int): int {
    if e in a.clients && k in a.clients[e] then a.clients[e][k] else 3
  }

  /** The subscription that is asked for: 3 if none. */
  function Asked(flags: Octet): int {
    if flags / 32 % 4 == 3 then 3 else if flags / 32 % 4 == 0 then 0 else 1
  }

  /** The gateway speaks from that endpoint. */
  predicate Hidden(a: Store, e: Endpoint) {
    a.gatewayUp && a.gateway == e
  }

  /** The name is the one of topic k. */
  predicate IsName(names: seq<string>, name: string, k: int) {
    0 <= k < |names| && names[k] == name
  }

  /** Who is told what when connecting, disconnecting and unsubscribing. */
  lemma ConnectionAnswers(a: Store, e: Event)
    ensures e.Connect? ==>
              StoreStep(a, e).1
              == if Hidden(a, e.source) then Returned(NotSupported, 0)
                 else if e.source !in a.clients && |a.clients| == 31 then Returned(Congested, 0)
                 else Returned(Accepted, 0)
    ensures e.Disconnect? ==> (StoreStep(a, e).1 == Disconnected <==> !Hidden(a, e.source) && e.source !in a.clients)
    ensures e.Unsubscribe? ==>
              StoreStep(a, e).1 == if Hidden(a, e.source) || e.source in a.clients then Done else Disconnected
  {
    hide Obtain, Locate;
  }

  /** Who is a client after a message. */
  lemma ClientsAfter(a: Store, event: Event, e: Endpoint)
    ensures var (b, answer) := StoreStep(a, event);
            e in b.clients <==>
              match event
              case Connect(source) => e in a.clients || (source == e && answer == Returned(Accepted, 0))
              case Disconnect(source) => e in a.clients && (source != e || Hidden(a, e))
              case _ => e in a.clients
  {
    hide Obtain, Locate;
  }

  /** When the gateway is there, and where. */
  lemma GatewayAfter(a: Store, event: Event)
    ensures var (b, answer) := StoreStep(a, event);
            && b.gateway == (if event.GatewayConnect? then event.gateway else a.gateway)
            && (b.gatewayUp <==>
                  match event
                  case GatewayConnect(_) => true
                  case GatewayAccepted => true
                  case GatewayLost => false
                  case Disconnect(source) => a.gatewayUp && source != a.gateway
                  case _ => a.gatewayUp)
  {
    hide Obtain, Locate;
  }

  lemma LocateLaw(names: seq<string>, name: string, k: int)
    requires NamesOk(names)
    ensures k >= 0 ==> (Locate(names, name) == k <==> IsName(names, name, k))
  {
    LocateFinds(names, name);
    hide Total;
  }

  /** What every message does to every subscription, and what the gateway or a local subscriber does not do. */
  lemma QualityAfter(a: Store, event: Event, e: Endpoint, k: nat)
    requires NamesOk(a.names)
    ensures var (b, answer) := StoreStep(a, event);
            Quality(b, e, k)
            == match event
               case Connect(source) => if source == e && answer == Returned(Accepted, 0) then 3 else Quality(a, e, k)
               case Disconnect(source) => if source == e && !Hidden(a, e) then 3 else Quality(a, e, k)
               case Subscribe(source, flags, name) =>
                 if source == e && answer == Returned(Accepted, k + 1) then Asked(flags) else Quality(a, e, k)
               case Unsubscribe(source, name) =>
                 if source == e && !Hidden(a, e) && IsName(a.names, name, k) then 3 else Quality(a, e, k)
               case _ => Quality(a, e, k)
  {
    hide Obtain, Locate, NamesOk, IsName;
    if event.Unsubscribe? {
      LocateLaw(a.names, event.name, k);
    }
  }

  /** Which topics have a local subscriber. */
  lemma LocalAfter(a: Store, event: Event, k: nat)
    requires NamesOk(a.names)
    ensures var b := StoreStep(a, event).0;
            k in b.local <==> k in a.local || (event.LocalSubscribe? && event.name != "" && IsName(b.names, event.name, k))
  {
    if event.LocalSubscribe? {
      var (after, i) := Obtain(a.names, event.name);
      ObtainLaw(a.names, event.name);
      hide Obtain, Locate, Total, Fits;
    }
  }

  // ----- who has a subscription after any run

  /** The broker confirms a subscription of that client to topic k. */
  ghost predicate Confirms(t: Broker, event: Event, e: Endpoint, k: nat) {
    event.Subscribe? && event.source == e && Step(t, event).1 == Returned(Accepted, k + 1)
  }

  /** The client begins anew, leaves, or gives topic k up. */
  ghost predicate Ends(t: Broker, event: Event, e: Endpoint, k: nat) {
    || (event == Connect(e) && Step(t, event).1 == Returned(Accepted, 0))
    || (event == Disconnect(e) && !Gateway(t, e))
    || (event.Unsubscribe? && event.source == e && !Gateway(t, e) && IsName(t.names, event.name, k))
  }

  /** The state that event i meets. */
  function Before(endpoints: seq<Endpoint>, events: seq<Event>, i: nat): Broker
    requires |endpoints| == 32 && i <= |events|
  {
    Run(Empty(endpoints), events[..i]).0
  }

  /** With event n the client has got its subscription, and nothing has ended or changed it since. */
  ghost predicate Since(endpoints: seq<Endpoint>, events: seq<Event>, n: nat, e: Endpoint, k: nat)
    requires |endpoints| == 32
  {
    && n < |events| && Confirms(Before(endpoints, events, n), events[n], e, k) && Asked(events[n].flags) != 3
    && forall i | n < i < |events| ::
         !Ends(Before(endpoints, events, i), events[i], e, k) && !Confirms(Before(endpoints, events, i), events[i], e, k)
  }

  /** The client has a slot with that quality of service for topic k. */
  ghost predicate Served(t: Broker, e: Endpoint, k: nat, qos: int) {
    k < |t.topics| && exists i {:trigger t.connected[i]} :: 1 <= i < 32 && t.connected[i] && t.endpoints[i] == e && t.topics[k].qos[i] == qos
  }

  lemma ServedIs(t: Broker, a: Store, e: Endpoint, k: nat, qos: Qos)
    requires Represents(t, a) && qos != 3
    ensures Served(t, e, k, qos) <==> Quality(a, e, k) == qos
  {
    if k < |t.topics| {
      ReceiversExactly(t, a, k, e, qos);
    } else {
      NoTopic(t, a, e, k);
    }
    KnownQuality(t, a, e, k);
    hide Represents;
  }

  lemma NoTopic(t: Broker, a: Store, e: Endpoint, k: nat)
    requires Represents(t, a) && k >= |t.topics|
    ensures Quality(a, e, k) == 3
  {
    if e in a.clients {
      assert HasSlot(t, e);
      var i :| ClientSlot(t, i) && t.endpoints[i] == e;
      assert SlotOk(t, a, i);
    }
  }

  /** A stored quality of service is never 3. */
  lemma KnownQuality(t: Broker, a: Store, e: Endpoint, k: nat)
    requires Represents(t, a)
    ensures Quality(a, e, k) != 3 <==> e in a.clients && k in a.clients[e]
  {
    if e in a.clients && k in a.clients[e] {
      assert HasSlot(t, e);
      var i :| ClientSlot(t, i) && t.endpoints[i] == e;
      assert SlotOk(t, a, i);
      assert t.topics[k].qos[i] != NOT_SUBSCRIBED;
    }
  }

  lemma QualityStep(t: Broker, a: Store, event: Event, e: Endpoint, k: nat)
    requires Represents(t, a) && NamesOk(t.names)
    ensures Quality(StoreStep(a, event).0, e, k)
            == if Confirms(t, event, e, k) then Asked(event.flags) else if Ends(t, event, e, k) then 3 else Quality(a, e, k)
  {
    Gateways(t, a, e);
    hide Represents, StoreStep, Step, NamesOk, Quality, IsName, Hidden, Gateway, Asked;
    StepRefines(t, a, event);
    QualityAfter(a, event, e, k);
  }

  lemma Gateways(t: Broker, a: Store, e: Endpoint)
    requires Represents(t, a)
    ensures a.names == t.names && (Gateway(t, e) <==> Hidden(a, e))
  {
    hide Distinct, FreeSlotsOk, LocalOk, SlotOk, HasSlot;
  }

  lemma {:induction false} RunLast(t: Broker, a: Store, events: seq<Event>)
    requires events != []
    ensures var n := |events| - 1;
            && Run(t, events).0 == Step(Run(t, events[..n]).0, events[n]).0
            && StoreRun(a, events).0 == StoreStep(StoreRun(a, events[..n]).0, events[n]).0
    decreases |events|
  {
    hide Step, StoreStep;
    var n := |events| - 1;
    if n == 0 {
      assert events[..0] == [] && events[1..] == [];
      assert Run(Step(t, events[0]).0, []).0 == Step(t, events[0]).0;
      assert StoreRun(StoreStep(a, events[0]).0, []).0 == StoreStep(a, events[0]).0;
    } else {
      RunLast(Step(t, events[0]).0, StoreStep(a, events[0]).0, events[1..]);
      assert events[1..][..n - 1] == events[..n][1..];
    }
  }

  lemma SinceLast(endpoints: seq<Endpoint>, events: seq<Event>, n: nat, e: Endpoint, k: nat)
    requires |endpoints| == 32 && events != []
    ensures var m := |events| - 1; var t := Before(endpoints, events, m);
            Since(endpoints, events, n, e, k) <==>
              if n == m then Confirms(t, events[m], e, k) && Asked(events[m].flags) != 3
              else Since(endpoints, events[..m], n, e, k) && !Confirms(t, events[m], e, k) && !Ends(t, events[m], e, k)
  {
    hide Confirms, Ends, Run, Asked;
    var m := |events| - 1;
    forall i | 0 <= i < m ensures Before(endpoints, events[..m], i) == Before(endpoints, events, i) {
      assert events[..m][..i] == events[..i];
    }
    hide Before;
  }

  lemma {:induction false} QualitySince(endpoints: seq<Endpoint>, events: seq<Event>, e: Endpoint, k: nat)
    requires |endpoints| == 32
    ensures var a := StoreRun(Store(false, endpoints[0], [], {}, map[]), events).0;
            && (Quality(a, e, k) != 3 <==> exists n: nat :: Since(endpoints, events, n, e, k))
            && forall n: nat :: Since(endpoints, events, n, e, k) ==> Quality(a, e, k) == Asked(events[n].flags)
    decreases |events|
  {
    var t, a := Empty(endpoints), Store(false, endpoints[0], [], {}, map[]);
    if events == [] {
      assert StoreRun(a, events).0 == a;
    } else {
      var m := |events| - 1;
      var before, last := events[..m], events[m];
      var u := Run(t, before).0;
      QualitySince(endpoints, before, e, k);
      EmptyOk(endpoints);
      RunRefines(t, a, before);
      NamesAlwaysOk(endpoints, before);
      QualityStep(u, StoreRun(a, before).0, last, e, k);
      RunLast(t, a, events);
      assert u == Before(endpoints, events, m);
      hide Since, Confirms, Ends, Run, StoreRun, Step, StoreStep, Represents, NamesOk, Quality, Before;
      forall n: nat
        ensures Since(endpoints, events, n, e, k) <==>
                  if n == m then Confirms(u, last, e, k) && Asked(last.flags) != 3
                  else Since(endpoints, before, n, e, k) && !Confirms(u, last, e, k) && !Ends(u, last, e, k)
        ensures Since(endpoints, before, n, e, k) ==> n < m && before[n] == events[n]
      {
        SinceLast(endpoints, events, n, e, k);
        SinceInside(endpoints, before, n, e, k);
      }
    }
  }

  lemma SinceInside(endpoints: seq<Endpoint>, events: seq<Event>, n: nat, e: Endpoint, k: nat)
    requires |endpoints| == 32
    ensures Since(endpoints, events, n, e, k) ==> n < |events|
  {
  }

  lemma NamesAlwaysOk(endpoints: seq<Endpoint>, events: seq<Event>)
    requires |endpoints| == 32
    ensures NamesOk(Run(Empty(endpoints), events).0.names)
  {
    NamesRun(Empty(endpoints), events);
  }

  /**
   * After any run, messages of topic k go to a client with some quality of service exactly if the broker has confirmed a
   * subscription to it, with that quality, that nothing has ended or changed since.
   */
  lemma ServedSince(endpoints: seq<Endpoint>, events: seq<Event>, e: Endpoint, k: nat, qos: Qos)
    requires |endpoints| == 32 && qos != 3
    ensures Served(Run(Empty(endpoints), events).0, e, k, qos)
            <==> exists n: nat :: Since(endpoints, events, n, e, k) && Asked(events[n].flags) == qos
  {
    var a := Store(false, endpoints[0], [], {}, map[]);
    EmptyOk(endpoints);
    RunRefines(Empty(endpoints), a, events);
    QualitySince(endpoints, events, e, k);
    ServedIs(Run(Empty(endpoints), events).0, StoreRun(a, events).0, e, k, qos);
    hide Served, Since, Quality, Run, StoreRun, Represents;
    forall n: nat ensures Since(endpoints, events, n, e, k) ==> n < |events| {
      SinceInside(endpoints, events, n, e, k);
    }
  }
}
