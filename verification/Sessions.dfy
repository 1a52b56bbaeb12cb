/** The connection table and the quality of service matrix of the broker, and the sessions that they stand for. */
module Sessions {
  import opened MqttSn
  import opened Forward
  import opened Delivery
  import opened Options

  const MAX_TOPIC_COUNT: int := 1024

  const TOPIC_BUFFER: int := 0x8000

  datatype Endpoint = Endpoint(address: nat, port: nat)

  /** For each connection the quality of service of its subscription. */
  type QosArray = s: seq<Qos> | |s| == CONNECTION_COUNT witness seq(CONNECTION_COUNT, _ => NOT_SUBSCRIBED)

  datatype Topic = Topic(qos: QosArray, gatewayTopicId: Word, subscribed: bool, mark: Mark)

  /** Slot 0 belongs to the gateway, the others to clients. */
  datatype Tables = Tables(endpoints: seq<Endpoint>, connected: seq<bool>, names: seq<string>, topics: seq<Topic>)

  datatype ReturnCode = Accepted | Congested | NotSupported

  /** The answer to a message; a client without connection is told to disconnect. */
  datatype Answer = Nothing | Disconnected | Done | Returned(code: ReturnCode, topicId: int)

  datatype Event =
    | Connect(source: Endpoint)
    | Disconnect(source: Endpoint)
    | Register(source: Endpoint, topicId: Word, name: string)
    | Subscribe(source: Endpoint, flags: Octet, name: string)
    | Unsubscribe(source: Endpoint, name: string)
    | GatewayConnect(gateway: Endpoint)
    | GatewayAccepted
    | GatewayLost
    | GatewayGranted(topic: nat, gatewayTopicId: Word, granted: Qos)
    | GatewayReleased(topic: nat)
    | GatewayRegistered(topic: nat, gatewayTopicId: Word)
    | LocalSubscribe(name: string)

  ghost predicate Sized(t: Tables) {
    |t.endpoints| == |t.connected| == CONNECTION_COUNT && |t.topics| == |t.names|
  }

  type Broker = t: Tables | Sized(t) witness
    Tables(seq(CONNECTION_COUNT, _ => Endpoint(0, 0)), seq(CONNECTION_COUNT, _ => false), [], [])

  // ----- topics

  /** The index of the first topic of that name, or -1. */
  function Locate(names: seq<string>, name: string): (r: int)
    ensures -1 <= r < |names|
    ensures r >= 0 ==> names[r] == name
  {
    LocateFrom(names, name, 0)
  }

  function LocateFrom(names: seq<string>, name: string, i: nat): (r: int)
    requires i <= |names|
    ensures -1 <= r < |names|
    ensures r >= 0 ==> names[r] == name
    decreases |names| - i
  {
    if i == |names| then -1 else if names[i] == name then i else LocateFrom(names, name, i + 1)
  }

  function Size(names: seq<string>): nat {
    if names == [] then 0 else Size(names[..|names| - 1]) + |names[|names| - 1]|
  }

  predicate Room(names: seq<string>, name: string) {
    |names| < MAX_TOPIC_COUNT && Size(names) + |name| <= TOPIC_BUFFER
  }

  /** The names with the given one and its index, or -1 if it is empty or there is no room. */
  function Obtain(names: seq<string>, name: string): (r: (seq<string>, int))
    ensures names <= r.0 && -1 <= r.1 < |r.0| && |r.0| <= |names| + 1
    ensures |r.0| > |names| ==> r.1 == |names|
  {
    if name == "" then (names, -1)
    else if Locate(names, name) >= 0 then (names, Locate(names, name))
    else if !Room(names, name) then (names, -1)
    else (names + [name], |names|)
  }

  /** Without subscriptions. */
  function NewTopic(): (r: Topic)
    ensures forall i :: 0 <= i < CONNECTION_COUNT ==> r.qos[i] == NOT_SUBSCRIBED
    ensures !r.subscribed
  {
    Topic(seq(CONNECTION_COUNT, _ => NOT_SUBSCRIBED), 0, false, Mark(0, 0))
  }

  function ObtainTopic(t: Broker, name: string): (r: (Broker, int))
    ensures r.0.names == Obtain(t.names, name).0 && r.1 == Obtain(t.names, name).1
    ensures r.0.endpoints == t.endpoints && r.0.connected == t.connected
    ensures t.topics <= r.0.topics
    ensures forall k :: |t.topics| <= k < |r.0.topics| ==> r.0.topics[k] == NewTopic()
  {
    var (names, index) := Obtain(t.names, name);
    (t.(names := names, topics := if |names| > |t.names| then t.topics + [NewTopic()] else t.topics), index)
  }

  function WithQos(topic: Topic, i: nat, qos: Qos): Topic
    requires i < CONNECTION_COUNT
  {
    topic.(qos := topic.qos[i := qos])
  }

  function WithGateway(topic: Topic, id: Word): Topic {
    topic.(gatewayTopicId := id)
  }

  function SetQos(topics: seq<Topic>, k: nat, i: nat, qos: Qos): (r: seq<Topic>)
    requires k < |topics| && i < CONNECTION_COUNT
    ensures |r| == |topics|
  {
    topics[k := WithQos(topics[k], i, qos)]
  }

  /** Ends the subscriptions of a connection. */
  function ResetQos(topics: seq<Topic>, i: nat): (r: seq<Topic>)
    requires i < CONNECTION_COUNT
    ensures |r| == |topics|
    ensures forall k {:trigger r[k]} :: 0 <= k < |r| ==> r[k] == WithQos(topics[k], i, NOT_SUBSCRIBED)
  {
    seq(|topics|, k requires 0 <= k < |topics| => WithQos(topics[k], i, NOT_SUBSCRIBED))
  }

  /** The stored form: 3 stands for -1. */
  function Stored(flags: Octet): Qos {
    var qos := GetQos(flags);
    if qos < 0 then NOT_SUBSCRIBED else if qos < QOS then qos else QOS
  }

  // ----- connections

  /** The first connection of that endpoint from slot i on, or -1. */
  function Find(t: Broker, source: Endpoint, i: nat): (r: int)
    requires i <= CONNECTION_COUNT
    ensures r == -1 || i <= r < CONNECTION_COUNT
    ensures r >= 0 ==> t.connected[r] && t.endpoints[r] == source
    ensures forall k {:trigger t.connected[k]} :: i <= k < (if r < 0 then CONNECTION_COUNT else r) ==>
      !(t.connected[k] && t.endpoints[k] == source)
    decreases CONNECTION_COUNT - i
  {
    if i == CONNECTION_COUNT then -1
    else if t.connected[i] && t.endpoints[i] == source then i
    else Find(t, source, i + 1)
  }

  /** The first free slot from i on, or -1. */
  function FirstFree(connected: seq<bool>, i: nat): (r: int)
    requires |connected| == CONNECTION_COUNT && i <= CONNECTION_COUNT
    ensures r == -1 || i <= r < CONNECTION_COUNT
    ensures r >= 0 ==> !connected[r]
    ensures r < 0 ==> forall k :: i <= k < CONNECTION_COUNT ==> connected[k]
    decreases CONNECTION_COUNT - i
  {
    if i == CONNECTION_COUNT then -1 else if !connected[i] then i else FirstFree(connected, i + 1)
  }

  // ----- the messages

  function DoConnect(t: Broker, source: Endpoint): (Broker, Answer) {
    var found := Find(t, source, 0);
    var i := if found < 0 then FirstFree(t.connected, 1) else found;
    if i < 0 then (t, Returned(Congested, 0))
    else if i == 0 then (t, Returned(NotSupported, 0))
    else (Open(t, source, i), Returned(Accepted, 0))
  }

  function Open(t: Broker, source: Endpoint, i: nat): Broker
    requires i < CONNECTION_COUNT
  {
    t.(endpoints := t.endpoints[i := source], connected := t.connected[i := true], topics := ResetQos(t.topics, i))
  }

  function DoDisconnect(t: Broker, source: Endpoint): (Broker, Answer) {
    var i := Find(t, source, 0);
    if i < 0 then (t, Disconnected)
    else (t.(connected := t.connected[i := false], topics := ResetQos(t.topics, i)), Nothing)
  }

  function DoRegister(t: Broker, source: Endpoint, topicId: Word, name: string): (Broker, Answer) {
    var i := Find(t, source, 0);
    if i < 0 then (t, Disconnected)
    else
      var (u, k) := ObtainTopic(t, name);
      if k < 0 then (u, Returned(Congested, topicId))
      else if i == 0 then (u.(topics := u.topics[k := WithGateway(u.topics[k], topicId)]), Returned(Accepted, topicId))
      else (u, Returned(Accepted, k + 1))
  }

  function DoSubscribe(t: Broker, source: Endpoint, flags: Octet, name: string): (Broker, Answer) {
    var i := Find(t, source, 0);
    if i < 0 then (t, Disconnected)
    else if i == 0 then (t, Returned(NotSupported, 0))
    else
      var (u, k) := ObtainTopic(t, name);
      if k < 0 then (u, Returned(Congested, 0))
      else (u.(topics := SetQos(u.topics, k, i, Stored(flags))), Returned(Accepted, k + 1))
  }

  function DoUnsubscribe(t: Broker, source: Endpoint, name: string): (Broker, Answer) {
    var i := Find(t, source, 0);
    var k := Locate(t.names, name);
    if i < 0 then (t, Disconnected)
    else if i == 0 || k < 0 then (t, Done)
    else (t.(topics := SetQos(t.topics, k, i, NOT_SUBSCRIBED)), Done)
  }

  /** The topic that a client publishes to: by its id, or by a name of two characters in place of the id; else -1. */
  function PublishedTopic(t: Broker, flags: Octet, topicId: Word): int {
    if flags % 4 == 0 then (if 1 <= topicId <= |t.topics| then topicId - 1 else -1)
    else if flags % 4 == 2 then Locate(t.names, ShortName(topicId))
    else -1
  }

  function ShortName(topicId: Word): string {
    [(topicId / 0x100) as char, (topicId % 0x100) as char]
  }

  function ForgetGateway(topics: seq<Topic>): (r: seq<Topic>)
    ensures |r| == |topics|
    ensures forall k {:trigger r[k]} :: 0 <= k < |r| ==>
      r[k] == WithGateway(WithQos(topics[k], 0, NOT_SUBSCRIBED), 0)
  {
    seq(|topics|, k requires 0 <= k < |topics| => WithGateway(WithQos(topics[k], 0, NOT_SUBSCRIBED), 0))
  }

  function DoLocalSubscribe(t: Broker, name: string): Broker {
    var (u, k) := ObtainTopic(t, name);
    if k < 0 then u else u.(topics := u.topics[k := u.topics[k].(subscribed := true)])
  }

  /** What the broker does between two waits. */
  function Step(t: Broker, e: Event): (Broker, Answer) {
    match e
    case Connect(source) => DoConnect(t, source)
    case Disconnect(source) => DoDisconnect(t, source)
    case Register(source, topicId, name) => DoRegister(t, source, topicId, name)
    case Subscribe(source, flags, name) => DoSubscribe(t, source, flags, name)
    case Unsubscribe(source, name) => DoUnsubscribe(t, source, name)
    case GatewayConnect(gateway) =>
      (t.(endpoints := t.endpoints[0 := gateway], connected := t.connected[0 := true], topics := ForgetGateway(t.topics)), Nothing)
    case GatewayAccepted => (t.(connected := t.connected[0 := true]), Nothing)
    case GatewayLost => (t.(connected := t.connected[0 := false]), Nothing)
    case GatewayGranted(k, id, granted) =>
      (if k < |t.topics| then t.(topics := SetQos(t.topics[k := WithGateway(t.topics[k], id)], k, 0, granted)) else t, Nothing)
    case GatewayReleased(k) =>
      (if k < |t.topics| then t.(topics := SetQos(t.topics, k, 0, NOT_SUBSCRIBED)) else t, Nothing)
    case GatewayRegistered(k, id) =>
      (if k < |t.topics| then t.(topics := t.topics[k := WithGateway(t.topics[k], id)]) else t, Nothing)
    case LocalSubscribe(name) => (DoLocalSubscribe(t, name), Nothing)
  }

  predicate ClientSubscribed(topic: Topic) {
    topic.subscribed || exists i :: 1 <= i < CONNECTION_COUNT && topic.qos[i] != NOT_SUBSCRIBED
  }

  // ----- the sessions that clients see

  /** Subscriptions by endpoint and topic. There are no slots; a gateway hides the session of a client at its endpoint. */
  datatype Store = Store(gatewayUp: bool, gateway: Endpoint, names: seq<string>, local: set<int>,
                         clients: map<Endpoint, map<int, Qos>>)

  predicate FromGateway(a: Store, source: Endpoint) {
    a.gatewayUp && a.gateway == source
  }

  predicate Known(a: Store, source: Endpoint) {
    FromGateway(a, source) || source in a.clients
  }

  /** The session of the endpoint begins anew or changes. */
  function WithSession(a: Store, e: Endpoint, m: map<int, Qos>): Store {
    a.(clients := a.clients[e := m])
  }

  function StoreConnect(a: Store, source: Endpoint): (Store, Answer) {
    if FromGateway(a, source) then (a, Returned(NotSupported, 0))
    else if source !in a.clients && |a.clients| == CONNECTION_COUNT - 1 then (a, Returned(Congested, 0))
    else (WithSession(a, source, map[]), Returned(Accepted, 0))
  }

  function StoreSubscribe(a: Store, source: Endpoint, flags: Octet, name: string): (Store, Answer) {
    if FromGateway(a, source) then (a, Returned(NotSupported, 0))
    else if source !in a.clients then (a, Disconnected)
    else
      var (names, k) := Obtain(a.names, name);
      if k < 0 then (a, Returned(Congested, 0))
      else
        var c := a.clients[source];
        var subscriptions := if GetQos(flags) < 0 then c - {k} else c[k := if GetQos(flags) == 0 then 0 else 1];
        (WithSession(a.(names := names), source, subscriptions), Returned(Accepted, k + 1))
  }

  function StoreUnsubscribe(a: Store, source: Endpoint, name: string): (Store, Answer) {
    if !Known(a, source) then (a, Disconnected)
    else if FromGateway(a, source) then (a, Done)
    else (WithSession(a, source, a.clients[source] - {Locate(a.names, name)}), Done)
  }

  function StoreRegister(a: Store, source: Endpoint, topicId: Word, name: string): (Store, Answer) {
    if !Known(a, source) then (a, Disconnected)
    else
      var (names, k) := Obtain(a.names, name);
      (a.(names := names),
       if k < 0 then Returned(Congested, topicId)
       else Returned(Accepted, if FromGateway(a, source) then topicId else k + 1))
  }

  function StoreStep(a: Store, e: Event): (Store, Answer) {
    match e
    case Connect(source) => StoreConnect(a, source)
    case Disconnect(source) =>
      if !Known(a, source) then (a, Disconnected)
      else if FromGateway(a, source) then (a.(gatewayUp := false), Nothing)
      else (a.(clients := a.clients - {source}), Nothing)
    case Register(source, topicId, name) => StoreRegister(a, source, topicId, name)
    case Subscribe(source, flags, name) => StoreSubscribe(a, source, flags, name)
    case Unsubscribe(source, name) => StoreUnsubscribe(a, source, name)
    case GatewayConnect(gateway) => (a.(gatewayUp := true, gateway := gateway), Nothing)
    case GatewayAccepted => (a.(gatewayUp := true), Nothing)
    case GatewayLost => (a.(gatewayUp := false), Nothing)
    case GatewayGranted(_, _, _) => (a, Nothing)
    case GatewayReleased(_) => (a, Nothing)
    case GatewayRegistered(_, _) => (a, Nothing)
    case LocalSubscribe(name) =>
      var (names, k) := Obtain(a.names, name);
      (a.(names := names, local := if k < 0 then a.local else a.local + {k}), Nothing)
  }

  // ----- the tables stand for the sessions

  ghost predicate ClientSlot(t: Broker, i: int) {
    1 <= i < CONNECTION_COUNT && t.connected[i]
  }

  /** Client slots that are in use have different endpoints. */
  ghost predicate Distinct(t: Broker) {
    forall i, k :: ClientSlot(t, i) && ClientSlot(t, k) && t.endpoints[i] == t.endpoints[k] ==> i == k
  }

  /** Nobody is subscribed by that slot. */
  ghost predicate Unsubscribed(topics: seq<Topic>, i: nat)
    requires i < CONNECTION_COUNT
  {
    forall k {:trigger topics[k]} :: 0 <= k < |topics| ==> topics[k].qos[i] == NOT_SUBSCRIBED
  }

  /** Client slots that are not in use have no subscriptions. */
  ghost predicate FreeSlotsOk(t: Broker) {
    forall i {:trigger t.connected[i]} :: 1 <= i < CONNECTION_COUNT && !t.connected[i] ==> Unsubscribed(t.topics, i)
  }

  /** Slot i stores these subscriptions. */
  ghost predicate Stores(topics: seq<Topic>, i: nat, m: map<int, Qos>)
    requires i < CONNECTION_COUNT
  {
    && (forall k :: k in m ==> 0 <= k < |topics|)
    && (forall k {:trigger topics[k]} :: 0 <= k < |topics| ==>
          if topics[k].qos[i] == NOT_SUBSCRIBED then k !in m else k in m && m[k] == topics[k].qos[i])
  }

  ghost predicate SlotOk(t: Broker, a: Store, i: nat)
    requires i < CONNECTION_COUNT
  {
    t.endpoints[i] in a.clients && Stores(t.topics, i, a.clients[t.endpoints[i]])
  }

  ghost predicate HasSlot(t: Broker, e: Endpoint) {
    exists i :: ClientSlot(t, i) && t.endpoints[i] == e
  }

  ghost predicate LocalOk(topics: seq<Topic>, local: set<int>) {
    && (forall k :: k in local ==> 0 <= k < |topics|)
    && (forall k {:trigger topics[k]} :: 0 <= k < |topics| ==> (k in local <==> topics[k].subscribed))
  }

  ghost predicate Represents(t: Broker, a: Store) {
    && Distinct(t) && FreeSlotsOk(t) && LocalOk(t.topics, a.local)
    && a.gatewayUp == t.connected[0] && a.gateway == t.endpoints[0] && a.names == t.names
    && (forall i :: ClientSlot(t, i) ==> SlotOk(t, a, i))
    && (forall e :: e in a.clients ==> HasSlot(t, e))
  }

  /** What a message finds: slot 0 if it comes from the gateway, else the slot of its session. */
  lemma Finds(t: Broker, a: Store, source: Endpoint)
    requires Represents(t, a)
    ensures var i := Find(t, source, 0);
            && (i == 0 <==> FromGateway(a, source))
            && (i < 0 <==> !Known(a, source))
            && (i > 0 ==> ClientSlot(t, i) && source in a.clients)
    ensures a.names == t.names
  {
    var i := Find(t, source, 0);
    assert t.connected[0] == a.gatewayUp;
    assert i > 0 ==> ClientSlot(t, i);
    if source in a.clients {
      var k :| ClientSlot(t, k) && t.endpoints[k] == source;
      assert t.connected[k];
    }
  }

  // ----- how many clients there are

  ghost function Endpoints(t: Broker, n: nat): set<Endpoint>
    requires n <= CONNECTION_COUNT
  {
    set i | 1 <= i < n && t.connected[i] :: t.endpoints[i]
  }

  lemma NextEndpoint(t: Broker, n: nat)
    requires Distinct(t) && 1 <= n < CONNECTION_COUNT
    ensures Endpoints(t, n + 1) == Endpoints(t, n) + if t.connected[n] then {t.endpoints[n]} else {}
    ensures t.connected[n] ==> t.endpoints[n] !in Endpoints(t, n)
  {
    assert forall i :: 1 <= i <= n && t.connected[i] ==> ClientSlot(t, i);
  }

  function InUse(connected: seq<bool>, n: nat): nat
    requires n <= |connected|
  {
    if n <= 1 then 0 else InUse(connected, n - 1) + if connected[n - 1] then 1 else 0
  }

  lemma {:induction false} AllInUse(connected: seq<bool>, n: nat)
    requires 1 <= n <= |connected|
    ensures InUse(connected, n) <= n - 1
    ensures InUse(connected, n) == n - 1 <==> forall i :: 1 <= i < n ==> connected[i]
  {
    if n > 1 {
      AllInUse(connected, n - 1);
    }
  }

  lemma {:induction false} CountEndpoints(t: Broker, n: nat)
    requires Distinct(t) && 1 <= n <= CONNECTION_COUNT
    ensures |Endpoints(t, n)| == InUse(t.connected, n)
  {
    hide Distinct;
    if n == 1 {
      assert Endpoints(t, n) == {};
    } else {
      CountEndpoints(t, n - 1);
      NextEndpoint(t, n - 1);
      hide Endpoints;
    }
  }

  lemma ClientsHaveSlots(t: Broker, a: Store)
    requires Represents(t, a)
    ensures a.clients.Keys == Endpoints(t, CONNECTION_COUNT)
  {
    hide Distinct, FreeSlotsOk, LocalOk, Stores;
    forall e | e in Endpoints(t, CONNECTION_COUNT) ensures e in a.clients {
      var i :| 1 <= i < CONNECTION_COUNT && t.connected[i] && t.endpoints[i] == e;
      assert ClientSlot(t, i);
    }
  }

  /** All slots are taken exactly if there are 31 clients. */
  lemma FullExactly(t: Broker, a: Store)
    requires Represents(t, a)
    ensures |a.clients| <= CONNECTION_COUNT - 1
    ensures FirstFree(t.connected, 1) < 0 <==> |a.clients| == CONNECTION_COUNT - 1
  {
    hide Endpoints, FreeSlotsOk, LocalOk, Stores;
    CountEndpoints(t, CONNECTION_COUNT);
    AllInUse(t.connected, CONNECTION_COUNT);
    ClientsHaveSlots(t, a);
    assert |a.clients| == |a.clients.Keys|;
  }

  // ----- each step keeps the representation

  lemma StoresSame(topics: seq<Topic>, i: nat, m: map<int, Qos>, u: seq<Topic>)
    requires i < CONNECTION_COUNT && Stores(topics, i, m)
    requires |topics| <= |u| && forall k {:trigger u[k]} :: 0 <= k < |u| ==>
      u[k].qos[i] == if k < |topics| then topics[k].qos[i] else NOT_SUBSCRIBED
    ensures Stores(u, i, m)
  {
    assert forall k :: 0 <= k < |u| ==> k >= |topics| ==> k !in m;
    assert forall k :: 0 <= k < |topics| ==> u[k].qos[i] == topics[k].qos[i];
  }

  lemma StoresNone(u: seq<Topic>, i: nat)
    requires i < CONNECTION_COUNT && Unsubscribed(u, i)
    ensures Stores(u, i, map[])
  {
  }

  lemma StoresSet(topics: seq<Topic>, i: nat, m: map<int, Qos>, k: nat, qos: Qos)
    requires i < CONNECTION_COUNT && Stores(topics, i, m) && k < |topics|
    ensures Stores(SetQos(topics, k, i, qos), i, if qos == NOT_SUBSCRIBED then m - {k} else m[k := qos])
  {
  }

  lemma ResetFrees(topics: seq<Topic>, i: nat, k: nat)
    requires i < CONNECTION_COUNT && k < CONNECTION_COUNT
    ensures k == i || Unsubscribed(topics, k) ==> Unsubscribed(ResetQos(topics, i), k)
  {
  }

  /** A slot of its own for the endpoint: the one that it has or a free one. */
  lemma OpenOk(t: Broker, a: Store, source: Endpoint, i: nat)
    requires Represents(t, a) && 1 <= i < CONNECTION_COUNT
    requires if t.connected[i] then t.endpoints[i] == source else source !in a.clients
    ensures Represents(Open(t, source, i), WithSession(a, source, map[]))
  {
    hide Stores, Unsubscribed;
    var u := Open(t, source, i);
    var b := WithSession(a, source, map[]);
    forall k | ClientSlot(u, k) ensures SlotOk(u, b, k) && (k == i || (ClientSlot(t, k) && t.endpoints[k] != source)) {
      if k == i {
        ResetFrees(t.topics, i, i);
        StoresNone(u.topics, i);
      } else {
        assert ClientSlot(t, k) && (t.connected[i] ==> ClientSlot(t, i));
        StoresSame(t.topics, k, a.clients[t.endpoints[k]], u.topics);
      }
    }
    assert Distinct(u);
    forall k | 1 <= k < CONNECTION_COUNT && !u.connected[k] ensures Unsubscribed(u.topics, k) {
      assert !t.connected[k];
      ResetFrees(t.topics, i, k);
    }
    hide Distinct, SlotOk, FreeSlotsOk;
    forall e | e in b.clients ensures HasSlot(u, e) {
      if e == source {
        assert ClientSlot(u, i);
      } else {
        var k :| ClientSlot(t, k) && t.endpoints[k] == e;
        assert ClientSlot(u, k);
      }
    }
  }

  lemma CloseOk(t: Broker, a: Store, i: nat)
    requires Represents(t, a) && ClientSlot(t, i)
    ensures Represents(t.(connected := t.connected[i := false], topics := ResetQos(t.topics, i)),
                       a.(clients := a.clients - {t.endpoints[i]}))
  {
    hide Stores, Unsubscribed;
    var u := t.(connected := t.connected[i := false], topics := ResetQos(t.topics, i));
    var b := a.(clients := a.clients - {t.endpoints[i]});
    forall k | ClientSlot(u, k) ensures SlotOk(u, b, k) && ClientSlot(t, k) {
      assert ClientSlot(t, k);
      StoresSame(t.topics, k, a.clients[t.endpoints[k]], u.topics);
    }
    assert Distinct(u);
    forall k | 1 <= k < CONNECTION_COUNT && !u.connected[k] ensures Unsubscribed(u.topics, k) {
      assert k == i || !t.connected[k];
      ResetFrees(t.topics, i, k);
    }
    hide Distinct, SlotOk, FreeSlotsOk;
    forall e | e in b.clients ensures HasSlot(u, e) {
      var k :| ClientSlot(t, k) && t.endpoints[k] == e;
      assert ClientSlot(u, k);
    }
  }

  lemma ObtainOk(t: Broker, a: Store, name: string)
    requires Represents(t, a)
    ensures Represents(ObtainTopic(t, name).0, a.(names := Obtain(a.names, name).0))
  {
    hide Obtain, Stores, Unsubscribed, ObtainTopic;
    var u := ObtainTopic(t, name).0;
    var b := a.(names := Obtain(a.names, name).0);
    forall k | ClientSlot(u, k) ensures SlotOk(u, b, k) && ClientSlot(t, k) {
      assert ClientSlot(t, k);
      StoresSame(t.topics, k, a.clients[t.endpoints[k]], u.topics);
    }
    assert Distinct(u);
    forall k | 1 <= k < CONNECTION_COUNT && !u.connected[k] ensures Unsubscribed(u.topics, k) {
      assert !t.connected[k];
      StillUnsubscribed(t.topics, u.topics, k);
    }
    hide Distinct, SlotOk, FreeSlotsOk;
    forall e | e in b.clients ensures HasSlot(u, e) {
      var k :| ClientSlot(t, k) && t.endpoints[k] == e;
      assert ClientSlot(u, k);
    }
  }

  lemma SameHasSlot(t: Broker, u: Broker, e: Endpoint)
    requires t.connected == u.connected && t.endpoints == u.endpoints && HasSlot(t, e)
    ensures HasSlot(u, e)
  {
    var n :| ClientSlot(t, n) && t.endpoints[n] == e;
    assert ClientSlot(u, n);
  }

  lemma StillUnsubscribed(topics: seq<Topic>, u: seq<Topic>, i: nat)
    requires i < CONNECTION_COUNT && Unsubscribed(topics, i)
    requires forall k {:trigger u[k]} :: 0 <= k < |u| ==>
      u[k].qos[i] == if k < |topics| then topics[k].qos[i] else NOT_SUBSCRIBED
    ensures Unsubscribed(u, i)
  {
    assert forall k :: 0 <= k < |topics| ==> topics[k].qos[i] == NOT_SUBSCRIBED;
  }

  lemma SetSlotOk(t: Broker, a: Store, k: nat, i: nat, qos: Qos, n: nat)
    requires Represents(t, a) && ClientSlot(t, i) && ClientSlot(t, n) && k < |t.topics|
    ensures t.endpoints[i] in a.clients
    ensures var c := a.clients[t.endpoints[i]];
            SlotOk(t.(topics := SetQos(t.topics, k, i, qos)),
                   WithSession(a, t.endpoints[i], if qos == NOT_SUBSCRIBED then c - {k} else c[k := qos]), n)
  {
    hide Stores, FreeSlotsOk, LocalOk, HasSlot;
    assert SlotOk(t, a, i) && SlotOk(t, a, n);
    if n == i {
      StoresSet(t.topics, i, a.clients[t.endpoints[i]], k, qos);
    } else {
      StoresSame(t.topics, n, a.clients[t.endpoints[n]], SetQos(t.topics, k, i, qos));
    }
  }

  lemma SetFreeOk(t: Broker, k: nat, i: nat, qos: Qos)
    requires FreeSlotsOk(t) && ClientSlot(t, i) && k < |t.topics|
    ensures FreeSlotsOk(t.(topics := SetQos(t.topics, k, i, qos)))
  {
    hide Unsubscribed;
    var u := t.(topics := SetQos(t.topics, k, i, qos));
    forall n | 1 <= n < CONNECTION_COUNT && !u.connected[n] ensures Unsubscribed(u.topics, n) {
      assert !t.connected[n];
      StillUnsubscribed(t.topics, u.topics, n);
    }
  }

  /** Sets or ends one subscription of a client. */
  lemma SetOk(t: Broker, a: Store, k: nat, i: nat, qos: Qos)
    requires Represents(t, a) && ClientSlot(t, i) && k < |t.topics|
    ensures t.endpoints[i] in a.clients
    ensures var c := a.clients[t.endpoints[i]];
            Represents(t.(topics := SetQos(t.topics, k, i, qos)),
                       WithSession(a, t.endpoints[i], if qos == NOT_SUBSCRIBED then c - {k} else c[k := qos]))
  {
    SetSlotOk(t, a, k, i, qos, i);
    var u := t.(topics := SetQos(t.topics, k, i, qos));
    var c := a.clients[t.endpoints[i]];
    var b := WithSession(a, t.endpoints[i], if qos == NOT_SUBSCRIBED then c - {k} else c[k := qos]);
    SetFreeOk(t, k, i, qos);
    hide Stores, SlotOk, FreeSlotsOk, HasSlot;
    forall n | ClientSlot(u, n) ensures SlotOk(u, b, n) && ClientSlot(t, n) {
      assert ClientSlot(t, n);
      SetSlotOk(t, a, k, i, qos, n);
    }
    assert Distinct(u);
    hide Distinct, ClientSlot;
    forall e | e in b.clients ensures HasSlot(u, e) {
      assert e == t.endpoints[i] || e in a.clients;
      SameHasSlot(t, u, e);
    }
  }

  /** What concerns the gateway only: slot 0, and all of a topic that is not a client's. */
  ghost predicate SameClients(t: Broker, u: Broker) {
    && u.names == t.names
    && forall i {:trigger u.endpoints[i]} {:trigger u.connected[i]} :: 1 <= i < CONNECTION_COUNT ==>
         u.endpoints[i] == t.endpoints[i] && u.connected[i] == t.connected[i]
         && forall k {:trigger u.topics[k]} :: 0 <= k < |t.topics| ==> u.topics[k].qos[i] == t.topics[k].qos[i]
  }

  /** Such changes leave the sessions alone. */
  lemma GatewayOk(t: Broker, a: Store, u: Broker, local: set<int>)
    requires Represents(t, a) && SameClients(t, u) && LocalOk(u.topics, local)
    ensures Represents(u, a.(gatewayUp := u.connected[0], gateway := u.endpoints[0], local := local))
  {
    hide Stores, Unsubscribed, LocalOk;
    var b := a.(gatewayUp := u.connected[0], gateway := u.endpoints[0], local := local);
    forall k | ClientSlot(u, k) ensures SlotOk(u, b, k) && ClientSlot(t, k) && t.endpoints[k] == u.endpoints[k] {
      assert ClientSlot(t, k);
      StoresSame(t.topics, k, a.clients[t.endpoints[k]], u.topics);
    }
    assert Distinct(u);
    forall k | 1 <= k < CONNECTION_COUNT && !u.connected[k] ensures Unsubscribed(u.topics, k) {
      assert !t.connected[k];
      StillUnsubscribed(t.topics, u.topics, k);
    }
    hide Distinct, SlotOk, FreeSlotsOk;
    forall e | e in b.clients ensures HasSlot(u, e) {
      var k :| ClientSlot(t, k) && t.endpoints[k] == e;
      assert u.endpoints[k] == e && ClientSlot(u, k);
    }
  }

  lemma ConnectOk(t: Broker, a: Store, source: Endpoint)
    requires Represents(t, a)
    ensures Represents(DoConnect(t, source).0, StoreConnect(a, source).0)
    ensures DoConnect(t, source).1 == StoreConnect(a, source).1
  {
    Finds(t, a, source);
    FullExactly(t, a);
    var found := Find(t, source, 0);
    var i := if found < 0 then FirstFree(t.connected, 1) else found;
    if i > 0 {
      OpenOk(t, a, source, i);
    }
    hide Represents, Find, FirstFree;
  }

  lemma GatewayClosed(t: Broker, a: Store)
    requires Represents(t, a)
    ensures Represents(t.(connected := t.connected[0 := false], topics := ResetQos(t.topics, 0)), a.(gatewayUp := false))
  {
    var u := t.(connected := t.connected[0 := false], topics := ResetQos(t.topics, 0));
    assert LocalOk(u.topics, a.local);
    assert forall i :: 1 <= i < CONNECTION_COUNT ==> u.connected[i] == t.connected[i];
    assert forall i, k :: 1 <= i < CONNECTION_COUNT && 0 <= k < |t.topics| ==> u.topics[k].qos[i] == t.topics[k].qos[i];
    GatewayOk(t, a, u, a.local);
  }

  lemma DisconnectOk(t: Broker, a: Store, source: Endpoint)
    requires Represents(t, a)
    ensures Represents(DoDisconnect(t, source).0, StoreStep(a, Disconnect(source)).0)
    ensures DoDisconnect(t, source).1 == StoreStep(a, Disconnect(source)).1
  {
    Finds(t, a, source);
    var i := Find(t, source, 0);
    if i > 0 {
      CloseOk(t, a, i);
    } else if i == 0 {
      GatewayClosed(t, a);
    }
    hide Represents, Find;
  }

  lemma SameAnswers(t: Broker, a: Store, name: string)
    requires Represents(t, a)
    ensures ObtainTopic(t, name).1 == Obtain(a.names, name).1 && t.names == a.names
    ensures Represents(ObtainTopic(t, name).0, a.(names := Obtain(a.names, name).0))
  {
    ObtainOk(t, a, name);
  }

  /** A failed attempt to add a topic changes nothing. */
  lemma NoRoom(t: Broker, name: string)
    requires ObtainTopic(t, name).1 < 0
    ensures ObtainTopic(t, name).0 == t && Obtain(t.names, name).0 == t.names
  {
  }

  lemma GatewayTopicOk(t: Broker, a: Store, k: nat, id: Word)
    requires Represents(t, a) && k < |t.topics|
    ensures Represents(t.(topics := t.topics[k := WithGateway(t.topics[k], id)]), a)
  {
    var u := t.(topics := t.topics[k := WithGateway(t.topics[k], id)]);
    assert LocalOk(u.topics, a.local);
    GatewayOk(t, a, u, a.local);
  }

  lemma RegisterOk(t: Broker, a: Store, source: Endpoint, topicId: Word, name: string)
    requires Represents(t, a)
    ensures Represents(DoRegister(t, source, topicId, name).0, StoreRegister(a, source, topicId, name).0)
    ensures DoRegister(t, source, topicId, name).1 == StoreRegister(a, source, topicId, name).1
  {
    hide Represents, Find, Obtain, ObtainTopic, ClientSlot;
    Finds(t, a, source);
    SameAnswers(t, a, name);
    var (u, k) := ObtainTopic(t, name);
    if k >= 0 {
      GatewayTopicOk(u, a.(names := Obtain(a.names, name).0), k, topicId);
    }
  }

  lemma SubscribeOk(t: Broker, a: Store, source: Endpoint, flags: Octet, name: string)
    requires Represents(t, a)
    ensures Represents(DoSubscribe(t, source, flags, name).0, StoreSubscribe(a, source, flags, name).0)
    ensures DoSubscribe(t, source, flags, name).1 == StoreSubscribe(a, source, flags, name).1
  {
    hide Represents, Find, Obtain, ObtainTopic, SetQos, ClientSlot;
    Finds(t, a, source);
    SameAnswers(t, a, name);
    var i := Find(t, source, 0);
    var (u, k) := ObtainTopic(t, name);
    if k < 0 {
      NoRoom(t, name);
    } else if i > 0 {
      SameSlots(t, u, i);
      SetOk(u, a.(names := Obtain(a.names, name).0), k, i, Stored(flags));
    }
  }

  lemma SameSlots(t: Broker, u: Broker, i: nat)
    requires t.connected == u.connected
    ensures ClientSlot(t, i) == ClientSlot(u, i)
  {
  }

  lemma NoSuchTopic(t: Broker, a: Store, i: nat)
    requires Represents(t, a) && ClientSlot(t, i)
    ensures t.endpoints[i] in a.clients
    ensures WithSession(a, t.endpoints[i], a.clients[t.endpoints[i]] - {-1}) == a
  {
    assert SlotOk(t, a, i);
    var c := a.clients[t.endpoints[i]];
    assert c - {-1} == c;
    assert a.clients[t.endpoints[i] := c] == a.clients;
  }

  lemma UnsubscribeOk(t: Broker, a: Store, source: Endpoint, name: string)
    requires Represents(t, a)
    ensures Represents(DoUnsubscribe(t, source, name).0, StoreUnsubscribe(a, source, name).0)
    ensures DoUnsubscribe(t, source, name).1 == StoreUnsubscribe(a, source, name).1
  {
    hide Represents, Find, Locate, SetQos, ClientSlot, WithSession;
    Finds(t, a, source);
    var i, k := Find(t, source, 0), Locate(t.names, name);
    if i > 0 && k >= 0 {
      SetOk(t, a, k, i, NOT_SUBSCRIBED);
    } else if i > 0 {
      NoSuchTopic(t, a, i);
    }
  }

  lemma LocalOkStep(t: Broker, a: Store, name: string)
    requires Represents(t, a)
    ensures Represents(DoLocalSubscribe(t, name), StoreStep(a, LocalSubscribe(name)).0)
  {
    hide Obtain, ObtainTopic;
    SameAnswers(t, a, name);
    var (u, k) := ObtainTopic(t, name);
    if k >= 0 {
      assert LocalOk(u.topics, a.local);
      assert LocalOk(DoLocalSubscribe(t, name).topics, a.local + {k});
      GatewayOk(u, a.(names := Obtain(a.names, name).0), DoLocalSubscribe(t, name), a.local + {k});
    }
  }

  predicate GatewayEvent(e: Event) {
    e.GatewayConnect? || e.GatewayAccepted? || e.GatewayLost? || e.GatewayGranted? || e.GatewayReleased? || e.GatewayRegistered?
  }

  lemma GatewayEventOk(t: Broker, a: Store, e: Event)
    requires Represents(t, a) && GatewayEvent(e)
    ensures Represents(Step(t, e).0, StoreStep(a, e).0) && Step(t, e).1 == StoreStep(a, e).1
  {
    var u := Step(t, e).0;
    assert LocalOk(u.topics, a.local);
    GatewayOk(t, a, u, a.local);
    hide Represents;
  }

  /** The tables and the sessions give the same answer to every message, and keep standing for each other. */
  lemma StepRefines(t: Broker, a: Store, e: Event)
    requires Represents(t, a)
    ensures Represents(Step(t, e).0, StoreStep(a, e).0) && Step(t, e).1 == StoreStep(a, e).1
  {
    hide Represents, DoConnect, DoDisconnect, DoRegister, DoSubscribe, DoUnsubscribe, DoLocalSubscribe;
    match e
    case Connect(source) => ConnectOk(t, a, source);
    case Disconnect(source) => DisconnectOk(t, a, source);
    case Register(source, topicId, name) => RegisterOk(t, a, source, topicId, name);
    case Subscribe(source, flags, name) => SubscribeOk(t, a, source, flags, name);
    case Unsubscribe(source, name) => UnsubscribeOk(t, a, source, name);
    case LocalSubscribe(name) => LocalOkStep(t, a, name);
    case _ => GatewayEventOk(t, a, e);
  }

  // ----- runs

  function Run(t: Broker, events: seq<Event>): (Broker, seq<Answer>)
    decreases |events|
  {
    if events == [] then (t, [])
    else var (u, answer) := Step(t, events[0]); var (v, answers) := Run(u, events[1..]); (v, [answer] + answers)
  }

  function StoreRun(a: Store, events: seq<Event>): (Store, seq<Answer>)
    decreases |events|
  {
    if events == [] then (a, [])
    else var (b, answer) := StoreStep(a, events[0]); var (c, answers) := StoreRun(b, events[1..]); (c, [answer] + answers)
  }

  lemma {:induction false} RunRefines(t: Broker, a: Store, events: seq<Event>)
    requires Represents(t, a)
    ensures Represents(Run(t, events).0, StoreRun(a, events).0) && Run(t, events).1 == StoreRun(a, events).1
    decreases |events|
  {
    hide Represents, Step, StoreStep;
    if events != [] {
      StepRefines(t, a, events[0]);
      RunRefines(Step(t, events[0]).0, StoreStep(a, events[0]).0, events[1..]);
    }
  }

  function Empty(endpoints: seq<Endpoint>): (r: Broker)
    requires |endpoints| == CONNECTION_COUNT
  {
    Tables(endpoints, seq(CONNECTION_COUNT, _ => false), [], [])
  }

  lemma EmptyOk(endpoints: seq<Endpoint>)
    requires |endpoints| == CONNECTION_COUNT
    ensures Represents(Empty(endpoints), Store(false, endpoints[0], [], {}, map[]))
  {
  }

  /** A topic is subscribed exactly if it is locally, or in a session. */
  lemma SubscribedExactly(t: Broker, a: Store, k: nat)
    requires Represents(t, a) && k < |t.topics|
    ensures ClientSubscribed(t.topics[k]) <==> k in a.local || exists e :: e in a.clients && k in a.clients[e]
  {
    if exists i :: 1 <= i < CONNECTION_COUNT && t.topics[k].qos[i] != NOT_SUBSCRIBED {
      var i :| 1 <= i < CONNECTION_COUNT && t.topics[k].qos[i] != NOT_SUBSCRIBED;
      assert ClientSlot(t, i) <==> t.connected[i];
      assert t.connected[i];
      assert SlotOk(t, a, i);
      assert k in a.clients[t.endpoints[i]];
    }
    if e :| e in a.clients && k in a.clients[e] {
      assert HasSlot(t, e);
      var i :| ClientSlot(t, i) && t.endpoints[i] == e;
      assert SlotOk(t, a, i);
      assert t.topics[k].qos[i] != NOT_SUBSCRIBED;
    }
  }

  /** A published message goes to a client slot exactly if its session has the topic, with that quality of service. */
  lemma ReceiversExactly(t: Broker, a: Store, k: nat, e: Endpoint, qos: Qos)
    requires Represents(t, a) && k < |t.topics| && qos != NOT_SUBSCRIBED
    ensures (exists i {:trigger t.connected[i]} :: 1 <= i < CONNECTION_COUNT && t.connected[i] && t.endpoints[i] == e && t.topics[k].qos[i] == qos)
            <==> e in a.clients && k in a.clients[e] && a.clients[e][k] == qos
  {
    if i :| 1 <= i < CONNECTION_COUNT && t.connected[i] && t.endpoints[i] == e && t.topics[k].qos[i] == qos {
      assert ClientSlot(t, i) && SlotOk(t, a, i);
    }
    if e in a.clients && k in a.clients[e] && a.clients[e][k] == qos {
      assert HasSlot(t, e);
      var i :| ClientSlot(t, i) && t.endpoints[i] == e;
      assert SlotOk(t, a, i) && t.connected[i];
    }
  }

  /** A subscription that the broker confirms is stored exactly if its quality of service is not -1. */
  lemma ConfirmedExactly(t: Broker, source: Endpoint, flags: Octet, name: string)
    requires Find(t, source, 0) > 0 && DoSubscribe(t, source, flags, name).1.code == Accepted
    ensures var (u, answer) := DoSubscribe(t, source, flags, name);
            1 <= answer.topicId <= |u.topics| && u.names[answer.topicId - 1] == name
            && (u.topics[answer.topicId - 1].qos[Find(t, source, 0)] != NOT_SUBSCRIBED <==> GetQos(flags) >= 0)
  {
  }

  /** So in every state that the broker reaches. */
  lemma ReachableTables(endpoints: seq<Endpoint>, events: seq<Event>, k: nat)
    requires |endpoints| == CONNECTION_COUNT
    requires k < |Run(Empty(endpoints), events).0.topics|
    ensures var t := Run(Empty(endpoints), events).0; var a := StoreRun(Store(false, endpoints[0], [], {}, map[]), events).0;
            && Run(Empty(endpoints), events).1 == StoreRun(Store(false, endpoints[0], [], {}, map[]), events).1
            && Distinct(t) && FreeSlotsOk(t)
            && (ClientSubscribed(t.topics[k]) <==> k in a.local || exists e :: e in a.clients && k in a.clients[e])
  {
    EmptyOk(endpoints);
    RunRefines(Empty(endpoints), Store(false, endpoints[0], [], {}, map[]), events);
    SubscribedExactly(Run(Empty(endpoints), events).0, StoreRun(Store(false, endpoints[0], [], {}, map[]), events).0, k);
    hide ClientSubscribed, Distinct, FreeSlotsOk;
  }
}
