/** The broker's tables as its coroutines update them in place. */
module MqttSnBroker {
  import opened MqttSn
  import opened Forward
  import opened Delivery
  import opened Sessions

  class MqttSnBroker {
    var endpoints: seq<Endpoint>
    var connected: seq<bool>
    var names: seq<string>
    var topics: seq<Topic>
    var dataSize: nat
    /** How many forwarding coroutines wait for a message. */
    var idleForwarders: nat

    ghost predicate Valid()
      reads this
    {
      idleForwarders <= FORWARD_COUNT && Sized(Tables(endpoints, connected, names, topics)) && dataSize == Size(names)
    }

    ghost function Model(): Broker
      requires Valid()
      reads this
    {
      Tables(endpoints, connected, names, topics)
    }

    constructor (endpoints: seq<Endpoint>)
      requires |endpoints| == CONNECTION_COUNT
      ensures Valid() && Model() == Empty(endpoints)
    {
      this.endpoints, connected := endpoints, seq(CONNECTION_COUNT, _ => false);
      names, topics, dataSize, idleForwarders := [], [], 0, FORWARD_COUNT;
    }

    method FindConnection(source: Endpoint) returns (i: int)
      requires Valid()
      ensures i == Find(Model(), source, 0)
    {
      i := 0;
      while i < CONNECTION_COUNT
        invariant 0 <= i <= CONNECTION_COUNT && Find(Model(), source, i) == Find(Model(), source, 0)
      {
        if connected[i] && endpoints[i] == source {
          return;
        }
        i := i + 1;
      }
      i := -1;
    }

    method FindFree() returns (i: int)
      requires Valid()
      ensures i == FirstFree(connected, 1)
    {
      i := 1;
      while i < CONNECTION_COUNT
        invariant 1 <= i <= CONNECTION_COUNT && FirstFree(connected, i) == FirstFree(connected, 1)
      {
        if !connected[i] {
          return;
        }
        i := i + 1;
      }
      i := -1;
    }

    method LocateTopic(name: string) returns (k: int)
      requires Valid()
      ensures k == Locate(names, name)
    {
      k := 0;
      while k < |names|
        invariant 0 <= k <= |names| && LocateFrom(names, name, k) == LocateFrom(names, name, 0)
      {
        if names[k] == name {
          return;
        }
        k := k + 1;
      }
      k := -1;
    }

    method ObtainTopicIndex(name: string) returns (k: int)
      requires Valid()
      modifies this
      ensures Valid() && Model() == ObtainTopic(old(Model()), name).0 && k == ObtainTopic(old(Model()), name).1
    {
      if name == "" {
        return -1;
      }
      k := LocateTopic(name);
      if k >= 0 {
        return;
      }
      if |names| >= MAX_TOPIC_COUNT || dataSize + |name| > TOPIC_BUFFER {
        return;
      }
      k := |names|;
      assert (names + [name])[..|names|] == names;
      names, topics, dataSize := names + [name], topics + [NewTopic()], dataSize + |name|;
    }

    /** Ends the subscriptions of a connection, topic by topic. */
    method ResetConnection(i: nat)
      requires Valid() && i < CONNECTION_COUNT
      modifies this`topics
      ensures Valid() && topics == ResetQos(old(topics), i)
    {
      hide WithQos;
      for k := 0 to |topics|
        invariant |topics| == |old(topics)|
        invariant forall n {:trigger topics[n]} :: 0 <= n < |topics| ==>
          topics[n] == if n < k then WithQos(old(topics)[n], i, NOT_SUBSCRIBED) else old(topics)[n]
      {
        topics := topics[k := WithQos(topics[k], i, NOT_SUBSCRIBED)];
      }
    }

    method OnConnect(source: Endpoint) returns (answer: Answer)
      requires Valid()
      modifies this
      ensures Valid() && (Model(), answer) == Step(old(Model()), Connect(source))
    {
      hide Find, FirstFree, ResetQos;
      var i := FindConnection(source);
      if i == -1 {
        i := FindFree();
      }
      if i == -1 {
        answer := Returned(Congested, 0);
      } else if i == 0 {
        answer := Returned(NotSupported, 0);
      } else {
        endpoints := endpoints[i := source];
        connected := connected[i := true];
        ResetConnection(i);
        answer := Returned(Accepted, 0);
      }
    }

    method OnDisconnect(source: Endpoint) returns (answer: Answer)
      requires Valid()
      modifies this
      ensures Valid() && (Model(), answer) == Step(old(Model()), Disconnect(source))
    {
      var i := FindConnection(source);
      if i == -1 {
        return Disconnected;
      }
      connected := connected[i := false];
      ResetConnection(i);
      answer := Nothing;
    }

    method OnRegister(source: Endpoint, topicId: Word, name: string) returns (answer: Answer)
      requires Valid()
      modifies this
      ensures Valid() && (Model(), answer) == Step(old(Model()), Event.Register(source, topicId, name))
    {
      hide Find, ObtainTopic, Obtain;
      var i := FindConnection(source);
      if i == -1 {
        return Disconnected;
      }
      var k := ObtainTopicIndex(name);
      if k == -1 {
        return Returned(Congested, topicId);
      }
      if i == 0 {
        topics := topics[k := WithGateway(topics[k], topicId)];
        answer := Returned(Accepted, topicId);
      } else {
        answer := Returned(Accepted, k + 1);
      }
    }

    method OnSubscribe(source: Endpoint, flags: Octet, name: string) returns (answer: Answer)
      requires Valid()
      modifies this
      ensures Valid() && (Model(), answer) == Step(old(Model()), Event.Subscribe(source, flags, name))
    {
      hide Find, ObtainTopic, Obtain;
      var i := FindConnection(source);
      if i == -1 {
        return Disconnected;
      }
      if i == 0 {
        return Returned(NotSupported, 0);
      }
      var k := ObtainTopicIndex(name);
      if k == -1 {
        return Returned(Congested, 0);
      }
      topics := topics[k := WithQos(topics[k], i, Stored(flags))];
      answer := Returned(Accepted, k + 1);
    }

    method OnUnsubscribe(source: Endpoint, name: string) returns (answer: Answer)
      requires Valid()
      modifies this
      ensures Valid() && (Model(), answer) == Step(old(Model()), Event.Unsubscribe(source, name))
    {
      hide Find, Locate;
      var i := FindConnection(source);
      if i == -1 {
        return Disconnected;
      }
      if i != 0 {
        var k := LocateTopic(name);
        if k != -1 {
          topics := topics[k := WithQos(topics[k], i, NOT_SUBSCRIBED)];
        }
      }
      answer := Done;
    }

    /** The start of a connection attempt: the gateway counts as connected until it fails to answer. */
    method ConnectGateway(gateway: Endpoint)
      requires Valid()
      modifies this
      ensures Valid() && Model() == Step(old(Model()), GatewayConnect(gateway)).0
    {
      hide WithQos, WithGateway;
      for k := 0 to |topics|
        invariant |topics| == |old(topics)|
        invariant forall n {:trigger topics[n]} :: 0 <= n < |topics| ==>
          topics[n] == if n < k then WithGateway(WithQos(old(topics)[n], 0, NOT_SUBSCRIBED), 0) else old(topics)[n]
        invariant Valid() && endpoints == old(endpoints) && connected == old(connected) && names == old(names)
      {
        topics := topics[k := WithGateway(WithQos(topics[k], 0, NOT_SUBSCRIBED), 0)];
      }
      endpoints := endpoints[0 := gateway];
      connected := connected[0 := true];
    }

    method SubscribeLocally(name: string)
      requires Valid()
      modifies this
      ensures Valid() && Model() == Step(old(Model()), LocalSubscribe(name)).0
    {
      var k := ObtainTopicIndex(name);
      if k != -1 {
        topics := topics[k := topics[k].(subscribed := true)];
      }
    }

    method IsClientSubscribed(k: nat) returns (r: bool)
      requires Valid() && k < |topics|
      ensures r == ClientSubscribed(topics[k])
    {
      if topics[k].subscribed {
        return true;
      }
      for i := 1 to CONNECTION_COUNT
        invariant forall n :: 1 <= n < i ==> topics[k].qos[n] == NOT_SUBSCRIBED
      {
        if topics[k].qos[i] != NOT_SUBSCRIBED {
          return true;
        }
      }
      r := false;
    }

    /** The topic of a message that a client publishes. */
    method ResolveTopic(flags: Octet, topicId: Word) returns (k: int)
      requires Valid()
      ensures k == PublishedTopic(Model(), flags, topicId)
    {
      var topicType: int := flags % 4;
      if topicType == 0 {
        k := topicId - 1;
        if !(0 <= k < |topics|) {
          k := -1;
        }
      } else if topicType == 2 {
        k := LocateTopic(ShortName(topicId));
      } else {
        k := -1;
      }
    }

    /** A forwarding coroutine has sent its message everywhere. */
    method ForwarderWaits()
      requires Valid() && idleForwarders < FORWARD_COUNT
      modifies this`idleForwarders
      ensures Valid() && idleForwarders == old(idleForwarders) + 1
    {
      idleForwarders := idleForwarders + 1;
    }

    /**
     * A published message of a topic. A repetition of the last one is dropped, and so is a new one when no forwarding
     * coroutine waits; that leaves its mark nevertheless.
     */
    method OnPublish(connection: nat, k: nat, flags: Octet, msgId: Word) returns (forward: bool)
      requires Valid() && k < |topics|
      modifies this`topics, this`idleForwarders
      ensures Valid()
      ensures forward == (Fresh(old(topics[k].mark), connection, GetQos(flags), msgId) && old(idleForwarders) > 0)
      ensures idleForwarders == old(idleForwarders) - if forward then 1 else 0
      ensures topics == old(topics)[k := old(topics[k]).(mark := Marked(old(topics[k].mark), connection, GetQos(flags), msgId))]
    {
      forward := false;
      var qos := GetQos(flags);
      if qos > 0 {
        if topics[k].mark.connection == connection && topics[k].mark.msgId == msgId {
          return;
        }
        topics := topics[k := topics[k].(mark := Mark(connection, msgId))];
      }
      if idleForwarders > 0 {
        idleForwarders := idleForwarders - 1;
        forward := true;
      }
    }

    /** The arrivals of a topic one after the other; in between forwarding coroutines become idle or busy with other topics. */
    method OnPublishes(k: nat, arrivals: seq<Arrival>) returns (forwarded: seq<bool>)
      requires Valid() && k < |topics|
      modifies this`topics, this`idleForwarders
      ensures Valid() && |topics| == |old(topics)| && |forwarded| == |arrivals|
      ensures topics[k].mark == MarkAfter(old(topics[k].mark), arrivals)
      ensures forall n :: 0 <= n < |arrivals| ==> forwarded[n] == Forwarded(old(topics[k].mark), arrivals, n)
    {
      hide Parse, GetQos;
      forwarded := [];
      for n := 0 to |arrivals|
        invariant Valid() && |topics| == |old(topics)| && |forwarded| == n
        invariant topics[k].mark == MarkAfter(old(topics[k].mark), arrivals[..n])
        invariant forall i :: 0 <= i < n ==> forwarded[i] == Forwarded(old(topics[k].mark), arrivals, i)
      {
        var a := arrivals[n];
        idleForwarders := if !a.idle then 0 else if idleForwarders == 0 then 1 else idleForwarders;
        var forward := false;
        var p := Parsed(a);
        if p.Some? {
          forward := OnPublish(a.connection, k, p.value.flags, p.value.msgId);
        }
        assert arrivals[..n + 1][..n] == arrivals[..n];
        forwarded := forwarded + [forward];
      }
      assert arrivals[..|arrivals|] == arrivals;
    }
  }
}
