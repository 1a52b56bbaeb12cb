/** What a commissioned device is: its answers, in their order, and ids that it keeps or that nobody else has. */
module CommissionLaws {
  import opened Options
  import opened Selection
  import opened BusModel
  import opened BusRun

  /** What the device says about its endpoints, one after the other. */
  function Answers(plugs: seq<seq<nat>>, names: seq<string>): seq<Event>
    requires |plugs| == |names|
  {
    if plugs == [] then []
    else
      var n := |plugs| - 1;
      Answers(plugs[..n], names[..n]) + [PlugList(plugs[n])] + [ModelIdentifier(names[n])]
  }

  /** The endpoints that the device with that id on the bus has so far. */
  function EndpointsNow(b: Bus, u: nat): seq<EndpointData> {
    OldEndpoints(b.devices, u)
  }

  /** There is an id for every endpoint, and for a new device one that the bus can address. */
  predicate Room(b: Bus, u: nat, n: nat) {
    && |b.ids| + n <= 128 + |EndpointsNow(b, u)|
    && (Find(b.devices, u) == |b.devices| ==> |b.ids| < 128 && |b.devices| < 72)
  }

  // ----- the working data

  /** The answers taken so far, in their order. */
  ghost predicate Taken(f: Frame, plugs: seq<seq<nat>>, names: seq<string>)
    requires |plugs| == |names|
  {
    && f.pending == None && |f.endpoints| == f.endpointIndex == |plugs|
    && forall i :: 0 <= i < |plugs| ==>
         f.endpoints[i].plugs == plugs[i] && f.endpoints[i].name == (if names[i] == "" then "Device" else names[i])
  }

  lemma NewIdCount(b: Bus, f: Frame)
    requires FrameOk(b, f) && f.pending == None
    ensures var former := |EndpointsNow(b, f.data.busDeviceId)|;
            |f.newIds| == if |f.endpoints| <= former then 0 else |f.endpoints| - former
  {
    assert f.All() == f.endpoints;
    assert |Ids(f.All())| == |f.endpoints|;
  }

  /** With room, a further endpoint is read. */
  lemma StillReading(b: Bus, f: Frame, n: nat)
    requires FrameOk(b, f) && f.pending == None && f.endpointIndex == |f.endpoints| < n == f.endpointCount
    requires Room(b, f.data.busDeviceId, n)
    ensures !Finished(b, f)
  {
    NewIdCount(b, f);
  }

  lemma OneAnswer(b: Bus, f: Frame, plugs: seq<nat>, name: string)
    requires f.pending == None
    ensures var g := TakeName(TakePlugs(b, f, plugs), name);
            && g.data == f.data && g.endpointCount == f.endpointCount && g.endpointIndex == f.endpointIndex + 1 && g.pending == None
            && |g.endpoints| == |f.endpoints| + 1 && g.endpoints[..|f.endpoints|] == f.endpoints
            && g.endpoints[|f.endpoints|].plugs == plugs
            && g.endpoints[|f.endpoints|].name == if name == "" then "Device" else name
  {
  }

  lemma RunOneMore(s: State, events: seq<Event>, e: Event)
    ensures Run(s, events + [e]) == Next(Run(s, events), e)
  {
    assert (events + [e])[..|events|] == events;
  }

  /** The working data after all answers. */
  lemma {:induction false} AnswersTaken(b: Bus, f: Frame, n: nat, plugs: seq<seq<nat>>, names: seq<string>) returns (g: Frame)
    requires Consistent(b) && FrameOk(b, f) && Taken(f, [], []) && f.endpointCount == n && Room(b, f.data.busDeviceId, n)
    requires |plugs| == |names| <= n
    ensures Run(State(b, Some(f)), Answers(plugs, names)) == State(b, Some(g))
    ensures FrameOk(b, g) && Taken(g, plugs, names) && g.data == f.data && g.endpointCount == n
  {
    hide Consistent, FrameOk, Run, TakePlugs, TakeName, Finished, Room;
    var s := State(b, Some(f));
    if plugs == [] {
      g := f;
      assert Run(s, []) == s by { NoEvents(s); }
    } else {
      var k := |plugs| - 1;
      var h := AnswersTaken(b, f, n, plugs[..k], names[..k]);
      var before := Answers(plugs[..k], names[..k]);
      StillReading(b, h, n);
      RunOneMore(s, before, PlugList(plugs[k]));
      RunOneMore(s, before + [PlugList(plugs[k])], ModelIdentifier(names[k]));
      NextGood(State(b, Some(h)), PlugList(plugs[k]));
      var middle := TakePlugs(b, h, plugs[k]);
      assert middle.pending.Some? by { Pending(b, h, plugs[k]); }
      NextGood(State(b, Some(middle)), ModelIdentifier(names[k]));
      g := TakeName(middle, names[k]);
      OneAnswer(b, h, plugs[k], names[k]);
      assert forall i :: 0 <= i < k ==> g.endpoints[i] == g.endpoints[..k][i] == h.endpoints[i];
    }
  }

  lemma Pending(b: Bus, f: Frame, plugs: seq<nat>)
    ensures TakePlugs(b, f, plugs).pending.Some?
  {
  }

  lemma NoEvents(s: State)
    ensures Run(s, []) == s
  {
  }

  // ----- the start

  /** A known device keeps its data; a new one gets an id that no device has, and the address that goes with it. */
  ghost predicate DataFor(b: Bus, u: nat, data: DeviceData) {
    && data.busDeviceId == u
    && (forall d :: d in b.devices && d.data.busDeviceId == u ==> d.data == data)
    && ((forall d :: d in b.devices ==> d.data.busDeviceId != u) ==>
          1 <= data.id <= 72 && data.address == data.id - 1 && forall d :: d in b.devices ==> d.data.id != data.id)
  }

  lemma KnownData(b: Bus, u: nat)
    requires Consistent(b) && Find(b.devices, u) < |b.devices|
    ensures DataFor(b, u, b.devices[Find(b.devices, u)].data)
    ensures 1 <= b.devices[Find(b.devices, u)].data.id && b.devices[Find(b.devices, u)].data.address <= LAST_ADDRESS
  {
    var d := b.devices[Find(b.devices, u)];
    assert DeviceOk(b.ids, d);
    OnlyOne(b, d);
    assert d in b.devices;
  }

  lemma NobodyFound(b: Bus, u: nat)
    requires Find(b.devices, u) == |b.devices|
    ensures forall d :: d in b.devices ==> d.data.busDeviceId != u
  {
  }

  /** Whether a device has that id. */
  ghost predicate IdTaken(b: Bus, id: nat) {
    exists d :: d in b.devices && d.data.id == id
  }

  lemma IdTakenExactly(b: Bus, id: nat)
    ensures IdTaken(b, id) <==> id in DeviceIds(b.devices)
  {
    var ids := DeviceIds(b.devices);
    if id in ids {
      var j :| 0 <= j < |ids| && ids[j] == id;
      assert b.devices[j] in b.devices && b.devices[j].data.id == id;
    }
    if d :| d in b.devices && d.data.id == id {
      var j :| 0 <= j < |b.devices| && b.devices[j] == d;
      assert ids[j] == id;
    }
  }

  /** The id of a new device. */
  lemma NewDeviceId(b: Bus)
    ensures var id := FreeId(DeviceIds(b.devices), 1);
            && (1 <= id <= 72 ==> !IdTaken(b, id))
            && (1 <= id <= 72 <==> exists k :: 1 <= k <= 72 && !IdTaken(b, k))
            && (|b.devices| < 72 ==> 1 <= id <= 72)
  {
    var ids := DeviceIds(b.devices);
    var id := FreeId(ids, 1);
    forall k: nat ensures IdTaken(b, k) <==> k in ids {
      IdTakenExactly(b, k);
    }
    hide IdTaken;
    if |b.devices| < 72 {
      FreeIdExists(ids);
    }
  }

  lemma Started(b: Bus, u: nat, n: nat)
    requires Consistent(b) && Room(b, u, n)
    ensures Begin(b, u, n) == Some(Frame(NewData(b, u), 0, n, [], None, [])) && DataFor(b, u, NewData(b, u))
  {
    if Find(b.devices, u) < |b.devices| {
      KnownData(b, u);
    } else {
      NobodyFound(b, u);
      NewDeviceId(b);
      forall d | d in b.devices ensures d.data.id != FreeId(DeviceIds(b.devices), 1) {
        assert IdTaken(b, d.data.id);
      }
    }
  }

  /** Enumerations are refused exactly if the device is not known and there is no element or no address left for it. */
  lemma RefusedExactly(b: Bus, u: nat, n: nat)
    requires Consistent(b)
    ensures Begin(b, u, n) == None <==>
              (forall d :: d in b.devices ==> d.data.busDeviceId != u)
              && (|b.ids| >= 128 || forall id :: 1 <= id <= 72 ==> IdTaken(b, id))
  {
    if Find(b.devices, u) < |b.devices| {
      KnownData(b, u);
      assert b.devices[Find(b.devices, u)] in b.devices;
    } else {
      NobodyFound(b, u);
      NewDeviceId(b);
    }
  }

  // ----- the end

  /** The endpoints have the ids of those that they replace, and new ones beyond. */
  lemma IdsOfEndpoints(b: Bus, f: Frame, i: nat)
    requires Consistent(b) && FrameOk(b, f) && f.pending == None && i < |f.endpoints|
    ensures var former := EndpointsNow(b, f.data.busDeviceId);
            if i < |former| then f.endpoints[i].id == former[i].id else f.endpoints[i].id !in b.ids
  {
    var former := EndpointsNow(b, f.data.busDeviceId);
    NewIdCount(b, f);
    assert f.All() == f.endpoints;
    var ids := (if |f.endpoints| <= |former| then Ids(former)[..|f.endpoints|] else Ids(former)) + f.newIds;
    assert Ids(f.endpoints) == ids;
    assert Ids(f.endpoints)[i] == f.endpoints[i].id;
    if i >= |former| {
      var k := i - |former|;
      assert ids[i] == f.newIds[k];
      var all := b.ids + f.newIds;
      assert all[|b.ids| + k] == f.newIds[k];
      assert forall j :: 0 <= j < |b.ids| ==> all[j] == b.ids[j] && all[j] != all[|b.ids| + k];
    }
  }

  ghost predicate AsAnswered(d: Device, b: Bus, u: nat, plugs: seq<seq<nat>>, names: seq<string>)
    requires |plugs| == |names|
  {
    && d.data.busDeviceId == u && |d.endpoints| == |plugs|
    && (forall i :: 0 <= i < |plugs| ==>
          d.endpoints[i].plugs == plugs[i] && d.endpoints[i].name == (if names[i] == "" then "Device" else names[i]))
    && (forall i :: 0 <= i < |plugs| ==>
          if i < |EndpointsNow(b, u)| then d.endpoints[i].id == EndpointsNow(b, u)[i].id else d.endpoints[i].id !in b.ids)
  }

  /** The events of a whole commissioning. */
  function Commissioning(u: nat, plugs: seq<seq<nat>>, names: seq<string>): seq<Event>
    requires |plugs| == |names|
  {
    [Enumerate(u, |plugs|)] + Answers(plugs, names) + [Done]
  }

  lemma CommissioningRuns(s: State, u: nat, plugs: seq<seq<nat>>, names: seq<string>) returns (g: Frame)
    requires Consistent(s.bus) && |plugs| == |names| && Room(s.bus, u, |plugs|)
    ensures Run(s, Commissioning(u, plugs, names)) == State(Commit(s.bus, g), None)
    ensures FrameOk(s.bus, g) && Taken(g, plugs, names) && g.data.busDeviceId == u && DataFor(s.bus, u, g.data)
  {
    var b, n := s.bus, |plugs|;
    Started(b, u, n);
    BeginOk(b, u, n);
    var f := Frame(NewData(b, u), 0, n, [], None, []);
    hide Consistent, FrameOk, Run, Room, Commit, Begin, DataFor, NewData, Answers;
    assert f.data.busDeviceId == u by { DataIsFor(b, u, f.data); }
    g := AnswersTaken(b, f, n, plugs, names);
    hide Taken;
    assert Finished(b, g) by { AllTaken(b, g, plugs, names); }
    RunWhole(s, u, plugs, names, f, g);
  }

  lemma DataIsFor(b: Bus, u: nat, data: DeviceData)
    requires DataFor(b, u, data)
    ensures data.busDeviceId == u
  {
  }

  lemma AllTaken(b: Bus, f: Frame, plugs: seq<seq<nat>>, names: seq<string>)
    requires |plugs| == |names| == f.endpointCount && Taken(f, plugs, names)
    ensures Finished(b, f)
  {
  }

  lemma RunWhole(s: State, u: nat, plugs: seq<seq<nat>>, names: seq<string>, f: Frame, g: Frame)
    requires |plugs| == |names| && Begin(s.bus, u, |plugs|) == Some(f)
    requires Run(State(s.bus, Some(f)), Answers(plugs, names)) == State(s.bus, Some(g)) && Finished(s.bus, g)
    ensures Run(s, Commissioning(u, plugs, names)) == State(Commit(s.bus, g), None)
  {
    hide Run, Commit, Begin, Answers, Finished;
    var first := Enumerate(u, |plugs|);
    assert [] + [first] == [first];
    NoEvents(s);
    RunOneMore(s, [], first);
    RunAppend(s, [first], Answers(plugs, names));
    RunOneMore(s, [first] + Answers(plugs, names), Done);
  }

  /**
   * After a commissioning for which there is room, the device has the endpoints that it has told about, in their order, with
   * their plugs and names, under the ids of those that they replace and new ones beyond; all other devices are as before. It is
   * still so after a restart.
   */
  lemma Commissioned(s: State, u: nat, plugs: seq<seq<nat>>, names: seq<string>) returns (d: Device)
    requires Consistent(s.bus) && |plugs| == |names| && plugs != [] && Room(s.bus, u, |plugs|)
    ensures AsAnswered(d, s.bus, u, plugs, names) && DataFor(s.bus, u, d.data)
    ensures var after := Run(s, Commissioning(u, plugs, names)); var again := Next(after, Restart);
            && after.frame == None && Consistent(after.bus) && d in after.bus.devices
            && (forall e :: e in again.bus.devices <==> e in after.bus.devices)
            && (forall e: Device :: e.data.busDeviceId != u ==> (e in after.bus.devices <==> e in s.bus.devices))
            && (forall e :: e in after.bus.devices && e.data.busDeviceId == u ==> e == d)
  {
    var b := s.bus;
    var g := CommissioningRuns(s, u, plugs, names);
    d := Device(g.data, g.endpoints);
    GivesAnswers(b, g, u, plugs, names);
    TakenEndpoints(g, plugs, names);
    hide *;
    CommitGives(b, g);
    RestartKeeps(State(Commit(b, g), None));
  }

  lemma TakenEndpoints(f: Frame, plugs: seq<seq<nat>>, names: seq<string>)
    requires |plugs| == |names| && Taken(f, plugs, names)
    ensures f.pending == None && |f.endpoints| == |plugs|
  {
  }

  lemma RestartKeeps(s: State)
    requires Consistent(s.bus)
    ensures forall d :: d in Next(s, Restart).bus.devices <==> d in s.bus.devices
  {
    LoadRestores(s.bus);
    hide Consistent, Load;
  }

  lemma CommitGives(b: Bus, f: Frame)
    requires Consistent(b) && FrameOk(b, f) && f.pending == None && f.endpoints != []
    ensures var after, d, u := Commit(b, f), Device(f.data, f.endpoints), f.data.busDeviceId;
            && Consistent(after) && d in after.devices
            && (forall e: Device :: e.data.busDeviceId != u ==> (e in after.devices <==> e in b.devices))
            && (forall e :: e in after.devices && e.data.busDeviceId == u ==> e == d)
  {
    CommitConsistent(b, f);
    OthersStay(b, f);
    hide Consistent, FrameOk, CommitIds, StoreEndpoints;
    var d := Device(f.data, f.endpoints);
    assert Commit(b, f).devices[0] == d;
    OnlyOne(Commit(b, f), d);
  }

  lemma GivesAnswers(b: Bus, f: Frame, u: nat, plugs: seq<seq<nat>>, names: seq<string>)
    requires Consistent(b) && FrameOk(b, f) && f.data.busDeviceId == u && |plugs| == |names| && Taken(f, plugs, names)
    ensures AsAnswered(Device(f.data, f.endpoints), b, u, plugs, names)
  {
    forall i | 0 <= i < |plugs|
      ensures if i < |EndpointsNow(b, u)| then f.endpoints[i].id == EndpointsNow(b, u)[i].id else f.endpoints[i].id !in b.ids
    {
      IdsOfEndpoints(b, f, i);
    }
    hide FrameOk, Consistent, EndpointsNow;
  }

  /** A device that has no endpoints any more is gone, and the others are as before. */
  lemma CommissionedNothing(s: State, u: nat)
    requires Consistent(s.bus) && Room(s.bus, u, 0)
    ensures var after := Run(s, Commissioning(u, [], []));
            forall e :: e in after.bus.devices <==> e in s.bus.devices && e.data.busDeviceId != u
  {
    var b := s.bus;
    var g := CommissioningRuns(s, u, [], []);
    assert g.endpoints == [];
    OthersStay(b, g);
    CommitConsistent(b, g);
    hide Run, FrameOk, Room, CommitIds;
    var i := Find(b.devices, u);
    var others := Without(b.devices, i);
    assert Commit(b, g).devices == others;
    DistinctBusIds(b);
    forall e | e in others ensures e.data.busDeviceId != u {
      var k :| 0 <= k < |others| && others[k] == e;
      var j := WithoutIndex(b.devices, i, k);
    }
  }

  lemma OthersStay(b: Bus, f: Frame)
    requires Consistent(b)
    ensures forall e: Device :: e.data.busDeviceId != f.data.busDeviceId ==> (e in Commit(b, f).devices <==> e in b.devices)
  {
    hide CommitIds, StoreEndpoints;
    var i, u := Find(b.devices, f.data.busDeviceId), f.data.busDeviceId;
    var others := Without(b.devices, i);
    forall e: Device | e.data.busDeviceId != u ensures e in others <==> e in b.devices {
      if e in b.devices {
        var k :| 0 <= k < |b.devices| && b.devices[k] == e;
        assert k != i;
        assert if k < i || i == |b.devices| then others[k] == e else others[k - 1] == e;
      }
    }
  }

  lemma OnlyOne(b: Bus, d: Device)
    requires Consistent(b) && d in b.devices
    ensures forall e :: e in b.devices && e.data.busDeviceId == d.data.busDeviceId ==> e == d
  {
    DistinctBusIds(b);
    hide *;
    var i :| 0 <= i < |b.devices| && b.devices[i] == d;
    forall e | e in b.devices && e.data.busDeviceId == d.data.busDeviceId ensures e == d {
      var k :| 0 <= k < |b.devices| && b.devices[k] == e;
    }
  }

  lemma DistinctBusIds(b: Bus)
    requires Consistent(b)
    ensures forall i, k | 0 <= i < |b.devices| && 0 <= k < |b.devices| ::
              b.devices[i].data.busDeviceId == b.devices[k].data.busDeviceId ==> i == k
  {
    hide DeviceOk, Stored, Covered, IdsOk, IdSet;
  }

  // ----- names

  /** A new name goes to the endpoint of that id, in memory and in storage, and nothing else changes. */
  lemma NamedExactly(b: Bus, id: nat, name: string)
    requires Consistent(b) && id in b.ids
    ensures var r := Next(State(b, None), SetName(id, name)).bus;
            && r.ids == b.ids == r.disk.ids && |r.devices| == |b.devices| && r.disk.devices == b.disk.devices
            && (forall i :: 0 <= i < |b.devices| ==>
                  r.devices[i].data == b.devices[i].data && |r.devices[i].endpoints| == |b.devices[i].endpoints|
                  && forall k :: 0 <= k < |b.devices[i].endpoints| ==>
                       var e := b.devices[i].endpoints[k];
                       r.devices[i].endpoints[k] == EndpointData(e.id, e.deviceId, if e.id == id then name else e.name, e.plugs))
            && id in b.disk.endpoints
            && var e := b.disk.endpoints[id];
               r.disk.endpoints == b.disk.endpoints[id := EndpointData(e.id, e.deviceId, name, e.plugs)]
  {
    var i :| 0 <= i < |b.devices| && id in IdSet(b.devices[i]);
    var d := b.devices[i];
    assert Stored(b.disk, d) && id in Ids(d.endpoints);
    var k :| 0 <= k < |d.endpoints| && Ids(d.endpoints)[k] == id;
    assert d.endpoints[k] in d.endpoints;
  }

  /** Where there is no such element nothing happens. */
  lemma UnknownNotNamed(s: State, id: nat, name: string)
    requires id !in s.bus.ids
    ensures Next(s, SetName(id, name)) == s
  {
  }
}
