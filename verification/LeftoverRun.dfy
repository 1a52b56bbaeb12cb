/** A run of commissionings after which a power failure gives a device an endpoint back that it has lost. */
module LeftoverRun {
  import opened Options
  import opened Selection
  import opened BusModel
  import opened BusRun
  import opened PowerLoss

  lemma RunThree(s: State, a: Event, b: Event, c: Event)
    ensures Run(s, [a, b, c]) == Next(Next(Next(s, a), b), c)
  {
    hide Next;
    assert [a, b, c][..2] == [a, b] && [a, b][..1] == [a] && [a][..0] == [];
    assert Run(s, []) == s;
    assert Run(s, [a]) == Next(s, a);
    assert Run(s, [a, b]) == Next(Run(s, [a]), b);
  }

  lemma RunOne(s: State, a: Event)
    ensures Run(s, [a]) == Next(s, a)
  {
    hide Next;
    assert [a][..0] == [] && Run(s, []) == s;
  }

  function First(u: nat): DeviceData { DeviceData(1, 0, u) }

  function Both(u: nat): Bus {
    Bus([Device(First(u), [EndpointData(1, 1, "a", []), EndpointData(2, 1, "b", [])])], [1, 2],
        Disk([1, 2], map[1 := EndpointData(1, 1, "a", []), 2 := EndpointData(2, 1, "b", [])], map[1 := First(u)]))
  }

  /** The entry of the second endpoint is left over. */
  function Less(u: nat): Bus {
    Bus([Device(First(u), [EndpointData(1, 1, "c", [])])], [1],
        Disk([1], map[1 := EndpointData(1, 1, "c", []), 2 := EndpointData(2, 1, "b", [])], map[1 := First(u)]))
  }

  function Second(v: nat): Frame {
    Frame(DeviceData(2, 1, v), 1, 1, [EndpointData(2, 2, "d", [])], None, [2])
  }

  lemma FirstEndpoint(u: nat)
    ensures Next(Next(Next(EMPTY, Enumerate(u, 2)), PlugList([])), ModelIdentifier("a"))
            == State(EMPTY.bus, Some(Frame(First(u), 1, 2, [EndpointData(1, 1, "a", [])], None, [1])))
  {
    var b, none := EMPTY.bus, [];
    assert DeviceIds([]) == none && FreeId(none, 1) == 1;
    var f := Frame(First(u), 0, 2, [], None, []);
    assert Next(EMPTY, Enumerate(u, 2)) == State(b, Some(f));
    assert Ids(OldEndpoints([], u)) == none && b.ids + f.newIds == none;
    assert !Finished(b, f);
    var g := Frame(First(u), 0, 2, [], Some(EndpointData(1, 1, "", [])), [1]);
    assert TakePlugs(b, f, []) == g;
    assert TakeName(g, "a") == Frame(First(u), 1, 2, [EndpointData(1, 1, "a", [])], None, [1]);
  }

  lemma SecondEndpointTaken(u: nat)
    ensures Next(Next(State(EMPTY.bus, Some(Frame(First(u), 1, 2, [EndpointData(1, 1, "a", [])], None, [1]))),
                      PlugList([])), ModelIdentifier("b"))
            == State(EMPTY.bus, Some(BothFrame(u)))
  {
    var b, x, y := EMPTY.bus, EndpointData(1, 1, "a", []), EndpointData(2, 1, "b", []);
    var f := Frame(First(u), 1, 2, [x], None, [1]);
    assert Ids(OldEndpoints([], u)) == [] && b.ids + f.newIds == [1];
    assert FreeId([1], 1) == FreeId([1], 2) == 2;
    assert !Finished(b, f);
    var g := Frame(First(u), 1, 2, [x], Some(EndpointData(2, 1, "", [])), [1, 2]);
    assert TakePlugs(b, f, []) == g;
    assert TakeName(g, "b") == BothFrame(u);
  }

  function BothFrame(u: nat): Frame {
    Frame(First(u), 2, 2, [EndpointData(1, 1, "a", []), EndpointData(2, 1, "b", [])], None, [1, 2])
  }

  lemma StoreOne(m: map<nat, EndpointData>, x: EndpointData)
    ensures StoreEndpoints(m, [x]) == m[x.id := x]
  {
    assert [x][..0] == [];
  }

  lemma StoreTwo(m: map<nat, EndpointData>, x: EndpointData, y: EndpointData)
    ensures StoreEndpoints(m, [x, y]) == m[x.id := x][y.id := y]
  {
    assert [x, y][..1] == [x];
    StoreOne(m, x);
  }

  lemma BothCommitted(u: nat)
    ensures Commit(EMPTY.bus, BothFrame(u)) == Both(u)
  {
    var b, h := EMPTY.bus, BothFrame(u);
    assert Find([], u) == 0 && Ids(OldEndpoints([], u)) == [];
    assert b.ids + h.newIds == [1, 2] && Removed(b, h) == {};
    DropNothing([1, 2]);
    StoreTwo(b.disk.endpoints, h.endpoints[0], h.endpoints[1]);
    hide StoreEndpoints, Drop, Removed;
    assert CommitIds(b, h) == [1, 2];
    assert Without([], 0) == [];
    assert b.disk.endpoints[1 := h.endpoints[0]][2 := h.endpoints[1]] == Both(u).disk.endpoints;
    assert b.disk.devices[1 := First(u)] == Both(u).disk.devices;
  }

  lemma SecondEndpoint(u: nat)
    ensures Next(Next(Next(State(EMPTY.bus, Some(Frame(First(u), 1, 2, [EndpointData(1, 1, "a", [])], None, [1]))),
                           PlugList([])), ModelIdentifier("b")), Done) == State(Both(u), None)
  {
    SecondEndpointTaken(u);
    BothCommitted(u);
    hide Commit, TakePlugs, TakeName, Both;
  }

  lemma DropSecond()
    ensures Drop([1, 2], {2}) == [1]
  {
    assert [1, 2][..1] == [1] && [1][..0] == [];
    var s: set<nat> := SetOf([1, 2]) - {2};
    assert 1 in s && 2 !in s;
    assert Keep([], s) == [];
    assert Keep([1], s) == [1];
  }

  function LessFrame(u: nat): Frame {
    Frame(First(u), 1, 1, [EndpointData(1, 1, "c", [])], None, [])
  }

  lemma FirstFound(u: nat)
    ensures Find(Both(u).devices, u) == 0 && Ids(OldEndpoints(Both(u).devices, u)) == [1, 2]
  {
  }

  lemma TakenAgain(u: nat)
    ensures Next(Next(Next(State(Both(u), None), Enumerate(u, 1)), PlugList([])), ModelIdentifier("c"))
            == State(Both(u), Some(LessFrame(u)))
  {
    var b := Both(u);
    FirstFound(u);
    var f := Frame(First(u), 0, 1, [], None, []);
    assert Next(State(b, None), Enumerate(u, 1)) == State(b, Some(f));
    var g := Frame(First(u), 0, 1, [], Some(EndpointData(1, 1, "", [])), []);
    assert TakePlugs(b, f, []) == g;
    assert TakeName(g, "c") == LessFrame(u);
  }

  lemma LessIds(u: nat)
    ensures CommitIds(Both(u), LessFrame(u)) == [1]
  {
    FirstFound(u);
    assert Both(u).ids + LessFrame(u).newIds == [1, 2] && [1, 2][1..] == [2];
    assert Removed(Both(u), LessFrame(u)) == {2};
    DropSecond();
  }

  lemma LessCommitted(u: nat)
    ensures Commit(Both(u), LessFrame(u)) == Less(u)
  {
    FirstFound(u);
    LessIds(u);
    var b, z := Both(u), EndpointData(1, 1, "c", []);
    StoreOne(b.disk.endpoints, z);
    hide StoreEndpoints, CommitIds, Find;
    assert Without(b.devices, 0) == [];
    assert b.disk.endpoints[1 := z] == Less(u).disk.endpoints;
    assert b.disk.devices[1 := First(u)] == Less(u).disk.devices;
  }

  lemma CommissionedAgain(u: nat)
    ensures Next(Next(Next(Next(State(Both(u), None), Enumerate(u, 1)), PlugList([])), ModelIdentifier("c")), Done)
            == State(Less(u), None)
  {
    TakenAgain(u);
    LessCommitted(u);
    hide Commit, TakePlugs, TakeName, Both, Less, Begin;
  }

  lemma SecondDevice(u: nat, v: nat)
    requires u != v
    ensures Next(Next(Next(State(Less(u), None), Enumerate(v, 1)), PlugList([])), ModelIdentifier("d"))
            == State(Less(u), Some(Second(v)))
  {
    var b := Less(u);
    assert Find(b.devices, v) == 1 by { assert b.devices[1..] == []; }
    assert DeviceIds(b.devices) == [1] && FreeId([1], 1) == FreeId([1], 2) == 2;
    var f := Frame(DeviceData(2, 1, v), 0, 1, [], None, []);
    assert Next(State(b, None), Enumerate(v, 1)) == State(b, Some(f));
    assert Ids(OldEndpoints(b.devices, v)) == [] && b.ids + f.newIds == [1];
    var g := Frame(DeviceData(2, 1, v), 0, 1, [], Some(EndpointData(2, 2, "", [])), [2]);
    assert TakePlugs(b, f, []) == g;
    assert TakeName(g, "d") == Second(v);
  }

  /** A device that has lost its second endpoint, and another device that is about to get the id of that endpoint. */
  function LeftoverRun(u: nat, v: nat): seq<Event> {
    [Enumerate(u, 2), PlugList([]), ModelIdentifier("a")] + [PlugList([]), ModelIdentifier("b"), Done]
    + [Enumerate(u, 1), PlugList([]), ModelIdentifier("c")] + [Done] + [Enumerate(v, 1), PlugList([]), ModelIdentifier("d")]
  }

  lemma LeftoverRunGives(u: nat, v: nat)
    requires u != v
    ensures Run(EMPTY, LeftoverRun(u, v)) == State(Less(u), Some(Second(v)))
  {
    hide Run, Next, Both, Less, Second;
    var a, b: seq<Event> := [Enumerate(u, 2), PlugList([]), ModelIdentifier("a")], [PlugList([]), ModelIdentifier("b"), Done];
    var c, d: seq<Event> := [Enumerate(u, 1), PlugList([]), ModelIdentifier("c")], [Done];
    var e: seq<Event> := [Enumerate(v, 1), PlugList([]), ModelIdentifier("d")];
    RunAppend(EMPTY, a + b + c + d, e);
    RunAppend(EMPTY, a + b + c, d);
    RunAppend(EMPTY, a + b, c);
    RunAppend(EMPTY, a, b);
    RunThree(EMPTY, a[0], a[1], a[2]);
    FirstEndpoint(u);
    RunThree(Run(EMPTY, a), b[0], b[1], b[2]);
    SecondEndpoint(u);
    RunThree(State(Both(u), None), c[0], c[1], c[2]);
    RunOne(Run(State(Both(u), None), c), Done);
    CommissionedAgain(u);
    RunThree(State(Less(u), None), e[0], e[1], e[2]);
    SecondDevice(u, v);
  }

  lemma LeftoverThere(u: nat, v: nat)
    requires u != v
    ensures SomeLeftover(Less(u), Second(v), 0, 1)
  {
    assert Second(v).endpoints[..0] == [] && Ids([]) == [];
    assert Belongs(Less(u).disk, 1, 2);
    assert Leftover(Less(u), Second(v), 0, 1, 2);
  }

  lemma CutDisk(u: nat, v: nat)
    requires u != v
    ensures Interrupted(Less(u), Second(v), 0) == Disk([1, 2], Less(u).disk.endpoints, Less(u).disk.devices)
  {
    var b, f := Less(u), Second(v);
    assert Find(b.devices, v) == 1 by { assert b.devices[1..] == []; }
    assert Ids(OldEndpoints(b.devices, v)) == [];
    assert Removed(b, f) == {} && b.ids + f.newIds == [1, 2];
    DropNothing([1, 2]);
    assert f.endpoints[..0] == [];
  }

  lemma CutEntries(disk: Disk, x: EndpointData, y: EndpointData)
    requires disk.endpoints == map[1 := x, 2 := y] && 1 in disk.devices && disk.devices[1].id == 1
    requires x.id == 1 && y.id == 2 && x.deviceId == 1 && y.deviceId == 1
    ensures Entries(disk, [1, 2], 1) == [x, y]
  {
    assert [1, 2][..1] == [1] && [1][..0] == [];
    assert Belongs(disk, 1, 1) && Belongs(disk, 1, 2);
    assert Entries(disk, [], 1) == [];
    assert Entries(disk, [1], 1) == [x];
  }

  /**
   * It happens: if the power fails after the list of ids has been written, the first device is loaded with the endpoint that it
   * has lost.
   */
  lemma LeftoverHappens(u: nat, v: nat)
    requires u != v
    ensures Run(EMPTY, LeftoverRun(u, v)) == State(Less(u), Some(Second(v)))
    ensures Finished(Less(u), Second(v)) && Less(u).devices == [Device(First(u), [EndpointData(1, 1, "c", [])])]
    ensures SomeLeftover(Less(u), Second(v), 0, 1)
    ensures EndpointsOf(Load(Interrupted(Less(u), Second(v), 0)).devices, 1)
            == [EndpointData(1, 1, "c", []), EndpointData(2, 1, "b", [])]
  {
    LeftoverRunGives(u, v);
    LeftoverThere(u, v);
    CutDisk(u, v);
    hide Run, SomeLeftover, Entries, LoadDevices, EndpointsOf, LeftoverRun;
    var disk := Interrupted(Less(u), Second(v), 0);
    LoadGives(disk, [1, 2], 1);
    CutEntries(disk, EndpointData(1, 1, "c", []), EndpointData(2, 1, "b", []));
  }
}
