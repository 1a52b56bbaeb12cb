/** Loading the bus state from storage, the steps of a commissioning coroutine, and whole runs of both. */
module BusRun {
  import opened Selection
  import opened BusModel
  import opened Options

  // ----- loading

  /** The endpoint entry of an element id and the device entry it refers to are present and carry their own ids. */
  predicate Loadable(disk: Disk, x: nat) {
    && x in disk.endpoints && disk.endpoints[x].id == x
    && disk.endpoints[x].deviceId in disk.devices
    && disk.devices[disk.endpoints[x].deviceId].id == disk.endpoints[x].deviceId
  }

  function FindId(devices: seq<Device>, id: nat): (i: nat)
    ensures i <= |devices|
    ensures forall j :: 0 <= j < i ==> devices[j].data.id != id
    ensures i < |devices| ==> devices[i].data.id == id
  {
    if devices == [] then 0
    else if devices[0].data.id == id then 0
    else 1 + FindId(devices[1..], id)
  }

  /** Appends an endpoint to its device, which is created in front of the list when it is not there yet. */
  function LoadStep(disk: Disk, devices: seq<Device>, x: nat): seq<Device> {
    if !Loadable(disk, x) then devices
    else
      var e := disk.endpoints[x];
      var i := FindId(devices, e.deviceId);
      if i < |devices| then devices[i := devices[i].(endpoints := devices[i].endpoints + [e])]
      else [Device(disk.devices[e.deviceId], [e])] + devices
  }

  function LoadDevices(disk: Disk, ids: seq<nat>): seq<Device> {
    if ids == [] then [] else LoadStep(disk, LoadDevices(disk, ids[..|ids| - 1]), ids[|ids| - 1])
  }

  function StoredIds(disk: Disk): seq<nat> {
    if |disk.ids| <= MAX_ELEMENT_COUNT then disk.ids else disk.ids[..MAX_ELEMENT_COUNT]
  }

  function LoadedIds(disk: Disk, ids: seq<nat>): seq<nat> {
    Keep(ids, set x | x in ids && Loadable(disk, x))
  }

  /** The state after a restart. */
  function Load(disk: Disk): Bus {
    Bus(LoadDevices(disk, StoredIds(disk)), LoadedIds(disk, StoredIds(disk)), disk)
  }

  /** The endpoints of a device whose ids are among the first n. */
  ghost function Loaded(b: Bus, d: Device, n: nat): nat
    requires n <= |b.ids|
  {
    |Keep(b.ids[..n], IdSet(d))|
  }

  ghost function Part(d: Device, m: nat): Device
    requires m <= |d.endpoints|
  {
    Device(d.data, d.endpoints[..m])
  }

  /** Every device with ids among the first n is loaded with just those endpoints. */
  ghost predicate PartsLoaded(b: Bus, loaded: seq<Device>, n: nat)
    requires n <= |b.ids|
  {
    forall i :: 0 <= i < |b.devices| ==>
      var m := Loaded(b, b.devices[i], n);
      m <= |b.devices[i].endpoints| && (m > 0 ==> Part(b.devices[i], m) in loaded)
  }

  ghost predicate IsPart(b: Bus, i: nat, d: Device, n: nat)
    requires n <= |b.ids|
  {
    i < |b.devices| && 0 < Loaded(b, b.devices[i], n) <= |b.devices[i].endpoints|
    && d == Part(b.devices[i], Loaded(b, b.devices[i], n))
  }

  /** Nothing else is loaded. */
  ghost predicate OnlyParts(b: Bus, loaded: seq<Device>, n: nat)
    requires n <= |b.ids|
  {
    forall d :: d in loaded ==> SomePart(b, d, n)
  }

  ghost predicate SomePart(b: Bus, d: Device, n: nat)
    requires n <= |b.ids|
  {
    exists i: nat :: IsPart(b, i, d, n)
  }

  ghost predicate DistinctDevices(devices: seq<Device>) {
    forall k, l :: 0 <= k < l < |devices| ==> devices[k].data.id != devices[l].data.id
  }

  ghost predicate Rebuilt(b: Bus, loaded: seq<Device>, n: nat)
    requires n <= |b.ids|
  {
    PartsLoaded(b, loaded, n) && OnlyParts(b, loaded, n) && DistinctDevices(loaded)
  }

  /** The ids among the first n are the first ids of the device. */
  lemma LoadedIsPrefix(b: Bus, i: nat, n: nat)
    requires Consistent(b) && i < |b.devices| && n <= |b.ids|
    ensures Loaded(b, b.devices[i], n) <= |b.devices[i].endpoints|
    ensures Keep(b.ids[..n], IdSet(b.devices[i])) == Ids(b.devices[i].endpoints)[..Loaded(b, b.devices[i], n)]
  {
    assert DeviceOk(b.ids, b.devices[i]);
    assert b.ids == b.ids[..n] + b.ids[n..];
    KeepAppend(b.ids[..n], b.ids[n..], IdSet(b.devices[i]));
  }

  lemma LoadedStep(b: Bus, i: nat, n: nat)
    requires i < |b.devices| && n < |b.ids|
    ensures Loaded(b, b.devices[i], n + 1) == Loaded(b, b.devices[i], n) + if b.ids[n] in IdSet(b.devices[i]) then 1 else 0
  {
    assert b.ids[..n + 1][..n] == b.ids[..n];
  }

  /** Every listed id belongs to exactly one device. */
  lemma Owner(b: Bus, n: nat) returns (i: nat)
    requires Consistent(b) && n < |b.ids|
    ensures i < |b.devices| && b.ids[n] in IdSet(b.devices[i])
    ensures forall j :: 0 <= j < |b.devices| && j != i ==> b.ids[n] !in IdSet(b.devices[j])
  {
    hide DeviceOk, Stored, IdsOk, IdSet;
    var x := b.ids[n];
    assert x in b.ids;
    i :| 0 <= i < |b.devices| && x in IdSet(b.devices[i]);
    forall j | 0 <= j < |b.devices| && j != i
      ensures x !in IdSet(b.devices[j])
    {
      assert Separate(b.devices[if i < j then i else j], b.devices[if i < j then j else i]);
    }
  }

  /** The entry of the next id is the next endpoint of its device. */
  lemma NextEndpoint(b: Bus, n: nat, i: nat)
    requires Consistent(b) && n < |b.ids| && i < |b.devices| && b.ids[n] in IdSet(b.devices[i])
    ensures Loaded(b, b.devices[i], n) < |b.devices[i].endpoints|
    ensures Loadable(b.disk, b.ids[n])
    ensures b.disk.endpoints[b.ids[n]] == b.devices[i].endpoints[Loaded(b, b.devices[i], n)]
    ensures b.disk.endpoints[b.ids[n]].deviceId == b.devices[i].data.id
    ensures b.disk.devices[b.devices[i].data.id] == b.devices[i].data
  {
    hide IdsOk, AllSeparate, Covered;
    var x, d, m := b.ids[n], b.devices[i], Loaded(b, b.devices[i], n);
    LoadedIsPrefix(b, i, n);
    LoadedIsPrefix(b, i, n + 1);
    LoadedStep(b, i, n);
    assert b.ids[..n + 1][..n] == b.ids[..n];
    assert Keep(b.ids[..n + 1], IdSet(d)) == Keep(b.ids[..n], IdSet(d)) + [x];
    assert Ids(d.endpoints)[..m + 1][m] == x;
    assert DeviceOk(b.ids, d) && Stored(b.disk, d);
    assert d.endpoints[m] in d.endpoints && d.endpoints[m].id == x;
  }

  /** Devices with the same id are the same. */
  lemma SameDevice(b: Bus, i: nat, j: nat)
    requires Consistent(b) && i < |b.devices| && j < |b.devices| && b.devices[i].data.id == b.devices[j].data.id
    ensures i == j
  {
    assert i < j ==> Separate(b.devices[i], b.devices[j]);
    assert j < i ==> Separate(b.devices[j], b.devices[i]);
  }

  /** How the next id changes what is loaded. */
  ghost predicate Extends(d: Device, m: nat, loaded: seq<Device>, after: seq<Device>) {
    var k := FindId(loaded, d.data.id);
    m < |d.endpoints|
    && if k < |loaded| then loaded[k] == Part(d, m) && after == loaded[k := Part(d, m + 1)]
       else m == 0 && after == [Part(d, m + 1)] + loaded
  }

  /** Loading one more id adds one endpoint to the right device and leaves the others alone. */
  lemma RebuildStep(b: Bus, loaded: seq<Device>, n: nat)
    requires Consistent(b) && n < |b.ids| && Rebuilt(b, loaded, n)
    ensures Rebuilt(b, LoadStep(b.disk, loaded, b.ids[n]), n + 1)
  {
    hide Consistent, Loaded, IdSet;
    var i := Owner(b, n);
    NextEndpoint(b, n, i);
    var d, m, x := b.devices[i], Loaded(b, b.devices[i], n), b.ids[n];
    var after := LoadStep(b.disk, loaded, x);
    var k := FindId(loaded, d.data.id);
    assert d.endpoints[..m + 1] == d.endpoints[..m] + [d.endpoints[m]];
    if k < |loaded| {
      assert SomePart(b, loaded[k], n);
      var j: nat :| IsPart(b, j, loaded[k], n);
      SameDevice(b, i, j);
    } else {
      assert m == 0;
      assert d.endpoints[..1] == [d.endpoints[0]];
    }
    assert Extends(d, m, loaded, after);
    forall j | 0 <= j < |b.devices|
      ensures Loaded(b, b.devices[j], n + 1) == Loaded(b, b.devices[j], n) + if j == i then 1 else 0
    {
      LoadedStep(b, j, n);
    }
    hide LoadStep;
    PartsAfter(b, loaded, after, n, i);
    OnlyPartsAfter(b, loaded, after, n, i);
  }

  lemma PartsAfter(b: Bus, loaded: seq<Device>, after: seq<Device>, n: nat, i: nat)
    requires Consistent(b) && n < |b.ids| && Rebuilt(b, loaded, n) && i < |b.devices|
    requires Extends(b.devices[i], Loaded(b, b.devices[i], n), loaded, after)
    requires forall j :: 0 <= j < |b.devices| ==>
      Loaded(b, b.devices[j], n + 1) == Loaded(b, b.devices[j], n) + if j == i then 1 else 0
    ensures PartsLoaded(b, after, n + 1) && DistinctDevices(after)
  {
    hide Consistent, Loaded;
    var d, m := b.devices[i], Loaded(b, b.devices[i], n);
    var k := FindId(loaded, d.data.id);
    forall j | 0 <= j < |b.devices|
      ensures var c := Loaded(b, b.devices[j], n + 1);
              c <= |b.devices[j].endpoints| && (c > 0 ==> Part(b.devices[j], c) in after)
    {
      var c := Loaded(b, b.devices[j], n);
      if j == i {
        assert after[if k < |loaded| then k else 0] == Part(d, m + 1);
      } else if c > 0 {
        var l :| 0 <= l < |loaded| && loaded[l] == Part(b.devices[j], c);
        if l == k {
          SameDevice(b, i, j);
        }
        assert after[if k < |loaded| then l else l + 1] == loaded[l];
      }
    }
  }

  lemma OnlyPartsAfter(b: Bus, loaded: seq<Device>, after: seq<Device>, n: nat, i: nat)
    requires Consistent(b) && n < |b.ids| && Rebuilt(b, loaded, n) && i < |b.devices|
    requires Extends(b.devices[i], Loaded(b, b.devices[i], n), loaded, after)
    requires forall j :: 0 <= j < |b.devices| ==>
      Loaded(b, b.devices[j], n + 1) == Loaded(b, b.devices[j], n) + if j == i then 1 else 0
    ensures OnlyParts(b, after, n + 1)
  {
    hide Consistent, Loaded;
    var d, m := b.devices[i], Loaded(b, b.devices[i], n);
    var k := FindId(loaded, d.data.id);
    forall e | e in after
      ensures SomePart(b, e, n + 1)
    {
      if e == Part(d, m + 1) {
        assert IsPart(b, i, e, n + 1);
      } else {
        var l :| 0 <= l < |after| && after[l] == e;
        var o := if k < |loaded| then l else l - 1;
        assert e == loaded[o] && e.data.id != d.data.id;
        assert SomePart(b, loaded[o], n);
        var j: nat :| IsPart(b, j, e, n);
        assert IsPart(b, j, e, n + 1);
      }
    }
  }

  lemma {:induction false} LoadPrefix(b: Bus, n: nat)
    requires Consistent(b) && n <= |b.ids|
    ensures Rebuilt(b, LoadDevices(b.disk, b.ids[..n]), n)
  {
    if n > 0 {
      hide Consistent, Rebuilt, LoadStep;
      LoadPrefix(b, n - 1);
      RebuildStep(b, LoadDevices(b.disk, b.ids[..n - 1]), n - 1);
      assert b.ids[..n][..n - 1] == b.ids[..n - 1];
    }
  }

  ghost predicate SameDevices(a: seq<Device>, b: seq<Device>) {
    forall d :: d in a <==> d in b
  }

  lemma AllLoaded(b: Bus, i: nat)
    requires Consistent(b) && i < |b.devices|
    ensures Loaded(b, b.devices[i], |b.ids|) == |b.devices[i].endpoints| > 0
    ensures Part(b.devices[i], |b.devices[i].endpoints|) == b.devices[i]
  {
    assert b.ids[..|b.ids|] == b.ids;
    assert DeviceOk(b.ids, b.devices[i]);
  }

  lemma AllLoadable(b: Bus)
    requires Consistent(b)
    ensures LoadedIds(b.disk, b.ids) == b.ids
  {
    forall x | x in b.ids
      ensures Loadable(b.disk, x)
    {
      var k :| 0 <= k < |b.ids| && b.ids[k] == x;
      var i := Owner(b, k);
      NextEndpoint(b, k, i);
    }
    KeepAll(b.ids, set x | x in b.ids && Loadable(b.disk, x));
  }

  /**
   * A restart restores the list of ids and the devices with all their endpoints in the same order; only the order of
   * the devices themselves may change.
   */
  lemma LoadRestores(b: Bus)
    requires Consistent(b)
    ensures Load(b.disk).ids == b.ids
    ensures SameDevices(Load(b.disk).devices, b.devices)
    ensures Consistent(Load(b.disk))
  {
    var l, n := Load(b.disk), |b.ids|;
    AllLoadable(b);
    LoadPrefix(b, n);
    assert b.ids[..n] == b.ids && b.disk.ids == b.ids && IdsOk(b.ids);
    hide LoadDevices, LoadedIds, Loaded, Consistent, Part;
    forall d | d in b.devices
      ensures d in l.devices
    {
      var i :| 0 <= i < |b.devices| && b.devices[i] == d;
      AllLoaded(b, i);
    }
    forall d | d in l.devices
      ensures d in b.devices
    {
      assert SomePart(b, d, n);
      var i: nat :| IsPart(b, i, d, n);
      AllLoaded(b, i);
    }
    SameDevicesConsistent(b, l);
  }

  /** Consistency does not depend on the order of the devices. */
  lemma SameDevicesConsistent(b: Bus, l: Bus)
    requires Consistent(b) && SameDevices(l.devices, b.devices) && l.ids == b.ids && l.disk == b.disk
    requires DistinctDevices(l.devices)
    ensures Consistent(l)
  {
    hide IdsOk, DeviceOk, Stored;
    forall k | 0 <= k < |l.devices|
      ensures DeviceOk(l.ids, l.devices[k]) && Stored(l.disk, l.devices[k])
    {
      assert l.devices[k] in b.devices;
    }
    forall k, m | 0 <= k < m < |l.devices|
      ensures Separate(l.devices[k], l.devices[m])
    {
      assert l.devices[k] in b.devices && l.devices[m] in b.devices;
      var i :| 0 <= i < |b.devices| && b.devices[i] == l.devices[k];
      var j :| 0 <= j < |b.devices| && b.devices[j] == l.devices[m];
      assert if i < j then Separate(b.devices[i], b.devices[j]) else Separate(b.devices[j], b.devices[i]);
    }
    forall x | x in l.ids
      ensures exists k :: 0 <= k < |l.devices| && x in IdSet(l.devices[k])
    {
      var i :| 0 <= i < |b.devices| && x in IdSet(b.devices[i]);
      assert b.devices[i] in l.devices;
    }
  }

  // ----- the steps of a commissioning coroutine

  /** The smallest positive number that is not in the list, as an octet: 256 becomes 0. */
  function FreeId(s: seq<nat>, from: nat): (id: nat)
    requires 1 <= from <= 256
    ensures id == 0 || (from <= id < 256 && id !in s)
    ensures forall x :: from <= x < (if id == 0 then 256 else id) ==> x in s
    decreases 256 - from
  {
    if from == 256 then 0
    else if from !in s then from
    else FreeId(s, from + 1)
  }

  /** As long as fewer than 255 ids are taken there is a free one, and it is at most one above their number. */
  lemma FreeIdExists(s: seq<nat>)
    requires |s| < 255
    ensures 1 <= FreeId(s, 1) <= |s| + 1 && FreeId(s, 1) !in s
  {
    var id := FreeId(s, 1);
    if id == 0 {
      Pigeonhole(s, 255);
    } else {
      Pigeonhole(s, id - 1);
    }
  }

  function DeviceIds(devices: seq<Device>): (r: seq<nat>)
    ensures |r| == |devices|
    ensures forall i :: 0 <= i < |devices| ==> r[i] == devices[i].data.id
  {
    seq(|devices|, i requires 0 <= i < |devices| => devices[i].data.id)
  }

  /** The data of the device that is to be commissioned: a known device keeps its id. The address is an octet. */
  function NewData(b: Bus, busDeviceId: nat): DeviceData {
    var i := Find(b.devices, busDeviceId);
    var id := if i < |b.devices| then b.devices[i].data.id else FreeId(DeviceIds(b.devices), 1);
    DeviceData(id, if id == 0 then 255 else id - 1, busDeviceId)
  }

  /** Starts commissioning unless there is no address or no space for a new device. */
  function Begin(b: Bus, busDeviceId: nat, endpointCount: nat): Option<Frame> {
    var data := NewData(b, busDeviceId);
    if data.address > LAST_ADDRESS || (Find(b.devices, busDeviceId) == |b.devices| && |b.ids| >= MAX_ELEMENT_COUNT) then None
    else Some(Frame(data, 0, endpointCount, [], None, []))
  }

  lemma BeginOk(b: Bus, busDeviceId: nat, endpointCount: nat)
    requires Consistent(b) && Begin(b, busDeviceId, endpointCount).Some?
    ensures FrameOk(b, Begin(b, busDeviceId, endpointCount).value)
  {
    var f := Begin(b, busDeviceId, endpointCount).value;
    assert b.ids + f.newIds == b.ids;
    assert f.All() == [];
    NewDataOk(b, busDeviceId);
    hide NewData, DeviceOk, Stored, AllSeparate, Covered, Ids;
    assert Ids([]) == [];
  }

  lemma NewDataOk(b: Bus, busDeviceId: nat)
    requires Consistent(b) && NewData(b, busDeviceId).address <= LAST_ADDRESS
    ensures var data := NewData(b, busDeviceId); var i := Find(b.devices, busDeviceId);
            && data.busDeviceId == busDeviceId && 1 <= data.id && data.address == data.id - 1
            && (i < |b.devices| ==> data == b.devices[i].data)
            && (i == |b.devices| ==> forall j :: 0 <= j < |b.devices| ==> b.devices[j].data.id != data.id)
  {
    hide Stored, AllSeparate, Covered, IdsOk;
    var data, i := NewData(b, busDeviceId), Find(b.devices, busDeviceId);
    if i < |b.devices| {
      assert DeviceOk(b.ids, b.devices[i]);
    } else {
      forall j | 0 <= j < |b.devices|
        ensures b.devices[j].data.id != data.id
      {
        assert DeviceIds(b.devices)[j] == b.devices[j].data.id;
      }
    }
  }

  /** The plug list has arrived: the endpoint takes over the id of its predecessor or a new one. */
  function TakePlugs(b: Bus, f: Frame, plugs: seq<nat>): Frame {
    var former := Ids(OldEndpoints(b.devices, f.data.busDeviceId));
    var n := |f.endpoints|;
    var id := if n < |former| then former[n] else FreeId(b.ids + f.newIds, 1);
    f.(pending := Some(EndpointData(id, f.data.id, "", plugs)),
       newIds := if n < |former| then f.newIds else f.newIds + [id])
  }

  lemma IdsAppend(endpoints: seq<EndpointData>, e: EndpointData)
    ensures Ids(endpoints + [e]) == Ids(endpoints) + [e.id]
  {
  }

  /** A free id keeps the ids distinct and small. */
  lemma FreshIdOk(ids: seq<nat>)
    requires IdsOk(ids) && |ids| < MAX_ELEMENT_COUNT
    ensures IdsOk(ids + [FreeId(ids, 1)])
  {
    FreeIdExists(ids);
  }

  lemma TakePlugsOk(b: Bus, f: Frame, plugs: seq<nat>)
    requires Consistent(b) && FrameOk(b, f) && f.pending.None? && f.endpointIndex < f.endpointCount && !Full(b, f)
    ensures FrameOk(b, TakePlugs(b, f, plugs))
  {
    hide Consistent, Ids, IdsOk, Find, OldEndpoints;
    var former := Ids(OldEndpoints(b.devices, f.data.busDeviceId));
    var g := TakePlugs(b, f, plugs);
    var n := |f.endpoints|;
    assert f.All() == f.endpoints && g.All() == f.endpoints + [g.pending.value];
    IdsAppend(f.endpoints, g.pending.value);
    if n < |former| {
      assert former[..n + 1] == former[..n] + [former[n]];
    } else {
      FreshIdOk(b.ids + f.newIds);
      assert b.ids + g.newIds == (b.ids + f.newIds) + [g.pending.value.id];
    }
  }

  /** A device that does not tell the name of an endpoint gets one. */
  function NameOf(answer: string): string {
    if answer == "" then "Device" else answer
  }

  /** The name has arrived, or is not told: the endpoint is complete. */
  function TakeName(f: Frame, answer: string): Frame
    requires f.pending.Some?
  {
    f.(pending := None, endpoints := f.endpoints + [f.pending.value.(name := NameOf(answer))], endpointIndex := f.endpointIndex + 1)
  }

  lemma TakeNameOk(b: Bus, f: Frame, answer: string)
    requires FrameOk(b, f) && f.pending.Some?
    ensures FrameOk(b, TakeName(f, answer))
  {
    var g := TakeName(f, answer);
    assert |g.All()| == |f.All()|;
    assert Ids(g.All()) == Ids(f.All());
  }

  /** No further endpoint will be read. */
  predicate Finished(b: Bus, f: Frame) {
    f.pending.None?
    && (f.endpointIndex >= f.endpointCount
        || (|f.endpoints| >= |OldEndpoints(b.devices, f.data.busDeviceId)| && |b.ids| + |f.newIds| >= MAX_ELEMENT_COUNT))
  }

  // ----- runs

  /** The interface and, between two awaits, the working data of at most one commissioning coroutine. */
  datatype State = State(bus: Bus, frame: Option<Frame>)

  datatype Event =
    | Enumerate(busDeviceId: nat, endpointCount: nat)
    | PlugList(plugs: seq<nat>)
    | ModelIdentifier(name: string)
    | Done
    | Cancel
    | SetName(id: nat, name: string)
    | Restart

  function RenameEndpoints(endpoints: seq<EndpointData>, id: nat, name: string): seq<EndpointData> {
    seq(|endpoints|, i requires 0 <= i < |endpoints| =>
      if endpoints[i].id == id then endpoints[i].(name := name) else endpoints[i])
  }

  function RenameDevices(devices: seq<Device>, id: nat, name: string): seq<Device> {
    seq(|devices|, i requires 0 <= i < |devices| =>
      devices[i].(endpoints := RenameEndpoints(devices[i].endpoints, id, name)))
  }

  /** Changes the name of an element in memory and in storage. */
  function Rename(b: Bus, id: nat, name: string): Bus {
    if id in b.ids && id in b.disk.endpoints then
      Bus(RenameDevices(b.devices, id, name), b.ids,
          b.disk.(endpoints := b.disk.endpoints[id := b.disk.endpoints[id].(name := name)]))
    else b
  }

  /** A new enumeration cancels a commissioning that is still going on. */
  function Next(s: State, e: Event): State {
    match e
    case Enumerate(busDeviceId, endpointCount) => s.(frame := Begin(s.bus, busDeviceId, endpointCount))
    case PlugList(plugs) =>
      if s.frame.Some? && s.frame.value.pending.None? && !Finished(s.bus, s.frame.value)
      then s.(frame := Some(TakePlugs(s.bus, s.frame.value, plugs))) else s
    case ModelIdentifier(name) =>
      if s.frame.Some? && s.frame.value.pending.Some?
      then s.(frame := Some(TakeName(s.frame.value, name))) else s
    case Done =>
      if s.frame.Some? && Finished(s.bus, s.frame.value)
      then State(Commit(s.bus, s.frame.value), None) else s
    case Cancel => s.(frame := None)
    case SetName(id, name) => s.(bus := Rename(s.bus, id, name))
    case Restart => State(Load(s.bus.disk), None)
  }

  function Run(s: State, events: seq<Event>): State {
    if events == [] then s else Next(Run(s, events[..|events| - 1]), events[|events| - 1])
  }

  lemma {:induction false} RunAppend(s: State, a: seq<Event>, b: seq<Event>)
    ensures Run(s, a + b) == Run(Run(s, a), b)
  {
    hide Next;
    if b == [] {
      assert a + b == a;
    } else {
      assert (a + b)[..|a + b| - 1] == a + b[..|b| - 1];
      RunAppend(s, a, b[..|b| - 1]);
    }
  }

  const EMPTY: State := State(Bus([], [], Disk([], map[], map[])), None)

  ghost predicate Good(s: State) {
    Consistent(s.bus) && (s.frame.Some? ==> FrameOk(s.bus, s.frame.value))
  }

  lemma RenamedDevice(b: Bus, id: nat, name: string, i: nat)
    requires Consistent(b) && i < |b.devices| && id in b.ids && id in b.disk.endpoints
    ensures var r := Rename(b, id, name);
            && Ids(r.devices[i].endpoints) == Ids(b.devices[i].endpoints)
            && DeviceOk(r.ids, r.devices[i]) && Stored(r.disk, r.devices[i])
  {
    var r := Rename(b, id, name);
    var d, e := b.devices[i], r.devices[i];
    assert DeviceOk(b.ids, d) && Stored(b.disk, d);
    assert Ids(e.endpoints) == Ids(d.endpoints);
    forall x | x in e.endpoints
      ensures x.deviceId == d.data.id && x.id in r.disk.endpoints && r.disk.endpoints[x.id] == x
    {
      var k :| 0 <= k < |e.endpoints| && e.endpoints[k] == x;
      assert d.endpoints[k] in d.endpoints;
    }
  }

  /** Renaming leaves ids and device data alone, and with them everything that commissioning looks at. */
  lemma RenamedFrame(b: Bus, id: nat, name: string, f: Frame)
    requires Consistent(b) && FrameOk(b, f)
    ensures FrameOk(Rename(b, id, name), f)
  {
    var r := Rename(b, id, name);
    assert |r.devices| == |b.devices|;
    assert forall j :: 0 <= j < |b.devices| ==> r.devices[j].data == b.devices[j].data;
    var i := Find(b.devices, f.data.busDeviceId);
    assert Find(r.devices, f.data.busDeviceId) == i;
    if i < |b.devices| && r != b {
      RenamedDevice(b, id, name, i);
    }
    assert Ids(OldEndpoints(r.devices, f.data.busDeviceId)) == Ids(OldEndpoints(b.devices, f.data.busDeviceId));
  }

  lemma RenameOk(b: Bus, id: nat, name: string)
    requires Consistent(b)
    ensures Consistent(Rename(b, id, name))
  {
    var r := Rename(b, id, name);
    if id in b.ids && id in b.disk.endpoints {
      hide IdsOk, DeviceOk, Stored, RenameDevices;
      assert |r.devices| == |b.devices| && forall j :: 0 <= j < |b.devices| ==> r.devices[j].data == b.devices[j].data by {
        DataKept(b.devices, id, name);
      }
      forall i | 0 <= i < |b.devices|
        ensures IdSet(r.devices[i]) == IdSet(b.devices[i])
        ensures DeviceOk(r.ids, r.devices[i]) && Stored(r.disk, r.devices[i])
      {
        RenamedDevice(b, id, name, i);
      }
      forall i, j | 0 <= i < j < |r.devices|
        ensures Separate(r.devices[i], r.devices[j])
      {
        assert Separate(b.devices[i], b.devices[j]);
      }
      forall x | x in r.ids
        ensures exists i :: 0 <= i < |r.devices| && x in IdSet(r.devices[i])
      {
        var i :| 0 <= i < |b.devices| && x in IdSet(b.devices[i]);
        assert x in IdSet(r.devices[i]);
      }
    }
  }

  lemma DataKept(devices: seq<Device>, id: nat, name: string)
    ensures var r := RenameDevices(devices, id, name);
            |r| == |devices| && forall j :: 0 <= j < |r| ==> r[j].data == devices[j].data
  {
  }

  /** Every step keeps the state consistent and the working data usable. */
  lemma NextGood(s: State, e: Event)
    requires Good(s)
    ensures Good(Next(s, e))
  {
    hide Consistent, FrameOk;
    match e
    case Enumerate(busDeviceId, endpointCount) =>
      if Begin(s.bus, busDeviceId, endpointCount).Some? {
        BeginOk(s.bus, busDeviceId, endpointCount);
      }
    case PlugList(plugs) =>
      if s.frame.Some? && s.frame.value.pending.None? && !Finished(s.bus, s.frame.value) {
        TakePlugsOk(s.bus, s.frame.value, plugs);
      }
    case ModelIdentifier(name) =>
      if s.frame.Some? && s.frame.value.pending.Some? {
        TakeNameOk(s.bus, s.frame.value, name);
      }
    case Done =>
      if s.frame.Some? && Finished(s.bus, s.frame.value) {
        CommitConsistent(s.bus, s.frame.value);
      }
    case Cancel =>
    case SetName(id, name) =>
      RenameOk(s.bus, id, name);
      if s.frame.Some? {
        RenamedFrame(s.bus, id, name, s.frame.value);
      }
    case Restart =>
      LoadRestores(s.bus);
  }

  /**
   * Over every run of commissionings, cancellations, changes of name and restarts the interface stays consistent, and
   * loading from storage gives back the same ids and the same devices with their endpoints in the same order.
   */
  lemma {:induction false} RunGood(events: seq<Event>)
    ensures Good(Run(EMPTY, events))
    ensures var b := Run(EMPTY, events).bus;
            Load(b.disk).ids == b.ids && SameDevices(Load(b.disk).devices, b.devices)
  {
    if events != [] {
      RunGood(events[..|events| - 1]);
      NextGood(Run(EMPTY, events[..|events| - 1]), events[|events| - 1]);
    }
    LoadRestores(Run(EMPTY, events).bus);
  }
}
