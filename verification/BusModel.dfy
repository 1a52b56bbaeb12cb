/**
 * The state of the bus interface on values: devices with their endpoint lists, the list of element ids, and what is
 * in persistent storage. Commissioning is a frame of working data that becomes part of the state in one commit.
 */
module BusModel {
  import opened Selection
  import opened Options

  const MAX_ELEMENT_COUNT: nat := 128
  const LAST_ADDRESS: nat := 71

  datatype EndpointData = EndpointData(id: nat, deviceId: nat, name: string, plugs: seq<nat>)

  datatype DeviceData = DeviceData(id: nat, address: nat, busDeviceId: nat)

  datatype Device = Device(data: DeviceData, endpoints: seq<EndpointData>)

  /** The list of element ids, the endpoint entries and the device entries. */
  datatype Disk = Disk(ids: seq<nat>, endpoints: map<nat, EndpointData>, devices: map<nat, DeviceData>)

  datatype Bus = Bus(devices: seq<Device>, ids: seq<nat>, disk: Disk)

  function Ids(endpoints: seq<EndpointData>): (r: seq<nat>)
    ensures |r| == |endpoints|
    ensures forall i :: 0 <= i < |endpoints| ==> r[i] == endpoints[i].id
  {
    seq(|endpoints|, i requires 0 <= i < |endpoints| => endpoints[i].id)
  }

  function IdSet(d: Device): set<nat> {
    SetOf(Ids(d.endpoints))
  }

  // ----- consistency

  /** The endpoints of a device are listed in the order in which their ids are in the list of element ids. */
  ghost predicate DeviceOk(ids: seq<nat>, d: Device) {
    && d.endpoints != []
    && 1 <= d.data.id && d.data.address == d.data.id - 1 <= LAST_ADDRESS
    && (forall e :: e in d.endpoints ==> e.deviceId == d.data.id)
    && Keep(ids, IdSet(d)) == Ids(d.endpoints)
  }

  ghost predicate Stored(disk: Disk, d: Device) {
    && d.data.id in disk.devices && disk.devices[d.data.id] == d.data
    && forall e :: e in d.endpoints ==> e.id in disk.endpoints && disk.endpoints[e.id] == e
  }

  ghost predicate IdsOk(ids: seq<nat>) {
    && Distinct(ids) && |ids| <= MAX_ELEMENT_COUNT
    && forall x :: x in ids ==> 1 <= x <= 255
  }

  ghost predicate Separate(d: Device, e: Device) {
    d.data.id != e.data.id && d.data.busDeviceId != e.data.busDeviceId && IdSet(d) !! IdSet(e)
  }

  ghost predicate AllSeparate(devices: seq<Device>) {
    forall i, j :: 0 <= i < j < |devices| ==> Separate(devices[i], devices[j])
  }

  ghost predicate Covered(ids: seq<nat>, devices: seq<Device>) {
    forall x :: x in ids ==> exists i :: 0 <= i < |devices| && x in IdSet(devices[i])
  }

  /** Element ids, devices and storage describe the same endpoints. */
  ghost predicate Consistent(b: Bus) {
    && IdsOk(b.ids)
    && (forall i :: 0 <= i < |b.devices| ==> DeviceOk(b.ids, b.devices[i]) && Stored(b.disk, b.devices[i]))
    && AllSeparate(b.devices)
    && Covered(b.ids, b.devices)
    && b.disk.ids == b.ids
  }

  /** The list of ids is exactly the set of the ids of all endpoints, without duplicates and without zero. */
  lemma IdsAreEndpointIds(b: Bus, x: nat)
    requires Consistent(b)
    ensures x in b.ids <==> exists i :: 0 <= i < |b.devices| && x in Ids(b.devices[i].endpoints)
    ensures x in b.ids ==> x != 0
  {
    forall i | 0 <= i < |b.devices| && x in Ids(b.devices[i].endpoints)
      ensures x in b.ids
    {
      KeepMembers(b.ids, IdSet(b.devices[i]));
    }
    if x in b.ids {
      var i :| 0 <= i < |b.devices| && x in IdSet(b.devices[i]);
      assert x in Ids(b.devices[i].endpoints);
    }
  }

  // ----- commissioning

  /** Index of the device with the given id on the bus, or the number of devices. */
  function Find(devices: seq<Device>, busDeviceId: nat): (i: nat)
    ensures i <= |devices|
    ensures forall j :: 0 <= j < i ==> devices[j].data.busDeviceId != busDeviceId
    ensures i < |devices| ==> devices[i].data.busDeviceId == busDeviceId
  {
    if devices == [] then 0
    else if devices[0].data.busDeviceId == busDeviceId then 0
    else 1 + Find(devices[1..], busDeviceId)
  }

  function OldEndpoints(devices: seq<Device>, busDeviceId: nat): seq<EndpointData> {
    var i := Find(devices, busDeviceId);
    if i < |devices| then devices[i].endpoints else []
  }

  /**
   * The working data of a commissioning coroutine: the new device's data and endpoints, an endpoint whose name is
   * still awaited, and the ids that were appended behind the list of element ids.
   */
  datatype Frame = Frame(data: DeviceData, endpointIndex: nat, endpointCount: nat, endpoints: seq<EndpointData>,
                         pending: Option<EndpointData>, newIds: seq<nat>)
  {
    function All(): seq<EndpointData> {
      endpoints + match pending case None => [] case Some(e) => [e]
    }
  }

  ghost predicate FrameOk(b: Bus, f: Frame) {
    var former := Ids(OldEndpoints(b.devices, f.data.busDeviceId));
    var i := Find(b.devices, f.data.busDeviceId);
    && (i < |b.devices| ==> f.data == b.devices[i].data)
    && (i == |b.devices| ==> forall j :: 0 <= j < |b.devices| ==> b.devices[j].data.id != f.data.id)
    && 1 <= f.data.id && f.data.address == f.data.id - 1 <= LAST_ADDRESS
    && IdsOk(b.ids + f.newIds)
    && Ids(f.All()) == (if |f.All()| <= |former| then former[..|f.All()|] else former) + f.newIds
    && (forall e :: e in f.All() ==> e.deviceId == f.data.id)
    && (f.pending.None? ==> |f.endpoints| <= f.endpointIndex <= f.endpointCount)
    && (f.pending.None? && |f.endpoints| < f.endpointIndex ==> Full(b, f))
    && (f.pending.Some? ==> |f.endpoints| == f.endpointIndex < f.endpointCount)
  }

  /** There is neither an old endpoint to replace nor space for a new element. */
  ghost predicate Full(b: Bus, f: Frame) {
    |f.endpoints| >= |OldEndpoints(b.devices, f.data.busDeviceId)| && |b.ids| + |f.newIds| >= MAX_ELEMENT_COUNT
  }

  function StoreEndpoints(m: map<nat, EndpointData>, endpoints: seq<EndpointData>): map<nat, EndpointData> {
    if endpoints == [] then m
    else
      var last := endpoints[|endpoints| - 1];
      StoreEndpoints(m, endpoints[..|endpoints| - 1])[last.id := last]
  }

  function Without(devices: seq<Device>, i: nat): seq<Device> {
    if i < |devices| then devices[..i] + devices[i + 1..] else devices
  }

  /** The old endpoints that the new device no longer has. */
  function Removed(b: Bus, f: Frame): set<nat> {
    var former := Ids(OldEndpoints(b.devices, f.data.busDeviceId));
    if |f.endpoints| < |former| then SetOf(former[|f.endpoints|..]) else {}
  }

  function CommitIds(b: Bus, f: Frame): seq<nat> {
    Drop(b.ids + f.newIds, Removed(b, f))
  }

  /** The state after the last endpoint: the new device replaces the old one, unless it has no endpoints at all. */
  function Commit(b: Bus, f: Frame): Bus {
    var others := Without(b.devices, Find(b.devices, f.data.busDeviceId));
    var ids := CommitIds(b, f);
    if f.endpoints == [] then
      Bus(others, ids, b.disk.(ids := ids))
    else
      Bus([Device(f.data, f.endpoints)] + others, ids,
          Disk(ids, StoreEndpoints(b.disk.endpoints, f.endpoints), b.disk.devices[f.data.id := f.data]))
  }

  // ----- a commit keeps the state consistent

  lemma SliceSet(s: seq<nat>, k: nat)
    requires k <= |s|
    ensures SetOf(s) == SetOf(s[..k]) + SetOf(s[k..])
    ensures Distinct(s) ==> SetOf(s[..k]) !! SetOf(s[k..])
  {
    assert s == s[..k] + s[k..];
  }

  /** Ids that the commit removes belong to the old device, and none of them to the new one. */
  lemma RemovedIds(b: Bus, f: Frame)
    requires Consistent(b) && FrameOk(b, f) && f.pending.None?
    ensures var former := Ids(OldEndpoints(b.devices, f.data.busDeviceId));
            && Removed(b, f) <= SetOf(former) && SetOf(former) <= SetOf(b.ids)
            && SetOf(Ids(f.endpoints)) == (SetOf(former) - Removed(b, f)) + SetOf(f.newIds)
            && Removed(b, f) !! SetOf(Ids(f.endpoints))
            && SetOf(f.newIds) !! SetOf(b.ids)
  {
    var i := Find(b.devices, f.data.busDeviceId);
    var former := Ids(OldEndpoints(b.devices, f.data.busDeviceId));
    assert f.All() == f.endpoints;
    if i < |b.devices| {
      KeepMembers(b.ids, IdSet(b.devices[i]));
      KeepDistinct(b.ids, IdSet(b.devices[i]));
    }
    Concat(b.ids, f.newIds);
    var k := if |f.endpoints| <= |former| then |f.endpoints| else |former|;
    SliceSet(former, k);
    assert former[..|former|] == former;
    Concat2(former[..k], f.newIds);
  }

  lemma Concat(a: seq<nat>, b: seq<nat>)
    requires Distinct(a + b)
    ensures Distinct(a) && Distinct(b) && SetOf(a) !! SetOf(b)
  {
    var s := a + b;
    forall i, j | 0 <= i < |a| && 0 <= j < |b|
      ensures a[i] != b[j]
    {
      assert s[i] != s[|a| + j];
    }
    forall i, j | 0 <= i < j < |b|
      ensures b[i] != b[j]
    {
      assert s[|a| + i] != s[|a| + j];
    }
    forall i, j | 0 <= i < j < |a|
      ensures a[i] != a[j]
    {
      assert s[i] != s[j];
    }
  }

  lemma Concat2(a: seq<nat>, b: seq<nat>)
    ensures SetOf(a + b) == SetOf(a) + SetOf(b)
  {
  }

  /** The old device, if there is one, is in the order of the list of ids. */
  lemma FormerInOrder(b: Bus, busDeviceId: nat)
    requires Consistent(b)
    ensures var former := Ids(OldEndpoints(b.devices, busDeviceId));
            Keep(b.ids, SetOf(former)) == former && Distinct(former)
  {
    var i := Find(b.devices, busDeviceId);
    if i < |b.devices| {
      assert DeviceOk(b.ids, b.devices[i]);
      KeepDistinct(b.ids, IdSet(b.devices[i]));
    } else {
      var former := Ids(OldEndpoints(b.devices, busDeviceId));
      assert former == [];
      KeepNone(b.ids, SetOf(former));
    }
  }

  lemma KeepFront(s: seq<nat>, k: nat)
    requires Distinct(s) && k <= |s|
    ensures Keep(s, SetOf(s[..k])) == s[..k]
  {
    hide Keep;
    var front, back := s[..k], s[k..];
    var kept := SetOf(front);
    assert s == front + back;
    SliceSet(s, k);
    KeepAppend(front, back, kept);
    KeepAll(front, kept);
    forall x | x in back
      ensures x !in kept
    {
      assert x in SetOf(back);
    }
    KeepNone(back, kept);
  }

  /** The endpoints of the new device are in the order of the new list of ids. */
  lemma NewDeviceInOrder(b: Bus, f: Frame)
    requires Consistent(b) && FrameOk(b, f) && f.pending.None?
    ensures Keep(CommitIds(b, f), SetOf(Ids(f.endpoints))) == Ids(f.endpoints)
  {
    var former := Ids(OldEndpoints(b.devices, f.data.busDeviceId));
    var mine := SetOf(Ids(f.endpoints));
    RemovedIds(b, f);
    assert Keep(CommitIds(b, f), mine) == Keep(b.ids, mine) + f.newIds by {
      KeepDrop(b.ids + f.newIds, mine, Removed(b, f));
      KeepAppend(b.ids, f.newIds, mine);
      KeepAll(f.newIds, mine);
    }
    FormerInOrder(b, f.data.busDeviceId);
    assert f.All() == f.endpoints && former[..|former|] == former;
    var k := if |f.endpoints| <= |former| then |f.endpoints| else |former|;
    KeepMine(b.ids, former, k, mine, f.newIds);
  }

  /** Of the listed ids the new device has those of the endpoints that it took over. */
  lemma KeepMine(ids: seq<nat>, former: seq<nat>, k: nat, mine: set<nat>, newIds: seq<nat>)
    requires Keep(ids, SetOf(former)) == former && Distinct(former) && k <= |former|
    requires mine == SetOf(former[..k]) + SetOf(newIds) && SetOf(newIds) !! SetOf(ids)
    ensures Keep(ids, mine) == former[..k]
  {
    var kept := SetOf(former[..k]);
    SliceSet(former, k);
    KeepSame(ids, mine, SetOf(former) * kept);
    KeepTwice(ids, SetOf(former), kept);
    KeepFront(former, k);
  }

  /** A device that is not replaced keeps its place in the order. */
  lemma OtherDeviceInOrder(b: Bus, f: Frame, j: nat)
    requires Consistent(b) && FrameOk(b, f) && f.pending.None?
    requires j < |b.devices| && j != Find(b.devices, f.data.busDeviceId)
    ensures IdSet(b.devices[j]) !! SetOf(Ids(f.endpoints)) && IdSet(b.devices[j]) !! Removed(b, f)
    ensures DeviceOk(CommitIds(b, f), b.devices[j])
  {
    var i, d := Find(b.devices, f.data.busDeviceId), b.devices[j];
    RemovedIds(b, f);
    if i < |b.devices| {
      assert Separate(b.devices[if i < j then i else j], b.devices[if i < j then j else i]);
    }
    assert DeviceOk(b.ids, d);
    KeepMembers(b.ids, IdSet(d));
    assert IdSet(d) <= SetOf(b.ids);
    OthersKept(b.ids, f.newIds, Removed(b, f), IdSet(d));
  }

  lemma OthersKept(ids: seq<nat>, newIds: seq<nat>, removed: set<nat>, mine: set<nat>)
    requires mine !! removed && SetOf(newIds) !! mine
    ensures Keep(Drop(ids + newIds, removed), mine) == Keep(ids, mine)
  {
    KeepDrop(ids + newIds, mine, removed);
    KeepAppend(ids, newIds, mine);
    forall x | x in newIds
      ensures x !in mine
    {
      assert x in SetOf(newIds);
    }
    KeepNone(newIds, mine);
  }

  lemma CommitIdsOk(b: Bus, f: Frame)
    requires Consistent(b) && FrameOk(b, f) && f.pending.None?
    ensures IdsOk(CommitIds(b, f))
    ensures forall x :: x in CommitIds(b, f) <==> (x in b.ids || x in f.newIds) && x !in Removed(b, f)
  {
    var s := b.ids + f.newIds;
    DropMembers(s, Removed(b, f));
    KeepMembers(s, SetOf(s) - Removed(b, f));
    KeepDistinct(s, SetOf(s) - Removed(b, f));
  }

  /** Storing the endpoints changes their entries only. */
  lemma {:induction false} OtherEntryKept(m: map<nat, EndpointData>, endpoints: seq<EndpointData>, x: nat)
    requires x !in Ids(endpoints)
    ensures x in StoreEndpoints(m, endpoints) <==> x in m
    ensures x in m ==> StoreEndpoints(m, endpoints)[x] == m[x]
  {
    if endpoints != [] {
      var front, last := endpoints[..|endpoints| - 1], endpoints[|endpoints| - 1];
      assert Ids(endpoints) == Ids(front) + [last.id];
      OtherEntryKept(m, front, x);
    }
  }

  lemma {:induction false} EntryStored(m: map<nat, EndpointData>, endpoints: seq<EndpointData>, k: nat)
    requires Distinct(Ids(endpoints)) && k < |endpoints|
    ensures endpoints[k].id in StoreEndpoints(m, endpoints)
    ensures StoreEndpoints(m, endpoints)[endpoints[k].id] == endpoints[k]
  {
    var front, last := endpoints[..|endpoints| - 1], endpoints[|endpoints| - 1];
    if k < |front| {
      assert Ids(endpoints)[k] != Ids(endpoints)[|front|];
      assert Ids(front) == Ids(endpoints)[..|front|];
      EntryStored(m, front, k);
    }
  }

  lemma NewDeviceStored(b: Bus, f: Frame)
    requires Consistent(b) && FrameOk(b, f) && f.pending.None? && f.endpoints != []
    ensures Stored(Commit(b, f).disk, Device(f.data, f.endpoints))
  {
    NewDeviceInOrder(b, f);
    CommitIdsOk(b, f);
    KeepDistinct(CommitIds(b, f), SetOf(Ids(f.endpoints)));
    hide CommitIds, Consistent, FrameOk;
    forall e | e in f.endpoints
      ensures e.id in Commit(b, f).disk.endpoints && Commit(b, f).disk.endpoints[e.id] == e
    {
      var k :| 0 <= k < |f.endpoints| && f.endpoints[k] == e;
      EntryStored(b.disk.endpoints, f.endpoints, k);
    }
  }

  lemma OtherDeviceStored(b: Bus, f: Frame, j: nat)
    requires Consistent(b) && FrameOk(b, f) && f.pending.None?
    requires j < |b.devices| && j != Find(b.devices, f.data.busDeviceId)
    ensures Stored(Commit(b, f).disk, b.devices[j])
  {
    var d := b.devices[j];
    OtherDeviceInOrder(b, f, j);
    OtherDataKept(b, f, j);
    assert Stored(b.disk, d);
    hide CommitIds, Consistent, FrameOk;
    forall e | e in d.endpoints
      ensures e.id in Commit(b, f).disk.endpoints && Commit(b, f).disk.endpoints[e.id] == e
    {
      assert e.id in Ids(d.endpoints) && e.id in IdSet(d);
      assert e.id !in SetOf(Ids(f.endpoints));
      OtherEntryKept(b.disk.endpoints, f.endpoints, e.id);
    }
  }

  lemma OtherDataKept(b: Bus, f: Frame, j: nat)
    requires Consistent(b) && FrameOk(b, f)
    requires j < |b.devices| && j != Find(b.devices, f.data.busDeviceId)
    ensures b.devices[j].data.id != f.data.id && b.devices[j].data.busDeviceId != f.data.busDeviceId
    ensures b.devices[j].data.id in Commit(b, f).disk.devices
         && Commit(b, f).disk.devices[b.devices[j].data.id] == b.devices[j].data
  {
    var i := Find(b.devices, f.data.busDeviceId);
    if i < |b.devices| {
      assert Separate(b.devices[if i < j then i else j], b.devices[if i < j then j else i]);
    }
    assert Stored(b.disk, b.devices[j]);
  }

  /** All devices other than the replaced one, each at its former place or one place further to the front. */
  lemma WithoutIndex(devices: seq<Device>, i: nat, k: nat) returns (j: nat)
    requires k < |Without(devices, i)|
    ensures j < |devices| && j != i && Without(devices, i)[k] == devices[j] && (j == k || j == k + 1)
    ensures j == if k < i then k else k + 1
  {
    j := if k < i then k else k + 1;
  }

  lemma CommitSeparate(b: Bus, f: Frame)
    requires Consistent(b) && FrameOk(b, f) && f.pending.None?
    ensures AllSeparate(Commit(b, f).devices)
  {
    hide DeviceOk, Stored, IdsOk, Covered;
    var i := Find(b.devices, f.data.busDeviceId);
    var others := Without(b.devices, i);
    forall k, l | 0 <= k < l < |others|
      ensures Separate(others[k], others[l])
    {
      var x := WithoutIndex(b.devices, i, k);
      var y := WithoutIndex(b.devices, i, l);
    }
    forall k | 0 <= k < |others|
      ensures Separate(Device(f.data, f.endpoints), others[k])
    {
      var j := WithoutIndex(b.devices, i, k);
      OtherDeviceInOrder(b, f, j);
      OtherDataKept(b, f, j);
    }
  }

  lemma CommitCovered(b: Bus, f: Frame)
    requires Consistent(b) && FrameOk(b, f) && f.pending.None?
    ensures Covered(CommitIds(b, f), Commit(b, f).devices)
  {
    var i := Find(b.devices, f.data.busDeviceId);
    var after := Commit(b, f).devices;
    CommitIdsOk(b, f);
    RemovedIds(b, f);
    hide CommitIds, Removed, DeviceOk, Stored;
    forall x | x in CommitIds(b, f)
      ensures exists k :: 0 <= k < |after| && x in IdSet(after[k])
    {
      if x in SetOf(Ids(f.endpoints)) {
        assert x in IdSet(after[0]);
      } else {
        assert x !in f.newIds by {
          assert x in f.newIds ==> x in SetOf(f.newIds);
        }
        var j :| 0 <= j < |b.devices| && x in IdSet(b.devices[j]);
        var k := KeptDevice(b, f, j);
        assert x in IdSet(after[k]);
      }
    }
  }

  /** Where a device that is not replaced is after the commit. */
  lemma KeptDevice(b: Bus, f: Frame, j: nat) returns (k: nat)
    requires j < |b.devices| && j != Find(b.devices, f.data.busDeviceId)
    ensures k < |Commit(b, f).devices| && Commit(b, f).devices[k] == b.devices[j]
  {
    var shift := if f.endpoints == [] then 0 else 1;
    k := shift + if j < Find(b.devices, f.data.busDeviceId) then j else j - 1;
  }

  /** Whatever the device answered, the state after the commit is consistent. */
  lemma CommitConsistent(b: Bus, f: Frame)
    requires Consistent(b) && FrameOk(b, f) && f.pending.None?
    ensures Consistent(Commit(b, f))
  {
    var after := Commit(b, f);
    hide IdsOk, DeviceOk, Stored, AllSeparate, Covered, CommitIds, FrameOk;
    assert after.ids == CommitIds(b, f);
    CommitIdsOk(b, f);
    CommitSeparate(b, f);
    CommitCovered(b, f);
    forall k | 0 <= k < |after.devices|
      ensures DeviceOk(after.ids, after.devices[k]) && Stored(after.disk, after.devices[k])
    {
      DeviceAfterCommit(b, f, k);
    }
  }

  lemma NewDeviceOk(b: Bus, f: Frame)
    requires Consistent(b) && FrameOk(b, f) && f.pending.None? && f.endpoints != []
    ensures DeviceOk(CommitIds(b, f), Device(f.data, f.endpoints))
  {
    hide CommitIds, Consistent;
    NewDeviceInOrder(b, f);
    assert f.All() == f.endpoints;
    assert IdSet(Device(f.data, f.endpoints)) == SetOf(Ids(f.endpoints));
  }

  lemma OtherDeviceOk(b: Bus, f: Frame, j: nat)
    requires Consistent(b) && FrameOk(b, f) && f.pending.None?
    requires j < |b.devices| && j != Find(b.devices, f.data.busDeviceId)
    ensures DeviceOk(CommitIds(b, f), b.devices[j]) && Stored(Commit(b, f).disk, b.devices[j])
  {
    OtherDeviceInOrder(b, f, j);
    OtherDeviceStored(b, f, j);
    hide CommitIds, Commit, Stored, FrameOk, Find;
  }

  lemma DeviceAfterCommit(b: Bus, f: Frame, k: nat)
    requires Consistent(b) && FrameOk(b, f) && f.pending.None? && k < |Commit(b, f).devices|
    ensures DeviceOk(CommitIds(b, f), Commit(b, f).devices[k]) && Stored(Commit(b, f).disk, Commit(b, f).devices[k])
  {
    hide CommitIds, Stored, DeviceOk, FrameOk, Consistent, IdSet, StoreEndpoints, Find;
    if f.endpoints != [] && k == 0 {
      NewDeviceOk(b, f);
      NewDeviceStored(b, f);
    } else {
      var j := WithoutIndex(b.devices, Find(b.devices, f.data.busDeviceId), if f.endpoints == [] then k else k - 1);
      OtherDeviceOk(b, f, j);
    }
  }
}
