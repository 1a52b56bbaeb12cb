/** A commit writes ids, endpoints and the device one after the other: what loading gives when the power fails in between. */
module PowerLoss {
  import opened Options
  import opened Selection
  import opened BusModel
  import opened BusRun

  /** The endpoints of the device of that id. */
  function EndpointsOf(devices: seq<Device>, id: nat): seq<EndpointData> {
    var i := FindId(devices, id);
    if i < |devices| then devices[i].endpoints else []
  }

  /** The usable entry of an element id belongs to that device. */
  predicate Belongs(disk: Disk, id: nat, x: nat) {
    Loadable(disk, x) && disk.endpoints[x].deviceId == id
  }

  /** The entries of a device, in the order of the ids. */
  function Entries(disk: Disk, ids: seq<nat>, id: nat): seq<EndpointData> {
    if ids == [] then []
    else
      var last := ids[|ids| - 1];
      Entries(disk, ids[..|ids| - 1], id) + if Belongs(disk, id, last) then [disk.endpoints[last]] else []
  }

  lemma {:induction false} FindSame(devices: seq<Device>, after: seq<Device>, id: nat)
    requires |devices| == |after| && forall i :: 0 <= i < |devices| ==> devices[i].data.id == after[i].data.id
    ensures FindId(devices, id) == FindId(after, id)
  {
    if devices != [] {
      FindSame(devices[1..], after[1..], id);
    }
  }

  lemma StepGives(disk: Disk, devices: seq<Device>, x: nat, id: nat)
    ensures EndpointsOf(LoadStep(disk, devices, x), id)
            == EndpointsOf(devices, id) + if Belongs(disk, id, x) then [disk.endpoints[x]] else []
  {
    if Loadable(disk, x) {
      var e := disk.endpoints[x];
      var i := FindId(devices, e.deviceId);
      var after := LoadStep(disk, devices, x);
      if i < |devices| {
        FindSame(devices, after, id);
      } else {
        assert after[1..] == devices;
      }
    }
  }

  /** From any storage, consistent or not, loading gives each device its usable entries in the order of the ids. */
  lemma {:induction false} LoadGives(disk: Disk, ids: seq<nat>, id: nat)
    ensures EndpointsOf(LoadDevices(disk, ids), id) == Entries(disk, ids, id)
  {
    if ids != [] {
      LoadGives(disk, ids[..|ids| - 1], id);
      StepGives(disk, LoadDevices(disk, ids[..|ids| - 1]), ids[|ids| - 1], id);
      hide LoadStep, EndpointsOf, Belongs;
    }
  }

  // ----- between the writes of a commit

  /** The list of ids and n of the endpoints are written, the device is not. */
  function Interrupted(b: Bus, f: Frame, n: nat): Disk
    requires n <= |f.endpoints|
  {
    Disk(CommitIds(b, f), StoreEndpoints(b.disk.endpoints, f.endpoints[..n]), b.disk.devices)
  }

  /** With all endpoints written, what is left is to write the device. */
  lemma LastWriteCommits(b: Bus, f: Frame)
    requires f.endpoints != []
    ensures var before := Interrupted(b, f, |f.endpoints|);
            Commit(b, f).disk == Disk(before.ids, before.endpoints, before.devices[f.data.id := f.data])
  {
    hide CommitIds, StoreEndpoints;
    assert f.endpoints[..|f.endpoints|] == f.endpoints;
  }

  /** A new id whose entry is not written yet, but left over from an endpoint that the device has lost before. */
  ghost predicate Leftover(b: Bus, f: Frame, n: nat, id: nat, x: nat)
    requires n <= |f.endpoints|
  {
    x in f.newIds && x !in Ids(f.endpoints[..n]) && Belongs(b.disk, id, x)
  }

  /** Of the ids in use exactly those of a device have entries that belong to it. */
  lemma OwnBelongs(b: Bus, j: nat, x: nat)
    requires Consistent(b) && j < |b.devices| && x in b.ids
    ensures Belongs(b.disk, b.devices[j].data.id, x) <==> x in IdSet(b.devices[j])
  {
    var i :| 0 <= i < |b.devices| && x in IdSet(b.devices[i]);
    var d := b.devices[i];
    assert DeviceOk(b.ids, d) && Stored(b.disk, d);
    assert x in Ids(d.endpoints);
    var k :| 0 <= k < |d.endpoints| && Ids(d.endpoints)[k] == x;
    assert d.endpoints[k] in d.endpoints && d.endpoints[k].id == x;
    if i != j {
      assert Separate(b.devices[if i < j then i else j], b.devices[if i < j then j else i]);
    }
  }

  lemma {:induction false} WrittenDevice(m: map<nat, EndpointData>, endpoints: seq<EndpointData>, id: nat, x: nat)
    requires x in Ids(endpoints) && forall e :: e in endpoints ==> e.deviceId == id
    ensures x in StoreEndpoints(m, endpoints) && StoreEndpoints(m, endpoints)[x].deviceId == id
  {
    var front, last := endpoints[..|endpoints| - 1], endpoints[|endpoints| - 1];
    assert Ids(endpoints) == Ids(front) + [last.id];
    assert last in endpoints;
    if x != last.id {
      WrittenDevice(m, front, id, x);
    }
  }

  /** Which entries another device finds. */
  lemma FoundExactly(b: Bus, f: Frame, j: nat, n: nat, x: nat)
    requires Consistent(b) && FrameOk(b, f) && f.pending.None? && n <= |f.endpoints|
    requires j < |b.devices| && j != Find(b.devices, f.data.busDeviceId) && x in CommitIds(b, f)
    ensures var id := b.devices[j].data.id;
            Belongs(Interrupted(b, f, n), id, x) <==> x in IdSet(b.devices[j]) || Leftover(b, f, n, id, x)
  {
    var id, written := b.devices[j].data.id, f.endpoints[..n];
    OtherDeviceInOrder(b, f, j);
    OtherDataKept(b, f, j);
    KeepMembers(b.ids, IdSet(b.devices[j]));
    assert DeviceOk(b.ids, b.devices[j]);
    DropMembers(b.ids + f.newIds, Removed(b, f));
    assert x in b.ids || x in f.newIds;
    assert f.All() == f.endpoints;
    hide CommitIds, FrameOk, Consistent, DeviceOk;
    if x in Ids(written) {
      WrittenDevice(b.disk.endpoints, written, f.data.id, x);
      assert x in Ids(f.endpoints);
    } else {
      OtherEntryKept(b.disk.endpoints, written, x);
      assert Belongs(Interrupted(b, f, n), id, x) <==> Belongs(b.disk, id, x);
      if x in b.ids {
        OwnBelongs(b, j, x);
        NotNew(b, f, x);
      }
    }
  }

  lemma NotNew(b: Bus, f: Frame, x: nat)
    requires FrameOk(b, f) && x in b.ids
    ensures x !in f.newIds
  {
    var ids := b.ids + f.newIds;
    var i :| 0 <= i < |b.ids| && b.ids[i] == x;
    assert forall k :: 0 <= k < |f.newIds| ==> ids[|b.ids| + k] == f.newIds[k] && ids[i] != ids[|b.ids| + k];
  }

  lemma {:induction false} EntriesKept(disk: Disk, ids: seq<nat>, id: nat, chosen: set<nat>)
    requires forall x :: x in ids ==> (Belongs(disk, id, x) <==> x in chosen)
    ensures Ids(Entries(disk, ids, id)) == Keep(ids, chosen)
    ensures forall e :: e in Entries(disk, ids, id) ==> e.id in disk.endpoints && e == disk.endpoints[e.id]
  {
    if ids != [] {
      var front, last := ids[..|ids| - 1], ids[|ids| - 1];
      assert last in ids && forall x :: x in front ==> x in ids;
      EntriesKept(disk, front, id, chosen);
    }
  }

  ghost predicate SomeLeftover(b: Bus, f: Frame, n: nat, id: nat)
    requires n <= |f.endpoints|
  {
    exists x :: Leftover(b, f, n, id, x)
  }

  /** What another device is loaded with: its own endpoints and the left over ones, in the order of the new list of ids. */
  lemma OtherDeviceLoaded(b: Bus, f: Frame, j: nat, n: nat)
    requires Consistent(b) && FrameOk(b, f) && f.pending.None? && n <= |f.endpoints|
    requires j < |b.devices| && j != Find(b.devices, f.data.busDeviceId)
    ensures var id, disk := b.devices[j].data.id, Interrupted(b, f, n);
            var chosen := IdSet(b.devices[j]) + set x | x in CommitIds(b, f) && Leftover(b, f, n, id, x);
            && EndpointsOf(Load(disk).devices, id) == Entries(disk, disk.ids, id)
            && Ids(Entries(disk, disk.ids, id)) == Keep(CommitIds(b, f), chosen)
            && forall e :: e in Entries(disk, disk.ids, id) ==> e.id in disk.endpoints && e == disk.endpoints[e.id]
  {
    hide CommitIds, FrameOk, Consistent, Leftover, Belongs;
    var id, disk := b.devices[j].data.id, Interrupted(b, f, n);
    var chosen := IdSet(b.devices[j]) + set x | x in CommitIds(b, f) && Leftover(b, f, n, id, x);
    CommitIdsOk(b, f);
    LoadGives(disk, disk.ids, id);
    forall x | x in disk.ids ensures Belongs(disk, id, x) <==> x in chosen {
      FoundExactly(b, f, j, n, x);
    }
    EntriesKept(disk, disk.ids, id, chosen);
  }

  lemma LeftoverListed(b: Bus, f: Frame, n: nat, id: nat, x: nat)
    requires Consistent(b) && FrameOk(b, f) && f.pending.None? && n <= |f.endpoints| && Leftover(b, f, n, id, x)
    ensures x in CommitIds(b, f) && x !in b.ids
  {
    CommitIdsOk(b, f);
    RemovedIds(b, f);
    if x in b.ids {
      NotNew(b, f, x);
    }
  }

  /** Entries that agree with storage are determined by their ids. */
  lemma SameEntries(m: map<nat, EndpointData>, a: seq<EndpointData>, d: seq<EndpointData>)
    requires Ids(a) == Ids(d)
    requires forall e :: e in a ==> e.id in m && e == m[e.id]
    requires forall e :: e in d ==> e.id in m && e == m[e.id]
    ensures a == d
  {
    forall k | 0 <= k < |a| ensures a[k] == d[k] {
      assert a[k] in a && d[k] in d && Ids(a)[k] == Ids(d)[k];
    }
  }

  lemma StillStored(b: Bus, f: Frame, j: nat, n: nat)
    requires Consistent(b) && FrameOk(b, f) && f.pending.None? && n <= |f.endpoints|
    requires j < |b.devices| && j != Find(b.devices, f.data.busDeviceId)
    ensures var m := Interrupted(b, f, n).endpoints; forall e :: e in b.devices[j].endpoints ==> e.id in m && e == m[e.id]
  {
    var d, written := b.devices[j], f.endpoints[..n];
    OtherDeviceInOrder(b, f, j);
    assert Stored(b.disk, d);
    forall e | e in d.endpoints
      ensures e.id in StoreEndpoints(b.disk.endpoints, written) && StoreEndpoints(b.disk.endpoints, written)[e.id] == e
    {
      assert e.id in Ids(d.endpoints) && e.id in IdSet(d);
      assert e.id !in SetOf(Ids(f.endpoints));
      assert e.id !in Ids(written) by {
        assert forall k :: 0 <= k < n ==> Ids(written)[k] == Ids(f.endpoints)[k];
      }
      OtherEntryKept(b.disk.endpoints, written, e.id);
    }
  }

  /**
   * After a power failure between the writes of a commit, every device that is not being commissioned is loaded as it was if
   * and only if none of the new ids whose entries are not written yet has an entry that such a device has lost before.
   */
  lemma OthersIntactExactly(b: Bus, f: Frame, j: nat, n: nat)
    requires Consistent(b) && FrameOk(b, f) && f.pending.None? && n <= |f.endpoints|
    requires j < |b.devices| && j != Find(b.devices, f.data.busDeviceId)
    ensures var d := b.devices[j];
            EndpointsOf(Load(Interrupted(b, f, n)).devices, d.data.id) == d.endpoints <==> !SomeLeftover(b, f, n, d.data.id)
  {
    var d, disk := b.devices[j], Interrupted(b, f, n);
    var entries := Entries(disk, disk.ids, d.data.id);
    OtherDeviceLoaded(b, f, j, n);
    OtherDeviceInOrder(b, f, j);
    hide CommitIds, FrameOk, Consistent, Leftover, Entries, Interrupted;
    var ids := CommitIds(b, f);
    var chosen := IdSet(d) + set x | x in ids && Leftover(b, f, n, d.data.id, x);
    assert Keep(ids, IdSet(d)) == Ids(d.endpoints);
    if SomeLeftover(b, f, n, d.data.id) {
      var x :| Leftover(b, f, n, d.data.id, x);
      LeftoverListed(b, f, n, d.data.id, x);
      KeepMembers(ids, chosen);
      OwnIds(b, j);
      assert x in Ids(entries) && x !in Ids(d.endpoints);
    } else {
      assert chosen == IdSet(d);
      StillStored(b, f, j, n);
      SameEntries(disk.endpoints, entries, d.endpoints);
    }
  }

  lemma OwnIds(b: Bus, j: nat)
    requires Consistent(b) && j < |b.devices|
    ensures forall x :: x in Ids(b.devices[j].endpoints) ==> x in b.ids
  {
    assert DeviceOk(b.ids, b.devices[j]);
    KeepMembers(b.ids, IdSet(b.devices[j]));
  }

  /** There are such entries: a device that is commissioned again with fewer endpoints leaves those of the others behind. */
  lemma LeftoversStay(b: Bus, f: Frame, x: nat)
    requires Consistent(b) && FrameOk(b, f) && f.pending.None? && f.endpoints != [] && x in Removed(b, f)
    ensures var after := Commit(b, f); x !in after.ids && Belongs(after.disk, f.data.id, x)
  {
    CommitIdsOk(b, f);
    RemovedIds(b, f);
    var i := Find(b.devices, f.data.busDeviceId);
    assert f.All() == f.endpoints;
    assert x in b.ids;
    OwnBelongs(b, i, x);
    assert x in Ids(b.devices[i].endpoints);
    assert x !in Ids(f.endpoints) by { RemovedNotStored(b, f, x); }
    OtherEntryKept(b.disk.endpoints, f.endpoints, x);
  }

  lemma RemovedNotStored(b: Bus, f: Frame, x: nat)
    requires Consistent(b) && FrameOk(b, f) && f.pending.None? && x in Removed(b, f)
    ensures x !in Ids(f.endpoints)
  {
    RemovedIds(b, f);
  }
}
