/**
 * The bus interface and its commissioning coroutine as objects that share one array of element ids. A method call is
 * what happens between two awaits; the contracts tie it to the steps of module BusRun.
 */
module BusInterface {
  import opened Selection
  import opened BusModel
  import opened BusRun
  import opened Options

  /** Removes an id from the front of a list in place, keeping the order; the octets behind it are left over. */
  method EraseElement(count: nat, ids: array<nat>, id: nat) returns (j: nat)
    requires count <= ids.Length
    modifies ids
    ensures j <= count && ids[..j] == Drop(old(ids[..count]), {id})
    ensures forall k :: count <= k < ids.Length ==> ids[k] == old(ids[k])
  {
    ghost var before := ids[..count];
    j := 0;
    for i := 0 to count
      invariant j <= i && ids[..j] == Drop(before[..i], {id})
      invariant forall k :: i <= k < ids.Length ==> ids[k] == old(ids[k])
    {
      var id2 := ids[i];
      assert before[..i + 1] == before[..i] + [id2];
      DropStep(before[..i], id2, {id});
      if id2 != id {
        ids[j] := id2;
        assert ids[..j + 1] == ids[..j] + [id2];
        j := j + 1;
      }
    }
    assert before[..count] == before;
  }

  class BusInterface {
    var devices: seq<Device>
    var elementCount: nat
    const elementIds: array<nat>
    var disk: Disk

    ghost predicate Valid()
      reads this
    {
      elementIds.Length == MAX_ELEMENT_COUNT && elementCount <= MAX_ELEMENT_COUNT
    }

    ghost function Model(): Bus
      requires Valid()
      reads this, elementIds
    {
      Bus(devices, elementIds[..elementCount], disk)
    }

    /** Loads the interface from storage; ids without usable entries are dropped from the list on the way. */
    constructor (disk: Disk)
      ensures Valid() && fresh(elementIds) && Model() == Load(disk)
    {
      var ids := new nat[MAX_ELEMENT_COUNT];
      var count := if |disk.ids| <= MAX_ELEMENT_COUNT then |disk.ids| else MAX_ELEMENT_COUNT;
      forall k | 0 <= k < count {
        ids[k] := disk.ids[k];
      }
      assert ids[..count] == StoredIds(disk);
      var loaded, j := LoadElements(disk, ids, count);
      elementIds, elementCount, devices, this.disk := ids, j, loaded, disk;
    }

    static method LoadElements(disk: Disk, ids: array<nat>, count: nat) returns (loaded: seq<Device>, j: nat)
      requires count <= ids.Length
      modifies ids
      ensures j <= count && ids[..j] == LoadedIds(disk, old(ids[..count]))
      ensures loaded == LoadDevices(disk, old(ids[..count]))
    {
      hide Loadable;
      ghost var stored := ids[..count];
      ghost var usable := set x | x in stored && Loadable(disk, x);
      loaded, j := [], 0;
      for i := 0 to count
        invariant j <= i
        invariant forall k :: i <= k < count ==> ids[k] == stored[k]
        invariant loaded == LoadDevices(disk, stored[..i])
        invariant ids[..j] == Keep(stored[..i], usable)
      {
        var id := ids[i];
        assert stored[..i + 1][..i] == stored[..i] && stored[..i + 1][i] == id;
        if Loadable(disk, id) {
          loaded := LoadStep(disk, loaded, id);
          ids[j] := id;
          assert ids[..j + 1] == ids[..j] + [id];
          j := j + 1;
        }
      }
      assert stored[..count] == stored;
    }

    /** The first id that is not among the first count elements, or 0 when all are taken. */
    method AllocateId(count: nat) returns (r: nat)
      requires count <= elementIds.Length
      ensures r == FreeId(elementIds[..count], 1)
    {
      var id := 1;
      while id < 256
        invariant 1 <= id <= 256
        invariant FreeId(elementIds[..count], 1) == FreeId(elementIds[..count], id)
      {
        var found := false;
        var j := 0;
        while j < count && !found
          invariant j <= count && (found ==> id in elementIds[..count])
          invariant !found ==> id !in elementIds[..j]
        {
          found := elementIds[j] == id;
          assert elementIds[..count][j] == elementIds[j];
          assert elementIds[..j + 1] == elementIds[..j] + [elementIds[j]];
          j := j + 1;
        }
        if !found {
          return id;
        }
        id := id + 1;
      }
      return 0;
    }

    /** The first id that no device has, or 0 when all are taken. */
    method AllocateDeviceId() returns (r: nat)
      ensures r == FreeId(DeviceIds(devices), 1)
    {
      var id := 1;
      while id < 256
        invariant 1 <= id <= 256
        invariant FreeId(DeviceIds(devices), 1) == FreeId(DeviceIds(devices), id)
      {
        var found := false;
        var j := 0;
        while j < |devices| && !found
          invariant j <= |devices| && (found ==> id in DeviceIds(devices))
          invariant !found ==> id !in DeviceIds(devices)[..j]
        {
          found := devices[j].data.id == id;
          assert DeviceIds(devices)[j] == devices[j].data.id;
          assert DeviceIds(devices)[..j + 1] == DeviceIds(devices)[..j] + [devices[j].data.id];
          j := j + 1;
        }
        if !found {
          return id;
        }
        id := id + 1;
      }
      return 0;
    }
  }

  /** The coroutine that commissions one device, suspended at an await. */
  class Commissioning {
    const bus: BusInterface
    const data: DeviceData
    const endpointCount: nat
    var endpointIndex: nat
    var endpoints: seq<EndpointData>
    var pending: Option<EndpointData>
    var elementCount: nat

    ghost predicate Valid()
      reads this, bus
    {
      bus.Valid() && bus.elementCount <= elementCount <= MAX_ELEMENT_COUNT
    }

    ghost function Data(): Frame
      requires Valid()
      reads this, bus, bus.elementIds
    {
      Frame(data, endpointIndex, endpointCount, endpoints, pending, bus.elementIds[bus.elementCount..elementCount])
    }

    /** Working data of a device that has been accepted for commissioning. */
    constructor (bus: BusInterface, data: DeviceData, endpointCount: nat)
      requires bus.Valid()
      ensures Valid() && this.bus == bus
      ensures Data() == Frame(data, 0, endpointCount, [], None, [])
    {
      this.bus, this.data, this.endpointCount := bus, data, endpointCount;
      endpointIndex, endpoints, pending, elementCount := 0, [], None, bus.elementCount;
    }

    /** A plug list response. The id goes behind the list of element ids, which the interface does not see yet. */
    method PlugListArrived(plugs: seq<nat>)
      requires Valid() && Consistent(bus.Model()) && FrameOk(bus.Model(), Data())
      requires pending.None? && !Finished(bus.Model(), Data())
      modifies this, bus.elementIds
      ensures Valid() && bus.Model() == old(bus.Model())
      ensures Data() == TakePlugs(old(bus.Model()), old(Data()), plugs)
    {
      hide Consistent, FrameOk;
      var former := OldEndpoints(bus.devices, data.busDeviceId);
      ghost var ids, newIds := bus.elementIds[..bus.elementCount], bus.elementIds[bus.elementCount..elementCount];
      var id;
      if |endpoints| < |former| {
        id := former[|endpoints|].id;
      } else {
        assert ids + newIds == bus.elementIds[..elementCount];
        id := bus.AllocateId(elementCount);
        bus.elementIds[elementCount] := id;
        elementCount := elementCount + 1;
        assert bus.elementIds[bus.elementCount..elementCount] == newIds + [id];
        assert bus.elementIds[..bus.elementCount] == ids;
      }
      pending := Some(EndpointData(id, data.id, "", plugs));
    }

    /** A model identifier response: the endpoint is appended to the endpoints of the device. */
    method ModelIdentifierArrived(answer: string)
      requires Valid() && pending.Some?
      modifies this
      ensures Valid() && bus.Model() == old(bus.Model())
      ensures Data() == TakeName(old(Data()), answer)
    {
      var name := answer;
      if |answer| == 0 {
        name := "Device";
      }
      endpoints := endpoints + [pending.value.(name := name)];
      pending, endpointIndex := None, endpointIndex + 1;
    }

    /** Removes the ids of the former endpoints that the device no longer has. */
    method EraseRemaining(former: seq<EndpointData>, first: nat)
      requires bus.elementIds.Length == MAX_ELEMENT_COUNT && elementCount <= MAX_ELEMENT_COUNT && first <= |former|
      modifies this`elementCount, bus.elementIds
      ensures elementCount <= MAX_ELEMENT_COUNT
      ensures bus.elementIds[..elementCount] == Drop(old(bus.elementIds[..elementCount]), SetOf(Ids(former)[first..]))
    {
      hide Drop, SetOf, Ids;
      ghost var before := bus.elementIds[..elementCount];
      ghost var ids := Ids(former);
      DropNothing(before);
      NothingBetween(ids, first);
      for i := first to |former|
        invariant elementCount <= MAX_ELEMENT_COUNT
        invariant bus.elementIds[..elementCount] == Drop(before, SetOf(ids[first..i]))
      {
        elementCount := EraseElement(elementCount, bus.elementIds, former[i].id);
        DropOneMore(before, ids, first, i);
      }
      assert ids[first..|former|] == ids[first..];
    }

    /** The end of commissioning: replaces the device, publishes the ids and writes everything to storage. */
    method Finish()
      requires Valid() && Finished(bus.Model(), Data())
      modifies this, bus, bus.elementIds
      ensures bus.Valid() && bus.Model() == Commit(old(bus.Model()), old(Data()))
    {
      hide Drop, StoreEndpoints, Without;
      ghost var b, f := bus.Model(), Data();
      var former := OldEndpoints(bus.devices, data.busDeviceId);
      assert bus.elementIds[..elementCount] == b.ids + f.newIds;
      if |endpoints| < |former| {
        EraseRemaining(former, |endpoints|);
      } else {
        DropNothing(b.ids + f.newIds);
      }
      assert bus.elementIds[..elementCount] == CommitIds(b, f);
      bus.devices := Without(bus.devices, Find(bus.devices, data.busDeviceId));
      bus.elementCount := elementCount;
      bus.disk := bus.disk.(ids := bus.elementIds[..elementCount]);
      if endpoints == [] {
        return;
      }
      StoreAll();
      bus.disk := bus.disk.(devices := bus.disk.devices[data.id := data]);
      bus.devices := [Device(data, endpoints)] + bus.devices;
    }

    method StoreAll()
      modifies bus`disk
      ensures bus.disk == old(bus.disk).(endpoints := StoreEndpoints(old(bus.disk.endpoints), endpoints))
    {
      ghost var before := bus.disk.endpoints;
      for i := 0 to |endpoints|
        invariant bus.disk == old(bus.disk).(endpoints := StoreEndpoints(before, endpoints[..i]))
      {
        bus.disk := bus.disk.(endpoints := bus.disk.endpoints[endpoints[i].id := endpoints[i]]);
        assert endpoints[..i + 1][..i] == endpoints[..i];
      }
      assert endpoints[..|endpoints|] == endpoints;
    }
  }

  lemma NothingBetween(ids: seq<nat>, i: nat)
    requires i <= |ids|
    ensures SetOf(ids[i..i]) == {}
  {
  }

  lemma DropOneMore(s: seq<nat>, ids: seq<nat>, first: nat, i: nat)
    requires first <= i < |ids|
    ensures Drop(Drop(s, SetOf(ids[first..i])), {ids[i]}) == Drop(s, SetOf(ids[first..i + 1]))
  {
    DropTwice(s, SetOf(ids[first..i]), {ids[i]});
    assert ids[first..i + 1] == ids[first..i] + [ids[i]];
    assert SetOf(ids[first..i + 1]) == SetOf(ids[first..i]) + {ids[i]};
  }

  /** The first part of commissioning, up to the message that assigns the address; null when it is refused. */
  method HandleCommission(bus: BusInterface, busDeviceId: nat, endpointCount: nat) returns (c: Commissioning?)
    requires bus.Valid()
    ensures bus.Model() == old(bus.Model())
    ensures (c == null) == Begin(bus.Model(), busDeviceId, endpointCount).None?
    ensures c != null ==> fresh(c) && c.bus == bus && c.Valid()
                          && c.Data() == Begin(bus.Model(), busDeviceId, endpointCount).value
  {
    var i := Find(bus.devices, busDeviceId);
    var outOfDevices := i == |bus.devices| && bus.elementCount >= MAX_ELEMENT_COUNT;
    var id;
    if i < |bus.devices| {
      id := bus.devices[i].data.id;
    } else {
      id := bus.AllocateDeviceId();
    }
    var address := if id == 0 then 255 else id - 1;
    if address > LAST_ADDRESS || outOfDevices {
      return null;
    }
    c := new Commissioning(bus, DeviceData(id, address, busDeviceId), endpointCount);
  }

  /** Whether no further endpoint will be read. */
  method IsFinished(c: Commissioning) returns (r: bool)
    requires c.Valid()
    ensures r == Finished(c.bus.Model(), c.Data())
  {
    var former := OldEndpoints(c.bus.devices, c.data.busDeviceId);
    r := c.pending == None
         && (c.endpointIndex >= c.endpointCount || (|c.endpoints| >= |former| && c.elementCount >= MAX_ELEMENT_COUNT));
  }

  ghost predicate AreAnswers(events: seq<Event>) {
    forall e :: e in events ==> e.PlugList? || e.ModelIdentifier?
  }

  /** The device answers some questions; devices, ids and storage of the interface stay as they are. */
  method TakeAnswers(c: Commissioning, answers: seq<Event>)
    requires c.Valid() && Consistent(c.bus.Model()) && FrameOk(c.bus.Model(), c.Data()) && AreAnswers(answers)
    modifies c, c.bus.elementIds
    ensures c.Valid() && c.bus.Model() == old(c.bus.Model())
    ensures State(c.bus.Model(), Some(c.Data())) == Run(State(old(c.bus.Model()), Some(old(c.Data()))), answers)
  {
    hide Consistent, FrameOk, Finished, TakePlugs, TakeName;
    ghost var s := State(c.bus.Model(), Some(c.Data()));
    for i := 0 to |answers|
      invariant c.Valid() && c.bus.Model() == s.bus && FrameOk(s.bus, c.Data())
      invariant State(c.bus.Model(), Some(c.Data())) == Run(s, answers[..i])
    {
      assert answers[..i + 1][..i] == answers[..i] && answers[i] in answers;
      NextGood(State(s.bus, Some(c.Data())), answers[i]);
      var finished := IsFinished(c);
      match answers[i]
      case PlugList(plugs) =>
        if c.pending == None && !finished {
          c.PlugListArrived(plugs);
        }
      case ModelIdentifier(name) =>
        if c.pending != None {
          c.ModelIdentifierArrived(name);
        }
      case _ =>
    }
    assert answers[..|answers|] == answers;
  }

  /**
   * A whole commissioning. If it is dropped after any answers, the interface is as it was before; if it is completed, the
   * interface has made the transition of the state machine from the state that the answers led to.
   */
  method Commission(bus: BusInterface, busDeviceId: nat, endpointCount: nat, answers: seq<Event>, complete: bool)
    requires bus.Valid() && Consistent(bus.Model()) && AreAnswers(answers)
    modifies bus, bus.elementIds
    ensures bus.Valid()
    ensures !complete ==> bus.Model() == old(bus.Model())
    ensures complete ==>
              bus.Model() == Next(Run(Next(State(old(bus.Model()), None), Enumerate(busDeviceId, endpointCount)), answers), Done).bus
  {
    hide Consistent, FrameOk, Finished, Begin, Commit;
    var c := HandleCommission(bus, busDeviceId, endpointCount);
    if c == null {
      NothingToAnswer(bus.Model(), answers);
      return;
    }
    BeginOk(bus.Model(), busDeviceId, endpointCount);
    TakeAnswers(c, answers);
    if complete {
      var finished := IsFinished(c);
      if finished {
        c.Finish();
      }
    }
  }

  lemma {:induction false} NothingToAnswer(b: Bus, answers: seq<Event>)
    requires AreAnswers(answers)
    ensures Run(State(b, None), answers) == State(b, None)
  {
    if answers != [] {
      assert answers[|answers| - 1] in answers;
      NothingToAnswer(b, answers[..|answers| - 1]);
    }
  }
}
