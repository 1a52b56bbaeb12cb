/** The builder of endpoint data, which packs plugs and clusters into a buffer, and the look-ups in the buffer. */
module ClusterBuilder {
  import opened MqttSn
  import opened Clusters

  /** In 32-bit words: plugs take two octets each, cluster entries four. */
  function PlugWords(plugCount: int): int {
    (plugCount * 2 + 3) / 4
  }

  // ----- the stored form

  function PlugAt(buffer: array<Octet>, i: nat): Word
    requires 2 * i + 2 <= buffer.Length
    reads buffer
  {
    var low, high: int := buffer[2 * i], buffer[2 * i + 1];
    low + high * 0x100
  }

  /** Entry i behind the plugs. */
  function InfoAt(buffer: array<Octet>, base: nat, i: nat): ClusterInfo
    requires 4 * (base + i) + 4 <= buffer.Length
    reads buffer
  {
    var p := 4 * (base + i);
    var low, high: int := buffer[p], buffer[p + 1];
    ClusterInfo(low + high * 0x100, buffer[p + 2], buffer[p + 3])
  }

  /** The endpoint data with its packed buffer. */
  class EndpointData {
    var plugCount: Octet
    var serverClusterCount: Octet
    var clientClusterCount: Octet
    const buffer: array<Octet>

    ghost predicate Valid()
      reads this
    {
      4 * (PlugWords(plugCount) + serverClusterCount + clientClusterCount) <= buffer.Length
    }

    ghost function Plugs(): (r: seq<Word>)
      requires Valid()
      reads this, buffer
      ensures |r| == plugCount
    {
      seq(plugCount, i requires 0 <= i < plugCount && Valid() reads this, buffer => PlugAt(buffer, i))
    }

    ghost function Infos(from: nat, count: nat): (r: seq<ClusterInfo>)
      requires 4 * (from + count) <= buffer.Length
      reads buffer
      ensures |r| == count
      ensures forall i {:trigger r[i]} :: 0 <= i < count ==> r[i] == InfoAt(buffer, from, i)
    {
      seq(count, i requires 0 <= i < count && 4 * (from + count) <= buffer.Length reads buffer => InfoAt(buffer, from, i))
    }

    ghost function Servers(): seq<ClusterInfo>
      requires Valid()
      reads this, buffer
    {
      Infos(PlugWords(plugCount), serverClusterCount)
    }

    ghost function Clients(): seq<ClusterInfo>
      requires Valid()
      reads this, buffer
    {
      Infos(PlugWords(plugCount) + serverClusterCount, clientClusterCount)
    }

    /** Allocates that many words for the buffer. */
    constructor (words: nat)
      ensures fresh(buffer) && buffer.Length == 4 * words
    {
      plugCount, serverClusterCount, clientClusterCount := 0, 0, 0;
      buffer := new Octet[4 * words](_ => 0);
    }

    /** The words of the buffer that are stored. */
    function Size(): int
      reads this
    {
      PlugWords(plugCount) + ((serverClusterCount + clientClusterCount) * 4 + 3) / 4
    }

    method FindServerCluster(cluster: Word) returns (plugs: (Octet, Octet))
      requires Valid()
      ensures plugs == FindServer(Servers(), cluster)
    {
      ghost var all := Servers();
      assert all[0..] == all;
      var base := PlugWords(plugCount);
      var i := 0;
      while i < serverClusterCount
        invariant 0 <= i <= serverClusterCount && FindServer(all[i..], cluster) == FindServer(all, cluster)
      {
        var info := InfoAt(buffer, base, i);
        assert all[i] == info && all[i..][1..] == all[i + 1..];
        if info.cluster == cluster {
          return (info.offset, info.count);
        }
        i := i + 1;
      }
      plugs := (0, 0);
    }

    method GetClientCluster(plugIndex: int) returns (info: ClusterInfo)
      requires Valid()
      ensures info == GetClient(Clients(), plugIndex)
    {
      ghost var all := Clients();
      assert all[0..] == all;
      var base := PlugWords(plugCount) + serverClusterCount;
      var i := 0;
      while i < clientClusterCount
        invariant 0 <= i <= clientClusterCount && GetClient(all[i..], plugIndex) == GetClient(all, plugIndex)
      {
        info := InfoAt(buffer, base, i);
        assert all[i] == info && all[i..][1..] == all[i + 1..];
        var o := info.offset;
        if plugIndex >= o && plugIndex < o + info.count {
          return;
        }
        i := i + 1;
      }
      info := ClusterInfo(BASIC, 0, 0);
    }
  }

  /** The lower octet of a plug or a cluster comes first. */
  lemma StoredOctets(data: EndpointData, i: nat)
    requires data.Valid()
    ensures i < data.plugCount ==>
              data.buffer[2 * i] == data.Plugs()[i] % 256 && data.buffer[2 * i + 1] == data.Plugs()[i] / 256
    ensures i < data.serverClusterCount ==>
              var at, info := 4 * ((2 * data.plugCount + 3) / 4) + 4 * i, data.Servers()[i];
              [data.buffer[at], data.buffer[at + 1], data.buffer[at + 2], data.buffer[at + 3]]
              == [info.cluster % 256, info.cluster / 256, info.offset, info.count]
    ensures i < data.clientClusterCount ==>
              var at, info := 4 * ((2 * data.plugCount + 3) / 4) + 4 * (data.serverClusterCount + i), data.Clients()[i];
              [data.buffer[at], data.buffer[at + 1], data.buffer[at + 2], data.buffer[at + 3]]
              == [info.cluster % 256, info.cluster / 256, info.offset, info.count]
  {
    if i < data.serverClusterCount {
      OctetsOf(data.buffer, PlugWords(data.plugCount), i);
    }
    if i < data.clientClusterCount {
      OctetsOf(data.buffer, PlugWords(data.plugCount) + data.serverClusterCount, i);
    }
  }

  lemma OctetsOf(buffer: array<Octet>, base: nat, i: nat)
    requires 4 * (base + i) + 4 <= buffer.Length
    ensures var info, at := InfoAt(buffer, base, i), 4 * (base + i);
            [buffer[at], buffer[at + 1], buffer[at + 2], buffer[at + 3]]
            == [info.cluster % 256, info.cluster / 256, info.offset, info.count]
  {
  }

  // ----- the builder

  /** Server entries grow from the start of the array, client entries from its end. */
  class EndpointDataBuilder {
    var plugCount: Octet
    var serverClusterIndex: Octet
    var clientClusterIndex: Octet
    const plugs: array<Word>
    const clusterInfos: array<ClusterInfo>

    /** The index wraps to 255 when all entries are clients. */
    function ClientCount(): int
      reads this`clientClusterIndex
    {
      MAX_CLUSTER_COUNT - 1 - clientClusterIndex + if clientClusterIndex < MAX_CLUSTER_COUNT then 0 else 0x100
    }

    ghost predicate Valid()
      reads this
    {
      && plugs.Length == MAX_PLUG_COUNT && clusterInfos.Length == MAX_CLUSTER_COUNT
      && plugCount <= MAX_PLUG_COUNT && serverClusterIndex + ClientCount() <= MAX_CLUSTER_COUNT
    }

    ghost function Servers(): seq<ClusterInfo>
      requires Valid()
      reads this, clusterInfos
    {
      clusterInfos[..serverClusterIndex]
    }

    ghost function Clients(): (r: seq<ClusterInfo>)
      requires Valid()
      reads this, clusterInfos
      ensures |r| == ClientCount()
      ensures forall i {:trigger r[i]} :: 0 <= i < |r| ==> r[i] == clusterInfos[MAX_CLUSTER_COUNT - 1 - i]
    {
      seq(ClientCount(), i requires 0 <= i < ClientCount() && Valid() reads this, clusterInfos =>
        clusterInfos[MAX_CLUSTER_COUNT - 1 - i])
    }

    /** The builder holds these brackets. */
    ghost predicate Holds(bs: seq<Bracket>)
      reads this, plugs, clusterInfos
    {
      && Valid() && Fits(bs)
      && plugs[..plugCount] == AllPlugs(bs) && Servers() == Clusters.Infos(bs, true) && Clients() == Clusters.Infos(bs, false)
    }

    constructor ()
      ensures fresh(plugs) && fresh(clusterInfos) && Holds([])
    {
      plugCount, serverClusterIndex, clientClusterIndex := 0, 0, MAX_CLUSTER_COUNT - 1;
      plugs := new Word[MAX_PLUG_COUNT](_ => 0);
      clusterInfos := new ClusterInfo[MAX_CLUSTER_COUNT](_ => ClusterInfo(0, 0, 0));
    }

    method AddPlug(plug: Word)
      requires Valid() && plugCount < MAX_PLUG_COUNT
      modifies this`plugCount, plugs
      ensures Valid() && plugs[..plugCount] == old(plugs[..plugCount]) + [plug]
    {
      plugs[plugCount] := plug;
      plugCount := plugCount + 1;
    }

    method BeginServerCluster(cluster: Word)
      requires Valid() && serverClusterIndex + ClientCount() < MAX_CLUSTER_COUNT
      modifies clusterInfos
      ensures clusterInfos[..] == old(clusterInfos[..])[serverClusterIndex := ClusterInfo(cluster, plugCount, 0)]
      ensures Servers() == old(Servers()) && Clients() == old(Clients())
    {
      clusterInfos[serverClusterIndex] := ClusterInfo(cluster, plugCount, 0);
    }

    method EndServerCluster()
      requires Valid() && serverClusterIndex + ClientCount() < MAX_CLUSTER_COUNT
      requires clusterInfos[serverClusterIndex].offset <= plugCount
      modifies this`serverClusterIndex, clusterInfos
      ensures var info := old(clusterInfos[serverClusterIndex]); var count := plugCount - info.offset;
              && Valid() && Clients() == old(Clients())
              && Servers() == old(Servers()) + if count > 0 then [info.(count := count)] else []
    {
      var count := plugCount - clusterInfos[serverClusterIndex].offset;
      clusterInfos[serverClusterIndex] := clusterInfos[serverClusterIndex].(count := count);
      if count > 0 {
        serverClusterIndex := serverClusterIndex + 1;
      }
    }

    method BeginClientCluster(cluster: Word)
      requires Valid() && serverClusterIndex + ClientCount() < MAX_CLUSTER_COUNT
      modifies clusterInfos
      ensures clusterInfos[..] == old(clusterInfos[..])[clientClusterIndex := ClusterInfo(cluster, plugCount, 0)]
      ensures Servers() == old(Servers()) && Clients() == old(Clients())
    {
      clusterInfos[clientClusterIndex] := ClusterInfo(cluster, plugCount, 0);
    }

    method EndClientCluster()
      requires Valid() && serverClusterIndex + ClientCount() < MAX_CLUSTER_COUNT
      requires clusterInfos[clientClusterIndex].offset <= plugCount
      modifies this`clientClusterIndex, clusterInfos
      ensures var info := old(clusterInfos[clientClusterIndex]); var count := plugCount - info.offset;
              && Valid() && Servers() == old(Servers())
              && Clients() == old(Clients()) + if count > 0 then [info.(count := count)] else []
    {
      var count := plugCount - clusterInfos[clientClusterIndex].offset;
      clusterInfos[clientClusterIndex] := clusterInfos[clientClusterIndex].(count := count);
      if count > 0 {
        clientClusterIndex := if clientClusterIndex == 0 then 0xff else clientClusterIndex - 1;
      }
    }

    method AddPlugs(list: seq<Word>)
      requires Valid() && plugCount + |list| <= MAX_PLUG_COUNT
      modifies this`plugCount, plugs
      ensures Valid() && Servers() == old(Servers()) && Clients() == old(Clients())
      ensures plugs[..plugCount] == old(plugs[..plugCount]) + list && plugCount == old(plugCount) + |list|
    {
      for i := 0 to |list|
        invariant Valid() && plugCount == old(plugCount) + i && plugs[..plugCount] == old(plugs[..plugCount]) + list[..i]
      {
        AddPlug(list[i]);
        assert list[..i + 1] == list[..i] + [list[i]];
      }
      assert list[..|list|] == list;
    }

    method AddServer(b: Bracket, ghost bs: seq<Bracket>)
      requires Holds(bs) && Fits(bs + [b]) && b.server
      modifies this, plugs, clusterInfos
      ensures Holds(bs + [b])
    {
      Appended(bs, b);
      hide Fits, AllPlugs, Clusters.Infos, Servers, Clients;
      BeginServerCluster(b.cluster);
      AddPlugs(b.plugs);
      EndServerCluster();
    }

    method AddClient(b: Bracket, ghost bs: seq<Bracket>)
      requires Holds(bs) && Fits(bs + [b]) && !b.server
      modifies this, plugs, clusterInfos
      ensures Holds(bs + [b])
    {
      Appended(bs, b);
      hide Fits, AllPlugs, Clusters.Infos, Servers, Clients;
      BeginClientCluster(b.cluster);
      AddPlugs(b.plugs);
      EndClientCluster();
    }

    /** The words that are allocated. */
    function Size(): int
      reads this
    {
      PlugWords(plugCount) + ((serverClusterIndex + (MAX_CLUSTER_COUNT - 1 - clientClusterIndex)) * 4 + 3) / 4
    }

    /** The words that plugs and entries take. */
    function Needed(): int
      reads this
    {
      PlugWords(plugCount) + serverClusterIndex + ClientCount()
    }

    /** What is allocated is what the data takes, exactly unless all entries are clients; then it is less. */
    lemma SizeExactly(data: EndpointData)
      requires Valid() && data.plugCount == plugCount
      requires data.serverClusterCount == serverClusterIndex && data.clientClusterCount == ClientCount()
      ensures Size() == data.Size() <==> ClientCount() < MAX_CLUSTER_COUNT
      ensures Size() >= Needed() <==> ClientCount() < MAX_CLUSTER_COUNT
    {
    }

    method CopyPlugs(buffer: array<Octet>)
      requires Valid() && 2 * plugCount <= buffer.Length
      modifies buffer
      ensures forall k :: 0 <= k < plugCount ==> PlugAt(buffer, k) == plugs[k]
    {
      for i := 0 to plugCount
        invariant forall k :: 0 <= k < i ==> PlugAt(buffer, k) == plugs[k]
      {
        buffer[2 * i], buffer[2 * i + 1] := plugs[i] % 0x100, plugs[i] / 0x100;
      }
    }

    method CopyServers(buffer: array<Octet>, base: nat)
      requires Valid() && 4 * (base + serverClusterIndex) <= buffer.Length
      modifies buffer
      ensures forall j :: 0 <= j < serverClusterIndex ==> InfoAt(buffer, base, j) == clusterInfos[j]
      ensures forall k :: 0 <= k < 4 * base ==> buffer[k] == old(buffer[k])
    {
      for i := 0 to serverClusterIndex
        invariant forall j :: 0 <= j < i ==> InfoAt(buffer, base, j) == clusterInfos[j]
        invariant forall k :: 0 <= k < 4 * base ==> buffer[k] == old(buffer[k])
      {
        WriteInfo(buffer, base, i, clusterInfos[i]);
      }
    }

    method CopyClients(buffer: array<Octet>, base: nat)
      requires Valid() && 4 * (base + ClientCount()) <= buffer.Length
      modifies buffer
      ensures forall j :: 0 <= j < ClientCount() ==> InfoAt(buffer, base, j) == Clients()[j]
      ensures forall k :: 0 <= k < 4 * base ==> buffer[k] == old(buffer[k])
    {
      for i := 0 to ClientCount()
        invariant forall j :: 0 <= j < i ==> InfoAt(buffer, base, j) == Clients()[j]
        invariant forall k :: 0 <= k < 4 * base ==> buffer[k] == old(buffer[k])
      {
        WriteInfo(buffer, base, i, clusterInfos[MAX_CLUSTER_COUNT - 1 - i]);
      }
    }

    method CopyInfos(buffer: array<Octet>, base: nat)
      requires Valid() && 4 * (base + serverClusterIndex + ClientCount()) <= buffer.Length
      modifies buffer
      ensures forall j :: 0 <= j < serverClusterIndex ==> InfoAt(buffer, base, j) == clusterInfos[j]
      ensures forall j :: 0 <= j < ClientCount() ==> InfoAt(buffer, base + serverClusterIndex, j) == Clients()[j]
      ensures forall k :: 0 <= k < 4 * base ==> buffer[k] == old(buffer[k])
    {
      CopyServers(buffer, base);
      label copied:
      CopyClients(buffer, base + serverClusterIndex);
      assert forall j :: 0 <= j < serverClusterIndex ==> InfoAt(buffer, base, j) == old@copied(InfoAt(buffer, base, j));
    }

    /** Plugs, servers and clients one behind the other, without touching each other. */
    method Build(data: EndpointData)
      requires Valid() && 4 * Needed() <= data.buffer.Length
      modifies data, data.buffer
      ensures data.Valid() && data.plugCount == plugCount
      ensures data.serverClusterCount == serverClusterIndex && data.clientClusterCount == ClientCount()
      ensures data.Plugs() == plugs[..plugCount] && data.Servers() == Servers() && data.Clients() == Clients()
    {
      data.plugCount := plugCount;
      data.serverClusterCount := serverClusterIndex;
      data.clientClusterCount := ClientCount();
      var base := PlugWords(plugCount);
      CopyPlugs(data.buffer);
      label copied:
      CopyInfos(data.buffer, base);
      assert forall k :: 0 <= k < plugCount ==> PlugAt(data.buffer, k) == old@copied(PlugAt(data.buffer, k));
      hide InfoAt, PlugAt;
    }
  }

  method WriteInfo(buffer: array<Octet>, base: nat, i: nat, info: ClusterInfo)
    requires 4 * (base + i) + 4 <= buffer.Length
    modifies buffer
    ensures InfoAt(buffer, base, i) == info
    ensures forall k :: 0 <= k < buffer.Length && !(4 * (base + i) <= k < 4 * (base + i) + 4) ==> buffer[k] == old(buffer[k])
  {
    var p := 4 * (base + i);
    buffer[p], buffer[p + 1] := info.cluster % 0x100, info.cluster / 0x100;
    buffer[p + 2], buffer[p + 3] := info.offset, info.count;
  }

  /**
   * What an endpoint is created from: brackets in, stored data out, in a buffer of exactly the size that the builder gives;
   * null stands for a size that is too small, which it is exactly when all entries are clients.
   */
  method Describe(bs: seq<Bracket>) returns (data: EndpointData?)
    requires Fits(bs)
    ensures data != null <==> |Infos(bs, false)| < MAX_CLUSTER_COUNT
    ensures data != null ==>
              && data.Valid() && data.buffer.Length == 4 * data.Size()
              && data.Plugs() == AllPlugs(bs) && data.Servers() == Infos(bs, true) && data.Clients() == Infos(bs, false)
  {
    var builder := Fill(bs);
    data := Allocate(builder);
    if data != null {
      builder.Build(data);
    }
  }

  method Fill(bs: seq<Bracket>) returns (builder: EndpointDataBuilder)
    requires Fits(bs)
    ensures fresh(builder) && fresh(builder.plugs) && fresh(builder.clusterInfos) && builder.Holds(bs)
  {
    hide Fits, AllPlugs, Clusters.Infos;
    builder := new EndpointDataBuilder();
    for i := 0 to |bs|
      invariant fresh(builder) && fresh(builder.plugs) && fresh(builder.clusterInfos) && builder.Holds(bs[..i])
    {
      FitsPrefix(bs, i + 1);
      assert bs[..i + 1] == bs[..i] + [bs[i]];
      if bs[i].server {
        builder.AddServer(bs[i], bs[..i]);
      } else {
        builder.AddClient(bs[i], bs[..i]);
      }
    }
    assert bs[..|bs|] == bs;
  }

  method Allocate(builder: EndpointDataBuilder) returns (data: EndpointData?)
    requires builder.Valid()
    ensures data != null <==> builder.ClientCount() < MAX_CLUSTER_COUNT
    ensures data != null ==> fresh(data) && fresh(data.buffer) && data.buffer.Length == 4 * builder.Needed()
  {
    var words := builder.Size();
    if words < builder.Needed() {
      return null;
    }
    data := new EndpointData(words);
  }

  /** Clusters that each have one client plug. */
  function Clients(n: nat): (r: seq<Bracket>)
    requires n <= MAX_CLUSTER_COUNT
    ensures |r| == n
  {
    if n == 0 then [] else Clients(n - 1) + [Bracket(false, n, [0])]
  }

  lemma NoBrackets()
    ensures Fits([]) && AllPlugs([]) == [] && Infos([], false) == [] && Infos([], true) == []
  {
  }

  lemma OneMoreClient(bs: seq<Bracket>, b: Bracket)
    requires Fits(bs) && !b.server && |b.plugs| == 1 && |AllPlugs(bs)| < MAX_PLUG_COUNT
    requires |Infos(bs, true)| + |Infos(bs, false)| < MAX_CLUSTER_COUNT
    ensures Fits(bs + [b]) && |AllPlugs(bs + [b])| == |AllPlugs(bs)| + 1
    ensures |Infos(bs + [b], false)| == |Infos(bs, false)| + 1 && Infos(bs + [b], true) == Infos(bs, true)
  {
    assert (bs + [b])[..|bs|] == bs;
  }

  /** As many of them as there are entries fit, and are too many for the size. */
  lemma {:induction false} AllClients(n: nat)
    requires n <= MAX_CLUSTER_COUNT
    ensures Fits(Clients(n)) && |AllPlugs(Clients(n))| == n && |Infos(Clients(n), false)| == n && Infos(Clients(n), true) == []
  {
    hide Fits, AllPlugs, Clusters.Infos;
    if n == 0 {
      NoBrackets();
    } else {
      AllClients(n - 1);
      OneMoreClient(Clients(n - 1), Bracket(false, n, [0]));
    }
  }

  lemma Appended(bs: seq<Bracket>, b: Bracket)
    requires Fits(bs + [b])
    ensures Fits(bs) && |Infos(bs, true)| + |Infos(bs, false)| < MAX_CLUSTER_COUNT
    ensures AllPlugs(bs + [b]) == AllPlugs(bs) + b.plugs && |AllPlugs(bs)| + |b.plugs| <= MAX_PLUG_COUNT
    ensures forall server {:trigger Infos(bs, server)} ::
      Infos(bs + [b], server)
      == Infos(bs, server) + if b.server == server && b.plugs != [] then [ClusterInfo(b.cluster, |AllPlugs(bs)|, |b.plugs|)] else []
  {
    assert (bs + [b])[..|bs|] == bs;
  }

  lemma {:induction false} FitsPrefix(bs: seq<Bracket>, k: nat)
    requires Fits(bs) && k <= |bs|
    ensures Fits(bs[..k])
  {
    if k == |bs| {
      assert bs[..k] == bs;
    } else {
      FitsPrefix(bs[..|bs| - 1], k);
      assert bs[..|bs| - 1][..k] == bs[..k];
    }
  }
}
