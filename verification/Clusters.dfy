/** The clusters of an endpoint with their plugs, as a list of brackets, and the look-ups in the list. */
module Clusters {
  import opened MqttSn

  const MAX_CLUSTER_COUNT: int := 32

  const MAX_PLUG_COUNT: int := 64

  const BASIC: Word := 0

  /** What is added between the begin and the end of a server or client cluster. */
  datatype Bracket = Bracket(server: bool, cluster: Word, plugs: seq<Word>)

  datatype ClusterInfo = ClusterInfo(cluster: Word, offset: Octet, count: Octet)

  function AllPlugs(bs: seq<Bracket>): seq<Word> {
    if bs == [] then [] else AllPlugs(bs[..|bs| - 1]) + bs[|bs| - 1].plugs
  }

  /** The index of the first plug of a bracket. */
  function Offset(bs: seq<Bracket>, k: nat): nat
    requires k <= |bs|
  {
    |AllPlugs(bs[..k])|
  }

  /** The entries of the servers or of the clients; brackets without plugs leave none. */
  function Infos(bs: seq<Bracket>, server: bool): seq<ClusterInfo>
    requires |AllPlugs(bs)| <= MAX_PLUG_COUNT
  {
    if bs == [] then []
    else
      var b, rest := bs[|bs| - 1], bs[..|bs| - 1];
      Infos(rest, server)
      + if b.server == server && b.plugs != [] then [ClusterInfo(b.cluster, |AllPlugs(rest)|, |b.plugs|)] else []
  }

  /** There is a free entry whenever a bracket begins, and a place for every plug. */
  ghost predicate Fits(bs: seq<Bracket>) {
    && |AllPlugs(bs)| <= MAX_PLUG_COUNT
    && (bs == [] || (Fits(bs[..|bs| - 1])
                     && |Infos(bs[..|bs| - 1], true)| + |Infos(bs[..|bs| - 1], false)| < MAX_CLUSTER_COUNT))
  }

  // ----- look-ups

  /** The plug range of the first server entry of that cluster, or an empty range. */
  function FindServer(infos: seq<ClusterInfo>, cluster: Word): (Octet, Octet) {
    if infos == [] then (0, 0)
    else if infos[0].cluster == cluster then (infos[0].offset, infos[0].count)
    else FindServer(infos[1..], cluster)
  }

  predicate Covers(info: ClusterInfo, plug: int) {
    info.offset <= plug < info.offset + info.count
  }

  /** The first client entry whose range has the plug. */
  function GetClient(infos: seq<ClusterInfo>, plug: int): ClusterInfo {
    if infos == [] then ClusterInfo(BASIC, 0, 0)
    else if Covers(infos[0], plug) then infos[0]
    else GetClient(infos[1..], plug)
  }

  const NO_CLIENT: ClusterInfo := ClusterInfo(BASIC, 0, 0)

  lemma {:induction false} GetClientAppend(infos: seq<ClusterInfo>, last: ClusterInfo, plug: int)
    ensures GetClient(infos + [last], plug)
            == if Covers(GetClient(infos, plug), plug) then GetClient(infos, plug)
               else if Covers(last, plug) then last else NO_CLIENT
  {
    if infos == [] {
      assert [last][1..] == [];
    } else {
      assert (infos + [last])[1..] == infos[1..] + [last];
      GetClientAppend(infos[1..], last, plug);
    }
  }

  lemma {:induction false} FindServerAppend(infos: seq<ClusterInfo>, last: ClusterInfo, cluster: Word)
    requires forall i :: 0 <= i < |infos| ==> infos[i].count > 0
    ensures FindServer(infos + [last], cluster)
            == if FindServer(infos, cluster).1 > 0 then FindServer(infos, cluster)
               else if last.cluster == cluster then (last.offset, last.count) else (0, 0)
  {
    if infos == [] {
      assert [last][1..] == [];
    } else {
      assert (infos + [last])[1..] == infos[1..] + [last];
      FindServerAppend(infos[1..], last, cluster);
    }
  }

  // ----- what the look-ups mean

  /** The plugs of a bracket are at its offset, and the ranges follow each other. */
  lemma {:induction false} PlugsOf(bs: seq<Bracket>, k: nat)
    requires k < |bs|
    ensures Offset(bs, k + 1) == Offset(bs, k) + |bs[k].plugs| <= |AllPlugs(bs)|
    ensures AllPlugs(bs)[Offset(bs, k)..Offset(bs, k + 1)] == bs[k].plugs
  {
    var rest := bs[..|bs| - 1];
    assert bs[..|bs|] == bs;
    if k == |bs| - 1 {
      assert bs[..k] == rest;
    } else {
      PlugsOf(rest, k);
      assert rest[..k] == bs[..k] && rest[..k + 1] == bs[..k + 1];
    }
  }

  /** Every plug is in exactly one bracket. */
  lemma {:induction false} BracketOf(bs: seq<Bracket>, plug: nat) returns (k: nat)
    requires plug < |AllPlugs(bs)|
    ensures k < |bs| && Offset(bs, k) <= plug < Offset(bs, k + 1)
  {
    var rest := bs[..|bs| - 1];
    assert bs[..|bs|] == bs;
    if plug < |AllPlugs(rest)| {
      k := BracketOf(rest, plug);
      assert rest[..k] == bs[..k] && rest[..k + 1] == bs[..k + 1];
    } else {
      k := |bs| - 1;
    }
  }

  lemma {:induction false} OffsetsGrow(bs: seq<Bracket>, i: nat, k: nat)
    requires i <= k <= |bs|
    ensures Offset(bs, i) <= Offset(bs, k)
    decreases k
  {
    if i < k {
      OffsetsGrow(bs, i, k - 1);
      PlugsOf(bs, k - 1);
    }
  }

  lemma BracketsDisjoint(bs: seq<Bracket>, i: nat, k: nat, plug: nat)
    requires i < |bs| && k < |bs|
    requires Offset(bs, i) <= plug < Offset(bs, i + 1) && Offset(bs, k) <= plug < Offset(bs, k + 1)
    ensures i == k
  {
    hide Offset;
    if i < k {
      OffsetsGrow(bs, i + 1, k);
    } else if k < i {
      OffsetsGrow(bs, k + 1, i);
    }
  }

  /** Entries end where the plugs of their brackets end, at the latest. */
  lemma {:induction false} InfosInside(bs: seq<Bracket>, server: bool, i: nat)
    requires |AllPlugs(bs)| <= MAX_PLUG_COUNT && i < |Infos(bs, server)|
    ensures var info := Infos(bs, server)[i]; info.offset + info.count <= |AllPlugs(bs)| && info.count > 0
  {
    var rest := bs[..|bs| - 1];
    if i < |Infos(rest, server)| {
      InfosInside(rest, server, i);
    }
  }

  function InfoOf(bs: seq<Bracket>, k: nat): ClusterInfo
    requires |AllPlugs(bs)| <= MAX_PLUG_COUNT && k < |bs|
  {
    PlugsOf(bs, k);
    ClusterInfo(bs[k].cluster, Offset(bs, k), |bs[k].plugs|)
  }

  /** The last bracket as an entry. */
  lemma LastInfo(bs: seq<Bracket>, server: bool)
    requires |AllPlugs(bs)| <= MAX_PLUG_COUNT && bs != []
    ensures var n := |bs| - 1;
            && |AllPlugs(bs[..n])| + |bs[n].plugs| == |AllPlugs(bs)|
            && Offset(bs, n) == |AllPlugs(bs[..n])|
            && Infos(bs, server)
               == if bs[n].server == server && bs[n].plugs != [] then Infos(bs[..n], server) + [InfoOf(bs, n)]
                  else Infos(bs[..n], server)
  {
  }

  lemma Prefix(bs: seq<Bracket>, k: nat)
    requires bs != [] && k < |bs|
    ensures Offset(bs[..|bs| - 1], k) == Offset(bs, k)
  {
    assert bs[..|bs| - 1][..k] == bs[..k];
  }

  lemma {:induction false} NoClientOutside(bs: seq<Bracket>, plug: int)
    requires |AllPlugs(bs)| <= MAX_PLUG_COUNT && !(0 <= plug < |AllPlugs(bs)|)
    ensures GetClient(Infos(bs, false), plug) == NO_CLIENT
  {
    if bs != [] {
      var n := |bs| - 1;
      LastInfo(bs, false);
      NoClientOutside(bs[..n], plug);
      GetClientAppend(Infos(bs[..n], false), InfoOf(bs, n), plug);
      hide Infos, AllPlugs, GetClient;
    }
  }

  /**
   * The client look-up gives the cluster and the range of the client bracket that added the plug, and the empty entry for
   * the plug of a server. By NoClientOutside it does so for an index out of range, too.
   */
  lemma {:induction false} ClientOfPlug(bs: seq<Bracket>, k: nat, plug: int)
    requires |AllPlugs(bs)| <= MAX_PLUG_COUNT && k < |bs| && Offset(bs, k) <= plug < Offset(bs, k) + |bs[k].plugs|
    ensures GetClient(Infos(bs, false), plug) == if bs[k].server then NO_CLIENT else InfoOf(bs, k)
  {
    hide Infos, AllPlugs, GetClient, Offset;
    var n := |bs| - 1;
    LastInfo(bs, false);
    GetClientAppend(Infos(bs[..n], false), InfoOf(bs, n), plug);
    if k == n {
      NoClientOutside(bs[..n], plug);
    } else {
      Prefix(bs, k);
      PlugsOf(bs[..n], k);
      Prefix(bs, k + 1);
      ClientOfPlug(bs[..n], k, plug);
    }
  }

  predicate Serves(b: Bracket, cluster: Word) {
    b.server && b.cluster == cluster && b.plugs != []
  }

  /** The server look-up gives the range of the first server bracket of the cluster that has plugs, or an empty one. */
  lemma {:induction false} FirstServer(bs: seq<Bracket>, k: nat, cluster: Word)
    requires |AllPlugs(bs)| <= MAX_PLUG_COUNT && k <= |bs|
    requires forall i :: 0 <= i < k ==> !Serves(bs[i], cluster)
    requires k < |bs| ==> Serves(bs[k], cluster)
    ensures FindServer(Infos(bs, true), cluster) == if k == |bs| then (0, 0) else (InfoOf(bs, k).offset, InfoOf(bs, k).count)
  {
    hide AllPlugs, Offset;
    if bs != [] {
      var n := |bs| - 1;
      LastInfo(bs, true);
      forall i | 0 <= i < |Infos(bs[..n], true)| ensures Infos(bs[..n], true)[i].count > 0 {
        InfosInside(bs[..n], true, i);
      }
      FindServerAppend(Infos(bs[..n], true), InfoOf(bs, n), cluster);
      hide Infos, FindServer;
      FirstServer(bs[..n], if k < n then k else n, cluster);
      if k < n {
        Prefix(bs, k);
      }
    }
  }
}
