/** The broker's topics in their hash table: the places stand for the list of names, and how messages of the gateway find them. */
module TopicTable {
  import opened Options
  import opened MqttSn
  import opened Sessions
  import Laws = TopicLaws
  import opened StringHash

  /** The places of the table. */
  const SIZE: nat := 1365

  // ----- the list of names

  /** The table holds the names, each once. */
  ghost predicate Stands(t: Table, names: seq<string>) {
    && |t| == SIZE && Unique(t) && Count(t) == |names|
    && forall name :: Some(name) in t <==> name in names
  }

  /** The table takes a new name, or knows it, exactly if the list does, and they keep standing for each other. */
  lemma RequestAgrees(t: Table, names: seq<string>, name: string, r: int, u: Table)
    requires Stands(t, names) && Laws.NamesOk(names) && name != ""
    requires Puts(t, name, Count(t) < MAX_TOPIC_COUNT && Laws.Total(names) + |name| <= TOPIC_BUFFER, r, u)
    ensures Stands(u, Obtain(names, name).0) && (r < 0 <==> Obtain(names, name).1 < 0)
    ensures r >= 0 ==> 0 <= r < |u| && u[r] == Some(name)
  {
    Laws.ObtainLaw(names, name);
    hide Obtain, Laws.NamesOk, Laws.Total, Count;
    if Some(name) !in t && r >= 0 {
      CountUpdate(t, r, name);
      forall x ensures Some(x) in u <==> x in names + [name] {
        InUpdated(t, r, name, x);
      }
      hide Puts;
      assert forall i :: 0 <= i < |t| ==> t[i] != Some(name);
    }
  }

  lemma InUpdated(t: Table, r: nat, name: string, x: string)
    requires r < |t| && t[r] == None
    ensures Some(x) in t[r := Some(name)] <==> Some(x) in t || x == name
  {
    var u := t[r := Some(name)];
    assert u[r] == Some(name);
    if Some(x) in t {
      var i :| 0 <= i < |t| && t[i] == Some(x);
      assert u[i] == Some(x);
    }
  }

  // ----- messages of the gateway

  /** The first of the first 1024 places with that gateway id, or 1024. */
  function Search(ids: seq<Word>, topicId: Word, i: nat): (r: nat)
    requires i <= MAX_TOPIC_COUNT <= |ids|
    ensures i <= r <= MAX_TOPIC_COUNT
    ensures forall k :: i <= k < r ==> ids[k] != topicId
    ensures r < MAX_TOPIC_COUNT ==> ids[r] == topicId
    decreases MAX_TOPIC_COUNT - i
  {
    if i == MAX_TOPIC_COUNT || ids[i] == topicId then i else Search(ids, topicId, i + 1)
  }

  /** The topic of a message of the gateway, or None if the message is rejected. */
  function GatewayTopic(t: Table, ids: seq<Word>, topicId: Word): Option<nat>
    requires |t| == |ids| == SIZE
  {
    var k := Search(ids, topicId, 0);
    if t[k].Some? then Some(k) else None
  }

  method FindGatewayTopic(topics: StringHash<Word>, topicId: Word) returns (topicIndex: int, topicOk: bool)
    requires topics.Valid() && topics.codes.Length == SIZE
    ensures GatewayTopic(topics.Places(), topics.values[..], topicId) == if topicOk then Some(topicIndex) else None
  {
    topicIndex := 0;
    while topicIndex < MAX_TOPIC_COUNT && topics.values[topicIndex] != topicId
      invariant 0 <= topicIndex <= MAX_TOPIC_COUNT
      invariant Search(topics.values[..], topicId, topicIndex) == Search(topics.values[..], topicId, 0)
    {
      topicIndex := topicIndex + 1;
    }
    topicOk := topics.IsValid(topicIndex);
  }

  /** A topic that alone has the gateway's id is found exactly if it is not beyond place 1024. */
  lemma KnownFoundExactly(t: Table, ids: seq<Word>, topicId: Word, p: nat)
    requires |t| == |ids| == SIZE && p < SIZE && t[p].Some? && ids[p] == topicId
    requires forall i :: 0 <= i < SIZE && i != p ==> ids[i] != topicId
    ensures GatewayTopic(t, ids, topicId) == Some(p) <==> p <= 1024
  {
  }

  /** A message under an id that no place has is rejected exactly if place 1024 is free; otherwise that topic gets it. */
  lemma UnknownRejectedExactly(t: Table, ids: seq<Word>, topicId: Word)
    requires |t| == |ids| == SIZE && forall i :: 0 <= i < SIZE ==> ids[i] != topicId
    ensures GatewayTopic(t, ids, topicId) == None <==> t[1024] == None
    ensures t[1024].Some? ==> GatewayTopic(t, ids, topicId) == Some(1024)
  {
  }

  /** It happens: a name whose hash leads to place 1024 gets what the gateway publishes under any id that is not known. */
  lemma UnknownHappens(t: Table, hash: string -> nat, name: string, r: int, u: Table, ids: seq<Word>, topicId: Word)
    requires |t| == |ids| == SIZE && (forall i :: 0 <= i < SIZE ==> t[i] == None) && hash(name) % SIZE == 1024
    requires Puts(t, name, true, r, u) && r >= 0 && Walked(t, hash, name, r)
    requires forall i :: 0 <= i < SIZE ==> ids[i] != topicId
    ensures u[1024] == Some(name) && GatewayTopic(u, ids, topicId) == Some(1024)
  {
    FirstPlace(t, hash, name, r);
    hide Walked;
    assert Some(name) !in t;
    UnknownRejectedExactly(u, ids, topicId);
  }

  /** It happens: a name whose hash leads beyond place 1024 never gets what the gateway publishes under its id. */
  lemma LostHappens(t: Table, hash: string -> nat, name: string, r: int, u: Table, ids: seq<Word>, topicId: Word)
    requires |t| == |ids| == SIZE && (forall i :: 0 <= i < SIZE ==> t[i] == None) && 1024 < hash(name) % SIZE
    requires Puts(t, name, true, r, u) && r >= 0 && Walked(t, hash, name, r)
    requires ids[r] == topicId && forall i :: 0 <= i < SIZE && i != r ==> ids[i] != topicId
    ensures u[r] == Some(name) && GatewayTopic(u, ids, topicId) != Some(r)
  {
    FirstPlace(t, hash, name, r);
    hide Walked;
    assert Some(name) !in t;
    KnownFoundExactly(u, ids, topicId, r);
  }
}
