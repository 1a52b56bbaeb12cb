/** The hash table of topic names, with open addressing, and the publish look-ups in it. */
module StringHash {
  import opened Options

  /** For each place the key that is stored there. */
  type Table = seq<Option<string>>

  // ----- circular order

  /** Place i comes before b when one walks from a. */
  predicate Between(a: nat, i: nat, b: nat) {
    if a <= b then a <= i < b else a <= i || i < b
  }

  /** How far one walks. */
  function Distance(a: nat, b: nat, size: nat): int {
    if a <= b then b - a else b + size - a
  }

  function After(i: nat, size: nat): nat {
    if i + 1 == size then 0 else i + 1
  }

  lemma OneStep(a: nat, i: nat, e: nat, size: nat)
    requires a < size && i < size && e < size && i != e && Distance(a, i, size) <= Distance(a, e, size)
    ensures After(i, size) < size && Distance(a, After(i, size), size) == Distance(a, i, size) + 1 <= Distance(a, e, size)
    ensures forall k :: 0 <= k < size && Between(a, k, After(i, size)) ==> k == i || Between(a, k, i)
  {
  }

  // ----- the invariant

  /** No key is stored twice. */
  ghost predicate Unique(t: Table) {
    forall i, k :: 0 <= i < k < |t| && t[i].Some? ==> t[i] != t[k]
  }

  /** Walking from its start, every key is found before a free place. */
  ghost predicate Linked(t: Table, hash: string -> nat) {
    forall k | 0 <= k < |t| && t[k].Some? :: Taken(t, Start(t, hash, t[k].value), k)
  }

  /** There is no free place on the way. */
  ghost predicate Taken(t: Table, a: nat, b: nat) {
    forall i {:trigger t[i]} :: 0 <= i < |t| && Between(a, i, b) ==> t[i].Some?
  }

  function Start(t: Table, hash: string -> nat, key: string): nat
    requires t != []
  {
    hash(key) % |t|
  }

  ghost predicate Ok(t: Table, hash: string -> nat) {
    t != [] && Unique(t) && Linked(t, hash)
  }

  function Count(t: Table): (r: nat)
    ensures r <= |t|
  {
    if t == [] then 0 else Count(t[..|t| - 1]) + if t[|t| - 1].Some? then 1 else 0
  }

  lemma {:induction false} FreePlace(t: Table) returns (e: nat)
    requires Count(t) < |t|
    ensures e < |t| && t[e] == None
  {
    var n := |t| - 1;
    if t[n] == None {
      e := n;
    } else {
      e := FreePlace(t[..n]);
    }
  }

  lemma {:induction false} CountUpdate(t: Table, r: nat, key: string)
    requires r < |t| && t[r] == None
    ensures Count(t[r := Some(key)]) == Count(t) + 1
  {
    var n := |t| - 1;
    if r == n {
      assert t[r := Some(key)][..n] == t[..n];
    } else {
      CountUpdate(t[..n], r, key);
      assert t[r := Some(key)][..n] == t[..n][r := Some(key)];
    }
  }

  // ----- where a walk ends

  /** The walk for a key has come to r without meeting it or a free place. */
  ghost predicate Walked(t: Table, hash: string -> nat, key: string, r: nat)
    requires t != []
  {
    && r < |t| && Taken(t, Start(t, hash, key), r)
    && forall i {:trigger t[i]} :: 0 <= i < |t| && Between(Start(t, hash, key), i, r) ==> t[i] != Some(key)
  }

  /** A walk that ends at a free place has not missed the key. */
  lemma NotMissed(t: Table, hash: string -> nat, key: string, r: nat)
    requires Ok(t, hash) && Walked(t, hash, key, r) && t[r] == None
    ensures Some(key) !in t
  {
    hide Linked;
    forall k | 0 <= k < |t| ensures t[k] != Some(key) {
      if t[k] == Some(key) {
        LinkedAt(t, hash, k);
      }
    }
  }

  lemma LinkedAt(t: Table, hash: string -> nat, k: nat)
    requires Ok(t, hash) && k < |t| && t[k].Some?
    ensures Taken(t, Start(t, hash, t[k].value), k)
  {
  }

  /** One place further, with a free place still ahead. */
  lemma WalkOn(t: Table, hash: string -> nat, key: string, i: nat, e: nat)
    requires t != [] && Walked(t, hash, key, i) && t[i].Some? && t[i] != Some(key) && e < |t| && t[e] == None
    requires Distance(Start(t, hash, key), i, |t|) <= Distance(Start(t, hash, key), e, |t|)
    ensures Walked(t, hash, key, After(i, |t|))
    ensures Distance(Start(t, hash, key), i, |t|) < Distance(Start(t, hash, key), After(i, |t|), |t|)
            <= Distance(Start(t, hash, key), e, |t|)
  {
    OneStep(Start(t, hash, key), i, e, |t|);
    hide Between, Distance, After;
  }

  /** In an empty table it ends at once. */
  lemma FirstPlace(t: Table, hash: string -> nat, key: string, r: nat)
    requires t != [] && Walked(t, hash, key, r) && forall i :: 0 <= i < |t| ==> t[i] == None
    ensures r == hash(key) % |t|
  {
    assert t[Start(t, hash, key)] == None;
  }

  /** A key that is stored at such a place is found there ever after, and so are all others. */
  lemma StoredOk(t: Table, hash: string -> nat, key: string, r: nat)
    requires Ok(t, hash) && Walked(t, hash, key, r) && t[r] == None
    ensures Ok(t[r := Some(key)], hash)
  {
    NotMissed(t, hash, key, r);
    var u := t[r := Some(key)];
    forall k | 0 <= k < |u| && u[k].Some? ensures Taken(u, Start(u, hash, u[k].value), k) {
      assert Taken(t, Start(t, hash, u[k].value), k);
    }
    hide Linked, Walked, Taken;
    assert forall i :: 0 <= i < |t| ==> t[i] != Some(key);
  }

  // ----- requests

  /** What a request for a key does: the known place, a place that was free, or -1 if there is no room. */
  ghost predicate Puts(t: Table, key: string, room: bool, r: int, u: Table) {
    if Some(key) in t then 0 <= r < |t| && t[r] == Some(key) && u == t
    else if !room then r == -1 && u == t
    else 0 <= r < |t| && t[r] == None && u == t[r := Some(key)]
  }

  /** A run of requests: the keys, whether there was room, the answers, and the tables in between. */
  ghost predicate Requests(tables: seq<Table>, keys: seq<string>, room: seq<bool>, places: seq<int>) {
    && |keys| == |room| == |places| && |tables| == |keys| + 1
    && forall i {:trigger keys[i]} :: 0 <= i < |keys| ==> Puts(tables[i], keys[i], room[i], places[i], tables[i + 1])
  }

  /** Stored keys stay where they are. */
  lemma {:induction false} Stays(tables: seq<Table>, keys: seq<string>, room: seq<bool>, places: seq<int>, i: nat, k: nat, place: nat)
    requires Requests(tables, keys, room, places) && i <= k <= |keys| && place < |tables[i]| && tables[i][place].Some?
    ensures |tables[k]| == |tables[i]| && tables[k][place] == tables[i][place]
    decreases k
  {
    if i < k {
      Stays(tables, keys, room, places, i, k - 1, place);
      assert Puts(tables[k - 1], keys[k - 1], room[k - 1], places[k - 1], tables[k]);
    }
  }

  lemma {:induction false} StaysUnique(tables: seq<Table>, keys: seq<string>, room: seq<bool>, places: seq<int>, k: nat)
    requires Requests(tables, keys, room, places) && k <= |keys| && Unique(tables[0])
    ensures Unique(tables[k])
    decreases k
  {
    if k > 0 {
      StaysUnique(tables, keys, room, places, k - 1);
      var t, u := tables[k - 1], tables[k];
      assert Puts(t, keys[k - 1], room[k - 1], places[k - 1], u);
      if Some(keys[k - 1]) !in t {
        assert forall i :: 0 <= i < |t| ==> t[i] != Some(keys[k - 1]);
      }
    }
  }

  /** Over any run, two requests get the same place if and only if they are for the same key. */
  lemma SamePlaceExactly(tables: seq<Table>, keys: seq<string>, room: seq<bool>, places: seq<int>, i: nat, k: nat)
    requires Requests(tables, keys, room, places) && Unique(tables[0]) && i < k < |keys| && places[i] >= 0 && places[k] >= 0
    ensures places[i] == places[k] <==> keys[i] == keys[k]
  {
    assert Puts(tables[i], keys[i], room[i], places[i], tables[i + 1]);
    assert Puts(tables[k], keys[k], room[k], places[k], tables[k + 1]);
    Stays(tables, keys, room, places, i + 1, k + 1, places[i]);
    StaysUnique(tables, keys, room, places, k + 1);
    hide Requests, Puts;
    var t := tables[k + 1];
    assert t[places[i]] == Some(keys[i]) && t[places[k]] == Some(keys[k]);
  }

  // ----- stored keys

  /** A free place. */
  const EMPTY: int := 0xffff_ffff

  /** A register of 32 bits: 14 bits of length below 18 bits of offset. */
  function Code(offset: nat, length: nat): (r: int)
    ensures 0 <= r < 0x1_0000_0000
  {
    (length + offset * 0x4000) % 0x1_0000_0000
  }

  predicate Inside(code: int, size: nat) {
    0 <= code && code / 0x4000 + code % 0x4000 <= size
  }

  function KeyOf(code: int, data: string): string
    requires Inside(code, |data|)
  {
    data[code / 0x4000..code / 0x4000 + code % 0x4000]
  }

  /** A key is read back exactly if its length fits into 14 bits; that no key looks like a free place follows from the size. */
  lemma KeyBackExactly(data: string, offset: nat, length: nat)
    requires offset + length <= |data| <= 0x40000
    ensures Inside(Code(offset, length), |data|) && KeyOf(Code(offset, length), data) == data[offset..offset + length]
            <==> length < 0x4000
    ensures length < 0x4000 ==> Code(offset, length) != EMPTY && Inside(Code(offset, length), offset + length)
  {
    var code := length + offset * 0x4000;
    if length < 0x4000 {
      if offset < 0x40000 {
        assert code / 0x4000 == offset && code % 0x4000 == length;
      }
    } else {
      assert Code(offset, length) % 0x4000 < length;
    }
  }

  lemma KeyStays(code: int, data: string, more: string)
    requires Inside(code, |data|) && data <= more
    ensures KeyOf(code, data) == KeyOf(code, more)
  {
  }

  class StringHash<V(0)> {
    const hash: string -> nat
    const maxCount: nat
    /** Codes of keys and their values. */
    const codes: array<int>
    const values: array<V>
    const data: array<char>
    var elementCount: nat
    var dataSize: nat

    /** The codes stand for parts of these characters. */
    ghost predicate Shaped(characters: string)
      reads this, codes
    {
      && (values as object) != codes && (values as object) != data
      && 0 < codes.Length == values.Length && maxCount < codes.Length && data.Length <= 0x40000
      && elementCount <= maxCount && dataSize == |characters| <= data.Length
      && forall i :: 0 <= i < codes.Length ==> codes[i] == EMPTY || Inside(codes[i], |characters|)
    }

    ghost function PlaceAt(i: nat, characters: string): Option<string>
      requires Shaped(characters) && i < codes.Length
      reads this, codes
    {
      if codes[i] == EMPTY then None else Some(KeyOf(codes[i], characters))
    }

    ghost function PlacesWith(characters: string): (r: Table)
      requires Shaped(characters)
      reads this, codes
      ensures |r| == codes.Length && forall i {:trigger r[i]} :: 0 <= i < |r| ==> r[i] == PlaceAt(i, characters)
    {
      seq(codes.Length, i requires 0 <= i < codes.Length && Shaped(characters) reads this, codes => PlaceAt(i, characters))
    }

    ghost function Places(): (r: Table)
      requires dataSize <= data.Length && Shaped(data[..dataSize])
      reads this, codes, data
      ensures |r| == codes.Length
    {
      PlacesWith(data[..dataSize])
    }

    ghost predicate Valid()
      reads this, codes, data
    {
      dataSize <= data.Length && Shaped(data[..dataSize]) && Ok(Places(), hash) && elementCount == Count(Places())
    }

    constructor (hash: string -> nat, size: nat, maxCount: nat, capacity: nat)
      requires maxCount < size && capacity <= 0x40000
      ensures Valid() && fresh(codes) && fresh(values) && fresh(data)
      ensures this.hash == hash && this.maxCount == maxCount && codes.Length == size && data.Length == capacity
      ensures dataSize == 0 && forall i :: 0 <= i < size ==> Places()[i] == None
    {
      this.hash, this.maxCount := hash, maxCount;
      codes := new int[size](_ => EMPTY);
      values := new V[size];
      data := new char[capacity](_ => '\0');
      elementCount, dataSize := 0, 0;
      new;
      NothingCounts(Places());
    }

    /** Walks from the start of the key to its place, or to a free one. */
    method Walk(key: string) returns (index: nat)
      requires Valid()
      ensures Walked(Places(), hash, key, index) && (Places()[index] == None || Places()[index] == Some(key))
    {
      hide Ok, Distance, After, Between, Count;
      ghost var t := Places();
      ghost var e := FreePlace(t);
      index := hash(key) % codes.Length;
      ghost var a := index;
      Begins(a, e, codes.Length);
      while codes[index] != EMPTY && KeyOf(codes[index], data[..dataSize]) != key
        invariant index < codes.Length && Walked(t, hash, key, index)
        invariant Distance(a, index, codes.Length) <= Distance(a, e, codes.Length)
        decreases Distance(a, e, codes.Length) - Distance(a, index, codes.Length)
      {
        assert t[index] == PlaceAt(index, data[..dataSize]);
        WalkOn(t, hash, key, index, e);
        index := NextPlace(index);
      }
      assert t[index] == PlaceAt(index, data[..dataSize]);
    }

    method NextPlace(index: nat) returns (r: nat)
      requires index < codes.Length
      ensures r == After(index, codes.Length)
    {
      r := index + 1;
      if r == codes.Length {
        r := 0;
      }
    }

    method Locate(key: string) returns (r: int)
      requires Valid()
      ensures r == -1 <==> Some(key) !in Places()
      ensures r != -1 ==> 0 <= r < codes.Length && Places()[r] == Some(key)
    {
      var index := Walk(key);
      assert Places()[index] == PlaceAt(index, data[..dataSize]);
      if codes[index] == EMPTY {
        NotMissed(Places(), hash, key, index);
        return -1;
      }
      r := index;
    }

    method IsValid(index: int) returns (r: bool)
      requires Valid()
      ensures r <==> 0 <= index < codes.Length && Places()[index].Some?
    {
      r := 0 <= index < codes.Length && codes[index] != EMPTY;
      assert 0 <= index < codes.Length ==> Places()[index] == PlaceAt(index, data[..dataSize]);
    }

    method GetOrPut(key: string, value: V) returns (r: int)
      requires Valid() && |key| < 0x4000
      modifies this`elementCount, this`dataSize, codes, values, data
      ensures Valid()
      ensures Puts(old(Places()), key, old(elementCount) < maxCount && old(dataSize) + |key| <= data.Length, r, Places())
      ensures r >= 0 ==> Walked(old(Places()), hash, key, r)
      ensures Places() == old(Places()) ==>
                elementCount == old(elementCount) && dataSize == old(dataSize) && values[..] == old(values[..])
      ensures Places() != old(Places()) ==>
                elementCount == old(elementCount) + 1 && dataSize == old(dataSize) + |key| && values[..] == old(values[..])[r := value]
    {
      var index := Walk(key);
      assert Places()[index] == PlaceAt(index, data[..dataSize]);
      r := index;
      if codes[index] != EMPTY {
        return;
      }
      NotMissed(Places(), hash, key, index);
      if elementCount >= maxCount || dataSize + |key| > data.Length {
        return -1;
      }
      Store(index, key);
      values[index] := value;
    }

    /** Writes the characters behind those of the other keys. */
    method Append(key: string)
      requires dataSize + |key| <= data.Length
      modifies data
      ensures data[..dataSize + |key|] == old(data[..dataSize]) + key
    {
      ghost var before := data[..dataSize];
      for i := 0 to |key|
        invariant data[..dataSize] == before && data[dataSize..dataSize + i] == key[..i]
      {
        data[dataSize + i] := key[i];
        assert data[dataSize..dataSize + i + 1] == data[dataSize..dataSize + i] + [key[i]] == key[..i + 1];
      }
      assert data[..dataSize + |key|] == data[..dataSize] + data[dataSize..dataSize + |key|];
      assert data[dataSize..dataSize + |key|] == key[..|key|] == key;
    }

    /** Enters the key, whose characters have been written, at a free place. */
    method Enter(index: nat, key: string, ghost before: string)
      requires Shaped(before) && |key| < 0x4000 && elementCount < maxCount && dataSize + |key| <= data.Length
      requires index < codes.Length && codes[index] == EMPTY && data[..dataSize + |key|] == before + key
      modifies this`elementCount, this`dataSize, codes
      ensures elementCount == old(elementCount) + 1 && dataSize == old(dataSize) + |key|
      ensures dataSize <= data.Length && Shaped(data[..dataSize])
      ensures Places() == old(PlacesWith(before))[index := Some(key)]
    {
      KeyBackExactly(data[..dataSize + |key|], dataSize, |key|);
      assert data[..dataSize + |key|][dataSize..] == key;
      hide Code, KeyOf;
      codes[index] := Code(dataSize, |key|);
      dataSize := dataSize + |key|;
      elementCount := elementCount + 1;
      ghost var t, u := old(PlacesWith(before)), Places();
      forall i | 0 <= i < codes.Length ensures u[i] == t[index := Some(key)][i] {
        assert u[i] == PlaceAt(i, data[..dataSize]) && t[i] == old(PlaceAt(i, before));
        if i == index {
          assert KeyOf(codes[i], data[..dataSize]) == key;
        } else if codes[i] != EMPTY {
          assert codes[i] == old(codes[i]);
          KeyStays(codes[i], before, data[..dataSize]);
        } else {
          assert codes[i] == old(codes[i]);
        }
      }
    }

    /** Appends the characters of the key and enters it at a free place. */
    method Store(index: nat, key: string)
      requires Valid() && |key| < 0x4000 && elementCount < maxCount && dataSize + |key| <= data.Length
      requires Walked(Places(), hash, key, index) && Places()[index] == None
      modifies this`elementCount, this`dataSize, codes, data
      ensures Valid() && Places() == old(Places())[index := Some(key)]
      ensures elementCount == old(elementCount) + 1 && dataSize == old(dataSize) + |key|
    {
      ghost var t, before := Places(), data[..dataSize];
      assert t[index] == PlaceAt(index, data[..dataSize]);
      StoredOk(t, hash, key, index);
      CountUpdate(t, index, key);
      hide Ok, Count, Walked;
      Append(key);
      assert PlacesWith(before) == t;
      Enter(index, key, before);
    }
  }

  lemma Begins(a: nat, e: nat, size: nat)
    requires a < size && e < size
    ensures Distance(a, a, size) <= Distance(a, e, size) && forall i :: !Between(a, i, a)
  {
  }

  lemma {:induction false} NothingCounts(t: Table)
    requires forall i :: 0 <= i < |t| ==> t[i] == None
    ensures Count(t) == 0
  {
    if t != [] {
      NothingCounts(t[..|t| - 1]);
    }
  }
}
