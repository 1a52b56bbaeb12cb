/** Stable selection from a list of element ids. */
module Selection {

  function SetOf(s: seq<nat>): (r: set<nat>) {
    set x | x in s
  }

  ghost predicate Distinct(s: seq<nat>) {
    forall i, j :: 0 <= i < j < |s| ==> s[i] != s[j]
  }

  /** The elements of s that are in ids, in the order of s. */
  function Keep(s: seq<nat>, ids: set<nat>): (r: seq<nat>)
  {
    if s == [] then []
    else
      var last := s[|s| - 1];
      Keep(s[..|s| - 1], ids) + if last in ids then [last] else []
  }

  /** The elements of s that are not in ids, in the order of s. */
  function Drop(s: seq<nat>, ids: set<nat>): (r: seq<nat>)
  {
    Keep(s, SetOf(s) - ids)
  }

  lemma {:induction false} KeepMembers(s: seq<nat>, ids: set<nat>)
    ensures forall x :: x in Keep(s, ids) <==> x in s && x in ids
    ensures |Keep(s, ids)| <= |s|
  {
    if s != [] {
      KeepMembers(s[..|s| - 1], ids);
      assert s == s[..|s| - 1] + [s[|s| - 1]];
    }
  }

  lemma {:induction false} KeepDistinct(s: seq<nat>, ids: set<nat>)
    requires Distinct(s)
    ensures Distinct(Keep(s, ids))
  {
    if s != [] {
      var front := s[..|s| - 1];
      KeepDistinct(front, ids);
      KeepMembers(front, ids);
    }
  }

  lemma {:induction false} KeepAppend(a: seq<nat>, b: seq<nat>, ids: set<nat>)
    ensures Keep(a + b, ids) == Keep(a, ids) + Keep(b, ids)
  {
    if b == [] {
      assert a + b == a;
    } else {
      KeepAppend(a, b[..|b| - 1], ids);
      assert (a + b)[..|a + b| - 1] == a + b[..|b| - 1];
    }
  }

  /** Only the part of the selection that occurs in the list matters. */
  lemma {:induction false} KeepSame(s: seq<nat>, a: set<nat>, b: set<nat>)
    requires forall x :: x in s ==> (x in a <==> x in b)
    ensures Keep(s, a) == Keep(s, b)
  {
    if s != [] {
      KeepSame(s[..|s| - 1], a, b);
    }
  }

  lemma {:induction false} KeepAll(s: seq<nat>, ids: set<nat>)
    requires forall x :: x in s ==> x in ids
    ensures Keep(s, ids) == s
  {
    if s != [] {
      KeepAll(s[..|s| - 1], ids);
      assert s == s[..|s| - 1] + [s[|s| - 1]];
    }
  }

  lemma {:induction false} KeepNone(s: seq<nat>, ids: set<nat>)
    requires forall x :: x in s ==> x !in ids
    ensures Keep(s, ids) == []
  {
    if s != [] {
      KeepNone(s[..|s| - 1], ids);
    }
  }

  lemma {:induction false} KeepTwice(s: seq<nat>, a: set<nat>, b: set<nat>)
    ensures Keep(Keep(s, a), b) == Keep(s, a * b)
  {
    if s != [] {
      var front, last := s[..|s| - 1], s[|s| - 1];
      KeepTwice(front, a, b);
      if last in a {
        KeepAppend(Keep(front, a), [last], b);
        assert [last][..0] == [];
        assert Keep([last], b) == if last in b then [last] else [];
      } else {
        assert Keep(s, a) == Keep(front, a);
      }
    }
  }

  /** Dropping elements does not disturb the selection of others. */
  lemma KeepDrop(s: seq<nat>, keep: set<nat>, drop: set<nat>)
    requires keep !! drop
    ensures Keep(Drop(s, drop), keep) == Keep(s, keep)
  {
    KeepTwice(s, SetOf(s) - drop, keep);
    KeepSame(s, (SetOf(s) - drop) * keep, keep);
  }

  lemma DropMembers(s: seq<nat>, drop: set<nat>)
    ensures forall x :: x in Drop(s, drop) <==> x in s && x !in drop
  {
    KeepMembers(s, SetOf(s) - drop);
  }

  /** Dropping one element after the other is dropping them all. */
  lemma DropNothing(s: seq<nat>)
    ensures Drop(s, {}) == s
  {
    KeepAll(s, SetOf(s) - {});
  }

  lemma DropTwice(s: seq<nat>, a: set<nat>, b: set<nat>)
    ensures Drop(Drop(s, a), b) == Drop(s, a + b)
  {
    var t := Drop(s, a);
    DropMembers(s, a);
    KeepTwice(s, SetOf(s) - a, SetOf(t) - b);
    KeepSame(s, (SetOf(s) - a) * (SetOf(t) - b), SetOf(s) - (a + b));
  }

  lemma DropStep(s: seq<nat>, x: nat, drop: set<nat>)
    ensures Drop(s + [x], drop) == Drop(s, drop) + if x in drop then [] else [x]
  {
    var ids := SetOf(s + [x]) - drop;
    assert (s + [x])[..|s|] == s;
    KeepSame(s, ids, SetOf(s) - drop);
  }

  /** A list that holds all numbers from 1 to n has at least n elements. */
  lemma {:induction false} Pigeonhole(s: seq<nat>, n: nat)
    requires forall x :: 1 <= x <= n ==> x in s
    ensures n <= |s|
    decreases n
  {
    if n > 0 {
      var rest := Drop(s, {n});
      DropMembers(s, {n});
      forall x | 1 <= x <= n - 1
        ensures x in rest
      {
      }
      Pigeonhole(rest, n - 1);
      DropShorter(s, n);
    }
  }

  lemma {:induction false} DropShorter(s: seq<nat>, x: nat)
    requires x in s
    ensures |Drop(s, {x})| < |s|
  {
    var front, last := s[..|s| - 1], s[|s| - 1];
    assert s == front + [last];
    DropStep(front, last, {x});
    if last == x {
      KeepMembers(front, SetOf(front) - {x});
    } else {
      DropShorter(front, x);
    }
  }
}
