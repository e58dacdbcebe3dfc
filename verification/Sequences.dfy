/** Python's list idioms: `remove`, `dict.fromkeys`, and lists without repeats. */
module Sequences {

  ghost predicate Distinct<T>(s: seq<T>) {
    forall i, j :: 0 <= i < j < |s| ==> s[i] != s[j]
  }

  /** `list.remove`: drops the first occurrence only. */
  function RemoveFirst<T(==)>(s: seq<T>, x: T): seq<T> {
    if s == [] then [] else if s[0] == x then s[1..] else [s[0]] + RemoveFirst(s[1..], x)
  }

  lemma {:induction false} RemoveFirstDrops<T>(s: seq<T>, x: T)
    ensures forall y :: y in RemoveFirst(s, x) ==> y in s
    ensures forall y :: y in s && y != x ==> y in RemoveFirst(s, x)
    ensures x !in s ==> RemoveFirst(s, x) == s
  {
    if s != [] {
      RemoveFirstDrops(s[1..], x);
      assert s == [s[0]] + s[1..];
    }
  }

  lemma {:induction false} RemoveFirstCounts<T>(s: seq<T>, x: T)
    requires x in s
    ensures multiset(RemoveFirst(s, x)) == multiset(s) - multiset{x}
  {
    assert s == [s[0]] + s[1..];
    if s[0] != x { RemoveFirstCounts(s[1..], x); }
  }

  lemma {:induction false} RemoveFirstKeepsDistinct<T>(s: seq<T>, x: T)
    requires Distinct(s)
    ensures Distinct(RemoveFirst(s, x))
  {
    if s != [] && s[0] != x {
      var t := s[1..];
      RemoveFirstKeepsDistinct(t, x);
      RemoveFirstDrops(t, x);
      assert s == [s[0]] + t && s[0] !in t;
    }
  }

  /** `list(dict.fromkeys(s))`: the first of each, in order. */
  function Dedupe<T(==)>(s: seq<T>): seq<T> {
    if s == [] then []
    else
      var front, last := Dedupe(s[..|s| - 1]), s[|s| - 1];
      if last in front then front else front + [last]
  }

  lemma {:induction false} DedupeKeeps<T>(s: seq<T>)
    ensures Distinct(Dedupe(s)) && forall t :: t in Dedupe(s) <==> t in s
    ensures Distinct(s) ==> Dedupe(s) == s
  {
    if s != [] {
      var front := s[..|s| - 1];
      DedupeKeeps(front);
      assert s == front + [s[|s| - 1]];
    }
  }
}
