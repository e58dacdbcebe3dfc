/**
  The orders and the stable sort the store relies on: code-point order on
  strings, `(ts, writer, seq)` order on events, and a sort that keeps elements
  of equal rank in the order they came.
*/
module Ordering {

  predicate StrLeq(a: string, b: string) {
    a == [] || (b != [] && (a[0] < b[0] || (a[0] == b[0] && StrLeq(a[1..], b[1..]))))
  }

  lemma {:induction false} StrTotal(a: string, b: string)
    ensures StrLeq(a, b) || StrLeq(b, a)
    ensures StrLeq(a, b) && StrLeq(b, a) ==> a == b
  {
    if a != [] && b != [] && a[0] == b[0] {
      StrTotal(a[1..], b[1..]);
      assert a == [a[0]] + a[1..] && b == [b[0]] + b[1..];
    }
  }

  lemma {:induction false} StrTransitive(a: string, b: string, c: string)
    requires StrLeq(a, b) && StrLeq(b, c)
    ensures StrLeq(a, c)
  {
    if a != [] && a[0] == b[0] && b[0] == c[0] {
      StrTransitive(a[1..], b[1..], c[1..]);
    }
  }

  lemma FirstDiffersNext(a: string, b: string, i: nat)
    requires a != [] && b != [] && a[0] == b[0]
    ensures FirstDiffers(a, b, i + 1) <==> FirstDiffers(a[1..], b[1..], i)
  {
    if i + 1 < |a| && i + 1 < |b| {
      assert a[..i + 1] == [a[0]] + a[1..][..i] && b[..i + 1] == [b[0]] + b[1..][..i];
      assert a[..i + 1][1..] == a[1..][..i] && b[..i + 1][1..] == b[1..][..i];
    }
  }

  lemma DifferAtOnce(a: string, b: string, i: nat)
    requires a != [] && b != [] && a[0] != b[0]
    ensures FirstDiffers(a, b, i) <==> i == 0
  {
    if 0 < i < |a| && i < |b| { assert a[..i][0] == a[0] && b[..i][0] == b[0]; }
  }

  /** Code-point order: a prefix comes first, and otherwise the first difference decides. */
  lemma {:induction false} StrLeqExactly(a: string, b: string)
    ensures StrLeq(a, b) <==> a <= b || exists i :: 0 <= i < |a| && FirstDiffers(a, b, i) && a[i] < b[i]
  {
    if a != [] && b != [] && a[0] == b[0] {
      var s, t := a[1..], b[1..];
      StrLeqExactly(s, t);
      assert a == [a[0]] + s && b == [b[0]] + t;
      if i :| 0 <= i < |s| && FirstDiffers(s, t, i) && s[i] < t[i] {
        FirstDiffersNext(a, b, i);
        assert FirstDiffers(a, b, i + 1) && a[i + 1] < b[i + 1];
      }
      if i :| 0 <= i < |a| && FirstDiffers(a, b, i) && a[i] < b[i] {
        FirstDiffersNext(a, b, i - 1);
        assert FirstDiffers(s, t, i - 1) && s[i - 1] < t[i - 1];
      }
    } else if a != [] && b != [] {
      DifferAtOnce(a, b, 0);
      if i :| 0 <= i < |a| && FirstDiffers(a, b, i) && a[i] < b[i] { DifferAtOnce(a, b, i); }
    }
  }

  predicate FirstDiffers(a: string, b: string, i: nat) {
    i < |a| && i < |b| && a[..i] == b[..i] && a[i] != b[i]
  }

  /** The key every event log is sorted by. */
  datatype Key = Key(ts: string, writer: string, seq_: int)

  predicate KeyLeq(a: Key, b: Key) {
    if a.ts != b.ts then StrLeq(a.ts, b.ts)
    else if a.writer != b.writer then StrLeq(a.writer, b.writer)
    else a.seq_ <= b.seq_
  }

  lemma KeyTotal(a: Key, b: Key)
    ensures KeyLeq(a, b) || KeyLeq(b, a)
    ensures KeyLeq(a, b) && KeyLeq(b, a) ==> a == b
  {
    StrTotal(a.ts, b.ts);
    StrTotal(a.writer, b.writer);
  }

  lemma KeyTransitive(a: Key, b: Key, c: Key)
    requires KeyLeq(a, b) && KeyLeq(b, c)
    ensures KeyLeq(a, c)
  {
    StrTotal(a.ts, b.ts);
    StrTotal(a.writer, b.writer);
    StrTotal(b.ts, c.ts);
    StrTotal(b.writer, c.writer);
    if StrLeq(a.ts, b.ts) && StrLeq(b.ts, c.ts) { StrTransitive(a.ts, b.ts, c.ts); }
    if StrLeq(a.writer, b.writer) && StrLeq(b.writer, c.writer) {
      StrTransitive(a.writer, b.writer, c.writer);
    }
  }

  // ----- A stable sort by a key -----

  ghost predicate Sorted<T>(s: seq<T>, key: T -> Key) {
    forall i, j :: 0 <= i < j < |s| ==> KeyLeq(key(s[i]), key(s[j]))
  }

  /** A key belongs to one element only. Repeats of that element are allowed. */
  ghost predicate KeysIdentify<T(!new)>(m: multiset<T>, key: T -> Key) {
    forall x, y :: x in m && y in m && key(x) == key(y) ==> x == y
  }

  /** Puts `x` after every element that does not rank above it. */
  function Insert<T>(x: T, s: seq<T>, key: T -> Key): seq<T> {
    if s == [] || KeyLeq(key(s[|s| - 1]), key(x)) then s + [x]
    else Insert(x, s[..|s| - 1], key) + [s[|s| - 1]]
  }

  /** Inserts the elements of `s` one by one, in order, into `acc`. */
  function InsertAll<T>(acc: seq<T>, s: seq<T>, key: T -> Key): seq<T>
    decreases |s|
  {
    if s == [] then acc else InsertAll(Insert(s[0], acc, key), s[1..], key)
  }

  function StableSort<T>(s: seq<T>, key: T -> Key): seq<T> {
    InsertAll([], s, key)
  }

  lemma {:induction false} InsertAdds<T>(x: T, s: seq<T>, key: T -> Key)
    ensures multiset(Insert(x, s, key)) == multiset(s) + multiset{x}
  {
    if s != [] {
      InsertAdds(x, s[..|s| - 1], key);
      assert s == s[..|s| - 1] + [s[|s| - 1]];
    }
  }

  lemma {:induction false} InsertSorted<T>(x: T, s: seq<T>, key: T -> Key)
    requires Sorted(s, key)
    ensures Sorted(Insert(x, s, key), key)
    ensures multiset(Insert(x, s, key)) == multiset(s) + multiset{x}
  {
    InsertAdds(x, s, key);
    if s != [] {
      var last, front := s[|s| - 1], s[..|s| - 1];
      KeyTotal(key(last), key(x));
      assert s == front + [last];
      if KeyLeq(key(last), key(x)) {
        forall i | 0 <= i < |s| ensures KeyLeq(key(s[i]), key(x)) {
          if i < |s| - 1 { KeyTransitive(key(s[i]), key(last), key(x)); }
        }
      } else {
        InsertSorted(x, front, key);
        var r := Insert(x, front, key);
        InsertAdds(x, front, key);
        forall y | y in r ensures KeyLeq(key(y), key(last)) {
          assert y in multiset(r);
          assert y == x || y in front;
        }
      }
    }
  }

  lemma {:induction false} InsertAllSorted<T>(acc: seq<T>, s: seq<T>, key: T -> Key)
    requires Sorted(acc, key)
    ensures Sorted(InsertAll(acc, s, key), key)
    ensures multiset(InsertAll(acc, s, key)) == multiset(acc) + multiset(s)
    decreases |s|
  {
    if s != [] {
      InsertSorted(s[0], acc, key);
      InsertAllSorted(Insert(s[0], acc, key), s[1..], key);
      assert s == [s[0]] + s[1..];
    }
  }

  lemma SortSorts<T>(s: seq<T>, key: T -> Key)
    ensures Sorted(StableSort(s, key), key)
    ensures multiset(StableSort(s, key)) == multiset(s)
  {
    InsertAllSorted([], s, key);
  }

  lemma {:induction false} InsertAllConcat<T>(acc: seq<T>, a: seq<T>, b: seq<T>, key: T -> Key)
    ensures InsertAll(acc, a + b, key) == InsertAll(InsertAll(acc, a, key), b, key)
    decreases |a|
  {
    if a == [] {
      assert a + b == b;
    } else {
      assert (a + b)[1..] == a[1..] + b;
      InsertAllConcat(Insert(a[0], acc, key), a[1..], b, key);
    }
  }

  /** Inserting what already follows in order appends it. */
  lemma {:induction false} InsertAllInOrder<T>(acc: seq<T>, s: seq<T>, key: T -> Key)
    requires Sorted(acc + s, key)
    ensures InsertAll(acc, s, key) == acc + s
    decreases |s|
  {
    if s == [] {
      assert acc + s == acc;
    } else {
      if acc != [] {
        assert (acc + s)[|acc| - 1] == acc[|acc| - 1] && (acc + s)[|acc|] == s[0];
      }
      assert acc + [s[0]] + s[1..] == acc + s;
      InsertAllInOrder(acc + [s[0]], s[1..], key);
    }
  }

  lemma SortOne<T>(x: T, key: T -> Key)
    ensures StableSort([x], key) == [x]
  {
    InsertAllInOrder([], [x], key);
    assert [] + [x] == [x];
  }

  lemma SortTwo<T>(x: T, y: T, key: T -> Key)
    requires KeyLeq(key(x), key(y))
    ensures StableSort([x, y], key) == [x, y]
  {
    var s := [x, y];
    assert Sorted(s, key) && [] + s == s;
    InsertAllInOrder([], s, key);
  }

  /** Sorting a part first makes no difference, even with equal keys. */
  lemma TwoStageSort<T>(a: seq<T>, b: seq<T>, key: T -> Key)
    ensures StableSort(StableSort(a, key) + b, key) == StableSort(a + b, key)
  {
    var sorted := StableSort(a, key);
    SortSorts(a, key);
    InsertAllConcat([], sorted, b, key);
    assert [] + sorted == sorted;
    InsertAllInOrder([], sorted, key);
    InsertAllConcat([], a, b, key);
  }

  /** When keys identify elements, a sorted arrangement is unique. */
  lemma {:induction false} SortedUnique<T(!new)>(a: seq<T>, b: seq<T>, key: T -> Key)
    requires Sorted(a, key) && Sorted(b, key)
    requires multiset(a) == multiset(b)
    requires KeysIdentify(multiset(a), key)
    ensures a == b
  {
    assert |multiset(a)| == |a| && |multiset(b)| == |b|;
    if a != [] {
      assert a[0] in multiset(a) && b[0] in multiset(b);
      FirstIsLeast(a, key, b[0]);
      FirstIsLeast(b, key, a[0]);
      KeyTotal(key(a[0]), key(b[0]));
      DropFirst(a);
      DropFirst(b);
      SortedUnique(a[1..], b[1..], key);
    }
  }

  lemma FirstIsLeast<T>(s: seq<T>, key: T -> Key, y: T)
    requires Sorted(s, key) && y in s
    ensures KeyLeq(key(s[0]), key(y))
  {
    KeyTotal(key(s[0]), key(s[0]));
  }

  lemma DropFirst<T>(s: seq<T>)
    requires s != []
    ensures s == [s[0]] + s[1..] && multiset(s[1..]) == multiset(s) - multiset{s[0]}
  {
    assert s == [s[0]] + s[1..];
  }

  /** Any two arrangements of elements that their keys identify sort alike. */
  lemma SortIgnoresArrangement<T(!new)>(a: seq<T>, b: seq<T>, key: T -> Key)
    requires multiset(a) == multiset(b) && KeysIdentify(multiset(a), key)
    ensures StableSort(a, key) == StableSort(b, key)
  {
    SortSorts(a, key);
    SortSorts(b, key);
    SortedUnique(StableSort(a, key), StableSort(b, key), key);
  }

  // ----- A stable sort commutes with filtering and with relabelling -----

  function Filter<T>(s: seq<T>, keep: T -> bool): seq<T> {
    if s == [] then [] else (if keep(s[0]) then [s[0]] else []) + Filter(s[1..], keep)
  }

  lemma {:induction false} FilterConcat<T>(a: seq<T>, b: seq<T>, keep: T -> bool)
    ensures Filter(a + b, keep) == Filter(a, keep) + Filter(b, keep)
  {
    if a == [] {
      assert a + b == b;
    } else {
      var c, first := a + b, if keep(a[0]) then [a[0]] else [];
      assert c != [] && c[1..] == a[1..] + b && c[0] == a[0];
      FilterConcat(a[1..], b, keep);
      assert Filter(c, keep) == first + Filter(c[1..], keep);
      assert Filter(a, keep) == first + Filter(a[1..], keep);
    }
  }

  lemma {:induction false} FilterMember<T>(s: seq<T>, keep: T -> bool, x: T)
    ensures x in Filter(s, keep) <==> x in s && keep(x)
  {
    if s != [] {
      FilterMember(s[1..], keep, x);
      assert s == [s[0]] + s[1..];
    }
  }

  /** Inserting appends when nothing outranks `x`. */
  lemma InsertLast<T>(x: T, s: seq<T>, key: T -> Key)
    requires forall y :: y in s ==> KeyLeq(key(y), key(x))
    ensures Insert(x, s, key) == s + [x]
  {
    if s != [] { assert s[|s| - 1] in s; }
  }

  lemma {:induction false} FilterAgree<T>(s: seq<T>, p: T -> bool, q: T -> bool)
    requires forall x :: x in s ==> p(x) == q(x)
    ensures Filter(s, p) == Filter(s, q)
  {
    if s != [] { FilterAgree(s[1..], p, q); }
  }

  lemma FilterRanks<T>(s: seq<T>, keep: T -> bool, key: T -> Key, x: T)
    requires forall y :: y in s ==> KeyLeq(key(y), key(x))
    ensures Insert(x, Filter(s, keep), key) == Filter(s, keep) + [x]
  {
    var f := Filter(s, keep);
    forall y | y in f ensures KeyLeq(key(y), key(x)) {
      FilterMember(s, keep, y);
    }
    InsertLast(x, f, key);
  }

  lemma FilterSnoc<T>(s: seq<T>, x: T, keep: T -> bool)
    ensures Filter(s + [x], keep) == Filter(s, keep) + if keep(x) then [x] else []
  {
    FilterConcat(s, [x], keep);
    assert [x][1..] == [];
  }

  /** Selection after an insertion that outranks the last element. */
  lemma {:induction false} FilterInsert<T>(x: T, s: seq<T>, key: T -> Key, keep: T -> bool)
    requires Sorted(s, key)
    ensures Filter(Insert(x, s, key), keep)
            == if keep(x) then Insert(x, Filter(s, keep), key) else Filter(s, keep)
  {
    if s == [] {
      FilterSnoc(s, x, keep);
    } else if KeyLeq(key(s[|s| - 1]), key(x)) {
      FilterSnoc(s, x, keep);
      forall y | y in s ensures KeyLeq(key(y), key(x)) {
        var i :| 0 <= i < |s| && s[i] == y;
        if i < |s| - 1 { KeyTransitive(key(y), key(s[|s| - 1]), key(x)); }
      }
      if keep(x) { FilterRanks(s, keep, key, x); }
    } else {
      var last, front := s[|s| - 1], s[..|s| - 1];
      assert s == front + [last];
      FilterInsert(x, front, key, keep);
      FilterSnoc(front, last, keep);
      FilterSnoc(Insert(x, front, key), last, keep);
      var f := Filter(front, keep);
      if keep(last) {
        var g := f + [last];
        assert Filter(s, keep) == g && g[|g| - 1] == last && g[..|g| - 1] == f;
        assert Insert(x, g, key) == Insert(x, f, key) + [last];
      } else {
        assert Filter(s, keep) == f;
      }
    }
  }

  lemma {:induction false} FilterInsertAll<T>(acc: seq<T>, s: seq<T>, key: T -> Key, keep: T -> bool)
    requires Sorted(acc, key)
    ensures Filter(InsertAll(acc, s, key), keep) == InsertAll(Filter(acc, keep), Filter(s, keep), key)
    decreases |s|
  {
    if s != [] {
      InsertSorted(s[0], acc, key);
      FilterInsert(s[0], acc, key, keep);
      FilterInsertAll(Insert(s[0], acc, key), s[1..], key, keep);
      if keep(s[0]) { assert Filter(s, keep)[1..] == Filter(s[1..], keep); }
      else { assert Filter(s, keep) == Filter(s[1..], keep); }
    }
  }

  /** Sorting everything and then selecting equals selecting and then sorting. */
  lemma FilterSort<T>(s: seq<T>, key: T -> Key, keep: T -> bool)
    ensures Filter(StableSort(s, key), keep) == StableSort(Filter(s, keep), key)
  {
    FilterInsertAll([], s, key, keep);
  }

  function MapAll<T, U>(s: seq<T>, f: T -> U): (r: seq<U>)
    ensures |r| == |s| && forall i :: 0 <= i < |s| ==> r[i] == f(s[i])
  {
    seq(|s|, i requires 0 <= i < |s| => f(s[i]))
  }

  lemma {:induction false} FilterMap<T, U>(s: seq<T>, f: T -> U, p: T -> bool, q: U -> bool)
    requires forall x :: x in s ==> p(x) == q(f(x))
    ensures Filter(MapAll(s, f), q) == MapAll(Filter(s, p), f)
  {
    if s != [] {
      FilterMap(s[1..], f, p, q);
      assert MapAll(s, f)[1..] == MapAll(s[1..], f);
    }
  }

  lemma {:induction false} MapInsert<T, U>(x: T, s: seq<T>, key: T -> Key, f: T -> U, key': U -> Key)
    requires key(x) == key'(f(x)) && forall y :: y in s ==> key(y) == key'(f(y))
    ensures MapAll(Insert(x, s, key), f) == Insert(f(x), MapAll(s, f), key')
  {
    if s != [] {
      var front := s[..|s| - 1];
      assert MapAll(s, f)[..|s| - 1] == MapAll(front, f);
      assert s[|s| - 1] in s;
      MapInsert(x, front, key, f, key');
    }
  }

  lemma {:induction false} MapInsertAll<T, U>(acc: seq<T>, s: seq<T>, key: T -> Key, f: T -> U, key': U -> Key)
    requires forall y :: y in acc || y in s ==> key(y) == key'(f(y))
    requires Sorted(acc, key)
    ensures MapAll(InsertAll(acc, s, key), f) == InsertAll(MapAll(acc, f), MapAll(s, f), key')
    decreases |s|
  {
    if s != [] {
      MapInsert(s[0], acc, key, f, key');
      InsertSorted(s[0], acc, key);
      assert forall y :: y in Insert(s[0], acc, key) ==> y in multiset(acc) + multiset{s[0]} by {
        forall y | y in Insert(s[0], acc, key) ensures y in multiset(acc) + multiset{s[0]} {
          assert y in multiset(Insert(s[0], acc, key));
        }
      }
      assert MapAll(s, f)[1..] == MapAll(s[1..], f);
      MapInsertAll(Insert(s[0], acc, key), s[1..], key, f, key');
    }
  }

  /** Relabelling elements without touching their keys commutes with sorting. */
  lemma MapSort<T, U>(s: seq<T>, key: T -> Key, f: T -> U, key': U -> Key)
    requires forall y :: y in s ==> key(y) == key'(f(y))
    ensures MapAll(StableSort(s, key), f) == StableSort(MapAll(s, f), key')
  {
    assert MapAll([], f) == [];
    MapInsertAll([], s, key, f, key');
  }
}
