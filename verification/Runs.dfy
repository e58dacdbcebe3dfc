/** Fields of a state that a run of events changes: the last event that may set one decides. */
module Runs {
  import opened Wrappers

  /** What an event sets a field to in the state that it finds, if it may. */
  type Write<!S, !E, !V> = (S, E) -> Option<V>

  /** The event at `i` sets the field to `v`; `before(i)` is the state that it finds. */
  ghost predicate Sets<S(!new), E, V>(before: nat -> S, es: seq<E>, w: Write<S, E, V>, i: nat, v: V)
    requires i < |es|
  {
    w(before(i), es[i]) == Some(v)
  }

  ghost predicate Silent<S(!new), E, V>(before: nat -> S, es: seq<E>, w: Write<S, E, V>, i: nat)
    requires i < |es|
  {
    w(before(i), es[i]).None?
  }

  /** `now` is what the last event that sets the field said, or `start` if none does. */
  ghost predicate LastWrite<S(!new), E, V>(before: nat -> S, es: seq<E>, w: Write<S, E, V>, start: V, now: V) {
    || (now == start && forall i :: 0 <= i < |es| ==> Silent(before, es, w, i))
    || exists i :: 0 <= i < |es| && Sets(before, es, w, i, now) && forall j :: i < j < |es| ==> Silent(before, es, w, j)
  }

  /** A field that each event sets or leaves alone holds what the last one said. */
  lemma {:induction false} LastWins<S(!new), E, V>(before: nat -> S, es: seq<E>, w: Write<S, E, V>, f: S -> V)
    requires forall i :: 0 <= i < |es| ==>
               f(before(i + 1)) == if w(before(i), es[i]).Some? then w(before(i), es[i]).value else f(before(i))
    ensures LastWrite(before, es, w, f(before(0)), f(before(|es|)))
    decreases |es|
  {
    if es != [] {
      var n := |es| - 1;
      var front := es[..n];
      LastWins(before, front, w, f);
      forall i | 0 <= i < n ensures Silent(before, es, w, i) == Silent(before, front, w, i) {
      }
      if w(before(n), es[n]).Some? {
        assert Sets(before, es, w, n, f(before(n + 1)));
      } else {
        assert Silent(before, es, w, n);
        if i :| 0 <= i < n && Sets(before, front, w, i, f(before(n)))
                && forall j :: i < j < n ==> Silent(before, front, w, j)
        {
          assert Sets(before, es, w, i, f(before(n + 1)));
        }
      }
    }
  }
}
