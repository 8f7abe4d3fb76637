/** Shapes shared by every component: an optional value, a lookup, lists without repetition. */
module Common {
  datatype Option<+T> = None | Some(value: T)

  function Get<K, V>(m: map<K, V>, k: K): Option<V> {
    if k in m then Some(m[k]) else None
  }

  ghost predicate Distinct<T>(s: seq<T>) {
    forall i, j :: 0 <= i < j < |s| ==> s[i] != s[j]
  }

  lemma DistinctTail<T>(s: seq<T>)
    requires Distinct(s) && s != []
    ensures Distinct(s[1..]) && s[0] !in s[1..]
  {
  }

  lemma DistinctCons<T>(x: T, s: seq<T>)
    requires Distinct(s) && x !in s
    ensures Distinct([x] + s)
  {
  }

  lemma DistinctSnoc<T>(s: seq<T>, x: T)
    ensures Distinct(s + [x]) <==> Distinct(s) && x !in s
  {
    if Distinct(s + [x]) {
      forall i, j | 0 <= i < j < |s| ensures s[i] != s[j] {
        assert (s + [x])[i] != (s + [x])[j];
      }
      forall i | 0 <= i < |s| ensures s[i] != x {
        assert (s + [x])[i] != (s + [x])[|s|];
      }
    }
  }

  lemma DistinctPrefix<T>(s: seq<T>, n: nat)
    requires Distinct(s) && n <= |s|
    ensures Distinct(s[..n])
    ensures forall k :: n <= k < |s| ==> s[k] !in s[..n]
  {
  }

  /** A loop of at most `turns` turns that breaks when there is no next state. */
  function Iterate<S>(step: S -> Option<S>, s: S, turns: nat): S
    decreases turns
  {
    if turns == 0 then s
    else
      match step(s)
      case None => s
      case Some(next) => Iterate(step, next, turns - 1)
  }

  /** A loop whose turns keep an invariant ends with the invariant. */
  lemma {:induction false} IterateKeeps<S(!new)>(step: S -> Option<S>, inv: S -> bool, s: S, turns: nat)
    requires inv(s)
    requires forall t :: inv(t) && step(t).Some? ==> inv(step(t).value)
    ensures inv(Iterate(step, s, turns))
    decreases turns
  {
    if turns > 0 && step(s).Some? {
      IterateKeeps(step, inv, step(s).value, turns - 1);
    }
  }

  /** A loop that also lowers a measure at every turn, and is given that many turns, ends by
      itself. */
  lemma {:induction false} IterateStops<S(!new)>(step: S -> Option<S>, inv: S -> bool, measure: S -> nat, s: S, turns: nat)
    requires inv(s) && measure(s) <= turns
    requires forall t :: inv(t) && step(t).Some? ==> inv(step(t).value) && measure(step(t).value) < measure(t)
    ensures inv(Iterate(step, s, turns)) && step(Iterate(step, s, turns)).None?
    decreases turns
  {
    if step(s).Some? {
      IterateStops(step, inv, measure, step(s).value, turns - 1);
    }
  }
}
