/** Duplicate-free lists of identifiers and what filtering does to them. */
module Ids {
  function Elems<T(==)>(s: seq<T>): set<T> { set x | x in s }

  predicate Distinct<T(==)>(s: seq<T>) { forall i, j | 0 <= i < j < |s| :: s[i] != s[j] }

  /** The members of `s` that are not in `drop`, in order. */
  function Keep(s: seq<string>, drop: set<string>): seq<string> {
    if s == [] then [] else (if s[0] in drop then [] else [s[0]]) + Keep(s[1..], drop)
  }

  lemma {:induction false} KeepMembers(s: seq<string>, drop: set<string>)
    ensures forall x :: x in Keep(s, drop) <==> x in s && x !in drop
  {
    if s != [] { KeepMembers(s[1..], drop); }
  }

  lemma {:induction false} KeepConcat(a: seq<string>, b: seq<string>, drop: set<string>)
    ensures Keep(a + b, drop) == Keep(a, drop) + Keep(b, drop)
  {
    if a == [] {
      assert a + b == b;
    } else {
      var head := if a[0] in drop then [] else [a[0]];
      calc {
        Keep(a + b, drop);
        { assert (a + b)[1..] == a[1..] + b; }
        head + Keep(a[1..] + b, drop);
        { KeepConcat(a[1..], b, drop); }
        head + (Keep(a[1..], drop) + Keep(b, drop));
        Keep(a, drop) + Keep(b, drop);
      }
    }
  }

  lemma {:induction false} KeepNone(s: seq<string>, drop: set<string>)
    requires forall x | x in s :: x !in drop
    ensures Keep(s, drop) == s
  {
    if s != [] { KeepNone(s[1..], drop); }
  }

  lemma {:induction false} KeepTwice(s: seq<string>, a: set<string>, b: set<string>)
    ensures Keep(Keep(s, a), b) == Keep(s, a + b)
  {
    if s != [] {
      KeepTwice(s[1..], a, b);
      KeepConcat(if s[0] in a then [] else [s[0]], Keep(s[1..], a), b);
    }
  }

  lemma {:induction false} KeepDistinct(s: seq<string>, drop: set<string>)
    requires Distinct(s)
    ensures Distinct(Keep(s, drop))
  {
    if s != [] {
      KeepDistinct(s[1..], drop);
      KeepMembers(s[1..], drop);
      assert s[0] !in s[1..];
    }
  }

  /** Dropping sets that agree on `s` gives the same list. */
  lemma {:induction false} KeepAgrees(s: seq<string>, a: set<string>, b: set<string>)
    requires forall x | x in s :: x in a <==> x in b
    ensures Keep(s, a) == Keep(s, b)
  {
    if s != [] { KeepAgrees(s[1..], a, b); }
  }

  lemma {:induction false} DistinctSize<T>(s: seq<T>)
    requires Distinct(s)
    ensures |Elems(s)| == |s|
  {
    if s != [] {
      DistinctSize(s[1..]);
      assert s[0] !in s[1..];
      assert Elems(s) == {s[0]} + Elems(s[1..]);
    }
  }

  lemma DistinctParts(a: seq<string>, b: seq<string>)
    requires Distinct(a + b)
    ensures Distinct(a) && Distinct(b) && forall x | x in a :: x !in b
  {
    assert forall i | 0 <= i < |a| :: (a + b)[i] == a[i];
    assert forall i | 0 <= i < |b| :: (a + b)[|a| + i] == b[i];
  }

  /** How many members of `s` are in `t`. */
  function CountIn(s: seq<string>, t: set<string>): (n: nat)
    ensures n <= |s|
  {
    if s == [] then 0 else (if s[0] in t then 1 else 0) + CountIn(s[1..], t)
  }

  lemma {:induction false} CountConcat(a: seq<string>, b: seq<string>, t: set<string>)
    ensures CountIn(a + b, t) == CountIn(a, t) + CountIn(b, t)
  {
    if a == [] {
      assert a + b == b;
    } else {
      CountConcat(a[1..], b, t);
      assert (a + b)[1..] == a[1..] + b;
    }
  }

  /** Dropping exactly the members outside `t` leaves as many as are in `t`. */
  lemma {:induction false} KeepCount(s: seq<string>, drop: set<string>, t: set<string>)
    requires forall x | x in s :: x in drop <==> x !in t
    ensures |Keep(s, drop)| == CountIn(s, t) == CountIn(Keep(s, drop), t)
  {
    if s != [] {
      KeepCount(s[1..], drop, t);
      CountConcat(if s[0] in drop then [] else [s[0]], Keep(s[1..], drop), t);
    }
  }

  // ---------- filtering, said by positions ----------

  /** `out` is f of exactly those elements of xs that are to be kept, at the positions
      `at`, in the order of xs. */
  ghost predicate PicksAt<T, U>(out: seq<U>, xs: seq<T>, keep: T -> bool, f: T -> U, at: seq<nat>) {
    && |at| == |out| && (forall i, j | 0 <= i < j < |at| :: at[i] < at[j])
    && (forall i | 0 <= i < |at| :: at[i] < |xs| && keep(xs[at[i]]) && out[i] == f(xs[at[i]]))
    && (forall k | 0 <= k < |xs| && keep(xs[k]) :: k in at)
  }

  ghost predicate Picks<T, U>(out: seq<U>, xs: seq<T>, keep: T -> bool, f: T -> U) {
    exists at: seq<nat> :: PicksAt(out, xs, keep, f, at)
  }

  lemma PicksNothing<T, U>(keep: T -> bool, f: T -> U)
    ensures Picks([], [], keep, f)
  {
    assert PicksAt([], [], keep, f, []);
  }

  lemma PicksSnoc<T, U>(out: seq<U>, xs: seq<T>, keep: T -> bool, f: T -> U, x: T)
    requires Picks(out, xs, keep, f)
    ensures Picks(out + (if keep(x) then [f(x)] else []), xs + [x], keep, f)
  {
    var at: seq<nat> :| PicksAt(out, xs, keep, f, at);
    var at' := at + (if keep(x) then [|xs|] else []);
    var xs' := xs + [x];
    forall k | 0 <= k < |xs'| && keep(xs'[k]) ensures k in at' {
      if k < |xs| { assert xs[k] == xs'[k] && k in at; }
    }
    assert PicksAt(out + (if keep(x) then [f(x)] else []), xs', keep, f, at');
  }
}
