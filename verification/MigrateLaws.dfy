/** When rolling back undoes applying, and what every run keeps. */
module MigrateLaws {
  import opened Prelude
  import opened Ids
  import opened Sorting
  import opened Migrate
  import opened MigratePlan
  import Text

  /** The versions of the first k migrations in load order. */
  function FirstK(ms: seq<Migration>, k: nat): set<string>
    requires k <= |ms|
  {
    Elems(Versions(ms[..k]))
  }

  /** The load order is also the textual order. */
  predicate Textual(ms: seq<Migration>) { Ascending(Text.Less, Versions(ms)) }

  /** Versions that are digit strings of one width load in textual order, at any
      width, overflow of 64 bits included. */
  lemma EqualWidthIsTextual(files: seq<File>, ms: seq<Migration>)
    requires Loaded(files, ms) && EqualWidthDigits(Elems(Versions(ms)))
    ensures Textual(ms)
  {
    var vs := Versions(ms);
    LoadOrder(Elems(vs));
    forall i, j | 0 <= i < j < |vs| ensures Text.Less(vs[i], vs[j]) {
      assert vs[i] in Elems(vs) && vs[j] in Elems(vs);
      LoadIsTextual(vs[i], vs[j]);
    }
  }

  lemma FirstKMember(ms: seq<Migration>, k: nat, i: nat)
    requires Distinct(Versions(ms)) && k <= |ms| && i < |ms|
    ensures ms[i].version in FirstK(ms, k) <==> i < k
  {
    var vs := Versions(ms);
    var front := Versions(ms[..k]);
    if i < k {
      assert front[i] == ms[i].version;
    } else {
      forall j | 0 <= j < k ensures front[j] != ms[i].version { assert front[j] == vs[j] && vs[i] == ms[i].version; }
    }
  }

  // ---------- the up plan ----------

  lemma {:induction false} PendingAfterFirst(ms: seq<Migration>, applied: set<string>, k: nat)
    requires k <= |ms| && forall i | 0 <= i < |ms| :: ms[i].version in applied <==> i < k
    ensures Pending(ms, applied) == ms[k..]
  {
    if ms != [] {
      var front := ms[..|ms| - 1];
      if k == |ms| {
        PendingAfterFirst(front, applied, k - 1);
        assert ms[k - 1].version in applied;
      } else {
        PendingAfterFirst(front, applied, k);
        assert ms[|ms| - 1].version !in applied;
        DropSnoc(ms, k);
      }
    }
  }

  lemma DropSnoc<T>(xs: seq<T>, k: nat)
    requires k < |xs|
    ensures xs[k..] == xs[..|xs| - 1][k..] + [xs[|xs| - 1]]
  {
  }

  function UpCount(steps: int, available: nat): (n: nat)
    ensures n <= available
  {
    if 0 < steps < available then steps else available
  }

  lemma UpFromFirst(ms: seq<Migration>, k: nat, steps: int)
    requires Distinct(Versions(ms)) && k <= |ms|
    ensures UpPlan(ms, FirstK(ms, k), steps) == ms[k..k + UpCount(steps, |ms| - k)]
  {
    forall i | 0 <= i < |ms| ensures ms[i].version in FirstK(ms, k) <==> i < k { FirstKMember(ms, k, i); }
    PendingAfterFirst(ms, FirstK(ms, k), k);
  }

  lemma UpReaches(ms: seq<Migration>, k: nat, steps: int, r: nat)
    requires Distinct(Versions(ms)) && k <= |ms| && r <= |UpPlan(ms, FirstK(ms, k), steps)|
    ensures k + r <= |ms| && Through(FirstK(ms, k), UpPlan(ms, FirstK(ms, k), steps), true, r) == FirstK(ms, k + r)
  {
    UpFromFirst(ms, k, steps);
    var plan := UpPlan(ms, FirstK(ms, k), steps);
    assert plan[..r] == ms[k..k + r];
    var all := Versions(ms[..k + r]);
    assert all[..k] == Versions(ms[..k]) && all[k..] == Versions(ms[k..k + r]);
    ElemsSplit(all, k);
  }

  // ---------- the down plan ----------

  function Reversed<T>(xs: seq<T>): (r: seq<T>)
    ensures |r| == |xs| && forall i | 0 <= i < |xs| :: r[i] == xs[|xs| - 1 - i]
  {
    seq(|xs|, i requires 0 <= i < |xs| => xs[|xs| - 1 - i])
  }

  lemma ReversedElems<T>(xs: seq<T>)
    ensures Elems(Reversed(xs)) == Elems(xs)
  {
    var r := Reversed(xs);
    forall x ensures x in Elems(r) <==> x in Elems(xs) {
      if x in xs {
        var i :| 0 <= i < |xs| && xs[i] == x;
        assert r[|xs| - 1 - i] == x;
      }
    }
  }

  lemma DownOrderOfFirst(ms: seq<Migration>, k: nat)
    requires Textual(ms) && k <= |ms|
    ensures DownOrder(FirstK(ms, k)) == Reversed(Versions(ms[..k]))
  {
    var front := Versions(ms[..k]);
    var vs := Versions(ms);
    var r := Reversed(front);
    forall i, j | 0 <= i < j < |r| ensures DownLess(r[i], r[j]) {
      assert r[i] == vs[k - 1 - i] && r[j] == vs[k - 1 - j];
    }
    ReversedElems(front);
    TextOrder(FirstK(ms, k));
    DownOrderArranges(FirstK(ms, k));
    ArrangementUnique(DownLess, r, DownOrder(FirstK(ms, k)), FirstK(ms, k));
  }

  lemma {:induction false} FindAt(ms: seq<Migration>, i: nat)
    requires Distinct(Versions(ms)) && i < |ms|
    ensures Find(ms, ms[i].version) == Some(ms[i])
  {
    if i < |ms| - 1 {
      var vs := Versions(ms);
      assert vs[i] != vs[|ms| - 1];
      var front := ms[..|ms| - 1];
      assert Versions(front) == vs[..|ms| - 1];
      FindAt(front, i);
    }
  }

  lemma {:induction false} ResolveAll(ms: seq<Migration>, plan: seq<Migration>)
    requires forall m | m in plan :: Find(ms, m.version) == Some(m)
    ensures Resolve(ms, Versions(plan)) == Ok(plan)
  {
    if plan != [] {
      var front := plan[..|plan| - 1];
      ResolveAll(ms, front);
      assert Versions(plan)[..|plan| - 1] == Versions(front);
      assert plan == front + [plan[|plan| - 1]];
    }
  }

  lemma LastOnes(ms: seq<Migration>, k: nat, n: nat)
    requires n <= k <= |ms|
    ensures Reversed(Versions(ms[..k]))[..n] == Versions(Reversed(ms[k - n..k]))
  {
  }

  lemma AllFound(ms: seq<Migration>)
    requires Distinct(Versions(ms))
    ensures forall m | m in ms :: Find(ms, m.version) == Some(m)
  {
    forall i | 0 <= i < |ms| ensures Find(ms, ms[i].version) == Some(ms[i]) { FindAt(ms, i); }
  }

  lemma ReversedSlice<T>(xs: seq<T>, a: nat, b: nat)
    requires a <= b <= |xs|
    ensures forall x | x in Reversed(xs[a..b]) :: x in xs
  {
    ReversedElems(xs[a..b]);
    forall x | x in Reversed(xs[a..b]) ensures x in xs { assert x in Elems(xs[a..b]); }
  }

  /** From the first k migrations a roll-back takes the last of them, in reverse. */
  lemma DownFromFirst(ms: seq<Migration>, k: nat, steps: int)
    requires Distinct(Versions(ms)) && Textual(ms) && k <= |ms|
    ensures DownPlan(ms, FirstK(ms, k), steps) == Ok(Reversed(ms[k - Wanted(steps, k)..k]))
  {
    var n := Wanted(steps, k);
    calc {
      DownPlan(ms, FirstK(ms, k), steps);
      { DownOrderOfFirst(ms, k); }
      Resolve(ms, Reversed(Versions(ms[..k]))[..n]);
      { LastOnes(ms, k, n); }
      Resolve(ms, Versions(Reversed(ms[k - n..k])));
      { AllFound(ms); ReversedSlice(ms, k - n, k); ResolveAll(ms, Reversed(ms[k - n..k])); }
      Ok(Reversed(ms[k - n..k]));
    }
  }

  lemma DownReaches(ms: seq<Migration>, k: nat, n: nat, r: nat)
    requires Distinct(Versions(ms)) && r <= n <= k <= |ms|
    ensures Through(FirstK(ms, k), Reversed(ms[k - n..k]), false, r) == FirstK(ms, k - r)
  {
    assert Reversed(ms[k - n..k])[..r] == Reversed(ms[k - r..k]);
    ReversedVersions(ms[k - r..k]);
    SplitTail(ms, k, r);
  }

  lemma ReversedVersions(ms: seq<Migration>)
    ensures Elems(Versions(Reversed(ms))) == Elems(Versions(ms))
  {
    assert Versions(Reversed(ms)) == Reversed(Versions(ms));
    ReversedElems(Versions(ms));
  }

  lemma SplitTail(ms: seq<Migration>, k: nat, r: nat)
    requires Distinct(Versions(ms)) && r <= k <= |ms|
    ensures FirstK(ms, k) - Elems(Versions(ms[k - r..k])) == FirstK(ms, k - r)
  {
    var all, tail := Versions(ms[..k]), Versions(ms[k - r..k]);
    assert all[..k - r] == Versions(ms[..k - r]) && all[k - r..] == tail;
    ElemsSplit(all, k - r);
    TailApart(ms, k, r);
  }

  lemma TailApart(ms: seq<Migration>, k: nat, r: nat)
    requires Distinct(Versions(ms)) && r <= k <= |ms|
    ensures FirstK(ms, k - r) !! Elems(Versions(ms[k - r..k]))
  {
    var tail := Versions(ms[k - r..k]);
    forall v | v in Elems(tail) ensures v !in FirstK(ms, k - r) {
      var i :| 0 <= i < r && tail[i] == v;
      assert v == ms[k - r + i].version;
      FirstKMember(ms, k - r, k - r + i);
    }
  }
}
