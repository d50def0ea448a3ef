/** Whole runs of the migration tool, with files that are missing or fail: when
    rolling back undoes applying, and when the applied set stays a prefix. */
module MigrateRuns {
  import opened Prelude
  import opened Ids
  import opened Sorting
  import opened Migrate
  import opened MigratePlan
  import opened MigrateLaws
  import Text

  /** One invocation of the tool; the files of the `broken` versions fail. */
  datatype Invocation = Invocation(up: bool, steps: int, broken: set<string>)

  ghost function After(ms: seq<Migration>, applied: set<string>, run: Invocation): set<string> {
    match Planned(ms, applied, run.up, run.steps)
    case Err(_) => applied
    case Ok(plan) => Through(applied, plan, run.up, Reached(applied, plan, run.up, run.broken))
  }

  ghost function AfterAll(ms: seq<Migration>, applied: set<string>, runs: seq<Invocation>): set<string>
    decreases |runs|
  {
    if runs == [] then applied else AfterAll(ms, After(ms, applied, runs[0]), runs[1..])
  }

  /** What a run of the tool leaves behind is this, and this alone. */
  lemma RunIsInvocation(ms: seq<Migration>, before: set<string>, after: set<string>, run: Invocation, k: nat,
                        err: Option<RunError>)
    requires Planned(ms, before, run.up, run.steps).Ok? && k <= |Planned(ms, before, run.up, run.steps).value|
    ensures var plan := Planned(ms, before, run.up, run.steps).value;
            StoppedAt(before, after, plan, run.up, run.broken, k, err) <==>
            && k == Reached(before, plan, run.up, run.broken)
            && after == After(ms, before, run)
            && err == if k == |plan| then None else Some(Failed(plan[k].version))
  {
    StopsWhereReached(before, after, Planned(ms, before, run.up, run.steps).value, run.up, run.broken, k, err);
  }

  /** A version whose file fails is neither applied nor rolled back. */
  lemma BrokenStays(ms: seq<Migration>, applied: set<string>, run: Invocation, v: string)
    requires v in run.broken
    ensures v in After(ms, applied, run) <==> v in applied
  {
    if Planned(ms, applied, run.up, run.steps).Ok? {
      var plan := Planned(ms, applied, run.up, run.steps).value;
      var r := Reached(applied, plan, run.up, run.broken);
      ReachedMeans(applied, plan, run.up, run.broken, 0);
      var done := Versions(plan[..r]);
      forall i | 0 <= i < r ensures done[i] != v {
        assert Applies(Through(applied, plan, run.up, i), plan[i], run.up, run.broken);
      }
    }
  }

  // ---------- the order of rolling back ----------

  /** The j-th is the textually greatest of the first k. */
  predicate Greatest(ms: seq<Migration>, k: nat, j: nat) {
    j < k <= |ms| && forall i | 0 <= i < k && i != j :: Text.Less(ms[i].version, ms[j].version)
  }

  /** The i-th is textually greater than all before it. */
  predicate Leads(ms: seq<Migration>, i: nat) { Greatest(ms, i + 1, i) }

  lemma OrderOf(ms: seq<Migration>, k: nat)
    requires Distinct(Versions(ms)) && k <= |ms|
    ensures var order := DownOrder(FirstK(ms, k));
            |order| == k && Distinct(order) && Elems(order) == FirstK(ms, k)
  {
    var order, front := DownOrder(FirstK(ms, k)), Versions(ms[..k]);
    DownOrderArranges(FirstK(ms, k));
    forall i, j | 0 <= i < j < |order| ensures order[i] != order[j] {
      assert DownLess(order[i], order[j]);
      Text.LessIrreflexive(order[i]);
    }
    DistinctSize(order);
    var vs := Versions(ms);
    assert forall i | 0 <= i < k :: front[i] == vs[i];
    DistinctSize(front);
  }

  lemma MemberAt(ms: seq<Migration>, k: nat, v: string) returns (j: nat)
    requires k <= |ms| && v in FirstK(ms, k)
    ensures j < k && ms[j].version == v
  {
    var front := Versions(ms[..k]);
    j :| j < |front| && front[j] == v;
  }

  /** The first r versions rolled back are the last r of the first k. */
  ghost predicate TopsAre(ms: seq<Migration>, k: nat, r: nat)
    requires r <= k <= |ms|
  {
    var order := DownOrder(FirstK(ms, k));
    |order| == k && forall i | k - r <= i < k :: order[k - 1 - i] == ms[i].version
  }

  lemma TopPlace(ms: seq<Migration>, k: nat, r: nat, i: nat, p: nat)
    requires Distinct(Versions(ms)) && i < k <= |ms| && r <= k && TopsAre(ms, k, r)
    requires p < k && DownOrder(FirstK(ms, k))[p] == ms[i].version
    ensures i >= k - r ==> p == k - 1 - i
    ensures p < r ==> i == k - 1 - p
  {
    OrderOf(ms, k);
    if p < r { SameIndex(ms, i, k - 1 - p); }
  }

  /** Then the next one is the greatest of those that are left. */
  lemma NextTop(ms: seq<Migration>, k: nat, r: nat) returns (j: nat)
    requires Distinct(Versions(ms)) && r < k <= |ms| && TopsAre(ms, k, r)
    ensures Greatest(ms, k - r, j) && DownOrder(FirstK(ms, k))[r] == ms[j].version
  {
    var order := DownOrder(FirstK(ms, k));
    OrderOf(ms, k);
    assert order[r] in Elems(order);
    j := MemberAt(ms, k, order[r]);
    TopPlace(ms, k, r, j, r);
    forall i | 0 <= i < k - r && i != j ensures Text.Less(ms[i].version, ms[j].version) {
      LaterIsLess(ms, k, r, i, j);
    }
  }

  lemma LaterIsLess(ms: seq<Migration>, k: nat, r: nat, i: nat, j: nat)
    requires Distinct(Versions(ms)) && r < k <= |ms| && TopsAre(ms, k, r)
    requires i < k - r && j < k - r && i != j && DownOrder(FirstK(ms, k))[r] == ms[j].version
    ensures Text.Less(ms[i].version, ms[j].version)
  {
    var p := PlaceOf(ms, k, i);
    TopPlace(ms, k, r, i, p);
    if p == r { SameIndex(ms, i, j); }
    EarlierIsGreater(FirstK(ms, k), r, p);
  }

  lemma PlaceOf(ms: seq<Migration>, k: nat, i: nat) returns (p: nat)
    requires Distinct(Versions(ms)) && i < k <= |ms|
    ensures p < k == |DownOrder(FirstK(ms, k))| && DownOrder(FirstK(ms, k))[p] == ms[i].version
  {
    OrderOf(ms, k);
    FirstKMember(ms, k, i);
    var order := DownOrder(FirstK(ms, k));
    assert ms[i].version in Elems(order);
    p :| p < |order| && order[p] == ms[i].version;
  }

  lemma EarlierIsGreater(applied: set<string>, r: nat, p: nat)
    requires r < p < |DownOrder(applied)|
    ensures Text.Less(DownOrder(applied)[p], DownOrder(applied)[r])
  {
    DownOrderArranges(applied);
    assert DownLess(DownOrder(applied)[r], DownOrder(applied)[p]);
  }

  lemma TopsExtend(ms: seq<Migration>, k: nat, r: nat)
    requires r < k <= |ms| && TopsAre(ms, k, r) && DownOrder(FirstK(ms, k))[r] == ms[k - 1 - r].version
    ensures TopsAre(ms, k, r + 1)
  {
  }

  lemma GreatestUnique(ms: seq<Migration>, k: nat, i: nat, j: nat)
    requires Greatest(ms, k, i) && Greatest(ms, k, j)
    ensures i == j
  {
    if i != j {
      Text.LessTransitive(ms[i].version, ms[j].version, ms[i].version);
      Text.LessIrreflexive(ms[i].version);
    }
  }

  // ---------- the down plan, in any order ----------

  lemma {:induction false} ResolveEach(ms: seq<Migration>, vs: seq<string>)
    requires Distinct(Versions(ms)) && forall v | v in vs :: v in Elems(Versions(ms))
    ensures Resolve(ms, vs).Ok? && |Resolve(ms, vs).value| == |vs|
    ensures forall i | 0 <= i < |vs| :: Resolve(ms, vs).value[i] in ms && Resolve(ms, vs).value[i].version == vs[i]
  {
    if vs != [] {
      var n := |vs| - 1;
      ResolveEach(ms, vs[..n]);
      var all := Versions(ms);
      assert vs[n] in vs;
      var j :| 0 <= j < |all| && all[j] == vs[n];
      FindAt(ms, j);
    }
  }

  lemma SameMigration(ms: seq<Migration>, m: Migration, j: nat)
    requires Distinct(Versions(ms)) && j < |ms| && m in ms && m.version == ms[j].version
    ensures m == ms[j]
  {
    var i :| 0 <= i < |ms| && ms[i] == m;
    var vs := Versions(ms);
    assert vs[i] == vs[j];
  }

  lemma DownPlanOf(ms: seq<Migration>, k: nat, steps: int) returns (plan: seq<Migration>)
    requires Distinct(Versions(ms)) && k <= |ms|
    ensures DownPlan(ms, FirstK(ms, k), steps) == Ok(plan)
    ensures |plan| == Wanted(steps, k) && |DownOrder(FirstK(ms, k))| == k
    ensures forall i | 0 <= i < |plan| :: plan[i] in ms && plan[i].version == DownOrder(FirstK(ms, k))[i]
  {
    OrderOf(ms, k);
    var order := DownOrder(FirstK(ms, k));
    var vs := order[..Wanted(steps, k)];
    forall v | v in vs ensures v in Elems(Versions(ms)) {
      assert v in Elems(order);
      var j := MemberAt(ms, k, v);
      assert Versions(ms)[j] == v;
    }
    ResolveEach(ms, vs);
    plan := Resolve(ms, vs).value;
  }

  /** As far as the tops are the last ones, the plan is those in reverse. */
  lemma PlanIsTail(ms: seq<Migration>, k: nat, plan: seq<Migration>, r: nat)
    requires Distinct(Versions(ms)) && r <= k <= |ms| && r <= |plan| <= k && TopsAre(ms, k, r)
    requires forall i | 0 <= i < |plan| :: plan[i] in ms && plan[i].version == DownOrder(FirstK(ms, k))[i]
    ensures plan[..r] == Reversed(ms[k - r..k])
  {
    assert forall i | k - r <= i < k :: plan[k - 1 - i] == ms[i] by {
      forall i | k - r <= i < k ensures plan[k - 1 - i] == ms[i] { SameMigration(ms, plan[k - 1 - i], i); }
    }
    TailReversed(ms, k, plan, r);
  }

  lemma TailReversed<T>(xs: seq<T>, k: nat, ys: seq<T>, r: nat)
    requires r <= k <= |xs| && r <= |ys| && forall i | k - r <= i < k :: ys[k - 1 - i] == xs[i]
    ensures ys[..r] == Reversed(xs[k - r..k])
  {
    var tail := Reversed(xs[k - r..k]);
    forall p | 0 <= p < r ensures ys[p] == tail[p] { assert tail[p] == xs[k - 1 - p]; }
  }

  lemma TailGone(ms: seq<Migration>, k: nat, plan: seq<Migration>, r: nat)
    requires Distinct(Versions(ms)) && r <= k <= |ms| && r <= |plan| && plan[..r] == Reversed(ms[k - r..k])
    ensures Through(FirstK(ms, k), plan, false, r) == FirstK(ms, k - r)
  {
    var tail := Reversed(ms[k - r..k]);
    assert tail[..r] == tail;
    DownReaches(ms, k, r, r);
  }

  // ---------- an up run ----------

  predicate HasUps(ms: seq<Migration>, from: nat, to: nat)
    requires to <= |ms|
  {
    forall i | from <= i < to :: ms[i].upPath != ""
  }

  lemma UpRun(ms: seq<Migration>, k: nat, steps: int, broken: set<string>) returns (r: nat)
    requires Distinct(Versions(ms)) && k <= |ms|
    ensures var plan := UpPlan(ms, FirstK(ms, k), steps);
            && r == Reached(FirstK(ms, k), plan, true, broken) && k + r <= |ms| && plan[..r] == ms[k..k + r]
    ensures HasUps(ms, k, k + r)
    ensures After(ms, FirstK(ms, k), Invocation(true, steps, broken)) == FirstK(ms, k + r)
  {
    var plan := UpPlan(ms, FirstK(ms, k), steps);
    r := Reached(FirstK(ms, k), plan, true, broken);
    ReachedMeans(FirstK(ms, k), plan, true, broken, 0);
    UpFromFirst(ms, k, steps);
    UpReaches(ms, k, steps, r);
    SlicePrefix(ms, k, k + |plan|, r);
    UpFiles(ms, k, plan, broken, r);
  }

  lemma SlicePrefix<T>(xs: seq<T>, a: nat, b: nat, r: nat)
    requires a + r <= b <= |xs|
    ensures xs[a..b][..r] == xs[a..a + r]
  {
  }

  lemma UpFiles(ms: seq<Migration>, k: nat, plan: seq<Migration>, broken: set<string>, r: nat)
    requires k + r <= |ms| && r <= |plan| && plan[..r] == ms[k..k + r]
    requires forall i | 0 <= i < r :: Applies(Through(FirstK(ms, k), plan, true, i), plan[i], true, broken)
    ensures HasUps(ms, k, k + r)
  {
    forall i | k <= i < k + r ensures ms[i].upPath != "" {
      assert plan[..r][i - k] == plan[i - k];
      assert Applies(Through(FirstK(ms, k), plan, true, i - k), plan[i - k], true, broken);
    }
  }

  /** With its files present and sound, a run goes through to the end. */
  lemma UpGoesThrough(ms: seq<Migration>, k: nat, steps: int)
    requires Distinct(Versions(ms)) && k < |ms| && 0 < steps <= |ms| - k && HasUps(ms, k, k + steps)
    ensures Reached(FirstK(ms, k), UpPlan(ms, FirstK(ms, k), steps), true, {}) == steps
    ensures After(ms, FirstK(ms, k), Invocation(true, steps, {})) == FirstK(ms, k + steps)
  {
    var plan := UpPlan(ms, FirstK(ms, k), steps);
    UpFromFirst(ms, k, steps);
    forall i | 0 <= i < steps ensures Applies(Through(FirstK(ms, k), plan, true, i), plan[i], true, {}) {
      UpReaches(ms, k, steps, i);
      FirstKMember(ms, k + i, k + i);
    }
    FirstFailure(FirstK(ms, k), plan, true, {}, 0, steps);
    UpReaches(ms, k, steps, steps);
  }

  // ---------- rolling back undoes applying ----------

  /** After a run that got r files through, rolling back r files takes exactly those,
      in reverse, and restores what was applied before. */
  ghost predicate Undone(ms: seq<Migration>, k: nat, steps: int, broken: set<string>)
    requires k <= |ms|
  {
    var before := FirstK(ms, k);
    var plan := UpPlan(ms, before, steps);
    var r := Reached(before, plan, true, broken);
    var after := After(ms, before, Invocation(true, steps, broken));
    && DownPlan(ms, after, r) == Ok(Reversed(plan[..r]))
    && After(ms, after, Invocation(false, r, {})) == before
  }

  ghost predicate UndoneBy(ms: seq<Migration>, k: nat, r: nat)
    requires k + r <= |ms|
  {
    && DownPlan(ms, FirstK(ms, k + r), r) == Ok(Reversed(ms[k..k + r]))
    && After(ms, FirstK(ms, k + r), Invocation(false, r, {})) == FirstK(ms, k)
  }

  /** The i-th migration is textually greater than all before it, and has a down file. */
  predicate Undoable(ms: seq<Migration>, i: nat) { Leads(ms, i) && ms[i].downPath != "" }

  predicate AllUndoable(ms: seq<Migration>, from: nat, to: nat) { forall i | from <= i < to :: Undoable(ms, i) }

  lemma {:induction false} UndoableTops(ms: seq<Migration>, k: nat, end: nat, r: nat)
    requires Distinct(Versions(ms)) && k <= end <= |ms| && r <= end - k && AllUndoable(ms, k, end)
    ensures TopsAre(ms, end, r)
  {
    if r == 0 {
      OrderOf(ms, end);
    } else {
      UndoableTops(ms, k, end, r - 1);
      assert Undoable(ms, end - r);
      LeadsNext(ms, end, r - 1);
      TopsExtend(ms, end, r - 1);
    }
  }

  lemma LeadsNext(ms: seq<Migration>, k: nat, r: nat)
    requires Distinct(Versions(ms)) && r < k <= |ms| && TopsAre(ms, k, r) && Leads(ms, k - r - 1)
    ensures DownOrder(FirstK(ms, k))[r] == ms[k - 1 - r].version
  {
    var j := NextTop(ms, k, r);
    OnlyLeader(ms, k - r - 1, j);
  }

  lemma OnlyLeader(ms: seq<Migration>, i: nat, j: nat)
    requires Leads(ms, i) && Greatest(ms, i + 1, j)
    ensures j == i
  {
    GreatestUnique(ms, i + 1, i, j);
  }

  lemma UndoablePlan(ms: seq<Migration>, k: nat, end: nat) returns (plan: seq<Migration>)
    requires Distinct(Versions(ms)) && k < end <= |ms| && AllUndoable(ms, k, end)
    ensures DownPlan(ms, FirstK(ms, end), end - k) == Ok(plan) && plan == Reversed(ms[k..end])
  {
    plan := DownPlanOf(ms, end, end - k);
    UndoableTops(ms, k, end, end - k);
    PlanIsTail(ms, end, plan, end - k);
    assert plan[..end - k] == plan;
  }

  lemma UndoableIsUndone(ms: seq<Migration>, k: nat, r: nat)
    requires Distinct(Versions(ms)) && k + r <= |ms| && r >= 1 && AllUndoable(ms, k, k + r)
    ensures UndoneBy(ms, k, r)
  {
    var end := k + r;
    var plan := UndoablePlan(ms, k, end);
    UndoableFiles(ms, k, end);
    DownGoesThrough(FirstK(ms, end), plan);
    assert plan[..r] == plan;
    TailGone(ms, end, plan, r);
  }

  lemma UndoableFiles(ms: seq<Migration>, k: nat, end: nat)
    requires k <= end <= |ms| && AllUndoable(ms, k, end)
    ensures forall m | m in Reversed(ms[k..end]) :: m.downPath != ""
  {
    forall m | m in Reversed(ms[k..end]) ensures m.downPath != "" {
      ReversedElems(ms[k..end]);
      assert m in Elems(ms[k..end]);
      var i :| 0 <= i < end - k && ms[k..end][i] == m;
      assert Undoable(ms, k + i);
    }
  }

  lemma DownGoesThrough(applied: set<string>, plan: seq<Migration>)
    requires forall m | m in plan :: m.downPath != ""
    ensures Reached(applied, plan, false, {}) == |plan|
  {
    FirstFailure(applied, plan, false, {}, 0, |plan|);
  }

  lemma UndoneIsUndoable(ms: seq<Migration>, k: nat, r: nat)
    requires Distinct(Versions(ms)) && k + r <= |ms| && r >= 1 && UndoneBy(ms, k, r)
    ensures AllUndoable(ms, k, k + r)
  {
    var end := k + r;
    var plan := Reversed(ms[k..end]);
    AllRolledBack(ms, k, end, plan);
    forall i | k <= i < end ensures Undoable(ms, i) {
      ReversedAt(ms, k, end, i);
      PlanLeads(ms, k, end, i);
    }
  }

  lemma AllRolledBack(ms: seq<Migration>, k: nat, end: nat, plan: seq<Migration>)
    requires Distinct(Versions(ms)) && k < end <= |ms| && plan == Reversed(ms[k..end])
    requires Through(FirstK(ms, end), plan, false, Reached(FirstK(ms, end), plan, false, {})) == FirstK(ms, k)
    ensures forall i | 0 <= i < |plan| :: plan[i].downPath != ""
  {
    var q := Reached(FirstK(ms, end), plan, false, {});
    DownReaches(ms, end, end - k, q);
    FirstKMember(ms, end - q, k);
    FirstKMember(ms, k, k);
    ReachedMeans(FirstK(ms, end), plan, false, {}, 0);
    forall i | 0 <= i < |plan| ensures plan[i].downPath != "" {
      assert Applies(Through(FirstK(ms, end), plan, false, i), plan[i], false, {});
    }
  }

  lemma TopsFromPlan(ms: seq<Migration>, k: nat, end: nat)
    requires Distinct(Versions(ms)) && k < end <= |ms|
    requires DownPlan(ms, FirstK(ms, end), end - k) == Ok(Reversed(ms[k..end]))
    ensures TopsAre(ms, end, end - k)
  {
    var plan := DownPlanOf(ms, end, end - k);
    var order := DownOrder(FirstK(ms, end));
    forall i | k <= i < end ensures order[end - 1 - i] == ms[i].version { ReversedAt(ms, k, end, i); }
  }

  lemma ReversedAt<T>(xs: seq<T>, k: nat, end: nat, i: nat)
    requires k <= i < end <= |xs|
    ensures Reversed(xs[k..end])[end - 1 - i] == xs[i]
  {
  }

  lemma PlanLeads(ms: seq<Migration>, k: nat, end: nat, i: nat)
    requires Distinct(Versions(ms)) && k <= i < end <= |ms|
    requires DownPlan(ms, FirstK(ms, end), end - k) == Ok(Reversed(ms[k..end]))
    ensures Leads(ms, i)
  {
    TopsFromPlan(ms, k, end);
    FewerTops(ms, end, end - k, end - 1 - i);
    var j := NextTop(ms, end, end - 1 - i);
    SameIndex(ms, i, j);
  }

  lemma FewerTops(ms: seq<Migration>, k: nat, r: nat, t: nat)
    requires t <= r <= k <= |ms| && TopsAre(ms, k, r)
    ensures TopsAre(ms, k, t)
  {
  }

  lemma SameIndex(ms: seq<Migration>, i: nat, j: nat)
    requires Distinct(Versions(ms)) && i < |ms| && j < |ms| && ms[i].version == ms[j].version
    ensures i == j
  {
    var vs := Versions(ms);
    assert vs[i] == vs[j];
  }

  lemma NothingUndone(ms: seq<Migration>, k: nat)
    requires Distinct(Versions(ms)) && k <= |ms|
    ensures UndoneBy(ms, k, 0) <==> k == 0
  {
    var plan := DownPlanOf(ms, k, 0);
    assert Reversed(ms[k..k]) == [];
  }

  lemma UndoneMeans(ms: seq<Migration>, k: nat, steps: int, broken: set<string>) returns (r: nat)
    requires Distinct(Versions(ms)) && k <= |ms|
    ensures r == Reached(FirstK(ms, k), UpPlan(ms, FirstK(ms, k), steps), true, broken) && k + r <= |ms|
    ensures Undone(ms, k, steps, broken) <==> UndoneBy(ms, k, r)
  {
    r := UpRun(ms, k, steps, broken);
  }

  /** Exactly when rolling back undoes a run, for every prefix, step count and set of
      failing files: each file that got through is textually greater than all before
      it and has a down file. If none got through, rolling back still takes one file,
      unless nothing is applied. */
  lemma DownUndoesUp(ms: seq<Migration>, k: nat, steps: int, broken: set<string>)
    requires Distinct(Versions(ms)) && k <= |ms|
    ensures var r := Reached(FirstK(ms, k), UpPlan(ms, FirstK(ms, k), steps), true, broken);
            Undone(ms, k, steps, broken) <==> if r == 0 then k == 0 else AllUndoable(ms, k, k + r)
  {
    var r := UndoneMeans(ms, k, steps, broken);
    if r == 0 {
      NothingUndone(ms, k);
    } else {
      if AllUndoable(ms, k, k + r) { UndoableIsUndone(ms, k, r); }
      if UndoneBy(ms, k, r) { UndoneIsUndoable(ms, k, r); }
    }
  }

  /** From every prefix, every run that gets a file through is undone. */
  ghost predicate AlwaysUndone(ms: seq<Migration>) {
    forall k: nat, steps: int, broken: set<string> ::
      k <= |ms| && Reached(FirstK(ms, k), UpPlan(ms, FirstK(ms, k), steps), true, broken) > 0 ==> Undone(ms, k, steps, broken)
  }

  /** That is so if and only if every migration with an up file is textually greater
      than all before it and has a down file. */
  lemma UndoneExactly(ms: seq<Migration>)
    requires Distinct(Versions(ms))
    ensures AlwaysUndone(ms) <==> forall i | 0 <= i < |ms| && ms[i].upPath != "" :: Undoable(ms, i)
  {
    if AlwaysUndone(ms) {
      forall i | 0 <= i < |ms| && ms[i].upPath != "" ensures Undoable(ms, i) {
        UpGoesThrough(ms, i, 1);
        DownUndoesUp(ms, i, 1, {});
      }
    }
    if forall i | 0 <= i < |ms| && ms[i].upPath != "" :: Undoable(ms, i) {
      forall k: nat, steps: int, broken: set<string> | k <= |ms|
             && Reached(FirstK(ms, k), UpPlan(ms, FirstK(ms, k), steps), true, broken) > 0
        ensures Undone(ms, k, steps, broken)
      {
        var r := UpRun(ms, k, steps, broken);
        DownUndoesUp(ms, k, steps, broken);
      }
    }
  }

  // ---------- the applied set stays a prefix ----------

  predicate IsPrefix(ms: seq<Migration>, applied: set<string>) { exists k: nat :: k <= |ms| && applied == FirstK(ms, k) }

  /** With the first k applied, the one rolled back first is the last, or cannot be. */
  predicate SafeAt(ms: seq<Migration>, k: nat) { forall j: nat | j < k && Greatest(ms, k, j) :: j == k - 1 || ms[j].downPath == "" }

  predicate SafeUpTo(ms: seq<Migration>, k: nat) { forall i: nat | 1 <= i <= k :: SafeAt(ms, i) }

  lemma {:induction false} SafeTops(ms: seq<Migration>, k: nat, plan: seq<Migration>, r: nat)
    requires Distinct(Versions(ms)) && k <= |ms| && SafeUpTo(ms, k) && |plan| <= k
    requires |DownOrder(FirstK(ms, k))| == k
    requires forall i | 0 <= i < |plan| :: plan[i] in ms && plan[i].version == DownOrder(FirstK(ms, k))[i]
    requires r <= |plan| && forall i | 0 <= i < r :: plan[i].downPath != ""
    ensures TopsAre(ms, k, r)
  {
    if r > 0 {
      SafeTops(ms, k, plan, r - 1);
      assert SafeAt(ms, k - r + 1);
      SafeNext(ms, k, plan[r - 1], r - 1);
    }
  }

  lemma SafeNext(ms: seq<Migration>, k: nat, m: Migration, r: nat)
    requires Distinct(Versions(ms)) && r < k <= |ms| && TopsAre(ms, k, r) && SafeAt(ms, k - r)
    requires m in ms && m.version == DownOrder(FirstK(ms, k))[r] && m.downPath != ""
    ensures TopsAre(ms, k, r + 1)
  {
    assert DownOrder(FirstK(ms, k))[r] == ms[k - 1 - r].version by {
      var j := NextTop(ms, k, r);
      SameMigration(ms, m, j);
    }
    TopsExtend(ms, k, r);
  }

  lemma DownRun(ms: seq<Migration>, k: nat, steps: int, broken: set<string>) returns (r: nat)
    requires Distinct(Versions(ms)) && k <= |ms| && SafeUpTo(ms, k)
    ensures r <= k && After(ms, FirstK(ms, k), Invocation(false, steps, broken)) == FirstK(ms, k - r)
  {
    var plan := DownPlanOf(ms, k, steps);
    r := Reached(FirstK(ms, k), plan, false, broken);
    ReachedMeans(FirstK(ms, k), plan, false, broken, 0);
    forall i | 0 <= i < r ensures plan[i].downPath != "" {
      assert Applies(Through(FirstK(ms, k), plan, false, i), plan[i], false, broken);
    }
    SafeTops(ms, k, plan, r);
    PlanIsTail(ms, k, plan, r);
    TailGone(ms, k, plan, r);
  }

  lemma StepKeepsPrefix(ms: seq<Migration>, k: nat, run: Invocation) returns (k': nat)
    requires Distinct(Versions(ms)) && k <= |ms| && SafeUpTo(ms, k)
    ensures k' <= |ms| && After(ms, FirstK(ms, k), run) == FirstK(ms, k')
    ensures HasUps(ms, 0, k) ==> HasUps(ms, 0, k')
  {
    if run.up {
      var r := UpRun(ms, k, run.steps, run.broken);
      k' := k + r;
    } else {
      var r := DownRun(ms, k, run.steps, run.broken);
      k' := k - r;
    }
  }

  /** In textual order every sequence of runs keeps a prefix, from any prefix. */
  lemma {:induction false} RunsKeepPrefix(ms: seq<Migration>, k: nat, runs: seq<Invocation>)
    requires Distinct(Versions(ms)) && Textual(ms) && k <= |ms|
    ensures IsPrefix(ms, AfterAll(ms, FirstK(ms, k), runs))
    decreases |runs|
  {
    if runs != [] {
      TextualIsSafe(ms, k);
      var k' := StepKeepsPrefix(ms, k, runs[0]);
      RunsKeepPrefix(ms, k', runs[1..]);
    }
  }

  lemma LastLeads(ms: seq<Migration>, i: nat)
    requires Textual(ms) && i < |ms|
    ensures Leads(ms, i)
  {
    var vs := Versions(ms);
    forall x | 0 <= x < i + 1 && x != i ensures Text.Less(ms[x].version, ms[i].version) { assert Text.Less(vs[x], vs[i]); }
  }

  lemma TextualIsSafe(ms: seq<Migration>, k: nat)
    requires Textual(ms) && k <= |ms|
    ensures SafeUpTo(ms, k)
  {
    forall i: nat, j: nat | 1 <= i <= k && Greatest(ms, i, j) ensures j == i - 1 {
      LastLeads(ms, i - 1);
      GreatestUnique(ms, i, i - 1, j);
    }
  }

  /** Wherever the up files allow the first k to be applied, rolling back is safe. */
  predicate Safe(ms: seq<Migration>) { forall k: nat | 1 <= k <= |ms| && HasUps(ms, 0, k) :: SafeAt(ms, k) }

  lemma {:induction false} SafeRuns(ms: seq<Migration>, k: nat, runs: seq<Invocation>)
    requires Distinct(Versions(ms)) && Safe(ms) && k <= |ms| && HasUps(ms, 0, k)
    ensures IsPrefix(ms, AfterAll(ms, FirstK(ms, k), runs))
    decreases |runs|
  {
    if runs != [] {
      assert SafeUpTo(ms, k) by { forall i: nat | 1 <= i <= k ensures SafeAt(ms, i) { assert HasUps(ms, 0, i); } }
      var k' := StepKeepsPrefix(ms, k, runs[0]);
      SafeRuns(ms, k', runs[1..]);
    }
  }

  ghost predicate AlwaysPrefix(ms: seq<Migration>) {
    forall runs: seq<Invocation> :: IsPrefix(ms, AfterAll(ms, {}, runs))
  }

  /** Every sequence of runs from an empty database, failing anywhere, leaves a prefix
      of the migrations applied if and only if, for every k whose first k migrations
      have up files, the textually greatest of these is the k-th or has no down file. */
  lemma PrefixExactly(ms: seq<Migration>)
    requires Distinct(Versions(ms))
    ensures AlwaysPrefix(ms) <==> Safe(ms)
  {
    assert FirstK(ms, 0) == {};
    if Safe(ms) {
      forall runs: seq<Invocation> ensures IsPrefix(ms, AfterAll(ms, {}, runs)) { SafeRuns(ms, 0, runs); }
    } else {
      var k: nat :| 1 <= k <= |ms| && HasUps(ms, 0, k) && !SafeAt(ms, k);
      var j: nat :| Greatest(ms, k, j) && !(j == k - 1 || ms[j].downPath == "");
      LeavesGap(ms, k, j);
    }
  }

  /** Applying k and rolling one back leaves a gap. */
  lemma LeavesGap(ms: seq<Migration>, k: nat, j: nat)
    requires Distinct(Versions(ms)) && 1 <= k <= |ms| && HasUps(ms, 0, k)
    requires Greatest(ms, k, j) && j < k - 1 && ms[j].downPath != ""
    ensures !AlwaysPrefix(ms)
  {
    var up, down := Invocation(true, k, {}), Invocation(false, 1, {});
    var runs := [up, down];
    TwoRuns(ms, {}, up, down);
    assert !IsPrefix(ms, AfterAll(ms, {}, runs)) by {
      assert FirstK(ms, 0) == {};
      UpGoesThrough(ms, 0, k);
      GapAfterDown(ms, k, j);
    }
  }

  lemma TwoRuns(ms: seq<Migration>, applied: set<string>, a: Invocation, b: Invocation)
    ensures AfterAll(ms, applied, [a, b]) == After(ms, After(ms, applied, a), b)
  {
    assert [a, b][1..] == [b] && [b][1..] == [];
    assert AfterAll(ms, After(ms, applied, a), [b]) == After(ms, After(ms, applied, a), b);
  }

  lemma GapAfterDown(ms: seq<Migration>, k: nat, j: nat)
    requires Distinct(Versions(ms)) && 1 <= k <= |ms| && Greatest(ms, k, j) && j < k - 1 && ms[j].downPath != ""
    ensures !IsPrefix(ms, After(ms, FirstK(ms, k), Invocation(false, 1, {})))
  {
    TakesGreatest(ms, k, j);
    var plan := [ms[j]];
    DownGoesThrough(FirstK(ms, k), plan);
    OneGone(FirstK(ms, k), plan);
    GapIsNoPrefix(ms, k - 1, j);
  }

  /** Rolling back one takes the textually greatest. */
  lemma TakesGreatest(ms: seq<Migration>, k: nat, j: nat)
    requires Distinct(Versions(ms)) && 1 <= k <= |ms| && Greatest(ms, k, j)
    ensures DownPlan(ms, FirstK(ms, k), 1) == Ok([ms[j]])
  {
    var plan := DownPlanOf(ms, k, 1);
    assert TopsAre(ms, k, 0);
    var top := NextTop(ms, k, 0);
    GreatestUnique(ms, k, j, top);
    SameMigration(ms, plan[0], j);
    assert plan == [ms[j]];
  }

  lemma OneGone(applied: set<string>, plan: seq<Migration>)
    requires |plan| == 1
    ensures Through(applied, plan, false, 1) == applied - {plan[0].version}
  {
    assert plan[..1] == plan && Versions(plan) == [plan[0].version];
  }

  lemma GapIsNoPrefix(ms: seq<Migration>, i: nat, j: nat)
    requires Distinct(Versions(ms)) && j < i < |ms|
    ensures !IsPrefix(ms, FirstK(ms, i + 1) - {ms[j].version})
  {
    var left := FirstK(ms, i + 1) - {ms[j].version};
    assert Versions(ms)[i] != Versions(ms)[j];
    FirstKMember(ms, i + 1, i);
    forall k: nat | k <= |ms| ensures left != FirstK(ms, k) {
      FirstKMember(ms, k, i);
      FirstKMember(ms, k, j);
      assert ms[i].version in left && ms[j].version !in left;
    }
  }

  // ---------- directories with every file present ----------

  predicate Complete(ms: seq<Migration>) { forall i | 0 <= i < |ms| :: ms[i].upPath != "" && ms[i].downPath != "" }

  lemma TextualMeansLeading(ms: seq<Migration>)
    ensures Textual(ms) <==> forall i: nat | i < |ms| :: Leads(ms, i)
  {
    var vs := Versions(ms);
    if forall i: nat | i < |ms| :: Leads(ms, i) {
      forall i, j | 0 <= i < j < |vs| ensures Text.Less(vs[i], vs[j]) { assert Leads(ms, j); }
    }
    if Textual(ms) {
      forall i: nat | i < |ms| ensures Leads(ms, i) { LastLeads(ms, i); }
    }
  }

  lemma UnsafeUnlessLeading(ms: seq<Migration>, i: nat)
    requires Distinct(Versions(ms)) && Complete(ms) && i < |ms| && !Leads(ms, i)
    ensures !Safe(ms)
  {
    OrderOf(ms, i + 1);
    assert TopsAre(ms, i + 1, 0);
    var j := NextTop(ms, i + 1, 0);
    assert HasUps(ms, 0, i + 1) && !SafeAt(ms, i + 1);
  }

  /** With every file present both properties hold if and only if the load order is
      the textual order. */
  lemma CompleteExactly(ms: seq<Migration>)
    requires Distinct(Versions(ms)) && Complete(ms)
    ensures AlwaysUndone(ms) <==> Textual(ms)
    ensures AlwaysPrefix(ms) <==> Textual(ms)
  {
    UndoneExactly(ms);
    PrefixExactly(ms);
    TextualMeansLeading(ms);
    if Textual(ms) {
      TextualIsSafe(ms, |ms|);
    } else {
      var i: nat :| i < |ms| && !Leads(ms, i);
      assert !Undoable(ms, i);
      UnsafeUnlessLeading(ms, i);
    }
  }

  // ---------- versions of unequal width ----------

  /** Versions 9 and 10 load in numeric order and roll back in the wrong one: with all
      files present both properties fail, and this says which files must be missing
      for either to hold. */
  lemma NineAndTen(files: seq<File>, ms: seq<Migration>)
    requires Loaded(files, ms) && Elems(Versions(ms)) == {"9", "10"}
    ensures Versions(ms) == ["9", "10"]
    ensures AlwaysPrefix(ms) <==> ms[0].upPath == "" || ms[1].upPath == "" || ms[0].downPath == ""
    ensures AlwaysUndone(ms) <==> ms[1].upPath == "" && (ms[0].upPath == "" || ms[0].downPath != "")
  {
    NineTenLoaded(ms);
    NineTenOrder();
    assert ms[0].version == Versions(ms)[0] && ms[1].version == Versions(ms)[1];
    assert Greatest(ms, 1, 0) && Greatest(ms, 2, 0) && !Greatest(ms, 2, 1);
    UndoneExactly(ms);
    PrefixExactly(ms);
    if ms[0].upPath != "" && ms[1].upPath != "" { assert HasUps(ms, 0, 2); }
    assert Undoable(ms, 0) <==> ms[0].downPath != "";
    assert !Undoable(ms, 1);
  }

  lemma NineTenLoaded(ms: seq<Migration>)
    requires Elems(Versions(ms)) == {"9", "10"} && (StrictOrder(LoadLess, {"9", "10"}) ==> Ascending(LoadLess, Versions(ms)))
    ensures Versions(ms) == ["9", "10"]
  {
    NineTenOrder();
    LoadPair("9", "10");
    var both := ["9", "10"];
    assert Elems(both) == {"9", "10"};
    ArrangementUnique(LoadLess, Versions(ms), both, {"9", "10"});
  }

  lemma NineTenOrder()
    ensures LoadLess("9", "10") && !LoadLess("10", "9") && !Text.Less("9", "10") && Text.Less("10", "9") && "9" != "10"
  {
    assert Text.Value("9") == 9 by { assert "9"[..0] == ""; }
    assert Text.Value("10") == 10 by { assert "10"[..1] == "1" && "1"[..0] == ""; }
  }

  lemma LoadPair(a: string, b: string)
    requires a != b && LoadLess(a, b) && !LoadLess(b, a)
    ensures StrictOrder(LoadLess, {a, b})
  {
    LoadIrreflexive(a);
    LoadIrreflexive(b);
  }
}
