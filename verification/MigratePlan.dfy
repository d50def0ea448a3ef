/** Planning a migration run and applying the plan. */
module MigratePlan {
  import opened Prelude
  import opened Ids
  import opened Sorting
  import opened Migrate
  import Text

  // ---------- the plans ----------

  function Pending(ms: seq<Migration>, applied: set<string>): seq<Migration> {
    if ms == [] then []
    else
      var last := ms[|ms| - 1];
      Pending(ms[..|ms| - 1], applied) + (if last.version in applied then [] else [last])
  }

  /** The first `steps` of xs; all of them if steps is zero or less. */
  function Capped(xs: seq<Migration>, steps: int): seq<Migration> { if 0 < steps < |xs| then xs[..steps] else xs }

  function UpPlan(ms: seq<Migration>, applied: set<string>, steps: int): seq<Migration> {
    Capped(Pending(ms, applied), steps)
  }

  ghost function Any(s: set<string>): (v: string)
    requires s != {}
    ensures v in s
  {
    var v :| v in s; v
  }

  /** The uncapped plan is exactly the migrations of the list whose version is not
      applied, in the order of the list, for every list and every applied set. */
  lemma {:induction false} PendingExactly(ms: seq<Migration>, applied: set<string>)
    ensures Picks(Pending(ms, applied), ms, (m: Migration) => m.version !in applied, (m: Migration) => m)
  {
    var keep, same := (m: Migration) => m.version !in applied, (m: Migration) => m;
    if ms == [] {
      PicksNothing(keep, same);
    } else {
      var front, last := ms[..|ms| - 1], ms[|ms| - 1];
      PendingExactly(front, applied);
      PicksSnoc(Pending(front, applied), front, keep, same, last);
      assert front + [last] == ms;
    }
  }

  /** The plan is the first `steps` of those; all of them if steps is not positive. */
  lemma UpPlanExactly(ms: seq<Migration>, applied: set<string>, steps: int)
    ensures exists all: seq<Migration> ::
              && Picks(all, ms, (m: Migration) => m.version !in applied, (m: Migration) => m)
              && |UpPlan(ms, applied, steps)| == (if 0 < steps < |all| then steps else |all|)
              && UpPlan(ms, applied, steps) <= all
  {
    PendingExactly(ms, applied);
  }

  /** The applied versions in the order they are rolled back. */
  ghost function DownOrder(applied: set<string>): seq<string> {
    if applied == {} then [] else Insert(DownLess, Any(applied), DownOrder(applied - {Any(applied)}))
  }

  lemma {:induction false} DownOrderArranges(applied: set<string>)
    ensures Arranges(DownLess, DownOrder(applied), applied)
  {
    if applied != {} {
      var v := Any(applied);
      var vs := DownOrder(applied - {v});
      DownOrderArranges(applied - {v});
      TextOrder(applied);
      assert v !in Elems(vs);
      InsertArranges(DownLess, v, vs, applied);
    }
  }

  function Find(ms: seq<Migration>, version: string): Option<Migration> {
    if ms == [] then None
    else if ms[|ms| - 1].version == version then Some(ms[|ms| - 1])
    else Find(ms[..|ms| - 1], version)
  }

  /** The migrations of these versions, or the first one without a file. */
  function Resolve(ms: seq<Migration>, vs: seq<string>): Result<seq<Migration>, string> {
    if vs == [] then Ok([])
    else
      match Resolve(ms, vs[..|vs| - 1])
      case Err(v) => Err(v)
      case Ok(plan) =>
        match Find(ms, vs[|vs| - 1])
        case None => Err(vs[|vs| - 1])
        case Some(m) => Ok(plan + [m])
  }

  function Wanted(steps: int, available: nat): (n: nat)
    ensures n <= available && (available > 0 ==> n > 0)
  {
    var wanted := if steps <= 0 then 1 else steps;
    if wanted < available then wanted else available
  }

  ghost function DownPlan(ms: seq<Migration>, applied: set<string>, steps: int): Result<seq<Migration>, string> {
    var vs := DownOrder(applied);
    Resolve(ms, vs[..Wanted(steps, |vs|)])
  }

  /** The file of a version is the last one of the list, and none is found only if there
      is none. */
  lemma {:induction false} FindExactly(ms: seq<Migration>, v: string)
    ensures Find(ms, v).None? <==> forall m | m in ms :: m.version != v
    ensures Find(ms, v).Some? ==>
              exists i :: 0 <= i < |ms| && ms[i] == Find(ms, v).value && ms[i].version == v
                          && forall j | i < j < |ms| :: ms[j].version != v
  {
    if ms != [] {
      var n := |ms| - 1;
      FindExactly(ms[..n], v);
      assert ms == ms[..n] + [ms[n]];
      if ms[n].version != v && Find(ms, v).Some? {
        var i :| 0 <= i < n && ms[..n][i] == Find(ms[..n], v).value && ms[..n][i].version == v
                 && forall j | i < j < n :: ms[..n][j].version != v;
        forall j | i < j < |ms| ensures ms[j].version != v { if j < n { assert ms[j] == ms[..n][j]; } }
        assert ms[i] == ms[..n][i];
      }
    }
  }

  lemma {:induction false} ResolveExactly(ms: seq<Migration>, vs: seq<string>)
    ensures Resolve(ms, vs).Ok? <==> forall i | 0 <= i < |vs| :: Find(ms, vs[i]).Some?
    ensures Resolve(ms, vs).Ok? ==>
              var plan := Resolve(ms, vs).value;
              |plan| == |vs| && forall i | 0 <= i < |vs| :: Find(ms, vs[i]) == Some(plan[i])
    ensures Resolve(ms, vs).Err? ==>
              exists i :: 0 <= i < |vs| && vs[i] == Resolve(ms, vs).error && Find(ms, vs[i]).None?
                          && forall j | 0 <= j < i :: Find(ms, vs[j]).Some?
  {
    if vs != [] {
      var n := |vs| - 1;
      ResolveExactly(ms, vs[..n]);
      assert forall i | 0 <= i < n :: vs[..n][i] == vs[i];
      if Resolve(ms, vs[..n]).Err? {
        var i :| 0 <= i < n && vs[..n][i] == Resolve(ms, vs[..n]).error && Find(ms, vs[..n][i]).None?
                 && forall j | 0 <= j < i :: Find(ms, vs[..n][j]).Some?;
        assert vs[i] == Resolve(ms, vs).error;
      }
    }
  }

  /** The down plan, for every list and applied set: `order` being the applied versions
      from the textually greatest down, the files of its first max(steps, 1) versions;
      or, if one of these has no file, the first such version. */
  lemma DownPlanExactly(ms: seq<Migration>, applied: set<string>, steps: int, order: seq<string>)
    requires Elems(order) == applied && forall i, j | 0 <= i < j < |order| :: Text.Less(order[j], order[i])
    ensures var n := if steps <= 1 then (if |order| == 0 then 0 else 1) else if steps < |order| then steps else |order|;
            DownPlan(ms, applied, steps) == Resolve(ms, order[..n])
  {
    TextOrder(applied);
    DownOrderArranges(applied);
    ArrangementUnique(DownLess, order, DownOrder(applied), applied);
  }

  method PendingUp(ms: seq<Migration>, applied: set<string>, steps: int) returns (plan: seq<Migration>)
    ensures plan == UpPlan(ms, applied, steps)
  {
    plan := [];
    for i := 0 to |ms|
      invariant plan == Pending(ms[..i], applied)
      invariant steps > 0 ==> |plan| < steps
    {
      assert ms[..i + 1][..i] == ms[..i];
      if ms[i].version !in applied {
        plan := plan + [ms[i]];
      }
      if steps > 0 && |plan| == steps {
        PendingPrefix(ms, applied, i + 1);
        return;
      }
    }
    assert ms[..|ms|] == ms;
  }

  lemma {:induction false} PendingPrefix(ms: seq<Migration>, applied: set<string>, i: nat)
    requires i <= |ms|
    ensures Pending(ms[..i], applied) <= Pending(ms, applied)
  {
    if i == |ms| {
      assert ms[..i] == ms;
    } else {
      PendingPrefix(ms[..|ms| - 1], applied, i);
      assert ms[..|ms| - 1][..i] == ms[..i];
    }
  }

  method IndexByVersion(ms: seq<Migration>) returns (byVersion: map<string, Migration>)
    ensures forall v :: Find(ms, v) == if v in byVersion then Some(byVersion[v]) else None
  {
    byVersion := map[];
    for i := 0 to |ms|
      invariant forall v :: Find(ms[..i], v) == if v in byVersion then Some(byVersion[v]) else None
    {
      assert ms[..i + 1][..i] == ms[..i];
      byVersion := byVersion[ms[i].version := ms[i]];
    }
    assert ms[..|ms|] == ms;
  }

  /** Visits the versions in order until `limit` are found or one has no file. */
  method TakeFiles(ms: seq<Migration>, byVersion: map<string, Migration>, vs: seq<string>, limit: int)
      returns (r: Result<seq<Migration>, string>)
    requires limit >= 1 && forall v :: Find(ms, v) == if v in byVersion then Some(byVersion[v]) else None
    ensures r == Resolve(ms, vs[..Wanted(limit, |vs|)])
  {
    ghost var n := Wanted(limit, |vs|);
    var plan: seq<Migration> := [];
    for i := 0 to |vs|
      invariant |plan| == i < limit && Resolve(ms, vs[..i]) == Ok(plan)
    {
      ghost var next := vs[..i + 1];
      assert next[..i] == vs[..i] && next[i] == vs[i];
      if vs[i] !in byVersion {
        assert vs[..n][..i + 1] == next;
        ResolveStops(ms, vs[..n], i + 1);
        return Err(vs[i]);
      }
      plan := plan + [byVersion[vs[i]]];
      if |plan| == limit {
        return Ok(plan);
      }
    }
    return Ok(plan);
  }

  method PendingDown(ms: seq<Migration>, applied: set<string>, steps: int) returns (r: Result<seq<Migration>, string>)
    ensures r == DownPlan(ms, applied, steps)
  {
    var limit := if steps <= 0 then 1 else steps;
    var byVersion := IndexByVersion(ms);
    var appliedOrdered := Descending(applied);
    r := TakeFiles(ms, byVersion, appliedOrdered, limit);
    TextOrder(applied);
    DownOrderArranges(applied);
    ArrangementUnique(DownLess, appliedOrdered, DownOrder(applied), applied);
  }

  lemma {:induction false} ResolveStops(ms: seq<Migration>, vs: seq<string>, i: nat)
    requires i <= |vs| && Resolve(ms, vs[..i]).Err?
    ensures Resolve(ms, vs) == Resolve(ms, vs[..i])
    decreases |vs|
  {
    if i == |vs| {
      assert vs[..i] == vs;
    } else {
      assert vs[..|vs| - 1][..i] == vs[..i];
      ResolveStops(ms, vs[..|vs| - 1], i);
    }
  }

  /** Collects the applied versions in the map's order and sorts them. */
  method Descending(applied: set<string>) returns (vs: seq<string>)
    ensures Arranges(DownLess, vs, applied)
  {
    var found := Enumerate(applied);
    TextOrder(applied);
    SortArranges(DownLess, found);
    vs := Sort(DownLess, found);
  }

  // ---------- running a plan ----------

  datatype RunError = NoFile(version: string) | Failed(version: string)

  function PathFor(m: Migration, up: bool): string { if up then m.upPath else m.downPath }

  /** The applied versions once the first k files of the plan are through. */
  function Through(applied: set<string>, plan: seq<Migration>, up: bool, k: nat): set<string>
    requires k <= |plan|
  {
    var versions := Elems(Versions(plan[..k]));
    if up then applied + versions else applied - versions
  }

  /** The version column of schema_migrations is a primary key. */
  predicate Applies(applied: set<string>, m: Migration, up: bool, broken: set<string>) {
    PathFor(m, up) != "" && m.version !in broken && (up ==> m.version !in applied)
  }

  /** The run stopped after k files of the plan: at its end, or at a file that fails. */
  predicate StoppedAt(before: set<string>, after: set<string>, plan: seq<Migration>, up: bool, broken: set<string>,
                      k: nat, err: Option<RunError>)
    requires k <= |plan|
  {
    && after == Through(before, plan, up, k)
    && (forall i | 0 <= i < k :: Applies(Through(before, plan, up, i), plan[i], up, broken))
    && (if k == |plan| then err == None
        else !Applies(after, plan[k], up, broken) && err == Some(Failed(plan[k].version)))
  }

  /** How many files of the plan get through, from the k-th on. */
  function ReachedFrom(before: set<string>, plan: seq<Migration>, up: bool, broken: set<string>, k: nat): (r: nat)
    requires k <= |plan|
    ensures k <= r <= |plan|
    decreases |plan| - k
  {
    if k < |plan| && Applies(Through(before, plan, up, k), plan[k], up, broken) then ReachedFrom(before, plan, up, broken, k + 1)
    else k
  }

  function Reached(before: set<string>, plan: seq<Migration>, up: bool, broken: set<string>): (r: nat)
    ensures r <= |plan|
  {
    ReachedFrom(before, plan, up, broken, 0)
  }

  lemma {:induction false} ReachedMeans(before: set<string>, plan: seq<Migration>, up: bool, broken: set<string>, k: nat)
    requires k <= |plan|
    ensures var r := ReachedFrom(before, plan, up, broken, k);
            && (forall i | k <= i < r :: Applies(Through(before, plan, up, i), plan[i], up, broken))
            && (r < |plan| ==> !Applies(Through(before, plan, up, r), plan[r], up, broken))
    decreases |plan| - k
  {
    if k < |plan| && Applies(Through(before, plan, up, k), plan[k], up, broken) {
      ReachedMeans(before, plan, up, broken, k + 1);
    }
  }

  /** The only place a run stops is the first file that fails. */
  lemma StopsWhereReached(before: set<string>, after: set<string>, plan: seq<Migration>, up: bool, broken: set<string>,
                          k: nat, err: Option<RunError>)
    requires k <= |plan|
    ensures StoppedAt(before, after, plan, up, broken, k, err) <==>
            && k == Reached(before, plan, up, broken)
            && after == Through(before, plan, up, k)
            && err == if k == |plan| then None else Some(Failed(plan[k].version))
  {
    ReachedMeans(before, plan, up, broken, 0);
    if StoppedAt(before, after, plan, up, broken, k, err) { FirstFailure(before, plan, up, broken, 0, k); }
  }

  lemma {:induction false} FirstFailure(before: set<string>, plan: seq<Migration>, up: bool, broken: set<string>,
                                        from: nat, k: nat)
    requires from <= k <= |plan|
    requires forall i | from <= i < k :: Applies(Through(before, plan, up, i), plan[i], up, broken)
    requires k < |plan| ==> !Applies(Through(before, plan, up, k), plan[k], up, broken)
    ensures ReachedFrom(before, plan, up, broken, from) == k
    decreases k - from
  {
    if from < k { FirstFailure(before, plan, up, broken, from + 1, k); }
  }

  ghost function Planned(ms: seq<Migration>, applied: set<string>, up: bool, steps: int): Result<seq<Migration>, string> {
    if up then Ok(UpPlan(ms, applied, steps)) else DownPlan(ms, applied, steps)
  }

  /** What the applied set holds once k files are through. */
  lemma ThroughExactly(applied: set<string>, plan: seq<Migration>, up: bool, k: nat, v: string)
    requires k <= |plan|
    ensures var touched := exists i :: 0 <= i < k && plan[i].version == v;
            v in Through(applied, plan, up, k) <==> if up then v in applied || touched else v in applied && !touched
  {
    var done := Versions(plan[..k]);
    assert forall i | 0 <= i < k :: done[i] == plan[i].version;
  }

  lemma ThroughNext(applied: set<string>, plan: seq<Migration>, up: bool, k: nat)
    requires k < |plan|
    ensures Through(applied, plan, up, k + 1)
         == if up then Through(applied, plan, up, k) + {plan[k].version} else Through(applied, plan, up, k) - {plan[k].version}
  {
    var now, next := Versions(plan[..k]), Versions(plan[..k + 1]);
    assert next == now + [plan[k].version];
  }

  class Database {
    var versions: set<string>

    constructor ()
      ensures versions == {}
    {
      versions := {};
    }

    /** One transaction: the file and its bookkeeping, or neither. */
    method ApplyOne(m: Migration, up: bool, broken: set<string>) returns (ok: bool)
      modifies this
      ensures ok <==> Applies(old(versions), m, up, broken)
      ensures !ok ==> versions == old(versions)
      ensures ok ==> versions == if up then old(versions) + {m.version} else old(versions) - {m.version}
    {
      if PathFor(m, up) == "" || m.version in broken {
        return false;
      }
      if up {
        if m.version in versions {
          return false;
        }
        versions := versions + {m.version};
      } else {
        versions := versions - {m.version};
      }
      return true;
    }

    method Run(ms: seq<Migration>, up: bool, steps: int, broken: set<string>) returns (err: Option<RunError>)
      modifies this
      ensures match Planned(ms, old(versions), up, steps)
              case Err(v) => err == Some(NoFile(v)) && versions == old(versions)
              case Ok(plan) => exists k: nat | k <= |plan| :: StoppedAt(old(versions), versions, plan, up, broken, k, err)
    {
      var plan: seq<Migration>;
      if up {
        plan := PendingUp(ms, versions, steps);
      } else {
        var r := PendingDown(ms, versions, steps);
        if r.Err? {
          return Some(NoFile(r.error));
        }
        plan := r.value;
      }
      for k := 0 to |plan|
        invariant versions == Through(old(versions), plan, up, k)
        invariant forall i | 0 <= i < k :: Applies(Through(old(versions), plan, up, i), plan[i], up, broken)
      {
        var ok := ApplyOne(plan[k], up, broken);
        if !ok {
          err := Some(Failed(plan[k].version));
          assert StoppedAt(old(versions), versions, plan, up, broken, k, err);
          return;
        }
        ThroughNext(old(versions), plan, up, k);
      }
      err := None;
      assert StoppedAt(old(versions), versions, plan, up, broken, |plan|, err);
    }
  }
}
