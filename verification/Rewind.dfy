/** Re-delivery: replaying an already delivered suffix, on both projections, and
    when the two projections hold the same rows. */
module Rewind {
  import opened Prelude
  import opened Events
  import opened Projections

  // ---------- the memory projection absorbs any replay ----------

  /** What a whole sequence of actions amounts to. */
  datatype Effect = Overwrite(row: Row) | Patch(email: Option<string>, inactive: bool)

  function Then(f: Effect, a: Action): Effect {
    match a
    case Create(row) => Overwrite(row)
    case SetEmail(email) =>
      if f.Overwrite? then Overwrite(f.row.(email := email)) else f.(email := Some(email))
    case Deactivate =>
      if f.Overwrite? then Overwrite(f.row.(status := INACTIVE)) else f.(inactive := true)
    case Nothing => f
  }

  function EffectOf(actions: seq<Action>): Effect
    decreases |actions|
  {
    if actions == [] then Patch(None, false) else Then(EffectOf(actions[..|actions| - 1]), actions[|actions| - 1])
  }

  function Patched(r: Row, email: Option<string>, inactive: bool): Row {
    var r1 := if email.Some? then r.(email := email.value) else r;
    if inactive then r1.(status := INACTIVE) else r1
  }

  function Take(o: Option<Row>, f: Effect): Option<Row> {
    match f
    case Overwrite(row) => Some(row)
    case Patch(email, inactive) => if o.Some? then Some(Patched(o.value, email, inactive)) else None
  }

  lemma {:induction false} ActionsAreTheirEffect(o: Option<Row>, actions: seq<Action>)
    ensures ActAll(o, actions) == Take(o, EffectOf(actions))
    decreases |actions|
  {
    if actions != [] { ActionsAreTheirEffect(o, actions[..|actions| - 1]); }
  }

  /** Delivering the same events again, in order, changes nothing: from any rows,
      hence after any earlier deliveries. */
  lemma MemoryRewind(rows: Rows, es: seq<Event>)
    ensures Replay(Replay(rows, es), es) == Replay(rows, es)
  {
    var once := Replay(rows, es);
    forall id ensures Lookup(Replay(once, es), id) == Lookup(once, id) {
      ReplayRow(rows, es, id);
      ReplayRow(once, es, id);
      ActionsAreTheirEffect(Lookup(rows, id), ActionsOn(es, id));
      ActionsAreTheirEffect(Lookup(once, id), ActionsOn(es, id));
    }
    SameRows(Replay(once, es), once);
  }

  /** An offset rewind: any suffix of what was delivered may be delivered again. */
  lemma MemorySuffixRewind(rows: Rows, es: seq<Event>, k: nat)
    requires k <= |es|
    ensures Replay(Replay(rows, es), es[k..]) == Replay(rows, es)
  {
    assert es == es[..k] + es[k..];
    ReplayConcat(rows, es[..k], es[k..]);
    MemoryRewind(Replay(rows, es[..k]), es[k..]);
  }

  // ---------- the SQL projection absorbs it except in one case ----------

  /** Effect on a missing row, and on an existing one. */
  datatype SqlEffect = SqlEffect(inserted: Option<Row>, name: Option<string>, email: Option<string>, inactive: bool)

  function SqlThen(f: SqlEffect, a: Action): SqlEffect {
    match a
    case Create(row) => SqlEffect(SqlAct(f.inserted, a), Some(row.name), Some(row.email), f.inactive)
    case SetEmail(email) => f.(inserted := SqlAct(f.inserted, a), email := Some(email))
    case Deactivate => f.(inserted := SqlAct(f.inserted, a), inactive := true)
    case Nothing => f
  }

  function SqlEffectOf(actions: seq<Action>): SqlEffect
    decreases |actions|
  {
    if actions == [] then SqlEffect(None, None, None, false)
    else SqlThen(SqlEffectOf(actions[..|actions| - 1]), actions[|actions| - 1])
  }

  function SqlPatched(r: Row, f: SqlEffect): Row {
    var r1 := if f.name.Some? then r.(name := f.name.value) else r;
    Patched(r1, f.email, f.inactive)
  }

  function SqlTake(o: Option<Row>, f: SqlEffect): Option<Row> {
    if o.Some? then Some(SqlPatched(o.value, f)) else f.inserted
  }

  lemma {:induction false} SqlActionsAreTheirEffect(o: Option<Row>, actions: seq<Action>)
    ensures SqlActAll(o, actions) == SqlTake(o, SqlEffectOf(actions))
    decreases |actions|
  {
    if actions != [] { SqlActionsAreTheirEffect(o, actions[..|actions| - 1]); }
  }

  /** A customer is created and deactivated, but never deactivated after a creation. */
  predicate Revived(actions: seq<Action>) {
    && (exists i :: 0 <= i < |actions| && actions[i].Create?)
    && (exists i :: 0 <= i < |actions| && actions[i].Deactivate?)
    && (forall i, j | 0 <= i < j < |actions| :: !(actions[i].Create? && actions[j].Deactivate?))
  }

  predicate SomeCreate(actions: seq<Action>) { exists i :: 0 <= i < |actions| && actions[i].Create? }

  predicate SomeDeactivate(actions: seq<Action>) { exists i :: 0 <= i < |actions| && actions[i].Deactivate? }

  predicate DeactivatedLater(actions: seq<Action>) {
    exists i, j :: 0 <= i < j < |actions| && actions[i].Create? && actions[j].Deactivate?
  }

  lemma LastAction(actions: seq<Action>)
    requires actions != []
    ensures var front, a := actions[..|actions| - 1], actions[|actions| - 1];
            && (SomeCreate(actions) <==> SomeCreate(front) || a.Create?)
            && (SomeDeactivate(actions) <==> SomeDeactivate(front) || a.Deactivate?)
            && (DeactivatedLater(actions) <==> DeactivatedLater(front) || (SomeCreate(front) && a.Deactivate?))
  {
    var front, n := actions[..|actions| - 1], |actions| - 1;
    assert forall i | 0 <= i < n :: front[i] == actions[i];
    if SomeCreate(front) {
      var i :| 0 <= i < n && front[i].Create?;
      assert actions[i].Create?;
    }
    if SomeDeactivate(front) {
      var i :| 0 <= i < n && front[i].Deactivate?;
      assert actions[i].Deactivate?;
    }
    if DeactivatedLater(front) {
      var i, j :| 0 <= i < j < n && front[i].Create? && front[j].Deactivate?;
      assert actions[i].Create? && actions[j].Deactivate?;
    }
    if DeactivatedLater(actions) {
      var i, j :| 0 <= i < j < |actions| && actions[i].Create? && actions[j].Deactivate?;
      if j < n { assert front[i].Create? && front[j].Deactivate?; } else { assert front[i].Create?; }
    }
    if SomeCreate(front) && actions[n].Deactivate? {
      var i :| 0 <= i < n && front[i].Create?;
      assert actions[i].Create?;
    }
  }

  /** What the effect says about the actions it came from. */
  lemma {:induction false} SqlEffectMeaning(actions: seq<Action>)
    requires forall i | 0 <= i < |actions| :: actions[i].Create? ==> actions[i].row.status == ACTIVE
    ensures var f := SqlEffectOf(actions);
            && (f.inserted.Some? <==> SomeCreate(actions))
            && (f.inactive <==> SomeDeactivate(actions))
            && (f.inserted.Some? ==>
                  && f.name == Some(f.inserted.value.name) && f.email == Some(f.inserted.value.email)
                  && f.inserted.value.status == (if DeactivatedLater(actions) then INACTIVE else ACTIVE))
    decreases |actions|
  {
    if actions != [] {
      SqlEffectMeaning(actions[..|actions| - 1]);
      LastAction(actions);
    }
  }

  lemma {:induction false} CreatesActive(es: seq<Event>, id: string)
    ensures forall i | 0 <= i < |ActionsOn(es, id)| ::
              ActionsOn(es, id)[i].Create? ==> ActionsOn(es, id)[i].row.status == ACTIVE
    decreases |es|
  {
    if es != [] { CreatesActive(es[..|es| - 1], id); }
  }

  lemma SqlRowRewind(o: Option<Row>, actions: seq<Action>)
    requires forall i | 0 <= i < |actions| :: actions[i].Create? ==> actions[i].row.status == ACTIVE
    ensures SqlActAll(SqlActAll(o, actions), actions) == SqlActAll(o, actions)
            <==> !(o.None? && Revived(actions))
  {
    SqlActionsAreTheirEffect(o, actions);
    SqlActionsAreTheirEffect(SqlActAll(o, actions), actions);
    SqlEffectMeaning(actions);
    assert Revived(actions) <==> SomeCreate(actions) && SomeDeactivate(actions) && !DeactivatedLater(actions);
    assert ACTIVE != INACTIVE by { assert ACTIVE[0] != INACTIVE[0]; }
  }

  /** Delivering the same events again leaves the table alone if and only if no
      customer absent from it is revived by them. */
  lemma SqlRewindExactly(rows: Rows, es: seq<Event>)
    ensures SqlReplay(SqlReplay(rows, es), es) == SqlReplay(rows, es)
            <==> forall id :: id in rows || !Revived(ActionsOn(es, id))
  {
    var once := SqlReplay(rows, es);
    var twice := SqlReplay(once, es);
    forall id ensures Lookup(twice, id) == Lookup(once, id) <==> (id in rows || !Revived(ActionsOn(es, id))) {
      ReplayRow(rows, es, id);
      ReplayRow(once, es, id);
      CreatesActive(es, id);
      SqlRowRewind(Lookup(rows, id), ActionsOn(es, id));
    }
    if forall id :: id in rows || !Revived(ActionsOn(es, id)) {
      SameRows(twice, once);
    }
  }

  /** The exception: deactivated, then created, delivered twice to a table without
      the customer. The first pass leaves the row active, the second inactive. */
  lemma SqlRewindFails(deactivated: Event, created: Event, id: string)
    requires ActionOf(deactivated) == Deactivate && About(deactivated) == Some(id)
    requires ActionOf(created).Create? && About(created) == Some(id)
    ensures var es := [deactivated, created];
            && Lookup(SqlReplay(map[], es), id) == Some(ActionOf(created).row)
            && Lookup(SqlReplay(SqlReplay(map[], es), es), id) == Some(ActionOf(created).row.(status := INACTIVE))
            && SqlReplay(SqlReplay(map[], es), es) != SqlReplay(map[], es)
  {
    var es := [deactivated, created];
    var row := ActionOf(created).row;
    assert row.status == ACTIVE && ACTIVE[0] != INACTIVE[0];
    SqlTwo(map[], deactivated, created, id);
    SqlTwo(SqlReplay(map[], es), deactivated, created, id);
  }

  /** Such a delivery, for any customer. */
  lemma SqlRewindCanFail(id: string, name: string, email: string, at: int)
    ensures var es := [Event("2", CUSTOMER_DEACTIVATED, "customer", id, at, 1, DeactivatedV1(id, "")),
                       Event("1", CUSTOMER_CREATED, "customer", id, at, 1, CreatedV1(id, name, email))];
            SqlReplay(SqlReplay(map[], es), es) != SqlReplay(map[], es)
  {
    NamesDiffer();
    SqlRewindFails(Event("2", CUSTOMER_DEACTIVATED, "customer", id, at, 1, DeactivatedV1(id, "")),
                   Event("1", CUSTOMER_CREATED, "customer", id, at, 1, CreatedV1(id, name, email)), id);
  }

  lemma SqlTwo(rows: Rows, a: Event, b: Event, id: string)
    requires About(a) == About(b) == Some(id)
    ensures Lookup(SqlReplay(rows, [a, b]), id) == SqlAct(SqlAct(Lookup(rows, id), ActionOf(a)), ActionOf(b))
  {
    var es := [a, b];
    assert es[..1] == [a] && [a][..0] == [];
    assert SqlReplay(rows, [a]) == SqlProject(rows, a);
    ProjectRow(rows, a, id);
    ProjectRow(SqlProject(rows, a), b, id);
  }

  /** Each customer's created event comes before its other events. */
  ghost predicate CreatedFirst(es: seq<Event>) {
    forall id :: CreateLeads(ActionsOn(es, id))
  }

  predicate CreateLeads(actions: seq<Action>) {
    SomeCreate(actions) ==> |actions| > 0 && actions[0].Create?
  }

  lemma {:induction false} ActionsConcat(a: seq<Event>, b: seq<Event>, id: string)
    ensures ActionsOn(a + b, id) == ActionsOn(a, id) + ActionsOn(b, id)
    decreases |b|
  {
    if b == [] {
      assert a + b == a;
    } else {
      ActionsConcat(a, b[..|b| - 1], id);
      assert (a + b)[..|a + b| - 1] == a + b[..|b| - 1];
    }
  }

  /** Then a SQL offset rewind, to any suffix, changes nothing. */
  lemma SqlSuffixRewind(es: seq<Event>, k: nat)
    requires k <= |es| && CreatedFirst(es)
    ensures SqlReplay(SqlReplay(map[], es), es[k..]) == SqlReplay(map[], es)
  {
    var a, b := es[..k], es[k..];
    assert es == a + b;
    ReplayConcat(map[], a, b);
    var rows := SqlReplay(map[], a);
    forall id ensures id in rows || !Revived(ActionsOn(b, id)) {
      SuffixNotRevived(a, b, id);
    }
    SqlRewindExactly(rows, b);
  }

  lemma SuffixNotRevived(a: seq<Event>, b: seq<Event>, id: string)
    requires CreatedFirst(a + b)
    ensures id in SqlReplay(map[], a) || !Revived(ActionsOn(b, id))
  {
    ActionsConcat(a, b, id);
    RowPresent(a, id);
    assert CreateLeads(ActionsOn(a + b, id));
    LeadingCreate(ActionsOn(a, id), ActionsOn(b, id));
  }

  lemma RowPresent(es: seq<Event>, id: string)
    ensures id in SqlReplay(map[], es) <==> SomeCreate(ActionsOn(es, id))
  {
    ReplayRow(map[], es, id);
    SqlActionsAreTheirEffect(None, ActionsOn(es, id));
    CreatesActive(es, id);
    SqlEffectMeaning(ActionsOn(es, id));
  }

  lemma LeadingCreate(xs: seq<Action>, ys: seq<Action>)
    requires CreateLeads(xs + ys)
    ensures SomeCreate(xs) || !Revived(ys)
  {
    var all := xs + ys;
    if SomeCreate(ys) {
      var i :| 0 <= i < |ys| && ys[i].Create?;
      assert all[|xs| + i].Create?;
      if xs != [] {
        assert xs[0] == all[0];
      } else {
        assert ys[0] == all[0];
      }
    }
  }

  // ---------- when the two projections agree ----------

  /** A created event that finds a row the two projections treat differently. */
  predicate Clashes(rows: Rows, e: Event) {
    && ActionOf(e).Create? && IdOf(e.payload) in rows
    && (rows[IdOf(e.payload)].status != ACTIVE || rows[IdOf(e.payload)].createdAt != e.occurredAt)
  }

  lemma AgreeStep(rows: Rows, e: Event)
    requires Keyed(rows)
    ensures Project(rows, e) == SqlProject(rows, e) <==> !Clashes(rows, e)
    ensures Keyed(Project(rows, e))
  {
    if ActionOf(e).Create? {
      var id := IdOf(e.payload);
      assert Project(rows, e)[id] == ActionOf(e).row;
      if id in rows {
        assert SqlProject(rows, e)[id] == rows[id].(name := ActionOf(e).row.name, email := ActionOf(e).row.email);
        if !Clashes(rows, e) { assert Project(rows, e)[id] == SqlProject(rows, e)[id]; }
      }
    }
  }

  /** Same rows after every prefix. */
  predicate AgreeThroughout(es: seq<Event>) {
    OnPrefixes((xs: seq<Event>) => Replay(map[], xs) == SqlReplay(map[], xs), es)
  }

  predicate ClashFree(es: seq<Event>) {
    forall k | 0 <= k < |es| :: !Clashes(Replay(map[], es[..k]), es[k])
  }

  lemma AgreeThroughoutLast(es: seq<Event>)
    requires es != []
    ensures AgreeThroughout(es) <==> AgreeThroughout(es[..|es| - 1]) && Replay(map[], es) == SqlReplay(map[], es)
  {
    PrefixesLast((xs: seq<Event>) => Replay(map[], xs) == SqlReplay(map[], xs), es);
  }

  predicate OnPrefixes(p: seq<Event> -> bool, es: seq<Event>) { forall k | 0 <= k <= |es| :: p(es[..k]) }

  lemma PrefixesLast(p: seq<Event> -> bool, es: seq<Event>)
    requires es != []
    ensures OnPrefixes(p, es) <==> OnPrefixes(p, es[..|es| - 1]) && p(es)
  {
    var front := es[..|es| - 1];
    assert forall k | 0 <= k <= |front| :: front[..k] == es[..k];
    assert es[..|es|] == es;
  }

  lemma ClashFreeLast(es: seq<Event>)
    requires es != []
    ensures ClashFree(es) <==>
            ClashFree(es[..|es| - 1]) && !Clashes(Replay(map[], es[..|es| - 1]), es[|es| - 1])
  {
    var front := es[..|es| - 1];
    assert forall k | 0 <= k < |front| :: front[..k] == es[..k] && front[k] == es[k];
  }

  /** The projections hold the same rows after every prefix of a delivery sequence
      if and only if no delivered created event clashes. */
  lemma {:induction false} AgreeExactly(es: seq<Event>)
    ensures Keyed(Replay(map[], es))
    ensures AgreeThroughout(es) <==> ClashFree(es)
    decreases |es|
  {
    if es != [] {
      var front := es[..|es| - 1];
      AgreeExactly(front);
      AgreeStep(Replay(map[], front), es[|es| - 1]);
      AgreeThroughoutLast(es);
      ClashFreeLast(es);
      assert AgreeThroughout(front) ==> Replay(map[], front) == SqlReplay(map[], front) by {
        assert front[..|front|] == front;
      }
    }
  }

  /** Repeated created events of a customer are the same event, and none follows a
      deactivation that found its row. */
  predicate Orderly(es: seq<Event>) {
    && (forall i, k | 0 <= i < k < |es| && ActionOf(es[i]).Create? && ActionOf(es[k]).Create?
                      && About(es[i]) == About(es[k]) :: es[i] == es[k])
    && (forall j, k | 0 <= j < k < |es| && ActionOf(es[j]).Deactivate? && ActionOf(es[k]).Create?
                      && About(es[j]) == About(es[k]) :: IdOf(es[j].payload) !in Replay(map[], es[..j]))
  }

  /** Where a row came from. */
  lemma {:induction false} RowHistory(es: seq<Event>, id: string)
    requires id in Replay(map[], es)
    ensures exists i :: 0 <= i < |es| && ActionOf(es[i]).Create? && About(es[i]) == Some(id)
                        && Replay(map[], es)[id].createdAt == es[i].occurredAt
    ensures Replay(map[], es)[id].status == ACTIVE ||
            exists j :: 0 <= j < |es| && ActionOf(es[j]).Deactivate? && About(es[j]) == Some(id)
                        && id in Replay(map[], es[..j])
    decreases |es|
  {
    var n := |es| - 1;
    var front, e := es[..n], es[n];
    ProjectRow(Replay(map[], front), e, id);
    if About(e) == Some(id) && ActionOf(e).Create? {
      assert Replay(map[], es)[id] == ActionOf(e).row;
    } else {
      RowHistory(front, id);
      var i :| 0 <= i < n && ActionOf(front[i]).Create? && About(front[i]) == Some(id)
               && Replay(map[], front)[id].createdAt == front[i].occurredAt;
      assert es[i] == front[i];
      if Replay(map[], front)[id].status != ACTIVE {
        var j :| 0 <= j < n && ActionOf(front[j]).Deactivate? && About(front[j]) == Some(id)
                 && id in Replay(map[], front[..j]);
        assert es[j] == front[j] && es[..j] == front[..j];
      } else if About(e) == Some(id) && ActionOf(e).Deactivate? {
        assert es[..n] == front;
      }
    }
  }

  /** So both projections hold the same rows after every orderly delivery. */
  lemma ProjectionsAgree(es: seq<Event>)
    requires Orderly(es)
    ensures Replay(map[], es) == SqlReplay(map[], es)
  {
    forall k | 0 <= k < |es| ensures !Clashes(Replay(map[], es[..k]), es[k]) {
      NoClash(es, k);
    }
    AgreeExactly(es);
    assert ClashFree(es) && es[..|es|] == es;
  }

  lemma NoClash(es: seq<Event>, k: nat)
    requires Orderly(es) && k < |es|
    ensures !Clashes(Replay(map[], es[..k]), es[k])
  {
    var front, e := es[..k], es[k];
    if ActionOf(e).Create? && IdOf(e.payload) in Replay(map[], front) {
      var id := IdOf(e.payload);
      RowHistory(front, id);
      var i :| 0 <= i < k && ActionOf(front[i]).Create? && About(front[i]) == Some(id)
               && Replay(map[], front)[id].createdAt == front[i].occurredAt;
      assert es[i] == front[i] && es[i] == es[k];
      assert forall j | 0 <= j < k :: front[j] == es[j] && front[..j] == es[..j];
    }
  }
}
