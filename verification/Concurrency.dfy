/** Optimistic concurrency: commands load a row, change it and save it, in any
    interleaving. The strict guard of the SQL repository loses no update; the
    in-memory guard differs exactly at equal versions. */
module Concurrency {
  import opened Prelude
  import opened Email
  import opened Customer
  import opened Repository

  type Table = map<string, Snapshot>

  datatype SaveError = StaleVersion | EmailTaken

  /** The unique index on email admits this row. */
  predicate EmailFree(t: Table, snap: Snapshot) {
    forall id | id in t && id != snap.id :: t[id].email != snap.email
  }

  /** INSERT ... ON CONFLICT (id) DO UPDATE ... WHERE customers.version < EXCLUDED.version */
  function SqlSaved(t: Table, snap: Snapshot): Result<Table, SaveError> {
    if snap.id !in t then (if EmailFree(t, snap) then Ok(t[snap.id := snap]) else Err(EmailTaken))
    else if t[snap.id].version >= snap.version then Err(StaleVersion)
    else if !EmailFree(t, snap) then Err(EmailTaken)
    else
      var row := t[snap.id];
      Ok(t[snap.id := row.(name := snap.name, email := snap.email, status := snap.status, version := snap.version)])
  }

  /** Exactly what is accepted and what is then stored: a new row as it is; a stored row
      of an older version with the new name, email, status and version, and the old
      creation time; in either case only under an address no other row has. */
  lemma SqlSaveExactly(t: Table, snap: Snapshot)
    ensures SqlSaved(t, snap).Ok? <==>
            (snap.id in t ==> t[snap.id].version < snap.version) && forall id | id in t && id != snap.id :: t[id].email != snap.email
    ensures SqlSaved(t, snap).Ok? ==>
              var t' := SqlSaved(t, snap).value;
              && t'.Keys == t.Keys + {snap.id} && (forall id | id in t && id != snap.id :: t'[id] == t[id])
              && (snap.id !in t ==> t'[snap.id] == snap)
              && (snap.id in t ==> t'[snap.id] == Snapshot(t[snap.id].id, snap.name, snap.email, snap.status,
                                                           t[snap.id].createdAt, snap.version))
    ensures SqlSaved(t, snap) == Err(StaleVersion) <==> snap.id in t && t[snap.id].version >= snap.version
  {
  }

  class PostgresRepository {
    var customers: Table

    constructor ()
      ensures customers == map[]
    {
      customers := map[];
    }

    /** An upsert that touches no row is reported as a conflict. */
    method Save(c: State) returns (err: Option<SaveError>)
      modifies this
      ensures match SqlSaved(old(customers), ToSnapshot(c))
              case Ok(t) => err == None && customers == t
              case Err(e) => err == Some(e) && customers == old(customers)
    {
      var s := ToSnapshot(c);
      var rowsAffected := 0;
      if s.id !in customers {
        if !EmailFree(customers, s) {
          return Some(EmailTaken);
        }
        customers := customers[s.id := s];
        rowsAffected := 1;
      } else if customers[s.id].version < s.version {
        if !EmailFree(customers, s) {
          return Some(EmailTaken);
        }
        var row := customers[s.id];
        customers := customers[s.id := row.(name := s.name, email := s.email, status := s.status, version := s.version)];
        rowsAffected := 1;
      }
      if rowsAffected == 0 {
        return Some(StaleVersion);
      }
      return None;
    }
  }

  // ---------- commands as load and save steps ----------

  datatype Change = ToEmail(address: string, at: int) | Disable(reason: string, at: int)

  function ChangedState(c: State, ch: Change): State {
    match ch
    case ToEmail(address, at) => (match WithEmail(c, address, at) case Ok(c') => c' case Err(_) => c)
    case Disable(reason, at) => WithDeactivation(c, reason, at)
  }

  /** The snapshot a command would save, if its change takes effect. */
  function ChangedRow(snap: Snapshot, ch: Change): Option<Snapshot> {
    match FromSnapshot(snap)
    case Err(_) => None
    case Ok(c) =>
      var c' := ChangedState(c, ch);
      if c'.version == c.version then None else Some(ToSnapshot(c'))
  }

  /** `after` is `before` with one change made: same identity, next version. */
  predicate NextVersion(before: Snapshot, after: Snapshot) {
    after.id == before.id && after.version == before.version + 1 && after.createdAt == before.createdAt
  }

  /** An effective change bumps the version by one and keeps the identity. */
  lemma ChangeBumpsOnce(snap: Snapshot, ch: Change)
    requires ChangedRow(snap, ch).Some?
    ensures NextVersion(snap, ChangedRow(snap, ch).value)
  {
    ReloadKeeps(snap);
    var c := FromSnapshot(snap).value;
    StateBumps(c, ch);
  }

  lemma ReloadKeeps(snap: Snapshot)
    requires FromSnapshot(snap).Ok?
    ensures var c := FromSnapshot(snap).value;
            c.id == snap.id && c.version == snap.version && c.createdAt == snap.createdAt
  {
  }

  lemma StateBumps(c: State, ch: Change)
    ensures var c' := ChangedState(c, ch);
            c' == c || (c'.id == c.id && c'.version == c.version + 1 && c'.createdAt == c.createdAt)
  {
  }

  datatype Guard = Strict | Lax

  /** An accepted save: a new customer, or a change to a stored one. */
  datatype Entry = Inserted(row: Snapshot) | Made(id: string, change: Change)

  /** What each client loaded and has not saved yet; and the accepted saves, in order. */
  datatype Sys = Sys(table: Table, held: map<nat, Snapshot>, accepted: seq<Entry>)

  datatype Step = Register(row: Snapshot) | Load(client: nat, id: string) | Save(client: nat, change: Change)

  function SavedBy(g: Guard, t: Table, snap: Snapshot): Result<Table, SaveError> {
    match g
    case Strict => SqlSaved(t, snap)
    case Lax => if snap.id in t && t[snap.id].version > snap.version then Err(StaleVersion) else Ok(t[snap.id := snap])
  }

  /** The lax guard is the in-memory repository's. */
  lemma LaxIsMemory(r: Repo, snap: Snapshot)
    ensures SavedBy(Lax, r.byId, snap).Ok? <==> Saved(r, snap).Ok?
    ensures Saved(r, snap).Ok? ==> SavedBy(Lax, r.byId, snap).value == Saved(r, snap).value.byId
  {
  }

  /** A new customer's id is fresh; a save follows a load and an effective change. */
  predicate Enabled(s: Sys, step: Step) {
    match step
    case Register(row) => row.id !in s.table
    case Load(_, id) => id in s.table
    case Save(client, ch) => client in s.held && ChangedRow(s.held[client], ch).Some?
  }

  function Stored(g: Guard, s: Sys, row: Snapshot, entry: Entry): Sys {
    match SavedBy(g, s.table, row)
    case Ok(t) => s.(table := t, accepted := s.accepted + [entry])
    case Err(_) => s
  }

  function Apply(g: Guard, s: Sys, step: Step): Sys
    requires Enabled(s, step)
  {
    match step
    case Register(row) => Stored(g, s, row, Inserted(row))
    case Load(client, id) => s.(held := s.held[client := s.table[id]])
    case Save(client, ch) =>
      var row := ChangedRow(s.held[client], ch).value;
      Stored(g, s.(held := s.held - {client}), row, Made(row.id, ch))
  }

  predicate IsRun(g: Guard, s: Sys, steps: seq<Step>)
    decreases |steps|
  {
    steps == [] || (Enabled(s, steps[0]) && IsRun(g, Apply(g, s, steps[0]), steps[1..]))
  }

  function Final(g: Guard, s: Sys, steps: seq<Step>): Sys
    requires IsRun(g, s, steps)
    decreases |steps|
  {
    if steps == [] then s else Final(g, Apply(g, s, steps[0]), steps[1..])
  }

  /** One accepted save, made on the table as it then is. */
  function Redone(t: Table, entry: Entry): Table {
    match entry
    case Inserted(row) => t[row.id := row]
    case Made(id, ch) => if id in t && ChangedRow(t[id], ch).Some? then t[id := ChangedRow(t[id], ch).value] else t
  }

  /** The accepted saves run one after the other. */
  function Serial(t: Table, log: seq<Entry>): Table
    decreases |log|
  {
    if log == [] then t else Redone(Serial(t, log[..|log| - 1]), log[|log| - 1])
  }

  predicate Keyed(t: Table) { forall id | id in t :: t[id].id == id }

  predicate EmailsDiffer(t: Table) { forall a, b | a in t && b in t && t[a].email == t[b].email :: a == b }

  /** A held copy is not newer than the row, and is the row if it is as new. */
  predicate HeldOk(t: Table, snap: Snapshot) {
    && snap.id in t && snap.version <= t[snap.id].version
    && (snap.version == t[snap.id].version ==> snap == t[snap.id])
  }

  predicate Inv(s: Sys) { Keyed(s.table) && forall client | client in s.held :: HeldOk(s.table, s.held[client]) }

  /** If the step is an accepted save, it was made on the row as stored. */
  predicate Based(g: Guard, s: Sys, step: Step)
    requires Enabled(s, step)
  {
    step.Save? && SavedBy(g, s.table, ChangedRow(s.held[step.client], step.change).value).Ok? ==>
      var held := s.held[step.client];
      held.id in s.table && s.table[held.id] == held
  }

  /** The step saves at the version already stored. */
  predicate Ties(s: Sys, step: Step)
    requires Enabled(s, step)
  {
    step.Save? &&
    var row := ChangedRow(s.held[step.client], step.change).value;
    row.id in s.table && s.table[row.id].version == row.version
  }

  predicate AlwaysBased(g: Guard, s: Sys, steps: seq<Step>)
    requires IsRun(g, s, steps)
    decreases |steps|
  {
    steps == [] || (Based(g, s, steps[0]) && AlwaysBased(g, Apply(g, s, steps[0]), steps[1..]))
  }

  predicate NeverTies(g: Guard, s: Sys, steps: seq<Step>)
    requires IsRun(g, s, steps)
    decreases |steps|
  {
    steps == [] || (!Ties(s, steps[0]) && NeverTies(g, Apply(g, s, steps[0]), steps[1..]))
  }

  /** Away from equal versions either guard accepts a row one version on from a held
      copy only if that copy is still the current row, and then stores it as it is. */
  lemma AcceptedIsCurrent(g: Guard, t: Table, held: Snapshot, row: Snapshot)
    requires Keyed(t) && HeldOk(t, held) && NextVersion(held, row) && SavedBy(g, t, row).Ok?
    requires g == Lax ==> t[row.id].version != row.version
    ensures held == t[held.id] && SavedBy(g, t, row).value == t[held.id := row]
  {
  }

  lemma NewRowKeepsInv(s: Sys, row: Snapshot, entry: Entry)
    requires Inv(s) && (row.id in s.table ==> row.version > s.table[row.id].version)
    ensures Inv(Sys(s.table[row.id := row], s.held, s.accepted + [entry]))
  {
    var t := s.table[row.id := row];
    forall client | client in s.held ensures HeldOk(t, s.held[client]) {
      assert HeldOk(s.table, s.held[client]);
    }
  }

  /** Every step that does not meet its own version keeps the invariant, saves only
      what is based on the current row, and either leaves the table alone or redoes
      its own entry on it. */
  lemma StepIsSerial(g: Guard, s: Sys, step: Step)
    requires Inv(s) && Enabled(s, step) && (g == Lax ==> !Ties(s, step))
    ensures Inv(Apply(g, s, step)) && Based(g, s, step)
    ensures var s' := Apply(g, s, step);
            && (s'.accepted == s.accepted ==> s'.table == s.table)
            && (s'.accepted != s.accepted ==>
                  exists e: Entry :: s'.accepted == s.accepted + [e] && s'.table == Redone(s.table, e))
  {
    match step
    case Register(row) =>
      if SavedBy(g, s.table, row).Ok? {
        NewRowKeepsInv(s, row, Inserted(row));
        assert s.table[row.id := row] == Redone(s.table, Inserted(row));
      }
    case Load(_, _) =>
    case Save(client, ch) =>
      var held := s.held[client];
      var row := ChangedRow(held, ch).value;
      assert HeldOk(s.table, held);
      ChangeBumpsOnce(held, ch);
      var rest := s.(held := s.held - {client});
      assert Inv(rest);
      if SavedBy(g, s.table, row).Ok? {
        AcceptedIsCurrent(g, s.table, held, row);
        NewRowKeepsInv(rest, row, Made(row.id, ch));
        assert s.table[row.id := row] == Redone(s.table, Made(row.id, ch));
      }
  }

  lemma {:induction false} RunIsSerial(g: Guard, t0: Table, s: Sys, steps: seq<Step>)
    requires Inv(s) && IsRun(g, s, steps) && s.table == Serial(t0, s.accepted)
    requires g == Lax ==> NeverTies(g, s, steps)
    ensures AlwaysBased(g, s, steps)
    ensures var s' := Final(g, s, steps);
            s'.table == Serial(t0, s'.accepted)
    decreases |steps|
  {
    if steps != [] {
      var s' := Apply(g, s, steps[0]);
      StepIsSerial(g, s, steps[0]);
      if s'.accepted != s.accepted {
        var e :| s'.accepted == s.accepted + [e] && s'.table == Redone(s.table, e);
        assert s'.accepted[..|s'.accepted| - 1] == s.accepted;
      }
      RunIsSerial(g, t0, s', steps[1..]);
    }
  }

  // ---------- the strict guard ----------

  lemma {:induction false} EmailsStayUnique(s: Sys, steps: seq<Step>)
    requires EmailsDiffer(s.table) && IsRun(Strict, s, steps)
    ensures EmailsDiffer(Final(Strict, s, steps).table)
    decreases |steps|
  {
    if steps != [] {
      StepKeepsEmails(s, steps[0]);
      EmailsStayUnique(Apply(Strict, s, steps[0]), steps[1..]);
    }
  }

  lemma StepKeepsEmails(s: Sys, step: Step)
    requires EmailsDiffer(s.table) && Enabled(s, step)
    ensures EmailsDiffer(Apply(Strict, s, step).table)
  {
    match step
    case Register(row) => SaveKeepsEmails(s.table, row);
    case Load(_, _) =>
    case Save(client, ch) => SaveKeepsEmails(s.table, ChangedRow(s.held[client], ch).value);
  }

  lemma SaveKeepsEmails(t: Table, row: Snapshot)
    requires EmailsDiffer(t)
    ensures SqlSaved(t, row).Ok? ==> EmailsDiffer(SqlSaved(t, row).value)
  {
  }

  /** No lost update: over every interleaving of registrations, loads and saves, every
      accepted save is based on the current row, the table is that of the accepted
      saves run one after the other, and the unique index holds. */
  lemma NoLostUpdate(t: Table, steps: seq<Step>)
    requires Keyed(t) && EmailsDiffer(t) && IsRun(Strict, Sys(t, map[], []), steps)
    ensures AlwaysBased(Strict, Sys(t, map[], []), steps)
    ensures var s := Final(Strict, Sys(t, map[], []), steps);
            s.table == Serial(t, s.accepted) && EmailsDiffer(s.table)
  {
    RunIsSerial(Strict, t, Sys(t, map[], []), steps);
    EmailsStayUnique(Sys(t, map[], []), steps);
  }

  // ---------- the in-memory guard ----------

  /** The memory guard refuses only what the SQL repository refuses. Where it alone
      accepts, either the versions are equal, or the address is someone else's, which
      the SQL repository leaves to its unique index. */
  lemma GuardsDifferAtEqualVersions(t: Table, snap: Snapshot)
    ensures SavedBy(Lax, t, snap).Err? ==> SavedBy(Strict, t, snap).Err?
    ensures (SavedBy(Lax, t, snap).Ok? && SavedBy(Strict, t, snap) == Err(StaleVersion)) <==>
            (snap.id in t && t[snap.id].version == snap.version)
    ensures (SavedBy(Lax, t, snap).Ok? && SavedBy(Strict, t, snap) == Err(EmailTaken)) <==>
            (!EmailFree(t, snap) && (snap.id in t ==> t[snap.id].version < snap.version))
  {
  }

  /** At equal versions the saved copy was not the current row: the memory guard
      overwrites a write that came in between. */
  lemma EqualVersionOverwrites(s: Sys, client: nat, ch: Change)
    requires Enabled(s, Save(client, ch)) && Ties(s, Save(client, ch))
    ensures s.table[s.held[client].id] != s.held[client] && !Based(Lax, s, Save(client, ch))
    ensures Apply(Lax, s, Save(client, ch)).table
         == s.table[s.held[client].id := ChangedRow(s.held[client], ch).value]
  {
    ChangeBumpsOnce(s.held[client], ch);
  }

  lemma {:induction false} BasedExactly(s: Sys, steps: seq<Step>)
    requires Inv(s) && IsRun(Lax, s, steps)
    ensures AlwaysBased(Lax, s, steps) <==> NeverTies(Lax, s, steps)
    decreases |steps|
  {
    if steps != [] {
      if Ties(s, steps[0]) {
        EqualVersionOverwrites(s, steps[0].client, steps[0].change);
      } else {
        StepIsSerial(Lax, s, steps[0]);
        BasedExactly(Apply(Lax, s, steps[0]), steps[1..]);
      }
    }
  }

  /** Over every interleaving with the memory guard: every accepted save is based on
      the current row if and only if no save of the run meets the row at its own
      version. Then, as with the strict guard, the table is the serial one. */
  lemma MemoryLosesExactly(t: Table, steps: seq<Step>)
    requires Keyed(t) && IsRun(Lax, Sys(t, map[], []), steps)
    ensures AlwaysBased(Lax, Sys(t, map[], []), steps) <==> NeverTies(Lax, Sys(t, map[], []), steps)
    ensures NeverTies(Lax, Sys(t, map[], []), steps) ==>
              var s := Final(Lax, Sys(t, map[], []), steps); s.table == Serial(t, s.accepted)
  {
    BasedExactly(Sys(t, map[], []), steps);
    if NeverTies(Lax, Sys(t, map[], []), steps) { RunIsSerial(Lax, t, Sys(t, map[], []), steps); }
  }

  /** Once two saves have tied, a third client can overwrite at a version of its own:
      its copy is as new as the row and is another row. */
  lemma TieSpreads(s: Sys, client: nat, ch: Change)
    requires Enabled(s, Save(client, ch)) && s.held[client].id in s.table
    requires s.held[client].version == s.table[s.held[client].id].version && s.held[client] != s.table[s.held[client].id]
    ensures !Ties(s, Save(client, ch)) && !Based(Lax, s, Save(client, ch))
  {
    var held := s.held[client];
    var row := ChangedRow(held, ch).value;
    ChangeBumpsOnce(held, ch);
    LaxTakesNext(s.table, held, row);
  }

  lemma LaxTakesNext(t: Table, held: Snapshot, row: Snapshot)
    requires NextVersion(held, row) && held.id in t && held.version == t[held.id].version
    ensures SavedBy(Lax, t, row).Ok? && t[row.id].version != row.version
  {
  }

  function Disabled(row: Snapshot): Snapshot { row.(status := "deactivated", version := row.version + 1) }

  function Moved(row: Snapshot, address: string): Snapshot { row.(email := address, version := row.version + 1) }

  lemma RaceRows(row: Snapshot, address: string, at: int)
    requires row.id != "" && IsEmail(row.email) && row.status == "active" && address != row.email
    ensures ChangedRow(row, Disable("", at)) == Some(Disabled(row))
    ensures ChangedRow(row, ToEmail(address, at)) == Some(Moved(row, address))
    ensures ChangedRow(Disabled(row), ToEmail(address, at)) == None
  {
    var c := State(row.id, row.name, row.email, Active, row.createdAt, row.version, []);
    RowReloads(row, c);
    RowReloads(Disabled(row), c.(status := Deactivated, version := row.version + 1));
  }

  /** Exactly which changes of a stored customer take effect, and what they save. */
  lemma ChangedRowExactly(row: Snapshot, address: string, reason: string, at: int)
    requires row.id != "" && IsEmail(row.email) && (row.status == "active" || row.status == "deactivated")
    ensures ChangedRow(row, ToEmail(address, at))
         == if row.status == "active" && address != row.email then Some(Moved(row, address)) else None
    ensures ChangedRow(row, Disable(reason, at)) == if row.status == "active" then Some(Disabled(row)) else None
  {
    var c := State(row.id, row.name, row.email, if row.status == "active" then Active else Deactivated,
                   row.createdAt, row.version, []);
    RowReloads(row, c);
  }

  lemma RowReloads(row: Snapshot, c: State)
    requires row.id != "" && IsEmail(row.email) && ToSnapshot(c) == row && c.events == []
    ensures FromSnapshot(row) == Ok(c)
  {
    assert "active"[0] != "deactivated"[0];
  }

  /** Two clients load the row; one deactivates it, the other changes its email. */
  function Race(id: string, address: string, at: int): seq<Step> {
    [Load(1, id), Load(2, id), Save(1, Disable("", at)), Save(2, ToEmail(address, at))]
  }

  lemma LaxStep(s: Sys, s': Sys, step: Step, rest: seq<Step>)
    requires Enabled(s, step) && Apply(Lax, s, step) == s' && IsRun(Lax, s', rest)
    ensures IsRun(Lax, s, [step] + rest) && Final(Lax, s, [step] + rest) == Final(Lax, s', rest)
  {
    assert ([step] + rest)[1..] == rest;
  }

  lemma LaxSave(s: Sys, client: nat, ch: Change, row: Snapshot, s': Sys)
    requires client in s.held && ChangedRow(s.held[client], ch) == Some(row)
    requires row.id in s.table && s.table[row.id].version <= row.version
    requires s'.table == s.table[row.id := row] && s'.held == s.held - {client}
    requires s'.accepted == s.accepted + [Made(row.id, ch)]
    ensures Enabled(s, Save(client, ch)) && Apply(Lax, s, Save(client, ch)) == s'
  {
  }

  lemma RaceSecond(row: Snapshot, d: Snapshot, m: Snapshot, b: Change, first: Entry)
    requires ChangedRow(row, b) == Some(m) && d.id == m.id == row.id && d.version <= m.version
    ensures var s := Sys(map[row.id := d], map[2 := row], [first]);
            && IsRun(Lax, s, [Save(2, b)])
            && Final(Lax, s, [Save(2, b)]) == Sys(map[row.id := m], map[], [first, Made(row.id, b)])
  {
    var s := Sys(map[row.id := d], map[2 := row], [first]);
    var s' := Sys(map[row.id := m], map[], [first, Made(row.id, b)]);
    assert s'.table == s.table[row.id := m] && s'.held == s.held - {2};
    LaxSave(s, 2, b, m, s');
    LaxStep(s, s', Save(2, b), []);
    assert [Save(2, b)] + [] == [Save(2, b)];
  }

  lemma RaceFirst(row: Snapshot, d: Snapshot, a: Change, held: map<nat, Snapshot>)
    requires ChangedRow(row, a) == Some(d) && d.id == row.id && row.version <= d.version && 1 in held && held[1] == row
    ensures var s := Sys(map[row.id := row], held, []);
            && Enabled(s, Save(1, a))
            && Apply(Lax, s, Save(1, a)) == Sys(map[row.id := d], held - {1}, [Made(row.id, a)])
  {
    assert map[row.id := d] == map[row.id := row][row.id := d];
    LaxSave(Sys(map[row.id := row], held, []), 1, a, d, Sys(map[row.id := d], held - {1}, [Made(row.id, a)]));
  }

  lemma FirstLetsGo(row: Snapshot)
    ensures map[1 := row, 2 := row] - {1} == map[2 := row]
  {
  }

  lemma RaceSaves(row: Snapshot, d: Snapshot, m: Snapshot, a: Change, b: Change)
    requires ChangedRow(row, a) == Some(d) && ChangedRow(row, b) == Some(m)
    requires d.id == m.id == row.id && row.version <= d.version == m.version
    ensures var s := Sys(map[row.id := row], map[1 := row, 2 := row], []);
            && IsRun(Lax, s, [Save(1, a)] + [Save(2, b)])
            && Final(Lax, s, [Save(1, a)] + [Save(2, b)])
            == Sys(map[row.id := m], map[], [Made(row.id, a), Made(row.id, b)])
  {
    RaceFirst(row, d, a, map[1 := row, 2 := row]);
    FirstLetsGo(row);
    RaceSecond(row, d, m, b, Made(row.id, a));
    LaxStep(Sys(map[row.id := row], map[1 := row, 2 := row], []), Sys(map[row.id := d], map[2 := row], [Made(row.id, a)]),
            Save(1, a), [Save(2, b)]);
  }

  lemma SerialSnoc(t: Table, log: seq<Entry>, e: Entry)
    ensures Serial(t, log + [e]) == Redone(Serial(t, log), e)
  {
    assert (log + [e])[..|log|] == log;
  }

  lemma SerialOfRace(row: Snapshot, d: Snapshot, a: Change, b: Change)
    requires ChangedRow(row, a) == Some(d) && ChangedRow(d, b) == None
    ensures Serial(map[row.id := row], [Made(row.id, a), Made(row.id, b)]) == map[row.id := d]
  {
    var t, t' := map[row.id := row], map[row.id := d];
    var first, second := Made(row.id, a), Made(row.id, b);
    RedoneFirst(row, d, a);
    SerialSnoc(t, [], first);
    SerialSnoc(t, [] + [first], second);
    assert [] + [first] + [second] == [first, second];
    assert Redone(t', second) == t';
  }

  lemma RedoneFirst(row: Snapshot, d: Snapshot, a: Change)
    requires ChangedRow(row, a) == Some(d)
    ensures Redone(map[row.id := row], Made(row.id, a)) == map[row.id := d]
  {
    assert map[row.id := row][row.id := d] == map[row.id := d];
  }

  /** The memory guard loses an update, for every active row: both saves of the race
      are accepted and the deactivation is gone, although running the two accepted
      changes one after the other keeps it. */
  lemma MemoryLosesAnUpdate(row: Snapshot, address: string, at: int)
    requires row.id != "" && IsEmail(row.email) && row.status == "active" && address != row.email
    ensures IsRun(Lax, Sys(map[row.id := row], map[], []), Race(row.id, address, at))
    ensures var s := Final(Lax, Sys(map[row.id := row], map[], []), Race(row.id, address, at));
            && s.table == map[row.id := Moved(row, address)]
            && Serial(map[row.id := row], s.accepted) == map[row.id := Disabled(row)]
  {
    var a, b := Disable("", at), ToEmail(address, at);
    RaceRows(row, address, at);
    RaceSaves(row, Disabled(row), Moved(row, address), a, b);
    SerialOfRace(row, Disabled(row), a, b);
    RaceLoads(row, [Save(1, a)] + [Save(2, b)]);
    assert [Load(1, row.id), Load(2, row.id)] + ([Save(1, a)] + [Save(2, b)]) == Race(row.id, address, at);
  }

  lemma RaceLoads(row: Snapshot, rest: seq<Step>)
    requires IsRun(Lax, Sys(map[row.id := row], map[1 := row, 2 := row], []), rest)
    ensures var steps := [Load(1, row.id), Load(2, row.id)] + rest;
            && IsRun(Lax, Sys(map[row.id := row], map[], []), steps)
            && Final(Lax, Sys(map[row.id := row], map[], []), steps)
            == Final(Lax, Sys(map[row.id := row], map[1 := row, 2 := row], []), rest)
  {
    var t := map[row.id := row];
    LaxStep(Sys(t, map[1 := row], []), Sys(t, map[1 := row, 2 := row], []), Load(2, row.id), rest);
    LaxStep(Sys(t, map[], []), Sys(t, map[1 := row], []), Load(1, row.id), [Load(2, row.id)] + rest);
    assert [Load(1, row.id)] + ([Load(2, row.id)] + rest) == [Load(1, row.id), Load(2, row.id)] + rest;
  }
}
