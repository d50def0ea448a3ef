/** The two read-model projections, in memory and in SQL, as row updates. */
module Projections {
  import opened Prelude
  import opened Events

  datatype Row = Row(id: string, name: string, email: string, status: string, createdAt: int)

  type Rows = map<string, Row>

  const ACTIVE := "active"
  const INACTIVE := "inactive"

  // ---------- decoding a payload into the fields a handler asks for ----------

  function IdOf(p: Payload): string
    requires !p.NotJson?
  {
    p.id
  }

  function NameOf(p: Payload): string { if p.CreatedV1? then p.name else "" }

  function EmailOf(p: Payload): string { if p.CreatedV1? then p.email else "" }

  function NewEmailOf(p: Payload): string { if p.EmailChangedV1? then p.newEmail else "" }

  /** A missing event time falls back to the wall clock. */
  function NonZero(t: int, now: int): int { if t == 0 then now else t }

  function Lookup(rows: Rows, id: string): Option<Row> { if id in rows then Some(rows[id]) else None }

  // ---------- the memory projection ----------

  /** INSERT-or-replace of the whole row, or an update of an existing one. */
  function Deliver(rows: Rows, e: Event, now: int): Rows {
    if e.payload.NotJson? then rows
    else
      var id := IdOf(e.payload);
      if e.name == CUSTOMER_CREATED then
        rows[id := Row(id, NameOf(e.payload), EmailOf(e.payload), ACTIVE, NonZero(e.occurredAt, now))]
      else if e.name == CUSTOMER_EMAIL_CHANGED && id in rows then rows[id := rows[id].(email := NewEmailOf(e.payload))]
      else if e.name == CUSTOMER_DEACTIVATED && id in rows then rows[id := rows[id].(status := INACTIVE)]
      else rows
  }

  class MemoryReadModel {
    var rows: Rows

    ghost predicate Valid()
      reads this
    {
      Keyed(rows)
    }

    constructor ()
      ensures Valid() && rows == map[]
    {
      rows := map[];
    }

    /** Each handler fails exactly on a payload that does not parse. */
    method OnCreated(e: Event, now: int) returns (ok: bool)
      requires Valid() && e.name == CUSTOMER_CREATED
      modifies this
      ensures Valid() && rows == Deliver(old(rows), e, now)
      ensures ok <==> !e.payload.NotJson?
    {
      if e.payload.NotJson? {
        return false;
      }
      var id := IdOf(e.payload);
      rows := rows[id := Row(id, NameOf(e.payload), EmailOf(e.payload), ACTIVE, NonZero(e.occurredAt, now))];
      return true;
    }

    method OnEmailChanged(e: Event, now: int) returns (ok: bool)
      requires Valid() && e.name == CUSTOMER_EMAIL_CHANGED
      modifies this
      ensures Valid() && rows == Deliver(old(rows), e, now)
      ensures ok <==> !e.payload.NotJson?
    {
      NamesDiffer();
      if e.payload.NotJson? {
        return false;
      }
      var id := IdOf(e.payload);
      if id in rows {
        var row := rows[id];
        row := row.(email := NewEmailOf(e.payload));
        rows := rows[id := row];
      }
      return true;
    }

    method OnDeactivated(e: Event, now: int) returns (ok: bool)
      requires Valid() && e.name == CUSTOMER_DEACTIVATED
      modifies this
      ensures Valid() && rows == Deliver(old(rows), e, now)
      ensures ok <==> !e.payload.NotJson?
    {
      NamesDiffer();
      if e.payload.NotJson? {
        return false;
      }
      var id := IdOf(e.payload);
      if id in rows {
        var row := rows[id];
        row := row.(status := INACTIVE);
        rows := rows[id := row];
      }
      return true;
    }
  }

  /** Rows sit under their own id. */
  predicate Keyed(rows: Rows) { forall id | id in rows :: rows[id].id == id }

  // ---------- the SQL projection ----------

  /** INSERT ... ON CONFLICT (id) DO UPDATE SET name, email — status and
      created_at of an existing row stay. */
  function SqlDeliver(rows: Rows, e: Event, now: int): Rows {
    if e.payload.NotJson? then rows
    else
      var id := IdOf(e.payload);
      if e.name == CUSTOMER_CREATED then
        rows[id := if id in rows then rows[id].(name := NameOf(e.payload), email := EmailOf(e.payload))
                   else Row(id, NameOf(e.payload), EmailOf(e.payload), ACTIVE, NonZero(e.occurredAt, now))]
      else if e.name == CUSTOMER_EMAIL_CHANGED && id in rows then rows[id := rows[id].(email := NewEmailOf(e.payload))]
      else if e.name == CUSTOMER_DEACTIVATED && id in rows then rows[id := rows[id].(status := INACTIVE)]
      else rows
  }

  /** The customer_reads table and its three statements. */
  class PostgresReadModel {
    var table: Rows

    constructor ()
      ensures table == map[]
    {
      table := map[];
    }

    method OnCreated(e: Event, now: int) returns (ok: bool)
      requires e.name == CUSTOMER_CREATED
      modifies this
      ensures table == SqlDeliver(old(table), e, now)
      ensures ok <==> !e.payload.NotJson?
    {
      if e.payload.NotJson? {
        return false;
      }
      var id := IdOf(e.payload);
      var excluded := Row(id, NameOf(e.payload), EmailOf(e.payload), ACTIVE, NonZero(e.occurredAt, now));
      if id in table {
        table := table[id := table[id].(name := excluded.name, email := excluded.email)];
      } else {
        table := table[id := excluded];
      }
      return true;
    }

    method OnEmailChanged(e: Event) returns (ok: bool)
      requires e.name == CUSTOMER_EMAIL_CHANGED
      modifies this
      ensures forall now :: table == SqlDeliver(old(table), e, now)
      ensures ok <==> !e.payload.NotJson?
    {
      NamesDiffer();
      if e.payload.NotJson? {
        return false;
      }
      Update(IdOf(e.payload), (row: Row) => row.(email := NewEmailOf(e.payload)));
      return true;
    }

    method OnDeactivated(e: Event) returns (ok: bool)
      requires e.name == CUSTOMER_DEACTIVATED
      modifies this
      ensures forall now :: table == SqlDeliver(old(table), e, now)
      ensures ok <==> !e.payload.NotJson?
    {
      NamesDiffer();
      if e.payload.NotJson? {
        return false;
      }
      Update(IdOf(e.payload), (row: Row) => row.(status := INACTIVE));
      return true;
    }

    /** UPDATE customer_reads SET ... WHERE id = $1 */
    method Update(id: string, set1: Row -> Row)
      modifies this
      ensures table == if id in old(table) then old(table)[id := set1(old(table)[id])] else old(table)
    {
      if id in table {
        table := table[id := set1(table[id])];
      }
    }
  }

  // ---------- delivering stamped events ----------

  /** Created events carry a non-zero time, as every mapped event does. */
  predicate Stamped(e: Event) { e.name == CUSTOMER_CREATED ==> e.occurredAt != 0 }

  function Project(rows: Rows, e: Event): Rows { Deliver(rows, e, e.occurredAt) }

  function SqlProject(rows: Rows, e: Event): Rows { SqlDeliver(rows, e, e.occurredAt) }

  /** For stamped events the wall clock at delivery does not matter. */
  lemma ClockIsIrrelevant(rows: Rows, e: Event, now: int)
    requires Stamped(e)
    ensures Deliver(rows, e, now) == Project(rows, e) && SqlDeliver(rows, e, now) == SqlProject(rows, e)
  {
  }

  /** A created event without a time takes the wall clock's. */
  lemma UnstampedUsesClock(rows: Rows, e: Event, now: int)
    requires e.name == CUSTOMER_CREATED && !e.payload.NotJson?
    ensures var id := IdOf(e.payload);
            var at := if e.occurredAt == 0 then now else e.occurredAt;
            && id in Deliver(rows, e, now) && Deliver(rows, e, now)[id].createdAt == at
            && id in SqlDeliver(rows, e, now) && (id !in rows ==> SqlDeliver(rows, e, now)[id].createdAt == at)
  {
  }

  function Replay(rows: Rows, es: seq<Event>): Rows
    decreases |es|
  {
    if es == [] then rows else Project(Replay(rows, es[..|es| - 1]), es[|es| - 1])
  }

  function SqlReplay(rows: Rows, es: seq<Event>): Rows
    decreases |es|
  {
    if es == [] then rows else SqlProject(SqlReplay(rows, es[..|es| - 1]), es[|es| - 1])
  }

  lemma {:induction false} ReplayConcat(rows: Rows, a: seq<Event>, b: seq<Event>)
    ensures Replay(rows, a + b) == Replay(Replay(rows, a), b)
    ensures SqlReplay(rows, a + b) == SqlReplay(SqlReplay(rows, a), b)
    decreases |b|
  {
    if b == [] {
      assert a + b == a;
    } else {
      ReplayConcat(rows, a, b[..|b| - 1]);
      assert (a + b)[..|a + b| - 1] == a + b[..|b| - 1];
    }
  }

  // ---------- one customer's row ----------

  /** What an event does to the row of the customer it is about. */
  datatype Action = Create(row: Row) | SetEmail(email: string) | Deactivate | Nothing

  function About(e: Event): Option<string> { if e.payload.NotJson? then None else Some(IdOf(e.payload)) }

  function ActionOf(e: Event): Action {
    if e.payload.NotJson? then Nothing
    else if e.name == CUSTOMER_CREATED then
      Create(Row(IdOf(e.payload), NameOf(e.payload), EmailOf(e.payload), ACTIVE, e.occurredAt))
    else if e.name == CUSTOMER_EMAIL_CHANGED then SetEmail(NewEmailOf(e.payload))
    else if e.name == CUSTOMER_DEACTIVATED then Deactivate
    else Nothing
  }

  function Act(o: Option<Row>, a: Action): Option<Row> {
    match a
    case Create(row) => Some(row)
    case SetEmail(email) => if o.Some? then Some(o.value.(email := email)) else None
    case Deactivate => if o.Some? then Some(o.value.(status := INACTIVE)) else None
    case Nothing => o
  }

  function SqlAct(o: Option<Row>, a: Action): Option<Row> {
    if a.Create? && o.Some? then Some(o.value.(name := a.row.name, email := a.row.email)) else Act(o, a)
  }

  lemma ProjectRow(rows: Rows, e: Event, id: string)
    ensures Lookup(Project(rows, e), id)
         == if About(e) == Some(id) then Act(Lookup(rows, id), ActionOf(e)) else Lookup(rows, id)
    ensures Lookup(SqlProject(rows, e), id)
         == if About(e) == Some(id) then SqlAct(Lookup(rows, id), ActionOf(e)) else Lookup(rows, id)
  {
  }

  lemma SameRows(a: Rows, b: Rows)
    requires forall id :: Lookup(a, id) == Lookup(b, id)
    ensures a == b
  {
    assert forall id :: id in a <==> id in b by {
      forall id ensures id in a <==> id in b { assert Lookup(a, id) == Lookup(b, id); }
    }
    forall id | id in a ensures a[id] == b[id] { assert Lookup(a, id) == Lookup(b, id); }
  }

  /** The actions of a delivery sequence on one customer, in order. */
  function ActionsOn(es: seq<Event>, id: string): seq<Action>
    decreases |es|
  {
    if es == [] then []
    else ActionsOn(es[..|es| - 1], id) + (if About(es[|es| - 1]) == Some(id) then [ActionOf(es[|es| - 1])] else [])
  }

  function ActAll(o: Option<Row>, actions: seq<Action>): Option<Row>
    decreases |actions|
  {
    if actions == [] then o else Act(ActAll(o, actions[..|actions| - 1]), actions[|actions| - 1])
  }

  function SqlActAll(o: Option<Row>, actions: seq<Action>): Option<Row>
    decreases |actions|
  {
    if actions == [] then o else SqlAct(SqlActAll(o, actions[..|actions| - 1]), actions[|actions| - 1])
  }

  lemma {:induction false} ReplayRow(rows: Rows, es: seq<Event>, id: string)
    ensures Lookup(Replay(rows, es), id) == ActAll(Lookup(rows, id), ActionsOn(es, id))
    ensures Lookup(SqlReplay(rows, es), id) == SqlActAll(Lookup(rows, id), ActionsOn(es, id))
    decreases |es|
  {
    if es != [] {
      var front, e := es[..|es| - 1], es[|es| - 1];
      ReplayRow(rows, front, id);
      ProjectRow(Replay(rows, front), e, id);
      ProjectRow(SqlReplay(rows, front), e, id);
      if About(e) == Some(id) {
        assert ActionsOn(es, id)[..|ActionsOn(es, id)| - 1] == ActionsOn(front, id);
      } else {
        assert ActionsOn(es, id) == ActionsOn(front, id);
      }
    }
  }

  /** Two delivery orders that agree per customer give the same rows. */
  lemma OrderAcrossCustomersIsIrrelevant(rows: Rows, es: seq<Event>, fs: seq<Event>)
    requires forall id :: ActionsOn(es, id) == ActionsOn(fs, id)
    ensures Replay(rows, es) == Replay(rows, fs) && SqlReplay(rows, es) == SqlReplay(rows, fs)
  {
    forall id ensures Lookup(Replay(rows, es), id) == Lookup(Replay(rows, fs), id) {
      ReplayRow(rows, es, id);
      ReplayRow(rows, fs, id);
    }
    SameRows(Replay(rows, es), Replay(rows, fs));
    forall id ensures Lookup(SqlReplay(rows, es), id) == Lookup(SqlReplay(rows, fs), id) {
      ReplayRow(rows, es, id);
      ReplayRow(rows, fs, id);
    }
    SameRows(SqlReplay(rows, es), SqlReplay(rows, fs));
  }
}
