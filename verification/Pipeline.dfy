/** The whole in-memory wiring: commands one at a time, interleaved with the
    relay's individual fetch, publish and mark steps. The read model plus the
    unpublished outbox events is always the write model. */
module Pipeline {
  import opened Prelude
  import opened Events
  import opened Ids
  import opened Email
  import opened Customer
  import opened Messaging
  import opened Outbox
  import opened Repository
  import opened Projections
  import Commands
  import OutboxRelay
  import LocalBus
  import Rewind

  datatype Pipe = Pipe(repo: Repo, relay: OutboxRelay.Relay, rows: Rows)

  datatype Step = Command(cmd: Commands.Command) | Fetch | Publish(now: int) | Mark(now: int)

  function WorldOf(p: Pipe): Commands.World { Commands.World(p.repo, p.relay.store) }

  predicate Enabled(p: Pipe, step: Step) {
    match step
    case Command(cmd) => Commands.Fresh(WorldOf(p), cmd) && cmd.now != 0
    case Fetch => OutboxRelay.Enabled(p.relay, OutboxRelay.Fetch)
    case Publish(_) => OutboxRelay.Enabled(p.relay, OutboxRelay.Publish(true, "")) && p.relay.batch[0] in p.relay.store.byId
    case Mark(now) => OutboxRelay.Enabled(p.relay, OutboxRelay.Mark(now))
  }

  function Apply(p: Pipe, step: Step): Pipe
    requires Enabled(p, step)
  {
    match step
    case Command(cmd) =>
      var w := Commands.Execute(WorldOf(p), cmd).0;
      p.(repo := w.repo, relay := p.relay.(store := w.store))
    case Fetch => p.(relay := OutboxRelay.Apply(p.relay, OutboxRelay.Fetch))
    case Publish(now) =>
      var e := p.relay.store.byId[p.relay.batch[0]].event;
      var (rows, ok) := LocalBus.PublishAll(LocalBus.WIRED, p.rows, [e], now);
      p.(rows := rows, relay := OutboxRelay.Apply(p.relay, OutboxRelay.Publish(ok, "publish failed")))
    case Mark(now) => p.(relay := OutboxRelay.Apply(p.relay, OutboxRelay.Mark(now)))
  }

  function Start(limit: int): Pipe { Pipe(Repo(map[], map[]), OutboxRelay.Start(limit), map[]) }

  // ---------- the two sides ----------

  /** The row a stored customer should show. */
  function RowOf(s: Snapshot): Row {
    Row(s.id, s.name, s.email, if s.status == "deactivated" then INACTIVE else ACTIVE, s.createdAt)
  }

  function Views(r: Repo): Rows { map id | id in r.byId :: RowOf(r.byId[id]) }

  /** The events behind a list of outbox ids. */
  function EventsOf(s: Store, ids: seq<string>): seq<Event>
    requires forall id | id in ids :: id in s.byId
  {
    seq(|ids|, i requires 0 <= i < |ids| => s.byId[ids[i]].event)
  }

  /** The events not yet marked published, in insertion order. */
  function Backlog(s: Store): seq<Event>
    requires ValidStore(s)
  {
    PendingKnown(s);
    EventsOf(s, PendingIds(s))
  }

  lemma PendingKnown(s: Store)
    requires ValidStore(s)
    ensures forall id | id in PendingIds(s) :: id in s.byId
  {
    KeepMembers(s.order, PublishedIds(s));
    assert forall id | id in s.order :: id in Elems(s.order);
  }

  predicate AllCustomerEvents(s: Store) {
    forall id | id in s.byId :: LocalBus.CustomerEvent(s.byId[id].event)
  }

  predicate Inv(p: Pipe) {
    && Commands.Inv(WorldOf(p)) && OutboxRelay.Inv(p.relay) && AllCustomerEvents(p.relay.store)
    && p.relay.batch <= PendingIds(p.relay.store) && !p.relay.head.Rejected?
    && Replay(p.rows, Backlog(p.relay.store)) == Views(p.repo)
    && (p.relay.head.Delivered? ==>
          Project(p.rows, p.relay.store.byId[p.relay.batch[0]].event) == p.rows)
  }

  // ---------- commands ----------

  lemma SavedViews(r: Repo, snap: Snapshot)
    requires Saved(r, snap).Ok?
    ensures Views(Saved(r, snap).value) == Views(r)[snap.id := RowOf(snap)]
  {
  }

  lemma ProjectIsUpdate(rows: Rows, e: Event, id: string, row: Row)
    requires About(e) == Some(id) && Act(Lookup(rows, id), ActionOf(e)) == Some(row)
    ensures Project(rows, e) == rows[id := row]
  {
    var a, b := Project(rows, e), rows[id := row];
    forall k ensures Lookup(a, k) == Lookup(b, k) { ProjectRow(rows, e, k); }
    SameRows(a, b);
  }

  /** The event an effective command appends projects the old view to the new. */
  lemma EffectiveView(r: Repo, c: State, e: Event)
    requires Saved(r, ToSnapshot(c)).Ok? && About(e) == Some(c.id)
    requires Act(Lookup(Views(r), c.id), ActionOf(e)) == Some(RowOf(ToSnapshot(c)))
    ensures Project(Views(r), e) == Views(Saved(r, ToSnapshot(c)).value)
  {
    SavedViews(r, ToSnapshot(c));
    ProjectIsUpdate(Views(r), e, c.id, RowOf(ToSnapshot(c)));
  }

  lemma StatusNamesDiffer()
    ensures "active" != "deactivated"
  {
    assert "active"[0] != "deactivated"[0];
  }

  /** What the created event makes of any row, and the changed one of its own. */
  lemma CreatedRow(c: State, o: Option<Row>, eventId: string)
    requires c.status == Active && c.events == [CustomerCreated(c.id, c.name, c.email, c.createdAt)]
    ensures var e := ToIntegrationEvent(c.events[0], eventId).value;
            About(e) == Some(c.id) && Act(o, ActionOf(e)) == Some(RowOf(ToSnapshot(c)))
            && e.id == eventId && (c.createdAt != 0 ==> LocalBus.CustomerEvent(e))
  {
    StatusNamesDiffer();
  }

  lemma ChangedRow(snap: Snapshot, c0: State, c: State, at: int, eventId: string)
    requires ToSnapshot(c0) == snap && c0.status == Active && c == c0.(email := c.email, version := c.version, events := c.events)
    requires c.events == [CustomerEmailChanged(c.id, c0.email, c.email, at)]
    ensures var e := ToIntegrationEvent(c.events[0], eventId).value;
            About(e) == Some(c.id) && Act(Some(RowOf(snap)), ActionOf(e)) == Some(RowOf(ToSnapshot(c)))
            && e.id == eventId && (at != 0 ==> LocalBus.CustomerEvent(e))
  {
    StatusNamesDiffer();
    NamesDiffer();
  }

  lemma CreateView(w: Commands.World, cmd: Commands.Command)
    requires Commands.Inv(w) && cmd.CreateCustomer? && Commands.Fresh(w, cmd) && cmd.now != 0
    requires Commands.Execute(w, cmd).1.None?
    ensures exists e :: LocalBus.CustomerEvent(e) && e.id == cmd.eventId
              && Project(Views(w.repo), e) == Views(Commands.Execute(w, cmd).0.repo)
              && Commands.Execute(w, cmd).0.store == AddOne(w.store, e, cmd.now)
  {
    Commands.CreateShape(w, cmd);
    var c := Registered(cmd.newId, cmd.name, NewEmail(cmd.email).value, cmd.now).value;
    var e := ToIntegrationEvent(c.events[0], cmd.eventId).value;
    CreatedRow(c, Lookup(Views(w.repo), c.id), cmd.eventId);
    EffectiveView(w.repo, c, e);
  }

  lemma ChangeView(w: Commands.World, cmd: Commands.Command)
    requires Commands.Inv(w) && cmd.ChangeCustomerEmail? && Commands.Fresh(w, cmd) && cmd.now != 0
    requires Commands.Execute(w, cmd).1.None? && Commands.Execute(w, cmd).0 != w
    ensures exists e :: LocalBus.CustomerEvent(e) && e.id == cmd.eventId
              && Project(Views(w.repo), e) == Views(Commands.Execute(w, cmd).0.repo)
              && Commands.Execute(w, cmd).0.store == AddOne(w.store, e, cmd.now)
  {
    Commands.ChangeShape(w, cmd);
    var snap := w.repo.byId[cmd.id];
    assert Commands.SoundSnapshot(snap);
    Commands.Reloaded(snap);
    var c0 := FromSnapshot(snap).value;
    var c := WithEmail(c0, NewEmail(cmd.newEmail).value, cmd.now).value;
    var e := ToIntegrationEvent(c.events[0], cmd.eventId).value;
    assert c.events == [CustomerEmailChanged(c.id, c0.email, c.email, cmd.now)];
    assert Lookup(Views(w.repo), c.id) == Some(RowOf(snap));
    ChangedRow(snap, c0, c, cmd.now, cmd.eventId);
    EffectiveView(w.repo, c, e);
  }

  lemma AddedBacklog(s: Store, e: Event, now: int)
    requires ValidStore(s) && e.id !in s.byId
    ensures ValidStore(AddOne(s, e, now)) && Backlog(AddOne(s, e, now)) == Backlog(s) + [e]
  {
    AddOneValid(s, e, now);
    PendingKnown(s);
    var s' := AddOne(s, e, now);
    assert PendingIds(s') == PendingIds(s) + [e.id];
    forall i | 0 <= i < |Backlog(s)| ensures Backlog(s')[i] == Backlog(s)[i] {
      assert PendingIds(s)[i] in PendingIds(s) && PendingIds(s)[i] != e.id;
    }
  }

  lemma CommandKeepsInv(p: Pipe, cmd: Commands.Command)
    requires Inv(p) && Enabled(p, Command(cmd))
    ensures Inv(Apply(p, Command(cmd)))
  {
    var w := WorldOf(p);
    var (w', err) := Commands.Execute(w, cmd);
    Commands.CommandKeepsInv(w, cmd);
    if err.Some? { Commands.FailedCommandChangesNothing(w, cmd); }
    if w' == w {
      assert Apply(p, Command(cmd)) == p;
    } else {
      if cmd.CreateCustomer? { CreateView(w, cmd); } else { ChangeView(w, cmd); }
      var e :| LocalBus.CustomerEvent(e) && e.id == cmd.eventId
               && Project(Views(w.repo), e) == Views(w'.repo) && w'.store == AddOne(w.store, e, cmd.now);
      GrownKeepsInv(p, w', e, cmd.now);
    }
  }

  lemma GrownKeepsInv(p: Pipe, w': Commands.World, e: Event, now: int)
    requires Inv(p) && Commands.Inv(w') && LocalBus.CustomerEvent(e) && e.id !in p.relay.store.byId
    requires Project(Views(p.repo), e) == Views(w'.repo) && w'.store == AddOne(p.relay.store, e, now)
    ensures Inv(p.(repo := w'.repo, relay := p.relay.(store := w'.store)))
  {
    var s := p.relay.store;
    var p' := p.(repo := w'.repo, relay := p.relay.(store := w'.store));
    AddOneAsAdd(p.relay, e, now);
    AddedBacklog(s, e, now);
    AddOneValid(s, e, now);
    ReplayConcat(p.rows, Backlog(s), [e]);
    assert [e][..0] == [];
    assert Replay(Replay(p.rows, Backlog(s)), [e]) == Project(Replay(p.rows, Backlog(s)), e);
    if p.relay.head.Delivered? {
      assert p.relay.batch[0] in p.relay.batch;
    }
  }

  lemma AddOneAsAdd(r: OutboxRelay.Relay, e: Event, now: int)
    requires OutboxRelay.Inv(r)
    ensures OutboxRelay.Inv(r.(store := AddOne(r.store, e, now)))
  {
    OutboxRelay.AddKeepsInv(r, [e], now);
    assert [e][..0] == [];
    assert AddAll(r.store, [e], now) == AddOne(AddAll(r.store, [e][..0], now), e, now);
  }

  // ---------- relay steps ----------

  lemma FetchKeepsInv(p: Pipe)
    requires Inv(p) && Enabled(p, Fetch)
    ensures Inv(Apply(p, Fetch))
  {
    OutboxRelay.FetchKeepsInv(p.relay);
  }

  /** Replaying an event already applied changes nothing. */
  lemma AppliedTwice(rows: Rows, e: Event)
    ensures Project(Project(rows, e), e) == Project(rows, e)
  {
    assert [e][..0] == [];
    assert Replay(rows, [e]) == Project(rows, e);
    assert Replay(Project(rows, e), [e]) == Project(Project(rows, e), e);
    Rewind.MemoryRewind(rows, [e]);
  }

  lemma HeadFirst(rows: Rows, es: seq<Event>)
    requires es != []
    ensures Replay(rows, es) == Replay(Project(rows, es[0]), es[1..])
  {
    assert es == [es[0]] + es[1..];
    ReplayConcat(rows, [es[0]], es[1..]);
    assert [es[0]][..0] == [];
    assert Replay(rows, [es[0]]) == Project(rows, es[0]);
  }

  lemma BatchHead(p: Pipe)
    requires Inv(p) && p.relay.batch != []
    ensures p.relay.batch[0] in p.relay.store.byId
    ensures PendingIds(p.relay.store) != [] && PendingIds(p.relay.store)[0] == p.relay.batch[0]
    ensures Backlog(p.relay.store) != [] && Backlog(p.relay.store)[0] == p.relay.store.byId[p.relay.batch[0]].event
  {
    assert p.relay.batch[0] in p.relay.batch;
  }

  /** Publishing never fails, and applies the oldest backlog event. */
  lemma PublishKeepsInv(p: Pipe, now: int)
    requires Inv(p) && Enabled(p, Publish(now))
    ensures Inv(Apply(p, Publish(now)))
    ensures Apply(p, Publish(now)).relay.head.Delivered?
  {
    BatchHead(p);
    var e := p.relay.store.byId[p.relay.batch[0]].event;
    LocalBus.WiredPublish(p.rows, e, now);
    OutboxRelay.PublishKeepsInv(p.relay, true, "publish failed");
    var rows' := Project(p.rows, e);
    AppliedTwice(p.rows, e);
    HeadFirst(p.rows, Backlog(p.relay.store));
    HeadFirst(rows', Backlog(p.relay.store));
  }

  lemma MarkedPending(s: Store, now: int)
    requires ValidStore(s) && PendingIds(s) != []
    ensures var s' := MarkPublishedOne(s, PendingIds(s)[0], now);
            ValidStore(s') && PendingIds(s') == PendingIds(s)[1..]
  {
    var ids := PendingIds(s);
    var id := ids[0];
    PendingKnown(s);
    assert id in ids;
    DeliveryKeepsValid(s, id, now);
    KeepTwice(s.order, PublishedIds(s), {id});
    DropHead(s, ids);
  }

  lemma DropHead(s: Store, ids: seq<string>)
    requires ValidStore(s) && ids == PendingIds(s) && ids != []
    ensures Keep(ids, {ids[0]}) == ids[1..]
  {
    PendingSplits(s);
    assert ids == [ids[0]] + ids[1..];
    DistinctParts([ids[0]], ids[1..]);
    KeepNone(ids[1..], {ids[0]});
  }

  lemma MarkedBacklog(s: Store, now: int)
    requires ValidStore(s) && PendingIds(s) != []
    ensures var s' := MarkPublishedOne(s, PendingIds(s)[0], now);
            && ValidStore(s') && PendingIds(s') == PendingIds(s)[1..] && Backlog(s') == Backlog(s)[1..]
  {
    MarkedPending(s, now);
    PendingKnown(s);
    var s' := MarkPublishedOne(s, PendingIds(s)[0], now);
    PendingKnown(s');
    SameEvents(s, s', PendingIds(s)[1..]);
  }

  lemma SameEvents(s: Store, s': Store, ids: seq<string>)
    requires forall id | id in ids :: id in s.byId && id in s'.byId && s'.byId[id].event == s.byId[id].event
    ensures EventsOf(s, ids) == EventsOf(s', ids)
  {
  }

  lemma MarkKeepsInv(p: Pipe, now: int)
    requires Inv(p) && Enabled(p, Mark(now))
    ensures Inv(Apply(p, Mark(now)))
  {
    BatchHead(p);
    OutboxRelay.MarkKeepsInv(p.relay, now);
    MarkedBacklog(p.relay.store, now);
    HeadFirst(p.rows, Backlog(p.relay.store));
  }

  lemma StepKeepsInv(p: Pipe, step: Step)
    requires Inv(p) && Enabled(p, step)
    ensures Inv(Apply(p, step))
  {
    match step
    case Command(cmd) => CommandKeepsInv(p, cmd);
    case Fetch => FetchKeepsInv(p);
    case Publish(now) => PublishKeepsInv(p, now);
    case Mark(now) => MarkKeepsInv(p, now);
  }

  // ---------- every interleaving ----------

  predicate IsRun(p: Pipe, steps: seq<Step>)
    decreases |steps|
  {
    steps == [] || (Enabled(p, steps[0]) && IsRun(Apply(p, steps[0]), steps[1..]))
  }

  function Final(p: Pipe, steps: seq<Step>): Pipe
    requires IsRun(p, steps)
    decreases |steps|
  {
    if steps == [] then p else Final(Apply(p, steps[0]), steps[1..])
  }

  lemma {:induction false} RunKeepsInv(p: Pipe, steps: seq<Step>)
    requires Inv(p) && IsRun(p, steps)
    ensures Inv(Final(p, steps))
    decreases |steps|
  {
    if steps != [] {
      StepKeepsInv(p, steps[0]);
      RunKeepsInv(Apply(p, steps[0]), steps[1..]);
    }
  }

  lemma StartHolds(limit: int)
    ensures Inv(Start(limit))
  {
    var p := Start(limit);
    assert PendingIds(p.relay.store) == [];
    assert Backlog(p.relay.store) == [];
    assert Views(p.repo) == map[];
  }

  /** After every step of every interleaving, replaying the unpublished events in
      insertion order onto the read model gives exactly the view of every stored
      customer. */
  lemma ReadModelPlusBacklogIsWriteModel(limit: int, steps: seq<Step>)
    requires IsRun(Start(limit), steps)
    ensures var p := Final(Start(limit), steps);
            ValidStore(p.relay.store) && Replay(p.rows, Backlog(p.relay.store)) == Views(p.repo)
  {
    StartHolds(limit);
    RunKeepsInv(Start(limit), steps);
  }

  /** So once nothing is pending, the read model is the write model. */
  lemma CaughtUp(limit: int, steps: seq<Step>)
    requires IsRun(Start(limit), steps) && PendingIds(Final(Start(limit), steps).relay.store) == []
    ensures var p := Final(Start(limit), steps);
            p.rows == Views(p.repo)
  {
    ReadModelPlusBacklogIsWriteModel(limit, steps);
    assert Backlog(Final(Start(limit), steps).relay.store) == [];
  }

  // ---------- catching up ----------

  /** The relay steps still needed: at most a fetch, a publish and a mark each. */
  function Work(p: Pipe): int {
    var n := |PendingIds(p.relay.store)|;
    if n == 0 then 0 else 3 * n - (if p.relay.head.Delivered? then 2 else if p.relay.batch != [] then 1 else 0)
  }

  lemma FetchWorks(p: Pipe)
    requires Inv(p) && Enabled(p, Fetch)
    ensures Work(Apply(p, Fetch)) <= Work(p) - 1 || Work(Apply(p, Fetch)) == Work(p) == 0
  {
  }

  lemma PublishWorks(p: Pipe, now: int)
    requires Inv(p) && Enabled(p, Publish(now))
    ensures Work(Apply(p, Publish(now))) <= Work(p) - 1
  {
    BatchHead(p);
    PublishKeepsInv(p, now);
  }

  lemma MarkWorks(p: Pipe, now: int)
    requires Inv(p) && Enabled(p, Mark(now))
    ensures Work(Apply(p, Mark(now))) <= Work(p) - 1
  {
    BatchHead(p);
    MarkedPending(p.relay.store, now);
  }

  /** Without new commands every relay step is one step closer, until nothing is left. */
  lemma RelayWorks(p: Pipe, step: Step)
    requires Inv(p) && Enabled(p, step) && !step.Command?
    ensures Apply(p, step).repo == p.repo
    ensures Work(Apply(p, step)) <= Work(p) - 1 || Work(Apply(p, step)) == Work(p) == 0
  {
    match step
    case Fetch => FetchWorks(p);
    case Publish(now) => PublishWorks(p, now);
    case Mark(now) => MarkWorks(p, now);
  }

  /** The relay is never stuck. */
  lemma RelayEnabled(p: Pipe, now: int)
    requires Inv(p)
    ensures Enabled(p, Fetch) || Enabled(p, Publish(now)) || Enabled(p, Mark(now))
  {
    if p.relay.batch != [] { BatchHead(p); }
  }

  predicate RelayOnly(steps: seq<Step>) { forall i | 0 <= i < |steps| :: !steps[i].Command? }

  lemma {:induction false} EnoughWork(p: Pipe, steps: seq<Step>)
    requires Inv(p) && IsRun(p, steps) && RelayOnly(steps) && |steps| >= Work(p)
    ensures var q := Final(p, steps);
            Inv(q) && q.repo == p.repo && PendingIds(q.relay.store) == []
    decreases |steps|
  {
    if steps != [] {
      RelayWorks(p, steps[0]);
      StepKeepsInv(p, steps[0]);
      EnoughWork(Apply(p, steps[0]), steps[1..]);
    }
  }

  /** Once commands stop, any 3n relay steps, n events being pending, make the read
      model the write model. */
  lemma CatchesUp(limit: int, steps: seq<Step>, more: seq<Step>)
    requires IsRun(Start(limit), steps) && IsRun(Final(Start(limit), steps), more) && RelayOnly(more)
    requires |more| >= 3 * |PendingIds(Final(Start(limit), steps).relay.store)|
    ensures var p := Final(Start(limit), steps);
            Final(p, more).rows == Views(p.repo)
  {
    StartHolds(limit);
    RunKeepsInv(Start(limit), steps);
    var p := Final(Start(limit), steps);
    EnoughWork(p, more);
    assert Backlog(Final(p, more).relay.store) == [];
  }
}
