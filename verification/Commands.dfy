/** The command handlers over the in-memory repository and the outbox. The unit of
    work of this wiring runs its function and does no rollback. */
module Commands {
  import opened Prelude
  import opened Email
  import opened Customer
  import opened Messaging
  import opened Outbox
  import opened Repository

  datatype World = World(repo: Repo, store: Store)

  /** `newId`, `eventId` and `now` are what the id generators and the clock return. */
  datatype Command =
    | CreateCustomer(name: string, email: string, newId: string, eventId: string, now: int)
    | ChangeCustomerEmail(id: string, newEmail: string, eventId: string, now: int)

  /** `ids` are the fresh ids of the recorded events, one each. */
  function Persisted(w: World, c: State, ids: seq<string>, now: int): (World, Option<DomainError>)
    requires |ids| == |c.events|
  {
    match Saved(w.repo, ToSnapshot(c))
    case Err(e) => (w, Some(e))
    case Ok(repo) =>
      (World(repo, AddAll(w.store, Mapped(c.events, ids), now)), None)
  }

  function Created(w: World, name: string, email: string, newId: string, eventId: string, now: int)
    : (World, Option<DomainError>)
  {
    match NewEmail(email)
    case Err(e) => (w, Some(e))
    case Ok(address) => CreatedAt(w, name, address, newId, eventId, now)
  }

  function CreatedAt(w: World, name: string, address: string, newId: string, eventId: string, now: int)
    : (World, Option<DomainError>)
  {
    if newId == "" then (w, Some(Validation))
    else if address in w.repo.byEmail then (w, Some(Conflict))
    else
      match Registered(newId, name, address, now)
      case Err(e) => (w, Some(e))
      case Ok(c) => Persisted(w, c, [eventId], now)
  }

  function EmailChanged(w: World, id: string, newEmail: string, eventId: string, now: int)
    : (World, Option<DomainError>)
  {
    if id == "" then (w, Some(Validation))
    else
      match NewEmail(newEmail)
      case Err(e) => (w, Some(e))
      case Ok(address) =>
        if id !in w.repo.byId then (w, Some(NotFound))
        else
          match FromSnapshot(w.repo.byId[id])
          case Err(e) => (w, Some(e))
          case Ok(c) => MovedTo(w, c, address, eventId, now)
  }

  function MovedTo(w: World, c: State, address: string, eventId: string, now: int): (World, Option<DomainError>)
    requires c.events == []
  {
    if c.email == address then (w, None)
    else if address in w.repo.byEmail then (w, Some(Conflict))
    else
      match WithEmail(c, address, now)
      case Err(e) => (w, Some(e))
      case Ok(c') => Persisted(w, c', [eventId], now)
  }

  function Execute(w: World, cmd: Command): (World, Option<DomainError>) {
    match cmd
    case CreateCustomer(name, email, newId, eventId, now) => Created(w, name, email, newId, eventId, now)
    case ChangeCustomerEmail(id, newEmail, eventId, now) => EmailChanged(w, id, newEmail, eventId, now)
  }

  class Handlers {
    const repo: MemoryRepository
    const events: Dispatcher

    constructor (repo: MemoryRepository, events: Dispatcher)
      ensures this.repo == repo && this.events == events
    {
      this.repo := repo;
      this.events := events;
    }

    function Now(): World
      reads repo, events.store
    {
      World(repo.Value(), events.store.Value())
    }

    method HandleCreate(name: string, email: string, newId: string, eventId: string, now: int)
      returns (err: Option<DomainError>)
      requires events.store.Valid()
      modifies repo, events.store
      ensures events.store.Valid()
      ensures (Now(), err) == Created(old(Now()), name, email, newId, eventId, now)
    {
      var address := NewEmail(email);
      if address.Err? {
        return Some(address.error);
      }
      var id := NewCustomerID(newId);
      if id.Err? {
        return Some(id.error);
      }
      var taken := repo.ExistsByEmail(address.value);
      if taken {
        return Some(Conflict);
      }
      var customer := NewCustomer(id.value, name, address.value, now);
      if customer.Err? {
        return Some(customer.error);
      }
      err := SaveAndPublish(customer.value, [eventId], now);
    }

    method HandleChangeEmail(customerId: string, newEmail: string, eventId: string, now: int)
      returns (err: Option<DomainError>)
      requires events.store.Valid()
      modifies repo, events.store
      ensures events.store.Valid()
      ensures (Now(), err) == EmailChanged(old(Now()), customerId, newEmail, eventId, now)
    {
      var id := NewCustomerID(customerId);
      if id.Err? {
        return Some(id.error);
      }
      var address := NewEmail(newEmail);
      if address.Err? {
        return Some(address.error);
      }
      var found := repo.FindByID(id.value);
      if found.Err? {
        return Some(found.error);
      }
      if found.value.email == address.value {
        return None;
      }
      var taken := repo.ExistsByEmail(address.value);
      if taken {
        return Some(Conflict);
      }
      var customer := new Customer(found.value);
      var refused := customer.ChangeEmail(address.value, now);
      if refused.Some? {
        return refused;
      }
      err := SaveAndPublish(customer, [eventId], now);
    }

    method SaveAndPublish(customer: Customer, ids: seq<string>, now: int) returns (err: Option<DomainError>)
      requires events.store.Valid() && |ids| == |customer.events|
      modifies repo, events.store, customer
      ensures events.store.Valid()
      ensures (Now(), err) == Persisted(old(Now()), old(customer.Value()), ids, now)
    {
      err := repo.Save(customer.Value());
      if err.Some? {
        return;
      }
      var pulled := customer.PullEvents();
      events.Publish(pulled, ids, now);
    }
  }

  /** A command that reports an error has changed nothing, although nothing is
      rolled back. */
  lemma FailedCommandChangesNothing(w: World, cmd: Command)
    requires Execute(w, cmd).1.Some?
    ensures Execute(w, cmd).0 == w
  {
    match cmd
    case CreateCustomer(name, email, newId, eventId, now) => FailedCreate(w, name, email, newId, eventId, now);
    case ChangeCustomerEmail(id, newEmail, eventId, now) => FailedChange(w, id, newEmail, eventId, now);
  }

  lemma FailedCreate(w: World, name: string, email: string, newId: string, eventId: string, now: int)
    requires Created(w, name, email, newId, eventId, now).1.Some?
    ensures Created(w, name, email, newId, eventId, now).0 == w
  {
  }

  lemma FailedChange(w: World, id: string, newEmail: string, eventId: string, now: int)
    requires EmailChanged(w, id, newEmail, eventId, now).1.Some?
    ensures EmailChanged(w, id, newEmail, eventId, now).0 == w
  {
  }

  // ---------- what every command keeps ----------

  /** Every stored snapshot reloads. */
  predicate AllSound(r: Repo) {
    forall id | id in r.byId :: SoundSnapshot(r.byId[id])
  }

  predicate SoundSnapshot(s: Snapshot) {
    s.id != "" && IsEmail(s.email) && ParseStatus(s.status).Ok? && s.version >= 1
  }

  predicate Inv(w: World) { Indexed(w.repo) && AllSound(w.repo) && ValidStore(w.store) }

  /** Generated ids are new. */
  predicate Fresh(w: World, cmd: Command) {
    cmd.eventId !in w.store.byId && (cmd.CreateCustomer? ==> cmd.newId !in w.repo.byId)
  }

  /** What an effective command does: one sound customer saved under a free address
      and exactly one event appended. */
  predicate Effective(w: World, c: State, cmd: Command, w': World) {
    && Sound(c) && |c.events| == 1 && c.events[0] != Unpublished(c.id)
    && ToIntegrationEvent(c.events[0], cmd.eventId).Some?
    && c.email !in w.repo.byEmail
    && (c.id in w.repo.byId ==> w.repo.byId[c.id].version < c.version)
    && Saved(w.repo, ToSnapshot(c)) == Ok(w'.repo)
    && w'.store == AddOne(w.store, ToIntegrationEvent(c.events[0], cmd.eventId).value, cmd.now)
  }

  lemma PersistOne(w: World, c: State, eventId: string, now: int)
    requires |c.events| == 1 && ToIntegrationEvent(c.events[0], eventId).Some?
    requires Saved(w.repo, ToSnapshot(c)).Ok?
    ensures Persisted(w, c, [eventId], now)
         == (World(Saved(w.repo, ToSnapshot(c)).value, AddOne(w.store, ToIntegrationEvent(c.events[0], eventId).value, now)), None)
  {
    var e := ToIntegrationEvent(c.events[0], eventId).value;
    var ids := [eventId];
    assert c.events[..0] == [] && ids[..0] == [];
    assert Mapped(c.events, ids) == [e];
    assert [e][..0] == [];
    assert AddAll(w.store, [e], now) == AddOne(w.store, e, now);
  }

  /** The customer a successful create stores. */
  lemma CreateShape(w: World, cmd: Command)
    requires cmd.CreateCustomer? && Fresh(w, cmd) && Execute(w, cmd).1.None?
    ensures NewEmail(cmd.email).Ok? && Registered(cmd.newId, cmd.name, NewEmail(cmd.email).value, cmd.now).Ok?
    ensures Effective(w, Registered(cmd.newId, cmd.name, NewEmail(cmd.email).value, cmd.now).value, cmd, Execute(w, cmd).0)
  {
    var c := Registered(cmd.newId, cmd.name, NewEmail(cmd.email).value, cmd.now).value;
    NewEmailIdempotent(cmd.email);
    PersistOne(w, c, cmd.eventId, cmd.now);
  }

  /** The customer a successful, effective email change stores. */
  lemma ChangeShape(w: World, cmd: Command)
    requires Inv(w) && cmd.ChangeCustomerEmail? && Execute(w, cmd).1.None? && Execute(w, cmd).0 != w
    ensures cmd.id in w.repo.byId && FromSnapshot(w.repo.byId[cmd.id]).Ok? && NewEmail(cmd.newEmail).Ok?
    ensures var c := FromSnapshot(w.repo.byId[cmd.id]).value;
            && c.email != NewEmail(cmd.newEmail).value && c.status == Active
            && WithEmail(c, NewEmail(cmd.newEmail).value, cmd.now).Ok?
            && Effective(w, WithEmail(c, NewEmail(cmd.newEmail).value, cmd.now).value, cmd, Execute(w, cmd).0)
  {
    var snap := w.repo.byId[cmd.id];
    assert SoundSnapshot(snap);
    Reloaded(snap);
    NewEmailIdempotent(cmd.newEmail);
    var address := NewEmail(cmd.newEmail).value;
    var c := FromSnapshot(snap).value;
    assert c.email != address && address !in w.repo.byEmail && c.status == Active;
    ChangeIsEffective(w, c, address, cmd);
  }

  /** A sound snapshot reloads to what it says. */
  lemma Reloaded(snap: Snapshot)
    requires SoundSnapshot(snap)
    ensures FromSnapshot(snap) == Ok(State(snap.id, snap.name, snap.email, ParseStatus(snap.status).value,
                                           snap.createdAt, snap.version, []))
    ensures ToSnapshot(FromSnapshot(snap).value) == snap
  {
  }

  lemma ChangeIsEffective(w: World, c: State, address: string, cmd: Command)
    requires Indexed(w.repo) && c.id in w.repo.byId && w.repo.byId[c.id].version == c.version
    requires c.events == [] && c.id != "" && c.version >= 1
    requires c.status == Active && c.email != address && IsEmail(address) && address !in w.repo.byEmail
    ensures var c' := WithEmail(c, address, cmd.now).value;
            Effective(w, c', cmd, Persisted(w, c', [cmd.eventId], cmd.now).0)
  {
    var c' := WithEmail(c, address, cmd.now).value;
    assert c'.events == [CustomerEmailChanged(c.id, c.email, c'.email, cmd.now)];
    PersistOne(w, c', cmd.eventId, cmd.now);
  }

  lemma EffectiveKeepsInv(w: World, c: State, cmd: Command, w': World)
    requires Inv(w) && Effective(w, c, cmd, w')
    ensures Inv(w')
  {
    SaveKeepsIndexExactly(w.repo, ToSnapshot(c));
    AddOneValid(w.store, ToIntegrationEvent(c.events[0], cmd.eventId).value, cmd.now);
    SnapshotRoundTrip(c);
    assert SoundSnapshot(ToSnapshot(c));
  }

  /** Every command keeps the index exact, the snapshots loadable and the outbox
      well-formed. */
  lemma CommandKeepsInv(w: World, cmd: Command)
    requires Inv(w) && Fresh(w, cmd)
    ensures Inv(Execute(w, cmd).0)
  {
    if Execute(w, cmd).1.Some? {
      FailedCommandChangesNothing(w, cmd);
    } else if Execute(w, cmd).0 != w {
      if cmd.CreateCustomer? {
        CreateShape(w, cmd);
        EffectiveKeepsInv(w, Registered(cmd.newId, cmd.name, NewEmail(cmd.email).value, cmd.now).value, cmd, Execute(w, cmd).0);
      } else {
        ChangeShape(w, cmd);
        var c := FromSnapshot(w.repo.byId[cmd.id]).value;
        EffectiveKeepsInv(w, WithEmail(c, NewEmail(cmd.newEmail).value, cmd.now).value, cmd, Execute(w, cmd).0);
      }
    }
  }

  predicate AllFresh(w: World, cmds: seq<Command>)
    decreases |cmds|
  {
    cmds == [] || (Fresh(w, cmds[0]) && AllFresh(Execute(w, cmds[0]).0, cmds[1..]))
  }

  function ExecuteAll(w: World, cmds: seq<Command>): World
    decreases |cmds|
  {
    if cmds == [] then w else ExecuteAll(Execute(w, cmds[0]).0, cmds[1..])
  }

  lemma {:induction false} RunKeepsInv(w: World, cmds: seq<Command>)
    requires Inv(w) && AllFresh(w, cmds)
    ensures Inv(ExecuteAll(w, cmds))
    decreases |cmds|
  {
    if cmds != [] {
      CommandKeepsInv(w, cmds[0]);
      RunKeepsInv(Execute(w, cmds[0]).0, cmds[1..]);
    }
  }

  /** Over every run of commands the email index answers exactly what a scan would,
      and no two customers share an address. */
  lemma EmailsStayUnique(cmds: seq<Command>)
    requires AllFresh(World(Repo(map[], map[]), Store([], map[])), cmds)
    ensures var r := ExecuteAll(World(Repo(map[], map[]), Store([], map[])), cmds).repo;
            && Indexed(r)
            && (forall email :: email in r.byEmail <==> Taken(r, email))
            && (forall a, b | a in r.byId && b in r.byId && r.byId[a].email == r.byId[b].email :: a == b)
  {
    var w := World(Repo(map[], map[]), Store([], map[]));
    RunKeepsInv(w, cmds);
    IndexAnswersScan(ExecuteAll(w, cmds).repo);
  }
}
