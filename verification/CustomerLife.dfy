/** The aggregate over its whole life: every sequence of calls, pulls and snapshot
    reloads after registration. */
module CustomerLife {
  import opened Prelude
  import opened Events
  import opened Email
  import opened Customer
  import opened Messaging
  import opened Projections

  datatype Op = ChangeTo(email: string, at: int) | Disable(reason: string, at: int) | Pull | Reload

  /** The current state and every event ever recorded. */
  datatype Life = Life(state: State, recorded: seq<DomainEvent>)

  predicate Possible(op: Op) { op.ChangeTo? ==> IsEmail(op.email) }

  function Apply(l: Life, op: Op): Life {
    match op
    case ChangeTo(email, at) =>
      (match WithEmail(l.state, email, at)
       case Ok(s) => Life(s, l.recorded + NewEvents(l.state, s))
       case Err(_) => l)
    case Disable(reason, at) =>
      var s := WithDeactivation(l.state, reason, at);
      Life(s, l.recorded + NewEvents(l.state, s))
    case Pull => l.(state := l.state.(events := []))
    case Reload => (match FromSnapshot(ToSnapshot(l.state)) case Ok(s) => l.(state := s) case Err(_) => l)
  }

  function NewEvents(before: State, after: State): seq<DomainEvent> {
    if |before.events| <= |after.events| then after.events[|before.events|..] else []
  }

  function Lived(l: Life, ops: seq<Op>): Life
    decreases |ops|
  {
    if ops == [] then l else Apply(Lived(l, ops[..|ops| - 1]), ops[|ops| - 1])
  }

  function ViewOf(s: State): Row {
    Row(s.id, s.name, s.email, if s.status == Deactivated then INACTIVE else ACTIVE, s.createdAt)
  }

  /** Folding the recorded events through the mapping and the projection gives the
      customer's row and nothing else. */
  ghost predicate Mirrors(l: Life) {
    forall ids: seq<string> | |ids| == |l.recorded| ::
      Replay(map[], Mapped(l.recorded, ids)) == map[l.state.id := ViewOf(l.state)]
  }

  ghost predicate Inv(l: Life) {
    Sound(l.state) && l.state.version == |l.recorded| && Mirrors(l)
  }

  lemma Recorded(l: Life, s: State, d: DomainEvent)
    requires Mirrors(l) && s.id == l.state.id
    requires forall eid :: ToIntegrationEvent(d, eid).Some? &&
                           Project(map[l.state.id := ViewOf(l.state)], ToIntegrationEvent(d, eid).value)
                           == map[s.id := ViewOf(s)]
    ensures Mirrors(Life(s, l.recorded + [d]))
  {
    var all := l.recorded + [d];
    forall ids: seq<string> | |ids| == |all| ensures Replay(map[], Mapped(all, ids)) == map[s.id := ViewOf(s)] {
      var n := |l.recorded|;
      var es := Mapped(l.recorded, ids[..n]);
      var e := ToIntegrationEvent(d, ids[n]).value;
      MappedSnoc(l.recorded, d, ids, e);
      ReplaySnoc(map[], es, e);
      assert Replay(map[], es) == map[l.state.id := ViewOf(l.state)];
    }
  }

  lemma MappedSnoc(ds: seq<DomainEvent>, d: DomainEvent, ids: seq<string>, e: Event)
    requires |ids| == |ds| + 1 && ToIntegrationEvent(d, ids[|ds|]) == Some(e)
    ensures Mapped(ds + [d], ids) == Mapped(ds, ids[..|ds|]) + [e]
  {
    var all := ds + [d];
    var n := |all| - 1;
    assert all != [] && all[..n] == ds && all[n] == d;
    assert Mapped(all, ids) == Mapped(all[..n], ids[..n]) + [e];
  }

  lemma ReplaySnoc(rows: Rows, es: seq<Event>, e: Event)
    ensures Replay(rows, es + [e]) == Project(Replay(rows, es), e)
  {
    assert (es + [e])[..|es|] == es;
  }

  lemma EmailProjects(row: Row, oldEmail: string, email: string, at: int, eventId: string)
    ensures var d := CustomerEmailChanged(row.id, oldEmail, email, at);
            Project(map[row.id := row], ToIntegrationEvent(d, eventId).value) == map[row.id := row.(email := email)]
  {
    NamesDiffer();
  }

  lemma DisableProjects(row: Row, reason: string, at: int, eventId: string)
    ensures var d := CustomerDeactivated(row.id, reason, at);
            Project(map[row.id := row], ToIntegrationEvent(d, eventId).value) == map[row.id := row.(status := INACTIVE)]
  {
    NamesDiffer();
  }

  lemma EmailStep(l: Life, email: string, at: int)
    requires Mirrors(l) && l.state.status == Active && l.state.email != email
    ensures var l' := Apply(l, ChangeTo(email, at));
            Mirrors(l') && |l'.recorded| == |l.recorded| + 1
    ensures WithEmail(l.state, email, at).value == Apply(l, ChangeTo(email, at)).state
  {
    var s := WithEmail(l.state, email, at).value;
    var d := CustomerEmailChanged(l.state.id, l.state.email, email, at);
    assert NewEvents(l.state, s) == [d];
    forall eid ensures ToIntegrationEvent(d, eid).Some? &&
                       Project(map[l.state.id := ViewOf(l.state)], ToIntegrationEvent(d, eid).value)
                       == map[s.id := ViewOf(s)]
    {
      EmailProjects(ViewOf(l.state), l.state.email, email, at, eid);
    }
    Recorded(l, s, d);
  }

  lemma DisableStep(l: Life, reason: string, at: int)
    requires Mirrors(l) && l.state.status == Active
    ensures var l' := Apply(l, Disable(reason, at));
            Mirrors(l') && |l'.recorded| == |l.recorded| + 1
  {
    var s := WithDeactivation(l.state, reason, at);
    var d := CustomerDeactivated(l.state.id, reason, at);
    assert NewEvents(l.state, s) == [d];
    forall eid ensures ToIntegrationEvent(d, eid).Some? &&
                       Project(map[l.state.id := ViewOf(l.state)], ToIntegrationEvent(d, eid).value)
                       == map[s.id := ViewOf(s)]
    {
      DisableProjects(ViewOf(l.state), reason, at, eid);
    }
    Recorded(l, s, d);
  }

  lemma StepKeepsInv(l: Life, op: Op)
    requires Inv(l) && Possible(op)
    ensures Inv(Apply(l, op))
  {
    match op
    case ChangeTo(email, at) =>
      if l.state.status == Active && l.state.email != email {
        EmailStep(l, email, at);
      } else {
        assert Apply(l, op) == l by { assert l.recorded + [] == l.recorded; }
      }
    case Disable(reason, at) =>
      if l.state.status == Active {
        DisableStep(l, reason, at);
      } else {
        assert Apply(l, op) == l by { assert l.recorded + [] == l.recorded; }
      }
    case Pull => SameButEvents(l, Apply(l, op).state);
    case Reload =>
      SnapshotRoundTrip(l.state);
      SameButEvents(l, l.state.(events := []));
  }

  lemma SameButEvents(l: Life, s: State)
    requires Mirrors(l) && s.(events := []) == l.state.(events := [])
    ensures Mirrors(l.(state := s))
  {
    assert ViewOf(s) == ViewOf(l.state);
  }

  lemma {:induction false} LivedKeepsInv(l: Life, ops: seq<Op>)
    requires Inv(l) && forall i | 0 <= i < |ops| :: Possible(ops[i])
    ensures Inv(Lived(l, ops))
    decreases |ops|
  {
    if ops != [] {
      LivedKeepsInv(l, ops[..|ops| - 1]);
      StepKeepsInv(Lived(l, ops[..|ops| - 1]), ops[|ops| - 1]);
    }
  }

  /** From registration on, for every sequence of operations: the version counts
      the events ever recorded, the mapped events fold to the current state, and
      a snapshot reloads to the same state. */
  lemma LifeHolds(id: string, name: string, raw: string, at: int, ops: seq<Op>)
    requires NewEmail(raw).Ok? && Registered(id, name, NewEmail(raw).value, at).Ok?
    requires forall i | 0 <= i < |ops| :: Possible(ops[i])
    ensures var s := Registered(id, name, NewEmail(raw).value, at).value;
            var l := Lived(Life(s, s.events), ops);
            && l.state.version == |l.recorded| && Mirrors(l)
            && FromSnapshot(ToSnapshot(l.state)) == Ok(l.state.(events := []))
  {
    NewEmailIdempotent(raw);
    BornSound(id, name, NewEmail(raw).value, at);
    var s := Registered(id, name, NewEmail(raw).value, at).value;
    LivedKeepsInv(Life(s, s.events), ops);
    SnapshotRoundTrip(Lived(Life(s, s.events), ops).state);
  }

  lemma BornSound(id: string, name: string, email: string, at: int)
    requires IsEmail(email) && Registered(id, name, email, at).Ok?
    ensures var s := Registered(id, name, email, at).value;
            Inv(Life(s, s.events))
  {
    var s := Registered(id, name, email, at).value;
    RegisteredMirrors(s, Life(s, s.events));
  }

  lemma RegisteredMirrors(s: State, l: Life)
    requires l == Life(s, [CustomerCreated(s.id, s.name, s.email, s.createdAt)]) && s.status == Active
    ensures Mirrors(l)
  {
    var d := CustomerCreated(s.id, s.name, s.email, s.createdAt);
    forall ids: seq<string> | |ids| == 1 ensures Replay(map[], Mapped(l.recorded, ids)) == map[s.id := ViewOf(s)] {
      var e := ToIntegrationEvent(d, ids[0]).value;
      MappedOne(d, ids, e);
      ReplayOne(map[], e);
      CreatedRow(s, ids[0]);
    }
  }

  lemma MappedOne(d: DomainEvent, ids: seq<string>, e: Event)
    requires |ids| == 1 && ToIntegrationEvent(d, ids[0]) == Some(e)
    ensures Mapped([d], ids) == [e]
  {
    MappedSnoc([], d, ids, e);
    assert [] + [d] == [d] && ids[..0] == [];
  }

  lemma ReplayOne(rows: Rows, e: Event)
    ensures Replay(rows, [e]) == Project(rows, e)
  {
    ReplaySnoc(rows, [], e);
    assert [] + [e] == [e];
  }

  lemma CreatedRow(s: State, eventId: string)
    requires s.status == Active
    ensures Project(map[], ToIntegrationEvent(CustomerCreated(s.id, s.name, s.email, s.createdAt), eventId).value)
         == map[s.id := ViewOf(s)]
  {
  }

  /** Once deactivated, nothing but the event buffer ever changes again. */
  lemma {:induction false} DeactivationAbsorbs(l: Life, ops: seq<Op>)
    requires Sound(l.state) && l.state.status == Deactivated
    ensures var m := Lived(l, ops);
            m.recorded == l.recorded && m.state.(events := []) == l.state.(events := [])
    decreases |ops|
  {
    if ops != [] {
      DeactivationAbsorbs(l, ops[..|ops| - 1]);
      var m := Lived(l, ops[..|ops| - 1]);
      assert Sound(m.state);
      SnapshotRoundTrip(m.state);
      assert m.recorded + [] == m.recorded;
    }
  }
}
