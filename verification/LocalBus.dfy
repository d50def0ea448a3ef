/** The in-process bus and the subscriptions of the default wiring. */
module LocalBus {
  import opened Prelude
  import opened Events
  import opened Projections

  /** The handlers the bootstrap registers. */
  datatype Handler = ReadCreated | ReadEmailChanged | ReadDeactivated | SendWelcome | ObserveOrder

  type Handlers = map<string, seq<Handler>>

  function HandlersOf(hs: Handlers, name: string): seq<Handler> { if name in hs then hs[name] else [] }

  /** What a handler does to the rows, and whether it returned nil. */
  function Invoke(h: Handler, rows: Rows, e: Event, now: int): (Rows, bool) {
    match h
    case ReadCreated => (Deliver(rows, e.(name := CUSTOMER_CREATED), now), !e.payload.NotJson?)
    case ReadEmailChanged => (Deliver(rows, e.(name := CUSTOMER_EMAIL_CHANGED), now), !e.payload.NotJson?)
    case ReadDeactivated => (Deliver(rows, e.(name := CUSTOMER_DEACTIVATED), now), !e.payload.NotJson?)
    case SendWelcome => (rows, !e.payload.NotJson?)
    case ObserveOrder => (rows, true)
  }

  /** Every handler runs, in subscription order, even after one failed. */
  function FanOut(hs: seq<Handler>, rows: Rows, e: Event, now: int): (Rows, bool)
    decreases |hs|
  {
    if hs == [] then (rows, true)
    else
      var (rows1, ok1) := FanOut(hs[..|hs| - 1], rows, e, now);
      var (rows2, ok2) := Invoke(hs[|hs| - 1], rows1, e, now);
      (rows2, ok1 && ok2)
  }

  function PublishAll(hs: Handlers, rows: Rows, events: seq<Event>, now: int): (Rows, bool)
    decreases |events|
  {
    if events == [] then (rows, true)
    else
      var (rows1, ok1) := PublishAll(hs, rows, events[..|events| - 1], now);
      var e := events[|events| - 1];
      var (rows2, ok2) := FanOut(HandlersOf(hs, e.name), rows1, e, now);
      (rows2, ok1 && ok2)
  }

  lemma FanOutNext(hs: seq<Handler>, rows: Rows, e: Event, k: nat, now: int)
    requires k < |hs|
    ensures var (rows1, ok1) := FanOut(hs[..k], rows, e, now);
            var (rows2, ok2) := Invoke(hs[k], rows1, e, now);
            FanOut(hs[..k + 1], rows, e, now) == (rows2, ok1 && ok2)
  {
    assert hs[..k + 1][..k] == hs[..k];
  }

  lemma PublishNext(hs: Handlers, rows: Rows, events: seq<Event>, i: nat, now: int)
    requires i < |events|
    ensures var (rows1, ok1) := PublishAll(hs, rows, events[..i], now);
            var (rows2, ok2) := FanOut(HandlersOf(hs, events[i].name), rows1, events[i], now);
            PublishAll(hs, rows, events[..i + 1], now) == (rows2, ok1 && ok2)
  {
    assert events[..i + 1][..i] == events[..i];
  }

  /** Every handler runs, whatever the ones before it returned: fanning out to two lists
      is fanning out to the one and then to the other. */
  lemma {:induction false} FanOutConcat(a: seq<Handler>, b: seq<Handler>, rows: Rows, e: Event, now: int)
    ensures var (rows1, ok1) := FanOut(a, rows, e, now);
            var (rows2, ok2) := FanOut(b, rows1, e, now);
            FanOut(a + b, rows, e, now) == (rows2, ok1 && ok2)
    decreases |b|
  {
    if b == [] {
      assert a + b == a;
    } else {
      FanOutConcat(a, b[..|b| - 1], rows, e, now);
      assert (a + b)[..|a + b| - 1] == a + b[..|b| - 1];
    }
  }

  /** And every event is delivered, whatever happened to the ones before it. */
  lemma {:induction false} PublishConcat(hs: Handlers, a: seq<Event>, b: seq<Event>, rows: Rows, now: int)
    ensures var (rows1, ok1) := PublishAll(hs, rows, a, now);
            var (rows2, ok2) := PublishAll(hs, rows1, b, now);
            PublishAll(hs, rows, a + b, now) == (rows2, ok1 && ok2)
    decreases |b|
  {
    if b == [] {
      assert a + b == a;
    } else {
      PublishConcat(hs, a, b[..|b| - 1], rows, now);
      assert (a + b)[..|a + b| - 1] == a + b[..|b| - 1];
    }
  }

  /** The result is nil if and only if no handler that reads the payload met one that
      does not parse; and the rows are then untouched. */
  lemma {:induction false} FanOutReports(hs: seq<Handler>, rows: Rows, e: Event, now: int)
    ensures FanOut(hs, rows, e, now).1 <==> !e.payload.NotJson? || forall h | h in hs :: h == ObserveOrder
    ensures e.payload.NotJson? ==> FanOut(hs, rows, e, now).0 == rows
    decreases |hs|
  {
    if hs != [] {
      var n := |hs| - 1;
      FanOutReports(hs[..n], rows, e, now);
      assert hs[n] in hs && forall h | h in hs :: h in hs[..n] || h == hs[n];
      assert forall h | h in hs[..n] :: h in hs;
    }
  }

  class Bus {
    var handlers: Handlers

    constructor ()
      ensures handlers == map[]
    {
      handlers := map[];
    }

    method Subscribe(eventName: string, handler: Option<Handler>) returns (ok: bool)
      modifies this
      ensures ok <==> eventName != "" && handler.Some?
      ensures ok ==> handlers == old(handlers)[eventName := HandlersOf(old(handlers), eventName) + [handler.value]]
      ensures !ok ==> handlers == old(handlers)
    {
      if eventName == "" || handler.None? {
        return false;
      }
      handlers := handlers[eventName := (if eventName in handlers then handlers[eventName] else []) + [handler.value]];
      return true;
    }

    /** Publishes in order; the result is nil exactly when every handler's was. */
    method Publish(model: MemoryReadModel, events: seq<Event>, now: int) returns (ok: bool)
      requires model.Valid()
      modifies model
      ensures model.Valid()
      ensures (model.rows, ok) == PublishAll(handlers, old(model.rows), events, now)
    {
      var errs := 0;
      for i := 0 to |events|
        invariant model.Valid() && errs >= 0
        invariant (model.rows, errs == 0) == PublishAll(handlers, old(model.rows), events[..i], now)
      {
        PublishNext(handlers, old(model.rows), events, i, now);
        var e := events[i];
        var hs := if e.name in handlers then handlers[e.name] else [];
        ghost var rows0, errs0 := model.rows, errs;
        for k := 0 to |hs|
          invariant model.Valid() && errs >= errs0
          invariant (model.rows, errs == errs0) == FanOut(hs[..k], rows0, e, now)
        {
          FanOutNext(hs, rows0, e, k, now);
          var returnedNil := Run(hs[k], model, e, now);
          if !returnedNil {
            errs := errs + 1;
          }
        }
        assert hs[..|hs|] == hs;
      }
      assert events[..|events|] == events;
      return errs == 0;
    }

    method Run(h: Handler, model: MemoryReadModel, e: Event, now: int) returns (ok: bool)
      requires model.Valid()
      modifies model
      ensures model.Valid() && (model.rows, ok) == Invoke(h, old(model.rows), e, now)
    {
      match h
      case ReadCreated => ok := model.OnCreated(e.(name := CUSTOMER_CREATED), now);
      case ReadEmailChanged => ok := model.OnEmailChanged(e.(name := CUSTOMER_EMAIL_CHANGED), now);
      case ReadDeactivated => ok := model.OnDeactivated(e.(name := CUSTOMER_DEACTIVATED), now);
      case SendWelcome => ok := !e.payload.NotJson?;
      case ObserveOrder => ok := true;
    }
  }

  /** The subscriptions after start-up: the read model's three, the customer
      context's reaction to orders, and the welcome notification. */
  const WIRED: Handlers :=
    map[CUSTOMER_CREATED := [ReadCreated, SendWelcome],
        CUSTOMER_EMAIL_CHANGED := [ReadEmailChanged],
        CUSTOMER_DEACTIVATED := [ReadDeactivated],
        ORDER_PLACED := [ObserveOrder]]

  /** Registering in start-up order gives that table. */
  method Wire(bus: Bus) returns (ok: bool)
    requires bus.handlers == map[]
    modifies bus
    ensures ok && bus.handlers == WIRED
  {
    NamesDiffer();
    assert CUSTOMER_CREATED != "" && CUSTOMER_EMAIL_CHANGED != "" && CUSTOMER_DEACTIVATED != "" && ORDER_PLACED != "";
    var a := bus.Subscribe(CUSTOMER_CREATED, Some(ReadCreated));
    var b := bus.Subscribe(CUSTOMER_EMAIL_CHANGED, Some(ReadEmailChanged));
    var c := bus.Subscribe(CUSTOMER_DEACTIVATED, Some(ReadDeactivated));
    var d := bus.Subscribe(ORDER_PLACED, Some(ObserveOrder));
    assert HandlersOf(bus.handlers, CUSTOMER_CREATED) == [ReadCreated];
    var e := bus.Subscribe(CUSTOMER_CREATED, Some(SendWelcome));
    assert bus.handlers[CUSTOMER_CREATED] == [ReadCreated, SendWelcome];
    assert bus.handlers[CUSTOMER_EMAIL_CHANGED] == [ReadEmailChanged];
    assert bus.handlers[CUSTOMER_DEACTIVATED] == [ReadDeactivated];
    assert bus.handlers[ORDER_PLACED] == [ObserveOrder];
    ok := a && b && c && d && e;
  }

  /** A customer event with a payload that parses. */
  predicate CustomerEvent(e: Event) {
    && e.name in {CUSTOMER_CREATED, CUSTOMER_EMAIL_CHANGED, CUSTOMER_DEACTIVATED}
    && !e.payload.NotJson? && e.occurredAt != 0
  }

  lemma FanOutOne(h: Handler, rows: Rows, e: Event, now: int)
    ensures FanOut([h], rows, e, now) == Invoke(h, rows, e, now)
  {
    assert [h][..0] == [];
  }

  /** Publishing a mapped customer event through the wired bus always succeeds and
      is exactly one projection step. */
  lemma WiredPublish(rows: Rows, e: Event, now: int)
    requires CustomerEvent(e)
    ensures PublishAll(WIRED, rows, [e], now) == (Project(rows, e), true)
  {
    NamesDiffer();
    assert [e][..0] == [];
    assert PublishAll(WIRED, rows, [e], now) == FanOut(HandlersOf(WIRED, e.name), rows, e, now);
    ClockIsIrrelevant(rows, e, now);
    if e.name == CUSTOMER_CREATED {
      var hs := [ReadCreated, SendWelcome];
      assert hs[..1] == [ReadCreated];
      FanOutOne(ReadCreated, rows, e, now);
      assert HandlersOf(WIRED, e.name) == hs;
      assert e.(name := CUSTOMER_CREATED) == e;
    } else if e.name == CUSTOMER_EMAIL_CHANGED {
      FanOutOne(ReadEmailChanged, rows, e, now);
      assert e.(name := CUSTOMER_EMAIL_CHANGED) == e;
    } else {
      FanOutOne(ReadDeactivated, rows, e, now);
      assert e.(name := CUSTOMER_DEACTIVATED) == e;
    }
  }
}
