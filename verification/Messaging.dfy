/** Mapping of domain events to integration events, and the dispatcher that puts
    them in the outbox. */
module Messaging {
  import opened Prelude
  import opened Events
  import opened Customer
  import opened Ids
  import opened Outbox

  const SOURCE := "customer"

  /** `eventId` is the fresh id of the envelope. */
  function ToIntegrationEvent(d: DomainEvent, eventId: string): Option<Event> {
    match d
    case CustomerCreated(id, name, email, at) =>
      Some(Event(eventId, CUSTOMER_CREATED, SOURCE, id, at, 1, CreatedV1(id, name, email)))
    case CustomerEmailChanged(id, oldEmail, newEmail, at) =>
      Some(Event(eventId, CUSTOMER_EMAIL_CHANGED, SOURCE, id, at, 1, EmailChangedV1(id, oldEmail, newEmail)))
    case CustomerDeactivated(id, reason, at) =>
      Some(Event(eventId, CUSTOMER_DEACTIVATED, SOURCE, id, at, 1, DeactivatedV1(id, reason)))
    case Unpublished(_) => None
  }

  /** The integration events of a list of domain events; unmapped ones drop out. */
  function Mapped(ds: seq<DomainEvent>, ids: seq<string>): seq<Event>
    requires |ids| == |ds|
    decreases |ds|
  {
    if ds == [] then []
    else
      var n := |ds| - 1;
      Mapped(ds[..n], ids[..n]) +
      (match ToIntegrationEvent(ds[n], ids[n]) case Some(e) => [e] case None => [])
  }

  /** What the envelope of a domain event says: its own fresh id, the aggregate's id, the
      context as source, schema version 1, the time, and the event's data under the
      event's name. Only unpublished kinds have none. */
  lemma EnvelopeExactly(d: DomainEvent, eventId: string)
    ensures ToIntegrationEvent(d, eventId).None? <==> d.Unpublished?
    ensures ToIntegrationEvent(d, eventId).Some? ==>
              var e := ToIntegrationEvent(d, eventId).value;
              && e.id == eventId && e.aggregateId == d.id && e.source == "customer" && e.version == 1 && e.occurredAt == d.at
              && (d.CustomerCreated? ==> e.name == "customer.v1.created" && e.payload == CreatedV1(d.id, d.name, d.email))
              && (d.CustomerEmailChanged? ==>
                    e.name == "customer.v1.email_changed" && e.payload == EmailChangedV1(d.id, d.oldEmail, d.newEmail))
              && (d.CustomerDeactivated? ==> e.name == "customer.v1.deactivated" && e.payload == DeactivatedV1(d.id, d.reason))
  {
  }

  function Zipped(ds: seq<DomainEvent>, ids: seq<string>): seq<(DomainEvent, string)>
    requires |ids| == |ds|
  {
    seq(|ds|, i requires 0 <= i < |ds| => (ds[i], ids[i]))
  }

  /** The envelope, or an empty one where there is none. */
  function Envelope(p: (DomainEvent, string)): Event {
    match ToIntegrationEvent(p.0, p.1) case Some(e) => e case None => Event("", "", "", "", 0, 0, NotJson(""))
  }

  /** The integration events are the envelopes of exactly the published domain events,
      in order, each under its own id. */
  lemma {:induction false} MappedExactly(ds: seq<DomainEvent>, ids: seq<string>)
    requires |ids| == |ds|
    ensures Picks(Mapped(ds, ids), Zipped(ds, ids), (p: (DomainEvent, string)) => !p.0.Unpublished?, Envelope)
    decreases |ds|
  {
    var keep := (p: (DomainEvent, string)) => !p.0.Unpublished?;
    if ds == [] {
      PicksNothing(keep, Envelope);
    } else {
      var n := |ds| - 1;
      MappedExactly(ds[..n], ids[..n]);
      PicksSnoc(Mapped(ds[..n], ids[..n]), Zipped(ds[..n], ids[..n]), keep, Envelope, (ds[n], ids[n]));
      assert Zipped(ds[..n], ids[..n]) + [(ds[n], ids[n])] == Zipped(ds, ids);
    }
  }

  class Dispatcher {
    const store: MemoryStore

    constructor (store: MemoryStore)
      ensures this.store == store
    {
      this.store := store;
    }

    method Publish(domainEvents: seq<DomainEvent>, ids: seq<string>, now: int)
      requires |ids| == |domainEvents| && store.Valid()
      modifies store
      ensures store.Valid() && store.Value() == AddAll(old(store.Value()), Mapped(domainEvents, ids), now)
    {
      if |domainEvents| == 0 {
        return;
      }
      var out := [];
      for i := 0 to |domainEvents|
        invariant out == Mapped(domainEvents[..i], ids[..i])
      {
        assert domainEvents[..i + 1][..i] == domainEvents[..i] && ids[..i + 1][..i] == ids[..i];
        match ToIntegrationEvent(domainEvents[i], ids[i]) {
          case Some(e) => out := out + [e];
          case None =>
        }
      }
      assert domainEvents[..|domainEvents|] == domainEvents && ids[..|ids|] == ids;
      if |out| == 0 {
        return;
      }
      store.Add(out, now);
    }
  }
}
