/** The relay: batch forwarding with per-message failure. Safety is stated over
    its individual publish and mark steps with adds in between; progress over
    whole drains. */
module OutboxRelay {
  import opened Events
  import opened Ids
  import opened Outbox

  function BatchSize(configured: int): (b: int)
    ensures b >= 1 && (configured >= 1 ==> b == configured) && (configured < 1 ==> b == 100)
  {
    if configured <= 0 then 100 else configured
  }

  // ---------- the relay step by step ----------

  /** Where the relay stands with the first message of its batch. */
  datatype Head = Ready | Delivered | Rejected(reason: string)

  /** `sent` and `refused` record the publisher's answers. */
  datatype Relay = Relay(store: Store, limit: int, batch: seq<string>, head: Head,
                         sent: seq<string>, refused: multiset<string>)

  datatype Step = Add(events: seq<Event>, now: int) | Fetch | Publish(ok: bool, reason: string) | Mark(now: int)

  predicate Enabled(r: Relay, step: Step) {
    match step
    case Add(_, _) => true
    case Fetch => r.batch == [] && r.head.Ready?
    case Publish(_, _) => r.batch != [] && r.head.Ready?
    case Mark(_) => r.batch != [] && !r.head.Ready?
  }

  function Apply(r: Relay, step: Step): Relay
    requires Enabled(r, step)
  {
    match step
    case Add(events, now) => r.(store := AddAll(r.store, events, now))
    case Fetch => r.(batch := Batch(r.store, r.limit))
    case Publish(ok, reason) =>
      if ok then r.(head := Delivered, sent := r.sent + [r.batch[0]])
      else r.(head := Rejected(reason), refused := r.refused + multiset{r.batch[0]})
    case Mark(now) =>
      r.(store := match r.head
                  case Rejected(reason) => MarkFailedOne(r.store, r.batch[0], reason)
                  case _ => MarkPublishedOne(r.store, r.batch[0], now),
         batch := r.batch[1..], head := Ready)
  }

  function Start(limit: int): Relay { Relay(Store([], map[]), BatchSize(limit), [], Ready, [], multiset{}) }

  predicate IsRun(r: Relay, steps: seq<Step>)
    decreases |steps|
  {
    steps == [] || (Enabled(r, steps[0]) && IsRun(Apply(r, steps[0]), steps[1..]))
  }

  function Final(r: Relay, steps: seq<Step>): Relay
    requires IsRun(r, steps)
    decreases |steps|
  {
    if steps == [] then r else Final(Apply(r, steps[0]), steps[1..])
  }

  /** Delivered but not yet marked. */
  function InFlight(r: Relay): set<string> {
    if r.head.Delivered? && r.batch != [] then {r.batch[0]} else {}
  }

  /** Refused but not yet marked. */
  function Unmarked(r: Relay, id: string): nat {
    if r.head.Rejected? && r.batch != [] && r.batch[0] == id then 1 else 0
  }

  predicate BatchOk(r: Relay) {
    && (!r.head.Ready? ==> r.batch != [])
    && Distinct(r.batch)
    && forall id | id in r.batch :: id in r.store.byId && id !in PublishedIds(r.store)
  }

  predicate SentOk(r: Relay) {
    Distinct(r.sent) && InFlight(r) <= Elems(r.sent) && PublishedIds(r.store) == Elems(r.sent) - InFlight(r)
  }

  predicate AttemptsOk(r: Relay) {
    && (forall id | id in r.store.byId :: r.store.byId[id].attempts + Unmarked(r, id) == r.refused[id])
    && (forall id | id in r.refused :: id in r.store.byId)
  }

  predicate Inv(r: Relay) {
    ValidStore(r.store) && r.limit >= 1 && BatchOk(r) && SentOk(r) && AttemptsOk(r)
  }

  lemma AddKeepsInv(r: Relay, events: seq<Event>, now: int)
    requires Inv(r)
    ensures Inv(Apply(r, Add(events, now)))
  {
    AddAllValid(r.store, events, now);
    AddAllKeeps(r.store, events, now);
    NewlyAdded(r.store, events, now);
  }

  lemma {:induction false} NewlyAdded(s: Store, es: seq<Event>, now: int)
    ensures forall id | id in AddAll(s, es, now).byId && id !in s.byId :: AddAll(s, es, now).byId[id].attempts == 0
    decreases |es|
  {
    if es != [] { NewlyAdded(s, es[..|es| - 1], now); }
  }

  lemma FetchKeepsInv(r: Relay)
    requires Inv(r) && Enabled(r, Fetch)
    ensures Inv(Apply(r, Fetch))
  {
    KeepDistinct(r.store.order, PublishedIds(r.store));
    KeepMembers(r.store.order, PublishedIds(r.store));
    assert forall id | id in r.store.order :: id in Elems(r.store.order);
  }

  lemma PublishKeepsInv(r: Relay, ok: bool, reason: string)
    requires Inv(r) && Enabled(r, Publish(ok, reason))
    ensures Inv(Apply(r, Publish(ok, reason)))
  {
    var r' := Apply(r, Publish(ok, reason));
    var id := r.batch[0];
    assert id in r.batch && id !in Elems(r.sent);
    assert SentOk(r') by {
      if ok { assert Elems(r'.sent) == Elems(r.sent) + {id}; }
    }
  }

  lemma MarkKeepsInv(r: Relay, now: int)
    requires Inv(r) && Enabled(r, Mark(now))
    ensures Inv(Apply(r, Mark(now)))
  {
    var id := r.batch[0];
    assert id in r.batch;
    assert forall x | x in r.batch[1..] :: x in r.batch && x != id;
    if r.head.Rejected? { MarkFailedKeepsInv(r, now); } else { MarkPublishedKeepsInv(r, now); }
  }

  lemma MarkFailedKeepsInv(r: Relay, now: int)
    requires Inv(r) && Enabled(r, Mark(now)) && r.head.Rejected?
    requires forall x | x in r.batch[1..] :: x in r.batch && x != r.batch[0]
    ensures Inv(Apply(r, Mark(now)))
  {
    var r' := Apply(r, Mark(now));
    FailureKeepsValid(r.store, r.batch[0], r.head.reason);
    assert PublishedIds(r'.store) == PublishedIds(r.store) by { assert r.batch[0] in r.batch; }
    assert BatchOk(r');
    assert SentOk(r');
  }

  lemma MarkPublishedKeepsInv(r: Relay, now: int)
    requires Inv(r) && Enabled(r, Mark(now)) && r.head.Delivered?
    requires forall x | x in r.batch[1..] :: x in r.batch && x != r.batch[0]
    ensures Inv(Apply(r, Mark(now)))
  {
    var r' := Apply(r, Mark(now));
    DeliveryKeepsValid(r.store, r.batch[0], now);
    var id := r.batch[0];
    assert id in r.batch;
    assert SentOk(r') by { SetRestored(Elems(r.sent), id); }
    assert BatchOk(r') by { assert PublishedIds(r'.store) == PublishedIds(r.store) + {id}; }
    assert AttemptsOk(r') by {
      forall x | x in r'.store.byId ensures r'.store.byId[x].attempts == r.store.byId[x].attempts { }
    }
  }

  lemma SetRestored(s: set<string>, x: string)
    requires x in s
    ensures s - {x} + {x} == s
  {
  }

  lemma StepKeepsInv(r: Relay, step: Step)
    requires Inv(r) && Enabled(r, step)
    ensures Inv(Apply(r, step))
  {
    match step
    case Add(events, now) => AddKeepsInv(r, events, now);
    case Fetch => FetchKeepsInv(r);
    case Publish(ok, reason) => PublishKeepsInv(r, ok, reason);
    case Mark(now) => MarkKeepsInv(r, now);
  }

  lemma {:induction false} RunKeepsInv(r: Relay, steps: seq<Step>)
    requires Inv(r) && IsRun(r, steps)
    ensures Inv(Final(r, steps))
    decreases |steps|
  {
    if steps != [] {
      StepKeepsInv(r, steps[0]);
      RunKeepsInv(Apply(r, steps[0]), steps[1..]);
    }
  }

  /** With one relay per store, whatever the publisher answers and whenever events
      are added: the order lists the stored ids once each, an id is published
      successfully at most once, its attempts are its refusals, and between marks
      everything added is published or pending. */
  lemma RelayBooks(limit: int, steps: seq<Step>)
    requires IsRun(Start(limit), steps)
    ensures var r := Final(Start(limit), steps);
            && Distinct(r.store.order) && Elems(r.store.order) == r.store.byId.Keys
            && Distinct(r.sent)
            && (r.head.Ready? ==>
                  && PublishedIds(r.store) == Elems(r.sent)
                  && (forall id | id in r.store.byId :: r.store.byId[id].attempts == r.refused[id])
                  && |r.store.order| == |r.sent| + |PendingIds(r.store)|)
  {
    RunKeepsInv(Start(limit), steps);
    var r := Final(Start(limit), steps);
    PendingSplits(r.store);
    DistinctSize(r.sent);
    if r.head.Ready? { assert Elems(r.sent) - {} == Elems(r.sent); }
  }

  // ---------- what a stored message says about itself ----------

  /** The fields of a message agree with each other. */
  predicate MessageOk(m: Message) {
    && (m.publishedAt.Some? <==> m.status == StatusPublished)
    && (m.status == StatusPending ==> m.attempts == 0)
    && (m.status == StatusFailed ==> m.attempts > 0)
    && (m.status != StatusFailed ==> m.lastError == "")
  }

  predicate MessagesOk(s: Store) { forall id | id in s.byId :: MessageOk(s.byId[id]) }

  lemma StepKeepsMessages(r: Relay, step: Step)
    requires Inv(r) && Enabled(r, step) && MessagesOk(r.store)
    ensures MessagesOk(Apply(r, step).store)
  {
    match step
    case Add(events, now) => AddKeepsMessages(r.store, events, now);
    case Fetch =>
    case Publish(_, _) =>
    case Mark(now) =>
      var id := r.batch[0];
      assert id in r.batch;
      MarkExactly(r.store, id, now, if r.head.Rejected? then r.head.reason else "");
  }

  lemma {:induction false} AddKeepsMessages(s: Store, es: seq<Event>, now: int)
    requires MessagesOk(s)
    ensures MessagesOk(AddAll(s, es, now))
    decreases |es|
  {
    if es != [] { AddKeepsMessages(s, es[..|es| - 1], now); }
  }

  lemma {:induction false} RunKeepsMessages(r: Relay, steps: seq<Step>)
    requires Inv(r) && IsRun(r, steps) && MessagesOk(r.store)
    ensures MessagesOk(Final(r, steps).store)
    decreases |steps|
  {
    if steps != [] {
      StepKeepsMessages(r, steps[0]);
      StepKeepsInv(r, steps[0]);
      RunKeepsMessages(Apply(r, steps[0]), steps[1..]);
    }
  }

  /** Over every run, between marks: a stored message is published, with a time and no
      error, if and only if it was delivered; failed if and only if it was refused and
      not delivered since; pending, without error, if and only if neither. */
  lemma StatusTells(limit: int, steps: seq<Step>, id: string)
    requires IsRun(Start(limit), steps) && Final(Start(limit), steps).head.Ready?
    requires id in Final(Start(limit), steps).store.byId
    ensures var r := Final(Start(limit), steps);
            var m := r.store.byId[id];
            && (m.status == StatusPublished <==> id in r.sent) && (m.publishedAt.Some? <==> id in r.sent)
            && (m.status == StatusFailed <==> id !in r.sent && id in r.refused)
            && (m.status == StatusPending <==> id !in r.sent && id !in r.refused)
            && (m.lastError != "" ==> id !in r.sent && id in r.refused)
  {
    RelayBooks(limit, steps);
    RunKeepsMessages(Start(limit), steps);
    var r := Final(Start(limit), steps);
    assert MessageOk(r.store.byId[id]) && r.store.byId[id].attempts == r.refused[id];
    assert id in PublishedIds(r.store) <==> id in Elems(r.sent);
  }

  // ---------- delivery order when nothing is refused ----------

  /** What the batch still has to send. */
  function Unsent(r: Relay): seq<string> {
    if r.head.Delivered? && r.batch != [] then r.batch[1..] else r.batch
  }

  predicate InOrder(r: Relay) {
    && |r.sent| <= |r.store.order| && r.sent == r.store.order[..|r.sent|]
    && Unsent(r) <= r.store.order[|r.sent|..]
  }

  lemma DropPrefix(order: seq<string>, n: nat)
    requires Distinct(order) && n <= |order|
    ensures Keep(order, Elems(order[..n])) == order[n..]
  {
    var done := Elems(order[..n]);
    assert order == order[..n] + order[n..];
    DistinctParts(order[..n], order[n..]);
    KeepConcat(order[..n], order[n..], done);
    KeepNone(order[n..], done);
    KeepMembers(order[..n], done);
    assert |Keep(order[..n], done)| > 0 ==> Keep(order[..n], done)[0] in Keep(order[..n], done);
  }

  lemma StepKeepsOrder(r: Relay, step: Step)
    requires Inv(r) && InOrder(r) && Enabled(r, step) && !(step.Publish? && !step.ok) && !r.head.Rejected?
    ensures InOrder(Apply(r, step))
  {
    match step
    case Add(events, now) => AddAllOrder(r.store, events, now);
    case Fetch => FetchKeepsOrder(r);
    case Publish(ok, reason) => PublishKeepsOrder(r, reason);
    case Mark(now) =>
  }

  lemma PublishKeepsOrder(r: Relay, reason: string)
    requires InOrder(r) && Enabled(r, Publish(true, reason))
    ensures InOrder(Apply(r, Publish(true, reason)))
  {
    var order, n := r.store.order, |r.sent|;
    assert r.batch[0] == order[n..][0] == order[n];
    assert order[..n + 1] == order[..n] + [order[n]];
    assert order[n..][1..] == order[n + 1..];
  }

  lemma FetchKeepsOrder(r: Relay)
    requires Inv(r) && InOrder(r) && Enabled(r, Fetch)
    ensures InOrder(Apply(r, Fetch))
  {
    assert PublishedIds(r.store) == Elems(r.sent);
    DropPrefix(r.store.order, |r.sent|);
  }

  predicate NothingRefused(steps: seq<Step>) {
    forall i | 0 <= i < |steps| :: steps[i].Publish? ==> steps[i].ok
  }

  lemma {:induction false} RunKeepsOrder(r: Relay, steps: seq<Step>)
    requires Inv(r) && InOrder(r) && !r.head.Rejected? && IsRun(r, steps) && NothingRefused(steps)
    ensures InOrder(Final(r, steps))
    decreases |steps|
  {
    if steps != [] {
      StepKeepsInv(r, steps[0]);
      StepKeepsOrder(r, steps[0]);
      RunKeepsOrder(Apply(r, steps[0]), steps[1..]);
    }
  }

  /** If nothing is refused, the publish sequence is a prefix of insertion order. */
  lemma DeliveryIsFifo(limit: int, steps: seq<Step>)
    requires IsRun(Start(limit), steps) && NothingRefused(steps)
    ensures Final(Start(limit), steps).sent <= Final(Start(limit), steps).store.order
  {
    RunKeepsOrder(Start(limit), steps);
  }
}
