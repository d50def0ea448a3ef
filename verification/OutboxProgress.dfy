/** Whole drains: what one pass does to the pending list, and exactly when a
    message behind permanently failing ones gets through. */
module OutboxProgress {
  import opened Events
  import opened Ids
  import opened Prelude
  import opened Outbox
  import OutboxRelay

  /** One pass over a fetched batch; `accepts` are the ids the publisher takes. */
  function Forward(s: Store, batch: seq<string>, accepts: set<string>, now: int, reason: string): Store
    decreases |batch|
  {
    if batch == [] then s
    else
      var s' := Forward(s, batch[..|batch| - 1], accepts, now, reason);
      var id := batch[|batch| - 1];
      if id in accepts then MarkPublishedOne(s', id, now) else MarkFailedOne(s', id, reason)
  }

  function Drained(s: Store, limit: int, accepts: set<string>, now: int, reason: string): Store {
    Forward(s, Batch(s, limit), accepts, now, reason)
  }

  class Relay {
    const store: MemoryStore
    const batchSize: int

    constructor (store: MemoryStore, configured: int)
      ensures this.store == store && batchSize == if configured >= 1 then configured else 100
    {
      this.store := store;
      this.batchSize := OutboxRelay.BatchSize(configured);
    }

    method Drain(accepts: set<string>, now: int, reason: string) returns (published: nat)
      requires store.Valid()
      modifies store
      ensures store.Valid()
      ensures store.Value() == Drained(old(store.Value()), batchSize, accepts, now, reason)
      ensures published == CountIn(Batch(old(store.Value()), batchSize), accepts)
    {
      var msgs := store.FetchPending(batchSize);
      ghost var ids := Batch(store.Value(), batchSize);
      FetchedIds(store.Value(), msgs, ids);
      published := 0;
      for i := 0 to |msgs|
        invariant store.Valid()
        invariant store.Value() == Forward(old(store.Value()), ids[..i], accepts, now, reason)
        invariant published == CountIn(ids[..i], accepts)
      {
        var id := msgs[i].event.id;
        ForwardNext(old(store.Value()), ids, i, accepts, now, reason);
        if id !in accepts {
          store.MarkFailed(id, reason);
          continue;
        }
        MarkOne(store.Value(), id, now);
        store.MarkPublished([id], now);
        published := published + 1;
      }
      assert ids[..|msgs|] == ids;
    }
  }

  lemma FetchedIds(s: Store, msgs: seq<Message>, ids: seq<string>)
    requires ValidStore(s) && CopiesOf(s.byId, msgs, ids)
    ensures forall i | 0 <= i < |ids| :: msgs[i].event.id == ids[i]
  {
  }

  lemma ForwardNext(s: Store, ids: seq<string>, i: nat, accepts: set<string>, now: int, reason: string)
    requires i < |ids|
    ensures var before := Forward(s, ids[..i], accepts, now, reason);
            Forward(s, ids[..i + 1], accepts, now, reason) ==
            if ids[i] in accepts then MarkPublishedOne(before, ids[i], now) else MarkFailedOne(before, ids[i], reason)
    ensures CountIn(ids[..i + 1], accepts) == CountIn(ids[..i], accepts) + (if ids[i] in accepts then 1 else 0)
  {
    assert ids[..i + 1][..i] == ids[..i] && ids[..i + 1] == ids[..i] + [ids[i]];
    CountConcat(ids[..i], [ids[i]], accepts);
  }

  lemma MarkOne(s: Store, id: string, now: int)
    ensures MarkPublishedAll(s, [id], now) == MarkPublishedOne(s, id, now)
  {
    assert [id][..0] == [];
  }

  lemma {:induction false} ForwardPublishes(s: Store, batch: seq<string>, accepts: set<string>, now: int, reason: string)
    requires ValidStore(s) && Distinct(batch)
    requires forall id | id in batch :: id in s.byId && id !in PublishedIds(s)
    ensures var s' := Forward(s, batch, accepts, now, reason);
            && ValidStore(s') && s'.order == s.order && s'.byId.Keys == s.byId.Keys
            && PublishedIds(s') == PublishedIds(s) + Elems(batch) * accepts
    decreases |batch|
  {
    if batch == [] {
      assert Elems(batch) * accepts == {};
    } else {
      var front, id := batch[..|batch| - 1], batch[|batch| - 1];
      ForwardPublishes(s, front, accepts, now, reason);
      var s1 := Forward(s, front, accepts, now, reason);
      assert id in batch && id !in front;
      assert Elems(batch) == Elems(front) + {id};
      DeliveryKeepsValid(s1, id, now);
      FailureKeepsValid(s1, id, reason);
      assert Elems(batch) * accepts == Elems(front) * accepts + (if id in accepts then {id} else {});
    }
  }

  /** What a pass does to each stored message: an accepted one of the batch is published
      at that time without error, a refused one is failed with the reason and one more
      attempt, and any other is as it was. */
  lemma {:induction false} ForwardExactly(s: Store, batch: seq<string>, accepts: set<string>, now: int, reason: string, id: string)
    requires ValidStore(s) && Distinct(batch) && (forall x | x in batch :: x in s.byId) && id in s.byId
    ensures var s' := Forward(s, batch, accepts, now, reason);
            && s'.order == s.order && s'.byId.Keys == s.byId.Keys
            && s'.byId[id] == (if id !in batch then s.byId[id]
                               else if id in accepts then
                                 s.byId[id].(status := StatusPublished, publishedAt := Some(now), lastError := "")
                               else
                                 s.byId[id].(status := StatusFailed, attempts := s.byId[id].attempts + 1, lastError := reason))
    decreases |batch|
  {
    if batch != [] {
      var n := |batch| - 1;
      var front, last := batch[..n], batch[n];
      ForwardExactly(s, front, accepts, now, reason, id);
      assert last in batch && last !in front && (id in batch <==> id in front || id == last);
      MarkExactly(Forward(s, front, accepts, now, reason), last, now, reason);
    }
  }

  /** A pass keeps its refused messages where they were, drops the accepted ones,
      and leaves everything behind the batch alone. */
  lemma DrainPending(s: Store, limit: int, accepts: set<string>, now: int, reason: string)
    requires ValidStore(s)
    ensures var s' := Drained(s, limit, accepts, now, reason);
            var batch := Batch(s, limit);
            && ValidStore(s') && s'.byId.Keys == s.byId.Keys
            && batch <= PendingIds(s)
            && PendingIds(s') == Keep(batch, accepts) + PendingIds(s)[|batch|..]
  {
    var p, batch := PendingIds(s), Batch(s, limit);
    var rest := p[|batch|..];
    KeepDistinct(s.order, PublishedIds(s));
    KeepMembers(s.order, PublishedIds(s));
    assert p == batch + rest;
    DistinctParts(batch, rest);
    assert forall id | id in batch :: id in Elems(s.order);
    ForwardPublishes(s, batch, accepts, now, reason);
    var hit := Elems(batch) * accepts;
    KeepTwice(s.order, PublishedIds(s), hit);
    KeepConcat(batch, rest, hit);
    KeepNone(rest, hit);
    KeepAgrees(batch, hit, accepts);
  }

  // ---------- progress ----------

  /** Between two drains anything may be added; each drain has its own answers. */
  datatype Round = Round(added: seq<Event>, accepts: set<string>, now: int, reason: string)

  function AfterRound(s: Store, limit: int, r: Round): Store {
    Drained(AddAll(s, r.added, r.now), limit, r.accepts, r.now, r.reason)
  }

  function AfterRounds(s: Store, limit: int, rounds: seq<Round>): Store
    decreases |rounds|
  {
    if rounds == [] then s else AfterRounds(AfterRound(s, limit, rounds[0]), limit, rounds[1..])
  }

  /** In every round the messages of `watched` succeed unless they are in `bad`. */
  predicate Steady(rounds: seq<Round>, watched: set<string>, bad: set<string>) {
    forall i | 0 <= i < |rounds| :: SteadyRound(rounds[i], watched, bad)
  }

  predicate SteadyRound(r: Round, watched: set<string>, bad: set<string>) {
    forall id | id in watched :: id in r.accepts <==> id !in bad
  }

  /** What is left ahead of the watched message when it is not in the batch. */
  function NextAhead(ahead: seq<string>, limit: int, accepts: set<string>): seq<string>
    requires 1 <= limit <= |ahead|
  {
    Keep(ahead[..limit], accepts) + ahead[limit..]
  }

  lemma NextAheadShrinks(ahead: seq<string>, limit: int, accepts: set<string>, bad: set<string>)
    requires 1 <= limit <= |ahead| && forall id | id in ahead :: id in accepts <==> id !in bad
    ensures var a' := NextAhead(ahead, limit, accepts);
            && CountIn(a', bad) == CountIn(ahead, bad)
            && |a'| <= |ahead| - (limit - CountIn(ahead, bad))
            && (forall id | id in a' :: id in ahead)
  {
    var front, back := ahead[..limit], ahead[limit..];
    assert ahead == front + back;
    CountConcat(front, back, bad);
    CountConcat(Keep(front, accepts), back, bad);
    KeepMembers(front, accepts);
    KeepCount(front, accepts, bad);
  }

  /** One round from a pending list with `ahead` before the watched message. */
  lemma RoundPending(s: Store, limit: int, r: Round, ahead: seq<string>, target: string, behind: seq<string>)
    requires ValidStore(s) && limit >= 1 && PendingIds(s) == ahead + [target] + behind
    ensures var s' := AfterRound(s, limit, r);
            ValidStore(s') && s.byId.Keys <= s'.byId.Keys
    ensures limit <= |ahead| ==>
              exists b :: PendingIds(AfterRound(s, limit, r)) == NextAhead(ahead, limit, r.accepts) + [target] + b
    ensures |ahead| < limit && target in r.accepts ==> target !in PendingIds(AfterRound(s, limit, r))
  {
    var s1 := AddAll(s, r.added, r.now);
    var behind1 := behind + Inserted(s, r.added, r.now);
    assert ValidStore(s1) && s.byId.Keys <= s1.byId.Keys by {
      AddAllValid(s, r.added, r.now);
      AddAllKeeps(s, r.added, r.now);
    }
    assert PendingIds(s1) == ahead + [target] + behind1 by {
      AddAllPending(s, r.added, r.now);
      Regrouped(ahead, target, behind, Inserted(s, r.added, r.now));
    }
    DrainPending(s1, limit, r.accepts, r.now, r.reason);
    if limit <= |ahead| {
      BatchAhead(s1, limit, r.accepts, ahead, target, behind1);
    } else if target in r.accepts {
      BatchReaches(s1, limit, r.accepts, ahead, target, behind1);
    }
  }

  lemma Regrouped(ahead: seq<string>, target: string, behind: seq<string>, more: seq<string>)
    ensures ahead + [target] + behind + more == ahead + [target] + (behind + more)
  {
  }

  lemma BatchAhead(s: Store, limit: int, accepts: set<string>, ahead: seq<string>, target: string, behind: seq<string>)
    requires 1 <= limit <= |ahead| && PendingIds(s) == ahead + [target] + behind
    ensures var batch := Batch(s, limit);
            |batch| <= |PendingIds(s)| &&
            Keep(batch, accepts) + PendingIds(s)[|batch|..] == NextAhead(ahead, limit, accepts) + [target] + behind
  {
    assert Batch(s, limit) == ahead[..limit];
    assert PendingIds(s)[limit..] == ahead[limit..] + [target] + behind;
  }

  lemma BatchReaches(s: Store, limit: int, accepts: set<string>, ahead: seq<string>, target: string, behind: seq<string>)
    requires ValidStore(s) && |ahead| < limit && target in accepts && PendingIds(s) == ahead + [target] + behind
    ensures var batch := Batch(s, limit);
            |batch| <= |PendingIds(s)| && target !in Keep(batch, accepts) + PendingIds(s)[|batch|..]
  {
    var p, batch := PendingIds(s), Batch(s, limit);
    KeepDistinct(s.order, PublishedIds(s));
    KeepMembers(batch, accepts);
    assert p[|ahead|] == target && batch[|ahead|] == target;
    assert p == batch + p[|batch|..];
    DistinctParts(batch, p[|batch|..]);
  }

  /** Once delivered, a message is never pending again. */
  lemma {:induction false} DeliveredStays(s: Store, limit: int, rounds: seq<Round>, target: string)
    requires ValidStore(s) && limit >= 1 && target in s.byId && target !in PendingIds(s)
    ensures target !in PendingIds(AfterRounds(s, limit, rounds))
    decreases |rounds|
  {
    if rounds != [] {
      RoundKeepsDelivered(s, limit, rounds[0], target);
      DeliveredStays(AfterRound(s, limit, rounds[0]), limit, rounds[1..], target);
    }
  }

  lemma RoundKeepsDelivered(s: Store, limit: int, r: Round, target: string)
    requires ValidStore(s) && limit >= 1 && target in s.byId && target !in PendingIds(s)
    ensures var s' := AfterRound(s, limit, r);
            ValidStore(s') && target in s'.byId && target !in PendingIds(s')
  {
    var s1 := AddAll(s, r.added, r.now);
    AddAllValid(s, r.added, r.now);
    AddAllKeeps(s, r.added, r.now);
    assert target !in PendingIds(s1) by {
      PendingSplits(s);
      PendingSplits(s1);
      assert target !in Elems(PendingIds(s));
      assert target !in Elems(PendingIds(s1));
    }
    DrainPending(s1, limit, r.accepts, r.now, r.reason);
    KeepMembers(Batch(s1, limit), r.accepts);
  }

  // ---------- a drain is a run of relay steps ----------

  lemma {:induction false} ForwardFirst(s: Store, batch: seq<string>, accepts: set<string>, now: int, reason: string)
    requires batch != []
    ensures var s' := if batch[0] in accepts then MarkPublishedOne(s, batch[0], now) else MarkFailedOne(s, batch[0], reason);
            Forward(s, batch, accepts, now, reason) == Forward(s', batch[1..], accepts, now, reason)
    decreases |batch|
  {
    var n := |batch| - 1;
    if n == 0 {
      assert batch[..0] == [] && batch[1..] == [];
    } else {
      ForwardFirst(s, batch[..n], accepts, now, reason);
      assert batch[..n][1..] == batch[1..][..n - 1] && batch[1..][n - 1] == batch[n];
    }
  }

  /** The publish and mark steps of a batch. */
  function BatchSteps(batch: seq<string>, accepts: set<string>, now: int, reason: string): seq<OutboxRelay.Step> {
    if batch == [] then []
    else [OutboxRelay.Publish(batch[0] in accepts, reason), OutboxRelay.Mark(now)] + BatchSteps(batch[1..], accepts, now, reason)
  }

  lemma TwoSteps(r: OutboxRelay.Relay, a: OutboxRelay.Step, b: OutboxRelay.Step, rest: seq<OutboxRelay.Step>)
    requires OutboxRelay.Enabled(r, a) && OutboxRelay.Enabled(OutboxRelay.Apply(r, a), b)
    requires OutboxRelay.IsRun(OutboxRelay.Apply(OutboxRelay.Apply(r, a), b), rest)
    ensures OutboxRelay.IsRun(r, [a, b] + rest)
    ensures OutboxRelay.Final(r, [a, b] + rest) == OutboxRelay.Final(OutboxRelay.Apply(OutboxRelay.Apply(r, a), b), rest)
  {
    assert ([a, b] + rest)[1..] == [b] + rest && ([b] + rest)[1..] == rest;
    assert OutboxRelay.IsRun(OutboxRelay.Apply(r, a), [b] + rest);
  }

  lemma {:induction false} ForwardIsRun(r: OutboxRelay.Relay, accepts: set<string>, now: int, reason: string)
    requires r.head.Ready?
    ensures var steps := BatchSteps(r.batch, accepts, now, reason);
            && OutboxRelay.IsRun(r, steps)
            && OutboxRelay.Final(r, steps).store == Forward(r.store, r.batch, accepts, now, reason)
            && OutboxRelay.Final(r, steps).batch == []
    decreases |r.batch|
  {
    if r.batch != [] {
      var a, b := OutboxRelay.Publish(r.batch[0] in accepts, reason), OutboxRelay.Mark(now);
      var r' := OutboxRelay.Apply(OutboxRelay.Apply(r, a), b);
      ForwardIsRun(r', accepts, now, reason);
      TwoSteps(r, a, b, BatchSteps(r'.batch, accepts, now, reason));
      ForwardFirst(r.store, r.batch, accepts, now, reason);
    }
  }

  /** One whole drain is a fetch followed by a publish and a mark per message, so
      what holds of every relay run holds of drains. */
  lemma DrainIsRun(r: OutboxRelay.Relay, accepts: set<string>, now: int, reason: string)
    requires r.head.Ready? && r.batch == []
    ensures var steps := [OutboxRelay.Fetch] + BatchSteps(Batch(r.store, r.limit), accepts, now, reason);
            && OutboxRelay.IsRun(r, steps)
            && OutboxRelay.Final(r, steps).store == Drained(r.store, r.limit, accepts, now, reason)
            && OutboxRelay.Final(r, steps).batch == []
  {
    var fetched := OutboxRelay.Apply(r, OutboxRelay.Fetch);
    var rest := BatchSteps(fetched.batch, accepts, now, reason);
    ForwardIsRun(fetched, accepts, now, reason);
    assert ([OutboxRelay.Fetch] + rest)[1..] == rest;
  }

  // ---------- the bound ----------

  /** a / b, rounded up. */
  function CeilDiv(a: nat, b: nat): nat
    requires b >= 1
    decreases a
  {
    if a == 0 then 0 else if a <= b then 1 else 1 + CeilDiv(a - b, b)
  }

  /** The least number of b-sized steps that covers a. */
  lemma {:induction false} CeilDivIsLeast(a: nat, b: nat)
    requires b >= 1
    ensures CeilDiv(a, b) * b >= a
    ensures a > 0 ==> (CeilDiv(a, b) - 1) * b < a
    decreases a
  {
    if a > b { CeilDivIsLeast(a - b, b); }
  }

  lemma {:induction false} CeilDivMonotone(a: nat, a': nat, b: nat)
    requires b >= 1 && a' <= a
    ensures CeilDiv(a', b) <= CeilDiv(a, b)
    decreases a
  {
    if a > b && a' > b { CeilDivMonotone(a - b, a' - b, b); }
  }

  lemma WatchedIsStored(s: Store, ahead: seq<string>, target: string, behind: seq<string>)
    requires ValidStore(s) && PendingIds(s) == ahead + [target] + behind
    ensures target in s.byId
  {
    PendingSplits(s);
    assert PendingIds(s)[|ahead|] == target;
    assert target in Elems(PendingIds(s));
  }

  lemma SteadyOnward(rounds: seq<Round>, ahead: seq<string>, a': seq<string>, target: string, bad: set<string>)
    requires rounds != [] && Steady(rounds, Elems(ahead) + {target}, bad) && forall id | id in a' :: id in ahead
    ensures Steady(rounds[1..], Elems(a') + {target}, bad)
  {
    forall i | 0 <= i < |rounds[1..]| ensures SteadyRound(rounds[1..][i], Elems(a') + {target}, bad) {
      assert SteadyRound(rounds[i + 1], Elems(ahead) + {target}, bad);
    }
  }

  /** With p-1 publishable and f < B permanently failing messages ahead of it, a
      publishable message is delivered within ceil(p / (B-f)) drains, whatever is
      added and whatever happens to the messages behind it. */
  lemma {:induction false} DeliveredWithin(s: Store, limit: int, rounds: seq<Round>,
                                           ahead: seq<string>, target: string, behind: seq<string>, bad: set<string>)
    requires ValidStore(s) && limit >= 1 && PendingIds(s) == ahead + [target] + behind
    requires target !in bad && Steady(rounds, Elems(ahead) + {target}, bad)
    requires CountIn(ahead, bad) < limit
    requires |rounds| >= CeilDiv(|ahead| - CountIn(ahead, bad) + 1, limit - CountIn(ahead, bad))
    ensures target !in PendingIds(AfterRounds(s, limit, rounds))
    decreases |rounds|
  {
    var f := CountIn(ahead, bad);
    var p := |ahead| - f + 1;
    var r := rounds[0];
    assert SteadyRound(r, Elems(ahead) + {target}, bad);
    var s1 := AfterRound(s, limit, r);
    RoundPending(s, limit, r, ahead, target, behind);
    if limit <= |ahead| {
      var a' := NextAhead(ahead, limit, r.accepts);
      var b' :| PendingIds(s1) == a' + [target] + b';
      NextAheadShrinks(ahead, limit, r.accepts, bad);
      CeilDivMonotone(p - (limit - f), |a'| - f + 1, limit - f);
      SteadyOnward(rounds, ahead, a', target, bad);
      DeliveredWithin(s1, limit, rounds[1..], a', target, b', bad);
    } else {
      WatchedIsStored(s, ahead, target, behind);
      DeliveredStays(s1, limit, rounds[1..], target);
    }
  }

  /** With B or more permanently failing messages ahead of it, a message is never
      delivered, however many drains run. */
  lemma {:induction false} NeverDelivered(s: Store, limit: int, rounds: seq<Round>,
                                          ahead: seq<string>, target: string, behind: seq<string>, bad: set<string>)
    requires ValidStore(s) && limit >= 1 && PendingIds(s) == ahead + [target] + behind
    requires Steady(rounds, Elems(ahead) + {target}, bad) && CountIn(ahead, bad) >= limit
    ensures target in PendingIds(AfterRounds(s, limit, rounds))
    decreases |rounds|
  {
    if rounds == [] {
      assert PendingIds(s)[|ahead|] == target;
    } else {
      var r := rounds[0];
      assert SteadyRound(r, Elems(ahead) + {target}, bad);
      RoundPending(s, limit, r, ahead, target, behind);
      var a' := NextAhead(ahead, limit, r.accepts);
      var s1 := AfterRound(s, limit, r);
      var b' :| PendingIds(s1) == a' + [target] + b';
      NextAheadShrinks(ahead, limit, r.accepts, bad);
      assert Steady(rounds[1..], Elems(a') + {target}, bad) by {
        forall i | 0 <= i < |rounds[1..]| ensures SteadyRound(rounds[1..][i], Elems(a') + {target}, bad) {
          assert SteadyRound(rounds[i + 1], Elems(ahead) + {target}, bad);
        }
      }
      NeverDelivered(s1, limit, rounds[1..], a', target, b', bad);
    }
  }
}
