/** The outbox store: insertion order, dedupe by event id, in-place marking. */
module Outbox {
  import opened Prelude
  import opened Events
  import opened Ids

  datatype Status = StatusPending | StatusPublished | StatusFailed

  datatype Message = Message(event: Event, status: Status, attempts: nat, createdAt: int,
                             publishedAt: Option<int>, lastError: string)

  datatype Store = Store(order: seq<string>, byId: map<string, Message>)

  predicate ValidStore(s: Store) {
    && Distinct(s.order) && Elems(s.order) == s.byId.Keys
    && forall id | id in s.byId :: s.byId[id].event.id == id
  }

  function PublishedIds(s: Store): set<string> {
    set id | id in s.byId && s.byId[id].status == StatusPublished
  }

  /** What is still to be delivered, oldest first. */
  function PendingIds(s: Store): seq<string> { Keep(s.order, PublishedIds(s)) }

  function AddOne(s: Store, e: Event, now: int): Store {
    if e.id in s.byId then s
    else Store(s.order + [e.id], s.byId[e.id := Message(e, StatusPending, 0, now, None, "")])
  }

  function AddAll(s: Store, es: seq<Event>, now: int): Store
    decreases |es|
  {
    if es == [] then s else AddOne(AddAll(s, es[..|es| - 1], now), es[|es| - 1], now)
  }

  /** The ids an add really inserts. */
  function Inserted(s: Store, es: seq<Event>, now: int): seq<string>
    decreases |es|
  {
    if es == [] then []
    else
      var e := es[|es| - 1];
      Inserted(s, es[..|es| - 1], now) + (if e.id in AddAll(s, es[..|es| - 1], now).byId then [] else [e.id])
  }

  function Batch(s: Store, limit: int): seq<string> {
    var p := PendingIds(s);
    if 0 < limit < |p| then p[..limit] else p
  }

  function MarkPublishedOne(s: Store, id: string, now: int): Store {
    if id in s.byId then
      s.(byId := s.byId[id := s.byId[id].(status := StatusPublished, publishedAt := Some(now), lastError := "")])
    else s
  }

  function MarkFailedOne(s: Store, id: string, reason: string): Store {
    if id in s.byId then
      var m := s.byId[id];
      s.(byId := s.byId[id := m.(status := StatusFailed, attempts := m.attempts + 1, lastError := reason)])
    else s
  }

  // ---------- what the operations keep ----------

  lemma AddOneValid(s: Store, e: Event, now: int)
    requires ValidStore(s)
    ensures ValidStore(AddOne(s, e, now))
    ensures PublishedIds(AddOne(s, e, now)) == PublishedIds(s)
    ensures PendingIds(AddOne(s, e, now)) == PendingIds(s) + (if e.id in s.byId then [] else [e.id])
  {
    var s' := AddOne(s, e, now);
    if e.id !in s.byId {
      assert e.id !in s.order by { assert e.id !in Elems(s.order); }
      assert Elems(s'.order) == Elems(s.order) + {e.id};
      assert PublishedIds(s') == PublishedIds(s);
      KeepConcat(s.order, [e.id], PublishedIds(s));
      KeepNone([e.id], PublishedIds(s));
    }
  }

  lemma {:induction false} AddAllValid(s: Store, es: seq<Event>, now: int)
    requires ValidStore(s)
    ensures ValidStore(AddAll(s, es, now)) && PublishedIds(AddAll(s, es, now)) == PublishedIds(s)
    decreases |es|
  {
    if es != [] {
      AddAllValid(s, es[..|es| - 1], now);
      AddOneValid(AddAll(s, es[..|es| - 1], now), es[|es| - 1], now);
    }
  }

  lemma {:induction false} AddAllOrder(s: Store, es: seq<Event>, now: int)
    ensures AddAll(s, es, now).order == s.order + Inserted(s, es, now)
    decreases |es|
  {
    if es != [] { AddAllOrder(s, es[..|es| - 1], now); }
  }

  /** Adding appends to the pending list exactly the events not seen before. */
  lemma AddAllPending(s: Store, es: seq<Event>, now: int)
    requires ValidStore(s)
    ensures PendingIds(AddAll(s, es, now)) == PendingIds(s) + Inserted(s, es, now)
  {
    var s', new' := AddAll(s, es, now), Inserted(s, es, now);
    AddAllValid(s, es, now);
    AddAllOrder(s, es, now);
    KeepConcat(s.order, new', PublishedIds(s));
    DistinctParts(s.order, new');
    assert forall x | x in new' :: x !in PublishedIds(s) by {
      assert forall x | x in s.byId :: x in Elems(s.order);
    }
    KeepNone(new', PublishedIds(s));
  }

  /** Adding never touches what is already stored. */
  lemma {:induction false} AddAllKeeps(s: Store, es: seq<Event>, now: int)
    ensures forall id | id in s.byId :: id in AddAll(s, es, now).byId && AddAll(s, es, now).byId[id] == s.byId[id]
    decreases |es|
  {
    if es != [] { AddAllKeeps(s, es[..|es| - 1], now); }
  }

  /** The pending list is exactly the stored ids not marked published, in insertion order. */
  lemma PendingExactly(s: Store)
    requires ValidStore(s)
    ensures Picks(PendingIds(s), s.order, (id: string) => id in s.byId && s.byId[id].status != StatusPublished, (id: string) => id)
  {
    var keep, same := (id: string) => id in s.byId && s.byId[id].status != StatusPublished, (id: string) => id;
    assert forall id | id in s.order :: id in Elems(s.order);
    KeepPicks(s.order, PublishedIds(s), keep);
  }

  lemma {:induction false} KeepPicks(order: seq<string>, drop: set<string>, keep: string -> bool)
    requires forall id | id in order :: keep(id) <==> id !in drop
    ensures Picks(Keep(order, drop), order, keep, (id: string) => id)
  {
    var same := (id: string) => id;
    if order == [] {
      PicksNothing(keep, same);
    } else {
      var n := |order| - 1;
      KeepPicks(order[..n], drop, keep);
      PicksSnoc(Keep(order[..n], drop), order[..n], keep, same, order[n]);
      KeepNext(order, n, drop);
      assert order[..n] + [order[n]] == order && order[..n + 1] == order;
    }
  }

  /** A batch is the first `limit` of the pending list; all of it if limit is not positive. */
  lemma BatchExactly(s: Store, limit: int)
    ensures Batch(s, limit) <= PendingIds(s)
    ensures |Batch(s, limit)| == if 0 < limit < |PendingIds(s)| then limit else |PendingIds(s)|
  {
  }

  /** Position i of es is the first with its id, and that id is not stored yet. */
  predicate IsNew(s: Store, es: seq<Event>, i: nat)
    requires i < |es|
  {
    es[i].id !in s.byId && forall j | 0 <= j < i :: es[j].id != es[i].id
  }

  predicate Mentions(es: seq<Event>, id: string) { exists i :: 0 <= i < |es| && es[i].id == id }

  lemma {:induction false} AddKnown(s: Store, es: seq<Event>, now: int, id: string)
    ensures id in AddAll(s, es, now).byId <==> id in s.byId || Mentions(es, id)
    decreases |es|
  {
    if es != [] {
      var n := |es| - 1;
      AddKnown(s, es[..n], now, id);
      if Mentions(es[..n], id) {
        var i :| 0 <= i < n && es[..n][i].id == id;
        assert es[i].id == id;
      }
      if Mentions(es, id) && es[n].id != id {
        var i :| 0 <= i < |es| && es[i].id == id;
        assert es[..n][i].id == id;
      }
    }
  }

  lemma NewIsUnknown(s: Store, es: seq<Event>, now: int, i: nat)
    requires i < |es|
    ensures IsNew(s, es, i) <==> es[i].id !in AddAll(s, es[..i], now).byId
  {
    AddKnown(s, es[..i], now, es[i].id);
    assert forall j | 0 <= j < i :: es[..i][j] == es[j];
  }

  lemma {:induction false} AddedMessage(s: Store, es: seq<Event>, now: int, i: nat)
    requires i < |es| && IsNew(s, es, i)
    ensures es[i].id in AddAll(s, es, now).byId
    ensures AddAll(s, es, now).byId[es[i].id] == Message(es[i], StatusPending, 0, now, None, "")
    decreases |es|
  {
    var n := |es| - 1;
    if i == n {
      NewIsUnknown(s, es, now, n);
    } else {
      assert es[..n][i] == es[i];
      AddedMessage(s, es[..n], now, i);
    }
  }

  /** After an add: what was stored is as it was; every new id is stored with the first
      event of that id, pending, not attempted, with the time of the add; and nothing
      else is stored. */
  lemma AddExactly(s: Store, es: seq<Event>, now: int)
    ensures var s' := AddAll(s, es, now);
            && (forall id | id in s.byId :: id in s'.byId && s'.byId[id] == s.byId[id])
            && (forall id :: id in s'.byId <==> id in s.byId || Mentions(es, id))
            && (forall i | 0 <= i < |es| && IsNew(s, es, i) ::
                  es[i].id in s'.byId && s'.byId[es[i].id] == Message(es[i], StatusPending, 0, now, None, ""))
  {
    AddAllKeeps(s, es, now);
    forall id ensures id in AddAll(s, es, now).byId <==> id in s.byId || Mentions(es, id) { AddKnown(s, es, now, id); }
    forall i | 0 <= i < |es| && IsNew(s, es, i)
      ensures es[i].id in AddAll(s, es, now).byId
              && AddAll(s, es, now).byId[es[i].id] == Message(es[i], StatusPending, 0, now, None, "")
    {
      AddedMessage(s, es, now, i);
    }
  }

  ghost predicate InsertedAt(s: Store, es: seq<Event>, ids: seq<string>, at: seq<nat>) {
    && |at| == |ids| && (forall i, j | 0 <= i < j < |at| :: at[i] < at[j])
    && (forall i | 0 <= i < |at| :: at[i] < |es| && IsNew(s, es, at[i]) && ids[i] == es[at[i]].id)
    && (forall k | 0 <= k < |es| && IsNew(s, es, k) :: k in at)
  }

  /** The order grows by exactly the new ids, in the order of the events. */
  lemma {:induction false} InsertedExactly(s: Store, es: seq<Event>, now: int)
    ensures exists at: seq<nat> :: InsertedAt(s, es, Inserted(s, es, now), at)
    decreases |es|
  {
    if es == [] {
      var none: seq<nat> := [];
      assert InsertedAt(s, es, Inserted(s, es, now), none);
    } else {
      var n := |es| - 1;
      var front := es[..n];
      InsertedExactly(s, front, now);
      var at: seq<nat> :| InsertedAt(s, front, Inserted(s, front, now), at);
      InsertedNext(s, es, now);
      InsertedSnoc(s, es, Inserted(s, front, now), at);
    }
  }

  lemma InsertedNext(s: Store, es: seq<Event>, now: int)
    requires es != []
    ensures var n := |es| - 1;
            Inserted(s, es, now) == Inserted(s, es[..n], now) + (if IsNew(s, es, n) then [es[n].id] else [])
  {
    NewIsUnknown(s, es, now, |es| - 1);
  }

  lemma InsertedSnoc(s: Store, es: seq<Event>, ids: seq<string>, at: seq<nat>)
    requires es != [] && InsertedAt(s, es[..|es| - 1], ids, at)
    ensures var n := |es| - 1;
            var fresh1 := IsNew(s, es, n);
            InsertedAt(s, es, ids + (if fresh1 then [es[n].id] else []), at + (if fresh1 then [n] else []))
  {
    var n := |es| - 1;
    var front := es[..n];
    forall i | 0 <= i < n ensures IsNew(s, es, i) <==> IsNew(s, front, i) { }
    var at' := at + (if IsNew(s, es, n) then [n] else []);
    forall k | 0 <= k < |es| && IsNew(s, es, k) ensures k in at' { if k < n { assert k in at; } }
  }

  /** What marking does to the one message it is about, and to nothing else. */
  lemma MarkExactly(s: Store, id: string, now: int, reason: string)
    requires id in s.byId
    ensures var m, d, f := s.byId[id], MarkPublishedOne(s, id, now), MarkFailedOne(s, id, reason);
            && d.order == f.order == s.order && d.byId.Keys == f.byId.Keys == s.byId.Keys
            && (forall x | x in s.byId && x != id :: d.byId[x] == f.byId[x] == s.byId[x])
            && d.byId[id].event == f.byId[id].event == m.event && d.byId[id].createdAt == f.byId[id].createdAt == m.createdAt
            && d.byId[id].status == StatusPublished && d.byId[id].publishedAt == Some(now)
            && d.byId[id].lastError == "" && d.byId[id].attempts == m.attempts
            && f.byId[id].status == StatusFailed && f.byId[id].publishedAt == m.publishedAt
            && f.byId[id].lastError == reason && f.byId[id].attempts == m.attempts + 1
  {
  }

  lemma DeliveryKeepsValid(s: Store, id: string, now: int)
    requires ValidStore(s)
    ensures ValidStore(MarkPublishedOne(s, id, now))
    ensures id in s.byId ==> PublishedIds(MarkPublishedOne(s, id, now)) == PublishedIds(s) + {id}
  {
  }

  lemma FailureKeepsValid(s: Store, id: string, reason: string)
    requires ValidStore(s)
    ensures ValidStore(MarkFailedOne(s, id, reason))
    ensures id !in PublishedIds(s) ==> PublishedIds(MarkFailedOne(s, id, reason)) == PublishedIds(s)
  {
  }

  /** Pending and published ids split the store. */
  lemma PendingSplits(s: Store)
    requires ValidStore(s)
    ensures Distinct(PendingIds(s)) && Elems(PendingIds(s)) == s.byId.Keys - PublishedIds(s)
    ensures |s.order| == |PublishedIds(s)| + |PendingIds(s)|
  {
    KeepDistinct(s.order, PublishedIds(s));
    KeepMembers(s.order, PublishedIds(s));
    DistinctSize(s.order);
    DistinctSize(PendingIds(s));
    var p := Elems(PendingIds(s));
    assert forall x :: x in Elems(s.order) <==> x in s.byId.Keys;
    assert p == s.byId.Keys - PublishedIds(s);
    assert s.byId.Keys == PublishedIds(s) + p && PublishedIds(s) !! p;
  }

  /** The stored messages of these ids, in this order. */
  predicate CopiesOf(byId: map<string, Message>, out: seq<Message>, ids: seq<string>) {
    |out| == |ids| && forall i | 0 <= i < |ids| :: ids[i] in byId && out[i] == byId[ids[i]]
  }

  lemma KeepNext(order: seq<string>, i: nat, done: set<string>)
    requires i < |order|
    ensures Keep(order[..i + 1], done) == Keep(order[..i], done) + (if order[i] in done then [] else [order[i]])
  {
    assert order[..i + 1] == order[..i] + [order[i]];
    KeepConcat(order[..i], [order[i]], done);
  }

  class MemoryStore {
    var order: seq<string>
    var byId: map<string, Message>

    function Value(): Store
      reads this
    {
      Store(order, byId)
    }

    ghost predicate Valid()
      reads this
    {
      ValidStore(Value())
    }

    constructor ()
      ensures Valid() && Value() == Store([], map[])
    {
      order := [];
      byId := map[];
    }

    method Add(events: seq<Event>, now: int)
      requires Valid()
      modifies this
      ensures Valid() && Value() == AddAll(old(Value()), events, now)
    {
      for i := 0 to |events|
        invariant Value() == AddAll(old(Value()), events[..i], now)
      {
        assert events[..i + 1][..i] == events[..i];
        var e := events[i];
        if e.id in byId {
          continue;
        }
        byId := byId[e.id := Message(e, StatusPending, 0, now, None, "")];
        order := order + [e.id];
      }
      assert events[..|events|] == events;
      AddAllValid(old(Value()), events, now);
    }

    /** Copies of the oldest undelivered messages, at most `limit` of them. */
    method FetchPending(limit: int) returns (out: seq<Message>)
      requires Valid()
      ensures CopiesOf(byId, out, Batch(Value(), limit))
    {
      out := [];
      for i := 0 to |order|
        invariant CopiesOf(byId, out, Keep(order[..i], PublishedIds(Value())))
        invariant limit > 0 ==> |out| < limit
      {
        FetchStep(Value(), out, i);
        var m := byId[order[i]];
        if m.status == StatusPublished {
          continue;
        }
        out := out + [m];
        if limit > 0 && |out| >= limit {
          PrefixIsBatch(Value(), i + 1, limit);
          return;
        }
      }
      assert order[..|order|] == order;
    }

    method MarkPublished(ids: seq<string>, now: int)
      requires Valid()
      modifies this`byId
      ensures Valid() && order == old(order)
      ensures Value() == MarkPublishedAll(old(Value()), ids, now)
    {
      for i := 0 to |ids|
        invariant Valid() && order == old(order) && Value() == MarkPublishedAll(old(Value()), ids[..i], now)
      {
        assert ids[..i + 1][..i] == ids[..i];
        DeliveryKeepsValid(Value(), ids[i], now);
        if ids[i] in byId {
          byId := byId[ids[i] := byId[ids[i]].(status := StatusPublished, publishedAt := Some(now), lastError := "")];
        }
      }
      assert ids[..|ids|] == ids;
    }

    method MarkFailed(id: string, reason: string)
      requires Valid()
      modifies this`byId
      ensures Valid() && Value() == MarkFailedOne(old(Value()), id, reason)
    {
      FailureKeepsValid(Value(), id, reason);
      if id in byId {
        var m := byId[id];
        byId := byId[id := m.(status := StatusFailed, attempts := m.attempts + 1, lastError := reason)];
      }
    }

    /** The count over the map equals the length of the pending list. */
    method PendingCount() returns (n: nat)
      requires Valid()
      ensures n == |PendingIds(Value())|
      ensures |order| == |PublishedIds(Value())| + n
    {
      n := 0;
      var todo := byId.Keys;
      ghost var counted: set<string> := {};
      while todo != {}
        invariant todo <= byId.Keys
        invariant counted == set id | id in byId && id !in todo && byId[id].status != StatusPublished
        invariant n == |counted|
        decreases |todo|
      {
        var id :| id in todo;
        if byId[id].status != StatusPublished {
          n := n + 1;
          counted := counted + {id};
        }
        todo := todo - {id};
      }
      PendingSplits(Value());
      DistinctSize(PendingIds(Value()));
      assert counted == Elems(PendingIds(Value()));
    }
  }

  function MarkPublishedAll(s: Store, ids: seq<string>, now: int): Store
    decreases |ids|
  {
    if ids == [] then s else MarkPublishedOne(MarkPublishedAll(s, ids[..|ids| - 1], now), ids[|ids| - 1], now)
  }

  lemma PrefixIsBatch(s: Store, i: nat, limit: int)
    requires i <= |s.order| && limit == |Keep(s.order[..i], PublishedIds(s))| > 0
    ensures Batch(s, limit) == Keep(s.order[..i], PublishedIds(s))
  {
    assert s.order == s.order[..i] + s.order[i..];
    KeepConcat(s.order[..i], s.order[i..], PublishedIds(s));
  }

  lemma FetchStep(s: Store, out: seq<Message>, i: nat)
    requires ValidStore(s) && i < |s.order| && CopiesOf(s.byId, out, Keep(s.order[..i], PublishedIds(s)))
    ensures var id := s.order[i];
            && id in s.byId
            && CopiesOf(s.byId, out + (if s.byId[id].status == StatusPublished then [] else [s.byId[id]]),
                        Keep(s.order[..i + 1], PublishedIds(s)))
  {
    var id := s.order[i];
    assert id in Elems(s.order);
    KeepNext(s.order, i, PublishedIds(s));
  }
}
