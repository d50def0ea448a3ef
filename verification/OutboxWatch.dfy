/** Progress of one watched message over every relay run, with events added anywhere:
    between drains, and between the publish and mark steps inside one. */
module OutboxWatch {
  import opened Ids
  import opened Outbox
  import opened OutboxRelay
  import Events
  import OutboxProgress

  /** Where the watched message stands: behind the batch, with `kept` refused in this
      drain and `mid` between; in the batch; or delivered. */
  datatype Place =
    | Behind(kept: seq<string>, mid: seq<string>, behind: seq<string>)
    | InBatch(kept: seq<string>, pre: seq<string>, post: seq<string>, rest: seq<string>)
    | Gone

  /** The watched message, the messages that always fail, the messages whose answers
      are known, and how many failing ones are ahead. */
  datatype Watch = Watch(target: string, bad: set<string>, known: set<string>, failing: nat)

  /** The answer a publisher that fails exactly on `bad` gives. */
  predicate AnswersAs(w: Watch, id: string, ok: bool) { id in w.known ==> (ok <==> id !in w.bad) }

  predicate HeadOk(r: Relay, w: Watch) {
    && (!r.head.Ready? ==> r.batch != [])
    && (r.head.Delivered? ==> AnswersAs(w, r.batch[0], true))
    && (r.head.Rejected? ==> AnswersAs(w, r.batch[0], false))
  }

  predicate Sees(r: Relay, w: Watch, p: Place) {
    && ValidStore(r.store) && r.limit >= 1 && w.target in r.store.byId && w.target in w.known
    && (w.failing < r.limit ==> w.target !in w.bad)
    && HeadOk(r, w)
    && match p
       case Behind(kept, mid, behind) =>
         && PendingIds(r.store) == kept + r.batch + (mid + [w.target] + behind)
         && (forall x | x in kept :: x in w.bad && x in w.known)
         && (forall x | x in r.batch :: x in w.known) && (forall x | x in mid :: x in w.known)
         && CountIn(kept, w.bad) + CountIn(r.batch, w.bad) + CountIn(mid, w.bad) == w.failing
       case InBatch(kept, pre, post, rest) =>
         w.failing < r.limit && PendingIds(r.store) == kept + r.batch + rest && r.batch == pre + [w.target] + post
       case Gone => w.target !in PendingIds(r.store) && w.target !in r.batch
  }

  /** Drains to deliver the messages of s that are not bad and one more, b at a time. */
  function Drains(s: seq<string>, bad: set<string>, b: nat): nat
    requires b >= 1
  {
    OutboxProgress.CeilDiv(|s| - CountIn(s, bad) + 1, b)
  }

  /** Drains still needed once the current one has ended. */
  function Needed(w: Watch, limit: int, p: Place): nat
    requires w.failing < limit
  {
    match p
    case Behind(_, mid, _) => Drains(mid, w.bad, limit - w.failing)
    case _ => 0
  }

  // ---------- the pending list under one step ----------

  lemma MarkedOne(s: Store, a: seq<string>, id: string, c: seq<string>, now: int)
    requires ValidStore(s) && PendingIds(s) == a + [id] + c
    ensures ValidStore(MarkPublishedOne(s, id, now)) && PendingIds(MarkPublishedOne(s, id, now)) == a + c
  {
    PendingSplits(s);
    assert PendingIds(s)[|a|] == id && id in Elems(PendingIds(s));
    DeliveryKeepsValid(s, id, now);
    KeepTwice(s.order, PublishedIds(s), {id});
    OnlyOnce(s, a, id, c);
    DropOne(a, id, c);
  }

  lemma DropOne(a: seq<string>, id: string, c: seq<string>)
    requires id !in a && id !in c
    ensures Keep(a + [id] + c, {id}) == a + c
  {
    calc {
      Keep(a + [id] + c, {id});
      { KeepConcat(a + [id], c, {id}); }
      Keep(a + [id], {id}) + Keep(c, {id});
      { KeepConcat(a, [id], {id}); }
      Keep(a, {id}) + Keep([id], {id}) + Keep(c, {id});
      { KeepNone(a, {id}); KeepNone(c, {id}); DropItself(id); }
      a + [] + c;
    }
  }

  lemma DropItself(id: string)
    ensures Keep([id], {id}) == []
  {
    assert [id][1..] == [];
  }

  lemma FailedOne(s: Store, id: string, reason: string)
    requires ValidStore(s) && id in PendingIds(s)
    ensures ValidStore(MarkFailedOne(s, id, reason)) && PendingIds(MarkFailedOne(s, id, reason)) == PendingIds(s)
  {
    PendingSplits(s);
    assert id in Elems(PendingIds(s));
    FailureKeepsValid(s, id, reason);
  }

  // ---------- one step ----------

  /** Of the messages it knows, the publisher fails exactly on `bad`. */
  predicate StepOk(r: Relay, w: Watch, step: Step) { step.Publish? && r.batch != [] ==> AnswersAs(w, r.batch[0], step.ok) }

  lemma AddSees(r: Relay, w: Watch, p: Place, events: seq<Events.Event>, now: int) returns (p': Place)
    requires Sees(r, w, p)
    ensures Sees(Apply(r, Add(events, now)), w, p')
    ensures p.Behind? ==> p'.Behind? && p'.kept == p.kept && p'.mid == p.mid
    ensures p.InBatch? ==> p'.InBatch?
    ensures p.Gone? ==> p'.Gone?
  {
    var more := Inserted(r.store, events, now);
    AddAllValid(r.store, events, now);
    AddAllKeeps(r.store, events, now);
    AddAllPending(r.store, events, now);
    match p
    case Behind(kept, mid, behind) =>
      p' := Behind(kept, mid, behind + more);
      RegroupBehind(kept + r.batch, mid, w.target, behind, more);
    case InBatch(kept, pre, post, rest) =>
      p' := InBatch(kept, pre, post, rest + more);
      Associates(kept + r.batch, rest, more);
    case Gone =>
      p' := Gone;
      assert w.target !in more by { NewOnly(r.store, events, now, w.target); }
  }

  lemma RegroupBehind(a: seq<string>, mid: seq<string>, target: string, behind: seq<string>, more: seq<string>)
    ensures a + (mid + [target] + behind) + more == a + (mid + [target] + (behind + more))
  {
  }

  lemma Associates(a: seq<string>, b: seq<string>, c: seq<string>)
    ensures a + b + c == a + (b + c)
  {
  }

  /** An add inserts no id that is stored already. */
  lemma {:induction false} NewOnly(s: Store, es: seq<Events.Event>, now: int, id: string)
    requires id in s.byId
    ensures id !in Inserted(s, es, now)
    decreases |es|
  {
    if es != [] {
      NewOnly(s, es[..|es| - 1], now, id);
      AddAllKeeps(s, es[..|es| - 1], now);
    }
  }

  lemma FetchSees(r: Relay, w: Watch, p: Place) returns (p': Place)
    requires Sees(r, w, p) && Enabled(r, Fetch)
    ensures Sees(Apply(r, Fetch), w, p')
    ensures p.Behind? && w.failing >= r.limit ==> p'.Behind?
    ensures !p.Behind? ==> !p'.Behind?
    ensures w.failing < r.limit ==> Needed(w, r.limit, p') <= Needed(w, r.limit, p) - 1 || (!p.Behind? && !p'.Behind?)
  {
    match p
    case Behind(kept, mid, behind) =>
      var ahead := kept + mid;
      CountConcat(kept, mid, w.bad);
      assert PendingIds(r.store) == ahead + [w.target] + behind;
      if r.limit <= |ahead| {
        p' := FetchAhead(r, w, p);
      } else {
        p' := FetchReaches(r, w, ahead, behind);
      }
    case InBatch(_, _, _, _) =>
      assert false;
    case Gone =>
      p' := Gone;
      assert forall x | x in Batch(r.store, r.limit) :: x in PendingIds(r.store);
  }

  /** The batch is taken from what is ahead. */
  lemma FetchAhead(r: Relay, w: Watch, p: Place) returns (p': Place)
    requires Sees(r, w, p) && Enabled(r, Fetch) && p.Behind? && r.limit <= |p.kept + p.mid|
    ensures p'.Behind? && Sees(Apply(r, Fetch), w, p')
    ensures w.failing < r.limit ==> Needed(w, r.limit, p') <= Needed(w, r.limit, p) - 1
  {
    var ahead := p.kept + p.mid;
    var mid' := ahead[r.limit..];
    p' := Behind([], mid', p.behind);
    BatchOfAhead(r.store, r.limit, p.kept, p.mid, [w.target] + p.behind);
    assert mid' + ([w.target] + p.behind) == mid' + [w.target] + p.behind;
    assert p.mid + ([w.target] + p.behind) == p.mid + [w.target] + p.behind;
    assert forall x | x in ahead :: x in w.known;
    AheadCounts(w, r.limit, p.kept, p.mid);
  }

  lemma AheadCounts(w: Watch, limit: nat, kept: seq<string>, mid: seq<string>)
    requires 1 <= limit <= |kept + mid| && (forall x | x in kept :: x in w.bad)
    requires CountIn(kept, w.bad) + CountIn(mid, w.bad) == w.failing
    ensures var ahead := kept + mid;
            && CountIn(ahead[..limit], w.bad) + CountIn(ahead[limit..], w.bad) == w.failing
            && (w.failing < limit ==>
                  Drains(ahead[limit..], w.bad, limit - w.failing) <= Drains(mid, w.bad, limit - w.failing) - 1)
  {
    var ahead := kept + mid;
    CountSplit(ahead, limit, w.bad);
    CountConcat(kept, mid, w.bad);
    AllIn(kept, w.bad);
    if w.failing < limit {
      FewerNeeded(|mid| - CountIn(mid, w.bad) + 1, |ahead[limit..]| - CountIn(ahead[limit..], w.bad) + 1, limit - w.failing);
    }
  }

  lemma CountSplit(s: seq<string>, n: nat, t: set<string>)
    requires n <= |s|
    ensures CountIn(s, t) == CountIn(s[..n], t) + CountIn(s[n..], t)
  {
    assert s == s[..n] + s[n..];
    CountConcat(s[..n], s[n..], t);
  }

  lemma BatchOfAhead(s: Store, limit: int, kept: seq<string>, mid: seq<string>, after: seq<string>)
    requires 1 <= limit <= |kept + mid| && PendingIds(s) == kept + [] + (mid + after)
    ensures var ahead := kept + mid;
            Batch(s, limit) == ahead[..limit] && PendingIds(s) == [] + ahead[..limit] + (ahead[limit..] + after)
  {
    var ahead := kept + mid;
    assert PendingIds(s) == ahead + after;
    assert ahead + after == ahead[..limit] + (ahead[limit..] + after);
  }

  lemma {:induction false} AllIn(s: seq<string>, t: set<string>)
    requires forall x | x in s :: x in t
    ensures CountIn(s, t) == |s|
  {
    if s != [] { AllIn(s[1..], t); }
  }

  lemma FewerNeeded(p: nat, p': nat, b: nat)
    requires b >= 1 && p > b && p' <= p - b
    ensures OutboxProgress.CeilDiv(p', b) <= OutboxProgress.CeilDiv(p, b) - 1
  {
    OutboxProgress.CeilDivMonotone(p - b, p', b);
  }

  /** The batch reaches the watched message. */
  lemma FetchReaches(r: Relay, w: Watch, ahead: seq<string>, behind: seq<string>) returns (p': Place)
    requires ValidStore(r.store) && r.limit >= 1 && Enabled(r, Fetch) && w.target in r.store.byId
    requires w.target in w.known && w.target !in w.bad && w.failing < r.limit
    requires PendingIds(r.store) == ahead + [w.target] + behind && |ahead| < r.limit
    ensures p'.InBatch? && Sees(Apply(r, Fetch), w, p')
  {
    var pending, batch := PendingIds(r.store), Batch(r.store, r.limit);
    var n := |batch|;
    assert batch == pending[..n] && n > |ahead|;
    var post := behind[..n - |ahead| - 1];
    p' := InBatch([], ahead, post, pending[n..]);
    assert batch == ahead + [w.target] + post;
    assert pending == [] + batch + pending[n..];
  }

  lemma PublishSees(r: Relay, w: Watch, p: Place, step: Step)
    requires Sees(r, w, p) && Enabled(r, step) && step.Publish? && StepOk(r, w, step)
    ensures Sees(Apply(r, step), w, p)
  {
  }

  lemma MarkBehind(r: Relay, w: Watch, p: Place, now: int) returns (p': Place)
    requires Sees(r, w, p) && Enabled(r, Mark(now)) && p.Behind?
    ensures p'.Behind? && p'.mid == p.mid && Sees(Apply(r, Mark(now)), w, p')
  {
    var id, batch' := r.batch[0], r.batch[1..];
    var after := p.mid + [w.target] + p.behind;
    assert r.batch == [id] + batch' && id in r.batch;
    CountConcat([id], batch', w.bad);
    HeadSplit(p.kept, id, batch', after);
    if r.head.Rejected? {
      p' := Behind(p.kept + [id], p.mid, p.behind);
      assert PendingIds(r.store)[|p.kept|] == id;
      FailedOne(r.store, id, r.head.reason);
      CountConcat(p.kept, [id], w.bad);
    } else {
      p' := p;
      MarkedOne(r.store, p.kept, id, batch' + after, now);
    }
  }

  lemma HeadSplit(kept: seq<string>, id: string, batch': seq<string>, after: seq<string>)
    ensures kept + ([id] + batch') + after == kept + [id] + (batch' + after) == kept + [id] + batch' + after
    ensures kept + (batch' + after) == kept + batch' + after
  {
  }

  lemma MarkInBatch(r: Relay, w: Watch, p: Place, now: int) returns (p': Place)
    requires Sees(r, w, p) && Enabled(r, Mark(now)) && p.InBatch?
    ensures !p'.Behind? && Sees(Apply(r, Mark(now)), w, p')
  {
    var id, batch' := r.batch[0], r.batch[1..];
    assert r.batch == [id] + batch';
    HeadSplit(p.kept, id, batch', p.rest);
    if p.pre == [] {
      assert id == w.target && batch' == p.post;
      p' := Gone;
      MarkedOne(r.store, p.kept, id, batch' + p.rest, now);
      OnlyOnce(r.store, p.kept, id, batch' + p.rest);
    } else {
      assert batch' == p.pre[1..] + [w.target] + p.post;
      if r.head.Rejected? {
        p' := InBatch(p.kept + [id], p.pre[1..], p.post, p.rest);
        assert PendingIds(r.store)[|p.kept|] == id;
        FailedOne(r.store, id, r.head.reason);
      } else {
        p' := InBatch(p.kept, p.pre[1..], p.post, p.rest);
        MarkedOne(r.store, p.kept, id, batch' + p.rest, now);
      }
    }
  }

  lemma OnlyOnce(s: Store, a: seq<string>, id: string, c: seq<string>)
    requires ValidStore(s) && PendingIds(s) == a + [id] + c
    ensures id !in a && id !in c
  {
    PendingSplits(s);
    DistinctParts(a + [id], c);
    DistinctParts(a, [id]);
    assert id in [id] && id in a + [id];
  }

  lemma MarkGone(r: Relay, w: Watch, now: int)
    requires Sees(r, w, Gone) && Enabled(r, Mark(now))
    ensures Sees(Apply(r, Mark(now)), w, Gone)
  {
    PendingSplits(r.store);
    assert w.target !in Elems(PendingIds(r.store));
    var s' := Apply(r, Mark(now)).store;
    if r.head.Rejected? { FailureKeepsValid(r.store, r.batch[0], r.head.reason); } else { DeliveryKeepsValid(r.store, r.batch[0], now); }
    assert w.target != r.batch[0] by { assert r.batch[0] in r.batch; }
    assert w.target in PublishedIds(s');
    PendingSplits(s');
    assert w.target !in Elems(PendingIds(s'));
  }

  /** Every step keeps the watched message in sight; a fetch brings it one drain
      closer, and nothing takes it further away. */
  lemma StepSees(r: Relay, w: Watch, p: Place, step: Step) returns (p': Place)
    requires Sees(r, w, p) && Enabled(r, step) && StepOk(r, w, step)
    ensures Sees(Apply(r, step), w, p')
    ensures p.Behind? && w.failing >= r.limit ==> p'.Behind?
    ensures w.failing < r.limit ==>
              Needed(w, r.limit, p') <= Needed(w, r.limit, p) - (if step.Fetch? then 1 else 0) || !p'.Behind?
  {
    match step
    case Add(events, now) => p' := AddSees(r, w, p, events, now);
    case Fetch => p' := FetchSees(r, w, p);
    case Publish(_, _) =>
      PublishSees(r, w, p, step);
      p' := p;
    case Mark(now) =>
      match p {
        case Behind(_, _, _) => p' := MarkBehind(r, w, p, now);
        case InBatch(_, _, _, _) => p' := MarkInBatch(r, w, p, now);
        case Gone =>
          MarkGone(r, w, now);
          p' := Gone;
      }
  }

  // ---------- every run ----------

  /** Throughout the run, of the messages it knows the publisher fails exactly on `bad`. */
  predicate Steady(r: Relay, w: Watch, steps: seq<Step>)
    requires IsRun(r, steps)
    decreases |steps|
  {
    steps == [] || (StepOk(r, w, steps[0]) && Steady(Apply(r, steps[0]), w, steps[1..]))
  }

  function Fetches(steps: seq<Step>): nat {
    if steps == [] then 0 else (if steps[0].Fetch? then 1 else 0) + Fetches(steps[1..])
  }

  lemma {:induction false} RunDelivers(r: Relay, w: Watch, p: Place, steps: seq<Step>) returns (p': Place)
    requires Sees(r, w, p) && IsRun(r, steps) && Steady(r, w, steps)
    requires w.failing < r.limit && (p.Behind? ==> Fetches(steps) >= Needed(w, r.limit, p))
    ensures Sees(Final(r, steps), w, p') && !p'.Behind?
    decreases |steps|
  {
    if steps == [] {
      p' := p;
    } else {
      var p1 := StepSees(r, w, p, steps[0]);
      p' := RunDelivers(Apply(r, steps[0]), w, p1, steps[1..]);
    }
  }

  lemma {:induction false} RunBlocks(r: Relay, w: Watch, p: Place, steps: seq<Step>) returns (p': Place)
    requires Sees(r, w, p) && IsRun(r, steps) && Steady(r, w, steps) && p.Behind? && w.failing >= r.limit
    ensures Sees(Final(r, steps), w, p') && p'.Behind?
    decreases |steps|
  {
    if steps == [] {
      p' := p;
    } else {
      var p1 := StepSees(r, w, p, steps[0]);
      p' := RunBlocks(Apply(r, steps[0]), w, p1, steps[1..]);
    }
  }

  /** What is watched when `ahead` is before `target`. */
  function Watching(ahead: seq<string>, target: string, bad: set<string>): Watch {
    Watch(target, bad, Elems(ahead) + {target}, CountIn(ahead, bad))
  }

  lemma StartsBehind(r: Relay, ahead: seq<string>, target: string, behind: seq<string>, bad: set<string>)
    requires ValidStore(r.store) && r.limit >= 1 && r.head.Ready? && r.batch == []
    requires PendingIds(r.store) == ahead + [target] + behind && (CountIn(ahead, bad) < r.limit ==> target !in bad)
    ensures Sees(r, Watching(ahead, target, bad), Behind([], ahead, behind))
  {
    OutboxProgress.WatchedIsStored(r.store, ahead, target, behind);
    assert [] + [] + (ahead + [target] + behind) == ahead + [target] + behind;
    assert forall x | x in ahead :: x in Elems(ahead);
  }

  /** Over every relay run, whatever is added and whenever: with p-1 publishable and
      f < B permanently failing messages ahead of it, a publishable message is
      delivered by the end of the ceil(p / (B-f))-th drain. */
  lemma DeliveredOverRuns(r: Relay, steps: seq<Step>, ahead: seq<string>, target: string, behind: seq<string>,
                          bad: set<string>)
    requires ValidStore(r.store) && r.limit >= 1 && r.head.Ready? && r.batch == [] && target !in bad
    requires PendingIds(r.store) == ahead + [target] + behind
    requires IsRun(r, steps) && Steady(r, Watching(ahead, target, bad), steps) && Final(r, steps).batch == []
    requires CountIn(ahead, bad) < r.limit && Fetches(steps) >= Drains(ahead, bad, r.limit - CountIn(ahead, bad))
    ensures target !in PendingIds(Final(r, steps).store)
  {
    var w, p := Watching(ahead, target, bad), Behind([], ahead, behind);
    assert Sees(r, w, p) by { StartsBehind(r, ahead, target, behind, bad); }
    assert w.failing == CountIn(ahead, bad) && w.bad == bad && p.mid == ahead;
    DeliveredFrom(r, w, p, steps);
  }

  lemma DeliveredFrom(r: Relay, w: Watch, p: Place, steps: seq<Step>)
    requires Sees(r, w, p) && IsRun(r, steps) && Steady(r, w, steps) && Final(r, steps).batch == []
    requires w.failing < r.limit && p.Behind? && Fetches(steps) >= Drains(p.mid, w.bad, r.limit - w.failing)
    ensures w.target !in PendingIds(Final(r, steps).store)
  {
    var p' := RunDelivers(r, w, p, steps);
    AtRest(Final(r, steps), w, p');
  }

  /** Between drains a message that is not behind is delivered. */
  lemma AtRest(r: Relay, w: Watch, p: Place)
    requires Sees(r, w, p) && !p.Behind? && r.batch == []
    ensures w.target !in PendingIds(r.store)
  {
  }

  /** With f >= B it is never delivered, over every relay run. */
  lemma BlockedOverRuns(r: Relay, steps: seq<Step>, ahead: seq<string>, target: string, behind: seq<string>,
                        bad: set<string>)
    requires ValidStore(r.store) && r.limit >= 1 && r.head.Ready? && r.batch == []
    requires PendingIds(r.store) == ahead + [target] + behind
    requires IsRun(r, steps) && Steady(r, Watching(ahead, target, bad), steps)
    requires CountIn(ahead, bad) >= r.limit
    ensures target in PendingIds(Final(r, steps).store)
  {
    StartsBehind(r, ahead, target, behind, bad);
    var p := RunBlocks(r, Watching(ahead, target, bad), Behind([], ahead, behind), steps);
    var t := Final(r, steps);
    assert PendingIds(t.store)[|p.kept| + |t.batch| + |p.mid|] == target;
  }
}
