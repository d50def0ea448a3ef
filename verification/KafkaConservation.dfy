/** Crash-free runs whose writes succeed, with any number of readers inside `handle`
    at once and any commit results: nothing appears or disappears, and every fetch
    spends one unit of a bounded budget. */
module KafkaConservation {
  import opened Prelude
  import opened KafkaRetry
  import opened KafkaProtocol
  import opened KafkaSafety

  // ---------- sums over logs ----------

  function Sum(logs: seq<Log>, f: Log -> int): int {
    if logs == [] then 0 else f(logs[0]) + Sum(logs[1..], f)
  }

  lemma {:induction false} SumUpdate(logs: seq<Log>, i: nat, g: Log, f: Log -> int)
    requires i < |logs|
    ensures Sum(logs[i := g], f) == Sum(logs, f) - f(logs[i]) + f(g)
  {
    if i == 0 {
      assert logs[0 := g][1..] == logs[1..];
    } else {
      SumUpdate(logs[1..], i - 1, g, f);
      assert logs[i := g][1..] == logs[1..][i - 1 := g];
    }
  }

  lemma {:induction false} SumAtMost(logs: seq<Log>, f: Log -> int, h: Log -> int)
    requires forall g | g in logs :: f(g) <= h(g)
    ensures Sum(logs, f) <= Sum(logs, h)
  {
    if logs != [] { SumAtMost(logs[1..], f, h); }
  }

  lemma {:induction false} SumZero(logs: seq<Log>, f: Log -> int)
    requires forall g | g in logs :: f(g) == 0
    ensures Sum(logs, f) == 0
  {
    if logs != [] { SumZero(logs[1..], f); }
  }

  function CompletedIn(entries: seq<Entry>): nat {
    if entries == [] then 0
    else CompletedIn(entries[..|entries| - 1]) + (if entries[|entries| - 1].fate == Completed then 1 else 0)
  }

  lemma {:induction false} CompletedAfterFate(entries: seq<Entry>, k: nat, f: Fate)
    requires k < |entries| && entries[k].fate == Open
    ensures CompletedIn(SetFate(entries, k, f)) == CompletedIn(entries) + (if f == Completed then 1 else 0)
  {
    var n := |entries| - 1;
    var entries' := SetFate(entries, k, f);
    if k == n {
      assert entries'[..n] == entries[..n];
    } else {
      CompletedAfterFate(entries[..n], k, f);
      assert entries'[..n] == SetFate(entries[..n], k, f);
    }
  }

  lemma CompletedAfterAppend(entries: seq<Entry>, e: Entry)
    requires e.fate == Open
    ensures CompletedIn(entries + [e]) == CompletedIn(entries)
  {
    assert (entries + [e])[..|entries|] == entries;
  }

  // ---------- the quantities that are conserved ----------

  function Published(g: Log): int { if g.site.attempt == 0 then |g.entries| else 0 }

  /** On a business topic: unread; on a retry topic: waiting. */
  function Waiting(g: Log): int { |g.entries| - g.pos }

  /** Fetched by the log's reader and neither completed nor sent on yet. */
  function Held(g: Log): int { if g.phase.Fetched? || g.phase.Sending? then 1 else 0 }

  function Done(g: Log): int { CompletedIn(g.entries) }

  /** Handles a message of this log can still cost. */
  function Rate(c: Config, g: Log): int { c.maxRetries + 1 - g.site.attempt }

  function Cost(c: Config, g: Log): int { (Waiting(g) + Held(g)) * Rate(c, g) }

  function Budget(c: Config, s: State): int { Sum(s.logs, g => Cost(c, g)) }

  /** published = unread + waiting + in hand + completed + dead-lettered */
  predicate Balanced(s: State) {
    Sum(s.logs, Published) == Sum(s.logs, Waiting) + Sum(s.logs, Held) + Sum(s.logs, Done) + |s.dlq|
  }

  /** What is unread or in hand has not been handled before. */
  predicate Tidy(g: Log) {
    && (forall k | g.pos <= k < |g.entries| :: g.entries[k].fate == Open)
    && (Held(g) == 1 ==> g.phase.offset < |g.entries| && g.entries[g.phase.offset].fate == Open)
  }

  predicate AllTidy(s: State) { forall i | 0 <= i < |s.logs| :: Tidy(s.logs[i]) }

  predicate Books(c: Config, s: State) { Inv(c, s) && AllTidy(s) && Balanced(s) }

  /** No crash, and the broker acknowledges every write; commits may fail. */
  predicate Smooth(step: Step) { !step.Restart? && (step.Write? ==> step.result.Acked?) }

  predicate SmoothRun(steps: seq<Step>) { forall i | 0 <= i < |steps| :: Smooth(steps[i]) }

  // ---------- what a step does to the sums ----------

  /** The change from g to g' in each quantity. */
  datatype Delta = Delta(published: int, waiting: int, held: int, done: int, cost: int)

  function Change(c: Config, g: Log, g': Log): Delta {
    Delta(Published(g') - Published(g), Waiting(g') - Waiting(g), Held(g') - Held(g), Done(g') - Done(g),
          Cost(c, g') - Cost(c, g))
  }

  function Totals(c: Config, logs: seq<Log>): Delta {
    Delta(Sum(logs, Published), Sum(logs, Waiting), Sum(logs, Held), Sum(logs, Done), Sum(logs, g => Cost(c, g)))
  }

  function Plus(a: Delta, b: Delta): Delta {
    Delta(a.published + b.published, a.waiting + b.waiting, a.held + b.held, a.done + b.done, a.cost + b.cost)
  }

  lemma TotalsUpdate(c: Config, logs: seq<Log>, i: nat, g': Log)
    requires i < |logs|
    ensures Totals(c, logs[i := g']) == Plus(Totals(c, logs), Change(c, logs[i], g'))
  {
    SumUpdate(logs, i, g', Published);
    SumUpdate(logs, i, g', Waiting);
    SumUpdate(logs, i, g', Held);
    SumUpdate(logs, i, g', Done);
    SumUpdate(logs, i, g', g => Cost(c, g));
  }

  lemma OneMore(n: int, r: int)
    ensures (n + 1) * r == n * r + r && (n - 1) * r == n * r - r
  {
  }

  lemma AppendChange(c: Config, g: Log, e: Entry)
    requires Tidy(g) && e.fate == Open
    ensures Tidy(Append(g, e))
    ensures Change(c, g, Append(g, e)) == Delta(if g.site.attempt == 0 then 1 else 0, 1, 0, 0, Rate(c, g))
  {
    CompletedAfterAppend(g.entries, e);
    OneMore(Waiting(g) + Held(g), Rate(c, g));
  }

  /** The message in hand gets its fate, and the reader turns to committing. */
  function Settling(g: Log, f: Fate): Log
    requires Held(g) == 1 && g.phase.offset < |g.entries|
  {
    g.(entries := SetFate(g.entries, g.phase.offset, f), phase := Committing(g.phase.offset))
  }

  lemma FinishChange(c: Config, g: Log, f: Fate)
    requires Tidy(g) && Held(g) == 1 && f != Open && g.phase.offset < g.pos
    ensures Tidy(Settling(g, f))
    ensures Change(c, g, Settling(g, f)) == Delta(0, 0, -1, if f == Completed then 1 else 0, -Rate(c, g))
  {
    CompletedAfterFate(g.entries, g.phase.offset, f);
    OneMore(Waiting(g) + Held(g), Rate(c, g));
  }

  /** This step ends the handling of its message. */
  predicate Finishes(c: Config, s: State, step: Step)
    requires Enabled(c, s, step)
  {
    step.Write? || (step.Dispatch? && Apply(c, s, step).logs[step.log].phase.Committing?)
  }

  /** What a step adds to the sums, and to the dead-letter topic. */
  predicate Adds(c: Config, s: State, s': State, d: Delta, letters: nat) {
    Totals(c, s'.logs) == Plus(Totals(c, s.logs), d) && |s'.dlq| == |s.dlq| + letters && AllTidy(s')
  }

  lemma Replaced(c: Config, s: State, i: nat, g': Log, d: Delta)
    requires AllTidy(s) && i < |s.logs| && Tidy(g') && Change(c, s.logs[i], g') == d
    ensures Adds(c, s, s.(logs := s.logs[i := g']), d, 0)
  {
    TotalsUpdate(c, s.logs, i, g');
  }

  lemma ProduceAdds(c: Config, s: State, step: Step)
    requires AllTidy(s) && step.Produce? && Enabled(c, s, step)
    ensures Adds(c, s, Apply(c, s, step), Delta(1, 1, 0, 0, c.maxRetries + 1), 0)
  {
    var g, e := s.logs[step.log], Entry(Message(step.key, step.value, step.headers), None, Open);
    AppendChange(c, g, e);
    Replaced(c, s, step.log, Append(g, e), Delta(1, 1, 0, 0, c.maxRetries + 1));
  }

  lemma FetchAdds(c: Config, s: State, i: nat)
    requires AllTidy(s) && Enabled(c, s, Fetch(i))
    ensures Adds(c, s, Apply(c, s, Fetch(i)), Delta(0, -1, 1, 0, 0), 0)
  {
    var g := s.logs[i];
    assert Tidy(g);
    Replaced(c, s, i, g.(phase := Fetched(g.pos), pos := g.pos + 1), Delta(0, -1, 1, 0, 0));
  }

  lemma DispatchAdds(c: Config, s: State, step: Step)
    requires Inv(c, s) && AllTidy(s) && step.Dispatch? && Enabled(c, s, step)
    ensures Adds(c, s, Apply(c, s, step),
                 if Finishes(c, s, step) then Delta(0, 0, -1, 1, -Rate(c, s.logs[step.log])) else Delta(0, 0, 0, 0, 0), 0)
  {
    var g := s.logs[step.log];
    assert LogOk(c, s, g) && Tidy(g);
    var g' := DispatchLog(c, g, s.now, step.results, step.cause);
    DispatchChange(c, g, s.now, step.results, step.cause);
    Replaced(c, s, step.log, g', Change(c, g, g'));
  }

  lemma DispatchChange(c: Config, g: Log, now: int, results: seq<bool>, cause: string)
    requires Tidy(g) && g.phase.Fetched? && g.phase.offset < g.pos <= |g.entries|
    ensures var g' := DispatchLog(c, g, now, results, cause);
            && Tidy(g')
            && Change(c, g, g') == if g'.phase.Committing? then Delta(0, 0, -1, 1, -Rate(c, g)) else Delta(0, 0, 0, 0, 0)
  {
    if g.entries[g.phase.offset].msg.value.Encoded? && false !in results { FinishChange(c, g, Completed); }
  }

  lemma CommitAdds(c: Config, s: State, i: nat, ok: bool)
    requires AllTidy(s) && Enabled(c, s, Commit(i, ok))
    ensures Adds(c, s, Apply(c, s, Commit(i, ok)), Delta(0, 0, 0, 0, 0), 0)
  {
    var g := s.logs[i];
    assert Tidy(g);
    Replaced(c, s, i, if ok then g.(committed := g.phase.offset + 1, phase := Idle) else g.(phase := Idle),
             Delta(0, 0, 0, 0, 0));
  }

  lemma HopWritten(c: Config, s: State, i: nat, j: nat)
    requires Enabled(c, s, Write(i, j, Acked)) && s.logs[i].phase.target.ToRetry? && i != j
    ensures var p := s.logs[i].phase;
            Apply(c, s, Write(i, j, Acked))
            == s.(logs := s.logs[i := Settling(s.logs[i], Hopped(j, |s.logs[j].entries|))]
                                [j := Append(s.logs[j], Entry(p.msg, Some(p.firstFailure), Open))])
  {
  }

  /** A hop moves one message to the next retry topic, where it can cost one handle less. */
  lemma HopAdds(c: Config, s: State, i: nat, j: nat)
    requires Inv(c, s) && AllTidy(s) && Enabled(c, s, Write(i, j, Acked)) && s.logs[i].phase.target.ToRetry?
    ensures Adds(c, s, Apply(c, s, Write(i, j, Acked)), Delta(0, 1, -1, 0, -1), 0)
  {
    var g, p := s.logs[i], s.logs[i].phase;
    assert LogOk(c, s, g) && Tidy(g) && i != j;
    var f := Hopped(j, |s.logs[j].entries|);
    var g' := Settling(g, f);
    var s1 := s.(logs := s.logs[i := g']);
    FinishChange(c, g, f);
    Replaced(c, s, i, g', Delta(0, 0, -1, 0, -Rate(c, g)));
    var e := Entry(p.msg, Some(p.firstFailure), Open);
    HopWritten(c, s, i, j);
    assert s1.logs[j] == s.logs[j] && Tidy(s.logs[j]);
    AppendChange(c, s.logs[j], e);
    Replaced(c, s1, j, Append(s.logs[j], e), Delta(0, 1, 0, 0, Rate(c, g) - 1));
  }

  lemma DeadLetterAdds(c: Config, s: State, i: nat, j: nat)
    requires Inv(c, s) && AllTidy(s) && Enabled(c, s, Write(i, j, Acked)) && s.logs[i].phase.target.ToDlq?
    ensures Adds(c, s, Apply(c, s, Write(i, j, Acked)), Delta(0, 0, -1, 0, -Rate(c, s.logs[i])), 1)
  {
    var g, p := s.logs[i], s.logs[i].phase;
    assert LogOk(c, s, g) && Tidy(g);
    var f := Dead(|s.dlq|);
    FinishChange(c, g, f);
    Replaced(c, s, i, Settling(g, f), Delta(0, 0, -1, 0, -Rate(c, g)));
  }

  // ---------- every step ----------

  /** Every step of a smooth run keeps the books balanced. Ending a handle lowers the
      budget, an arrival raises it by MaxRetries+1, anything else leaves it alone. */
  lemma SmoothStep(c: Config, s: State, step: Step)
    requires Books(c, s) && Enabled(c, s, step) && Smooth(step)
    ensures var s' := Apply(c, s, step);
            && Books(c, s')
            && (if step.Produce? then Budget(c, s') == Budget(c, s) + c.maxRetries + 1
                else if Finishes(c, s, step) then Budget(c, s') <= Budget(c, s) - 1
                else Budget(c, s') == Budget(c, s))
            && Sum(s'.logs, Held) == Sum(s.logs, Held)
                 + (if step.Fetch? then 1 else if Finishes(c, s, step) then -1 else 0)
            && Sum(s'.logs, Published) == Sum(s.logs, Published) + (if step.Produce? then 1 else 0)
  {
    StepOk(c, s, step);
    if !step.Tick? { assert LogOk(c, s, s.logs[step.log]); }
    match step
    case Produce(_, _, _, _) => ProduceAdds(c, s, step);
    case Tick(_) =>
    case Fetch(i) => FetchAdds(c, s, i);
    case Dispatch(_, _, _) => DispatchAdds(c, s, step);
    case Write(i, j, _) => if s.logs[i].phase.target.ToRetry? { HopAdds(c, s, i, j); } else { DeadLetterAdds(c, s, i, j); }
    case Commit(i, ok) => CommitAdds(c, s, i, ok);
  }

  // ---------- every run ----------

  function Fetches(steps: seq<Step>): nat {
    if steps == [] then 0 else (if steps[0].Fetch? then 1 else 0) + Fetches(steps[1..])
  }

  function Arrivals(steps: seq<Step>): nat {
    if steps == [] then 0 else (if steps[0].Produce? then 1 else 0) + Arrivals(steps[1..])
  }

  /** The fetches still to pay for: what is in hand has been paid. */
  function Fuel(c: Config, s: State): int { Budget(c, s) - Sum(s.logs, Held) }

  lemma {:induction false} RunBooks(c: Config, s: State, steps: seq<Step>, r: int)
    requires Books(c, s) && IsRun(c, s, steps) && SmoothRun(steps) && r == c.maxRetries + 1
    ensures var t := Final(c, s, steps);
            && Books(c, t) && Sum(t.logs, Published) == Sum(s.logs, Published) + Arrivals(steps)
            && Fetches(steps) + Fuel(c, t) <= Fuel(c, s) + Arrivals(steps) * r
    decreases |steps|
  {
    if steps == [] {
      assert Arrivals(steps) == 0;
    } else {
      SmoothStep(c, s, steps[0]);
      var s' := Apply(c, s, steps[0]);
      RunBooks(c, s', steps[1..], r);
      FuelStep(Fuel(c, s), Fuel(c, s'), Fuel(c, Final(c, s', steps[1..])), steps, r);
    }
  }

  lemma FuelStep(b0: int, b1: int, b2: int, steps: seq<Step>, r: int)
    requires steps != []
    requires b1 <= b0 + (if steps[0].Produce? then r else if steps[0].Fetch? then -1 else 0)
    requires Fetches(steps[1..]) + b2 <= b1 + Arrivals(steps[1..]) * r
    ensures Fetches(steps) + b2 <= b0 + Arrivals(steps) * r
  {
    OneMore(Arrivals(steps[1..]), r);
  }

  lemma InitialBooks(c: Config, s: State)
    requires Initial(c, s)
    ensures Books(c, s) && Fuel(c, s) == 0 && Sum(s.logs, Published) == 0
  {
    SumZero(s.logs, Published);
    SumZero(s.logs, Waiting);
    SumZero(s.logs, Held);
    SumZero(s.logs, Done);
    SumZero(s.logs, g => Cost(c, g));
  }

  /** The budget covers everything that waits or is in hand, over all logs together. */
  lemma BudgetCoversWaiting(c: Config, s: State)
    requires Inv(c, s)
    ensures Budget(c, s) >= Sum(s.logs, Waiting) + Sum(s.logs, Held)
    ensures Sum(s.logs, Waiting) >= 0 && Sum(s.logs, Held) >= 0
  {
    var both := g => Waiting(g) + Held(g);
    var cost := g => Cost(c, g);
    forall g | g in s.logs ensures 0 <= Waiting(g) && both(g) <= cost(g) {
      var k :| 0 <= k < |s.logs| && s.logs[k] == g;
      assert LogOk(c, s, g);
      ScaleMonotone(Waiting(g) + Held(g), 1, Rate(c, g));
    }
    SumAtMost(s.logs, both, cost);
    SumOfBoth(s.logs);
    SumZero(s.logs, g => 0);
    SumAtMost(s.logs, g => 0, Waiting);
    SumAtMost(s.logs, g => 0, Held);
  }

  lemma {:induction false} SumOfBoth(logs: seq<Log>)
    ensures Sum(logs, g => Waiting(g) + Held(g)) == Sum(logs, Waiting) + Sum(logs, Held)
  {
    if logs != [] { SumOfBoth(logs[1..]); }
  }

  /** From an empty cluster, however arrivals, waits and the steps of all readers
      interleave, whatever the handlers return and whichever commits fail: the books
      balance after every step, and n arrivals cost at most n * (MaxRetries+1)
      fetches, those still due for waiting messages included. */
  lemma Conservation(c: Config, s: State, steps: seq<Step>)
    requires Initial(c, s) && IsRun(c, s, steps) && SmoothRun(steps)
    ensures var t := Final(c, s, steps);
            && Balanced(t) && Sum(t.logs, Published) == Arrivals(steps)
            && Fetches(steps) + Sum(t.logs, Waiting) <= Arrivals(steps) * (c.maxRetries + 1)
  {
    InitialBooks(c, s);
    RunBooks(c, s, steps, c.maxRetries + 1);
    BudgetCoversWaiting(c, Final(c, s, steps));
  }

  /** So n arrivals are settled after n * (MaxRetries+1) fetches, once the last
      handle has ended: each is completed or dead-lettered. */
  lemma Settled(c: Config, s: State, steps: seq<Step>)
    requires Initial(c, s) && IsRun(c, s, steps) && SmoothRun(steps)
    requires forall g | g in Final(c, s, steps).logs :: Held(g) == 0
    requires Fetches(steps) >= Arrivals(steps) * (c.maxRetries + 1)
             || forall g | g in Final(c, s, steps).logs :: Waiting(g) == 0
    ensures var t := Final(c, s, steps);
            Sum(t.logs, Waiting) == 0 && Arrivals(steps) == Sum(t.logs, Done) + |t.dlq|
  {
    Conservation(c, s, steps);
    RunKeepsInv(c, s, steps);
    var t := Final(c, s, steps);
    BudgetCoversWaiting(c, t);
    SumZero(t.logs, Held);
    if forall g | g in t.logs :: Waiting(g) == 0 { SumZero(t.logs, Waiting); }
  }

  /** What its reader can do next with log i: fetch if something waits; dispatch at
      some time, whatever the handlers return; write; commit. */
  ghost predicate CanGoOn(c: Config, s: State, i: nat)
    requires i < |s.logs|
  {
    var g := s.logs[i];
    match g.phase
    case Idle => g.pos < |g.entries| ==> Enabled(c, s, Fetch(i))
    case Fetched(k) => k < |g.entries| && exists t :: Enabled(c, s, Tick(t)) && DispatchesAt(c, s, i, t)
    case Sending(_, _, _, _) => exists j: nat :: Enabled(c, s, Write(i, j, Acked))
    case Committing(_) => forall ok :: Enabled(c, s, Commit(i, ok))
  }

  ghost predicate DispatchesAt(c: Config, s: State, i: nat, t: int)
    requires i < |s.logs| && s.logs[i].phase.Fetched? && s.logs[i].phase.offset < |s.logs[i].entries|
  {
    forall results: seq<bool>, cause: string ::
      |results| == HandlerCount(c, s.logs[i].site, s.logs[i].entries[s.logs[i].phase.offset].msg)
      ==> Enabled(c, s.(now := t), Dispatch(i, results, cause))
  }

  /** No reader is ever stuck, in any reachable state with every retry topic consumed. */
  lemma NeverStuck(c: Config, s: State, i: nat)
    requires Inv(c, s) && Covered(c, s) && i < |s.logs|
    ensures CanGoOn(c, s, i)
  {
    var g := s.logs[i];
    assert LogOk(c, s, g);
    match g.phase
    case Idle =>
    case Fetched(k) =>
      var t := match NotBeforeFrom(g.entries[k].msg.headers) case None => s.now case Some(d) => Max(d, s.now);
      assert Enabled(c, s, Tick(t)) && DispatchesAt(c, s, i, t);
    case Sending(_, target, _, _) =>
      if target.ToRetry? {
        assert HasLog(s, Site(g.site.business, target.attempt));
        var j: nat :| j < |s.logs| && s.logs[j].site == Site(g.site.business, target.attempt);
        assert Enabled(c, s, Write(i, j, Acked));
      } else {
        assert Enabled(c, s, Write(i, 0, Acked));
      }
    case Committing(_) =>
  }

  // ---------- one uninterrupted handle ----------

  /** One pass of the read loop: fetch, dispatch, the write if one is due, commit. */
  function HandlePass(c: Config, s: State, i: nat, results: seq<bool>, cause: string, j: nat): seq<Step> {
    if Enabled(c, s, Fetch(i)) && Enabled(c, Apply(c, s, Fetch(i)), Dispatch(i, results, cause))
       && AfterDispatch(c, s, i, results, cause).logs[i].phase.Sending? then
      [Fetch(i), Dispatch(i, results, cause), Write(i, j, Acked), Commit(i, true)]
    else
      [Fetch(i), Dispatch(i, results, cause), Commit(i, true)]
  }

  function AfterDispatch(c: Config, s: State, i: nat, results: seq<bool>, cause: string): State
    requires Enabled(c, s, Fetch(i)) && Enabled(c, Apply(c, s, Fetch(i)), Dispatch(i, results, cause))
  {
    Apply(c, Apply(c, s, Fetch(i)), Dispatch(i, results, cause))
  }

  // What one handle leaves, in terms of the state before it.

  function Finished(g: Log, f: Fate): Log
    requires g.pos < |g.entries|
  {
    Log(g.site, SetFate(g.entries, g.pos, f), g.pos + 1, g.pos + 1, Idle)
  }

  predicate CompletesIn(s: State, i: nat, s': State) {
    && i < |s.logs| && s.logs[i].pos < |s.logs[i].entries|
    && s' == s.(logs := s.logs[i := Finished(s.logs[i], Completed)])
  }

  ghost predicate HopsIn(s: State, i: nat, j: nat, s': State) {
    && i < |s.logs| && j < |s.logs| && i != j && s.logs[i].pos < |s.logs[i].entries|
    && s.logs[j].site.attempt == s.logs[i].site.attempt + 1
    && exists e: Entry ::
         && e.fate == Open
         && s' == s.(logs := s.logs[i := Finished(s.logs[i], Hopped(j, |s.logs[j].entries|))][j := Append(s.logs[j], e)])
  }

  ghost predicate DiesIn(s: State, i: nat, s': State) {
    && i < |s.logs| && s.logs[i].pos < |s.logs[i].entries|
    && exists l: Letter :: s' == State(s.logs[i := Finished(s.logs[i], Dead(|s.dlq|))], s.dlq + [l], s.now)
  }

  lemma FinalOfThree(c: Config, s: State, a: Step, b: Step, d: Step)
    requires IsRun(c, s, [a, b, d])
    ensures Enabled(c, s, a) && Enabled(c, Apply(c, s, a), b) && Enabled(c, Apply(c, Apply(c, s, a), b), d)
    ensures Final(c, s, [a, b, d]) == Apply(c, Apply(c, Apply(c, s, a), b), d)
  {
    assert [a, b, d][1..] == [b, d] && [b, d][1..] == [d];
    var s1 := Apply(c, s, a);
    assert IsRun(c, s1, [b, d]);
    assert IsRun(c, Apply(c, s1, b), [d]);
    assert Final(c, Apply(c, s1, b), [d]) == Apply(c, Apply(c, s1, b), d) by { assert [d][1..] == []; }
  }

  lemma FinalOfFour(c: Config, s: State, a: Step, b: Step, d: Step, e: Step)
    requires IsRun(c, s, [a, b, d, e])
    ensures Enabled(c, s, a) && IsRun(c, Apply(c, s, a), [b, d, e])
    ensures Final(c, s, [a, b, d, e]) == Final(c, Apply(c, s, a), [b, d, e])
  {
    assert [a, b, d, e][1..] == [b, d, e];
  }

  lemma HandleEffect(c: Config, s: State, i: nat, results: seq<bool>, cause: string, j: nat)
    requires Inv(c, s) && IsRun(c, s, HandlePass(c, s, i, results, cause, j))
    ensures var s' := Final(c, s, HandlePass(c, s, i, results, cause, j));
            CompletesIn(s, i, s') || HopsIn(s, i, j, s') || DiesIn(s, i, s')
  {
    var steps := HandlePass(c, s, i, results, cause, j);
    if |steps| == 3 {
      FinalOfThree(c, s, Fetch(i), Dispatch(i, results, cause), Commit(i, true));
      var s' := Final(c, s, steps);
      assert s'.logs == s.logs[i := Finished(s.logs[i], Completed)];
    } else {
      FinalOfFour(c, s, Fetch(i), Dispatch(i, results, cause), Write(i, j, Acked), Commit(i, true));
      var s1 := Apply(c, s, Fetch(i));
      FinalOfThree(c, s1, Dispatch(i, results, cause), Write(i, j, Acked), Commit(i, true));
      StepOk(c, s, Fetch(i));
      SendingEffect(c, s, s1, i, results, cause, j);
    }
  }

  lemma SendingEffect(c: Config, s: State, s1: State, i: nat, results: seq<bool>, cause: string, j: nat)
    requires Enabled(c, s, Fetch(i)) && s1 == Apply(c, s, Fetch(i)) && Inv(c, s1)
    requires Enabled(c, s1, Dispatch(i, results, cause))
    requires var s2 := Apply(c, s1, Dispatch(i, results, cause));
             s2.logs[i].phase.Sending? && Enabled(c, s2, Write(i, j, Acked))
             && Enabled(c, Apply(c, s2, Write(i, j, Acked)), Commit(i, true))
    ensures var s2 := Apply(c, s1, Dispatch(i, results, cause));
            var s' := Apply(c, Apply(c, s2, Write(i, j, Acked)), Commit(i, true));
            HopsIn(s, i, j, s') || DiesIn(s, i, s')
  {
    var s2 := Apply(c, s1, Dispatch(i, results, cause));
    FetchThenSend(c, s, i, results, cause);
    if s2.logs[i].phase.target.ToRetry? {
      StepOk(c, s1, Dispatch(i, results, cause));
      assert LogOk(c, s2, s2.logs[i]);
      HopEffect(c, s, s2, i, j);
    } else {
      DeadLetterEffect(c, s, s2, i, j);
    }
  }

  /** s2 is s with the next message of log i fetched and about to be sent on. */
  predicate HasInHand(s: State, i: nat, s2: State) {
    && i < |s.logs| == |s2.logs| && s.logs[i].pos < |s.logs[i].entries|
    && s2 == s.(logs := s.logs[i := s.logs[i].(pos := s.logs[i].pos + 1, phase := s2.logs[i].phase)])
    && s2.logs[i].phase.Sending? && s2.logs[i].phase.offset == s.logs[i].pos
  }

  lemma FetchThenSend(c: Config, s: State, i: nat, results: seq<bool>, cause: string)
    requires Enabled(c, s, Fetch(i)) && Enabled(c, Apply(c, s, Fetch(i)), Dispatch(i, results, cause))
    requires AfterDispatch(c, s, i, results, cause).logs[i].phase.Sending?
    ensures HasInHand(s, i, AfterDispatch(c, s, i, results, cause))
  {
  }

  lemma HopEffect(c: Config, s: State, s2: State, i: nat, j: nat)
    requires HasInHand(s, i, s2) && s2.logs[i].phase.target.ToRetry? && LogOk(c, s2, s2.logs[i])
    requires Enabled(c, s2, Write(i, j, Acked)) && Enabled(c, Apply(c, s2, Write(i, j, Acked)), Commit(i, true))
    ensures HopsIn(s, i, j, Apply(c, Apply(c, s2, Write(i, j, Acked)), Commit(i, true)))
  {
    var p := s2.logs[i].phase;
    var s' := Apply(c, Apply(c, s2, Write(i, j, Acked)), Commit(i, true));
    assert i != j;
    HopWritten(c, s2, i, j);
    var e := Entry(p.msg, Some(p.firstFailure), Open);
    assert s2.logs[j] == s.logs[j];
    assert s'.logs == s.logs[i := Finished(s.logs[i], Hopped(j, |s.logs[j].entries|))][j := Append(s.logs[j], e)];
  }

  lemma DeadLetterEffect(c: Config, s: State, s2: State, i: nat, j: nat)
    requires HasInHand(s, i, s2) && !s2.logs[i].phase.target.ToRetry?
    requires Enabled(c, s2, Write(i, j, Acked)) && Enabled(c, Apply(c, s2, Write(i, j, Acked)), Commit(i, true))
    ensures DiesIn(s, i, Apply(c, Apply(c, s2, Write(i, j, Acked)), Commit(i, true)))
  {
    var p := s2.logs[i].phase;
    var s' := Apply(c, Apply(c, s2, Write(i, j, Acked)), Commit(i, true));
    assert s'.logs == s.logs[i := Finished(s.logs[i], Dead(|s.dlq|))];
    assert s' == State(s.logs[i := Finished(s.logs[i], Dead(|s.dlq|))],
                       s.dlq + [Letter(s.logs[i].site.business, p.msg, p.firstFailure)], s.now);
  }
}
