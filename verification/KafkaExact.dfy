/** What the steps of `handle` do, said in terms of the message, the handlers' results
    and the clock; and what "completed" means over a run. */
module KafkaExact {
  import opened Prelude
  import opened KafkaRetry
  import opened KafkaProtocol
  import opened KafkaSafety
  import KafkaBus

  /** Step by step only the reader's own log changes, and a written-to retry topic. */
  predicate OnlyLog(s: State, s': State, i: nat) {
    && |s'.logs| == |s.logs| && s'.dlq == s.dlq && s'.now == s.now
    && forall l | 0 <= l < |s.logs| && l != i :: s'.logs[l] == s.logs[l]
  }

  // ---------- dispatching ----------

  /** The message decodes and every subscribed handler returned nil. */
  predicate AllNil(e: Entry, results: seq<bool>) {
    e.msg.value.Encoded? && forall h | 0 <= h < |results| :: results[h]
  }

  /** A dispatched message is completed if and only if it decodes and every handler
      returned nil; otherwise it is on its way to a retry or the dead-letter topic. */
  lemma DispatchExactly(c: Config, s: State, i: nat, results: seq<bool>, cause: string)
    requires Enabled(c, s, Dispatch(i, results, cause))
    ensures var s' := Apply(c, s, Dispatch(i, results, cause));
            var g, g' := s.logs[i], s'.logs[i];
            var k := g.phase.offset;
            && OnlyLog(s, s', i)
            && g' == g.(entries := g'.entries, phase := g'.phase) && |g'.entries| == |g.entries|
            && (forall x | 0 <= x < |g.entries| && x != k :: g'.entries[x] == g.entries[x])
            && g'.entries[k] == g.entries[k].(fate := g'.entries[k].fate)
            && (AllNil(g.entries[k], results) ==> g'.phase == Committing(k) && g'.entries[k].fate == Completed)
            && (!AllNil(g.entries[k], results) ==>
                  g'.phase.Sending? && g'.phase.offset == k && g'.entries[k].fate == g.entries[k].fate)
  {
    assert (false in results) <==> exists h :: 0 <= h < |results| && !results[h];
  }

  /** Where message m of `site` goes if it is not completed: hop n = attempt + 1 if it
      decodes and n <= MaxRetries, else the dead-letter topic; with its key and value,
      the attempt n, the business topic, the error, and as deadline now plus the n-th
      delay, or now. */
  predicate GoesOn(c: Config, site: Site, m: Message, now: int, cause: string, target: Target, msg: Message) {
    var n := site.attempt + 1;
    var retried := m.value.Encoded? && n <= c.maxRetries;
    && target == (if retried then ToRetry(n) else ToDlq)
    && msg.key == m.key && msg.value == m.value
    && AttemptFrom(msg.headers) == n
    && ValueOf(msg.headers, HEADER_ORIGINAL_TOPIC) == Plain(site.business)
    && ValueOf(msg.headers, HEADER_LAST_ERROR) == Plain(cause)
    && NotBeforeFrom(msg.headers) == Some(if retried then now + Delay(c.base, c.maxDelay, n) else now)
  }

  lemma SendingExactly(c: Config, s: State, i: nat, results: seq<bool>, cause: string)
    requires Inv(c, s) && Enabled(c, s, Dispatch(i, results, cause))
    requires !AllNil(s.logs[i].entries[s.logs[i].phase.offset], results)
    ensures var g := s.logs[i];
            var e := g.entries[g.phase.offset];
            var p := Apply(c, s, Dispatch(i, results, cause)).logs[i].phase;
            && p.Sending? && GoesOn(c, g.site, e.msg, s.now, cause, p.target, p.msg)
            && (g.site.attempt == 0 ==> p.firstFailure == s.now)
            && (g.site.attempt > 0 ==> Some(p.firstFailure) == e.firstFailure)
  {
    DispatchExactly(c, s, i, results, cause);
    var g := s.logs[i];
    var e := g.entries[g.phase.offset];
    assert LogOk(c, s, g) && EntryOk(c, g.site, e);
    OnwardExactly(c, g.site, e, s.now, cause);
  }

  lemma OnwardExactly(c: Config, site: Site, e: Entry, now: int, cause: string)
    requires ValidConfig(c) && AttemptFrom(e.msg.headers) == site.attempt && 0 <= site.attempt <= c.maxRetries
    ensures var (target, msg) := Onward(c, site, e, now, cause);
            GoesOn(c, site, e.msg, now, cause, target, msg)
  {
    var n := site.attempt + 1;
    var at := if e.msg.value.Encoded? && n <= c.maxRetries then now + Delay(c.base, c.maxDelay, n) else now;
    HeadersRoundTrip(n, at, site.business, Some(cause));
    OriginRoundTrip(n, at, site.business, Some(cause));
  }

  // ---------- writing ----------

  /** A refused write leaves everything as it was and ends the handle. One that lands
      appends exactly the message, open, to the target and records where; the reader
      goes on to commit only if the write was acknowledged. */
  lemma WriteExactly(c: Config, s: State, i: nat, j: nat, result: WriteResult)
    requires Inv(c, s) && Enabled(c, s, Write(i, j, result))
    ensures var s' := Apply(c, s, Write(i, j, result));
            var g, g', p := s.logs[i], s'.logs[i], s.logs[i].phase;
            && s'.now == s.now && |s'.logs| == |s.logs|
            && g'.site == g.site && g'.pos == g.pos && g'.committed == g.committed
            && g'.phase == (if result.Acked? then Committing(p.offset) else Idle)
            && (result.Refused? ==> OnlyLog(s, s', i) && g'.entries == g.entries)
            && (!result.Refused? && p.target.ToDlq? ==>
                  && s'.dlq == s.dlq + [Letter(g.site.business, p.msg, p.firstFailure)]
                  && g'.entries == g.entries[p.offset := g.entries[p.offset].(fate := Dead(|s.dlq|))]
                  && (forall l | 0 <= l < |s.logs| && l != i :: s'.logs[l] == s.logs[l]))
            && (!result.Refused? && p.target.ToRetry? ==>
                  && s'.dlq == s.dlq && i != j
                  && g'.entries == g.entries[p.offset := g.entries[p.offset].(fate := Hopped(j, |s.logs[j].entries|))]
                  && s'.logs[j] == s.logs[j].(entries := s.logs[j].entries + [Entry(p.msg, Some(p.firstFailure), Open)])
                  && (forall l | 0 <= l < |s.logs| && l != i && l != j :: s'.logs[l] == s.logs[l]))
  {
    assert LogOk(c, s, s.logs[i]);
  }

  /** So the message written to hop n at time `now` reads back the deadline
      now + min(base * 2^(n-1), cap). */
  lemma HopDeadline(c: Config, s: State, i: nat, results: seq<bool>, cause: string, j: nat, result: WriteResult)
    requires Inv(c, s) && Enabled(c, s, Dispatch(i, results, cause)) && !result.Refused?
    requires var s1 := Apply(c, s, Dispatch(i, results, cause));
             s1.logs[i].phase.Sending? && s1.logs[i].phase.target.ToRetry? && Enabled(c, s1, Write(i, j, result))
    requires 0 <= c.base < TWO62 && 0 <= c.maxDelay <= TWO62
    ensures var t := Apply(c, Apply(c, s, Dispatch(i, results, cause)), Write(i, j, result));
            var n := s.logs[i].site.attempt + 1;
            && j < |t.logs| && |t.logs[j].entries| > 0 && t.logs[j].site == Site(s.logs[i].site.business, n)
            && NotBeforeFrom(t.logs[j].entries[|t.logs[j].entries| - 1].msg.headers)
               == Some(s.now + Min(c.base * Pow2(n - 1), c.maxDelay))
  {
    var s1 := Apply(c, s, Dispatch(i, results, cause));
    StepOk(c, s, Dispatch(i, results, cause));
    SentDeadline(c, s, i, results, cause);
    LandedOnHop(c, s1, i, j, result);
  }

  lemma SentDeadline(c: Config, s: State, i: nat, results: seq<bool>, cause: string)
    requires Inv(c, s) && Enabled(c, s, Dispatch(i, results, cause))
    requires var p := Apply(c, s, Dispatch(i, results, cause)).logs[i].phase; p.Sending? && p.target.ToRetry?
    requires 0 <= c.base < TWO62 && 0 <= c.maxDelay <= TWO62
    ensures var s1 := Apply(c, s, Dispatch(i, results, cause));
            var n := s.logs[i].site.attempt + 1;
            && s1.logs[i].site == s.logs[i].site && n >= 1 && s1.logs[i].phase.target == ToRetry(n)
            && NotBeforeFrom(s1.logs[i].phase.msg.headers) == Some(s.now + Min(c.base * Pow2(n - 1), c.maxDelay))
  {
    SentDelay(c, s, i, results, cause);
    CappedAt(c.base, c.maxDelay, s.logs[i].site.attempt + 1);
  }

  lemma SentDelay(c: Config, s: State, i: nat, results: seq<bool>, cause: string)
    requires Inv(c, s) && Enabled(c, s, Dispatch(i, results, cause))
    requires var p := Apply(c, s, Dispatch(i, results, cause)).logs[i].phase; p.Sending? && p.target.ToRetry?
    ensures var s1 := Apply(c, s, Dispatch(i, results, cause));
            var n := s.logs[i].site.attempt + 1;
            && s1.logs[i].site == s.logs[i].site && n >= 1 && s1.logs[i].phase.target == ToRetry(n)
            && NotBeforeFrom(s1.logs[i].phase.msg.headers) == Some(s.now + Delay(c.base, c.maxDelay, n))
  {
    DispatchExactly(c, s, i, results, cause);
    SendingExactly(c, s, i, results, cause);
    assert LogOk(c, s, s.logs[i]);
  }

  lemma CappedAt(base: int, cap: int, n: nat)
    requires n >= 1 && 0 <= base < TWO62 && 0 <= cap <= TWO62
    ensures Delay(base, cap, n) == Min(base * Pow2(n - 1), cap)
  {
    DelayIsCappedPower(base, cap, n);
  }

  lemma LandedOnHop(c: Config, s: State, i: nat, j: nat, result: WriteResult)
    requires Inv(c, s) && Enabled(c, s, Write(i, j, result)) && s.logs[i].phase.target.ToRetry? && !result.Refused?
    ensures var t, p := Apply(c, s, Write(i, j, result)), s.logs[i].phase;
            && j < |t.logs| && |t.logs[j].entries| > 0 && t.logs[j].site == Site(s.logs[i].site.business, p.target.attempt)
            && t.logs[j].entries[|t.logs[j].entries| - 1].msg == p.msg
  {
    WriteExactly(c, s, i, j, result);
  }

  // ---------- the reader's cursor ----------

  /** A fetch takes the next message; a commit acknowledges everything up to the message,
      a failed one nothing; a restart goes back to what was acknowledged. */
  lemma CursorExactly(c: Config, s: State, i: nat, step: Step)
    requires Enabled(c, s, step) && (step == Fetch(i) || step == Commit(i, true) || step == Commit(i, false) || step == Restart(i))
    ensures var g, g' := s.logs[i], Apply(c, s, step).logs[i];
            && OnlyLog(s, Apply(c, s, step), i) && g'.site == g.site && g'.entries == g.entries
            && (step.Fetch? ==> g'.phase == Fetched(g.pos) && g'.pos == g.pos + 1 && g'.committed == g.committed)
            && (step.Commit? ==> g'.phase == Idle && g'.pos == g.pos
                                 && g'.committed == if step.ok then g.phase.offset + 1 else g.committed)
            && (step.Restart? ==> g'.phase == Idle && g'.pos == g.committed == g'.committed)
  {
  }

  /** A published message is appended to its topic as it is, not yet handled. */
  lemma ProduceExactly(c: Config, s: State, i: nat, key: string, value: Value, headers: seq<Header>)
    requires Enabled(c, s, Produce(i, key, value, headers))
    ensures var s' := Apply(c, s, Produce(i, key, value, headers));
            && OnlyLog(s, s', i)
            && s'.logs[i] == s.logs[i].(entries := s.logs[i].entries + [Entry(Message(key, value, headers), None, Open)])
  {
  }

  // ---------- what "completed" means over a run ----------

  /** This step dispatches offset k of log i to every subscribed handler, and all of
      them return nil. */
  predicate HandledBy(c: Config, s: State, step: Step, i: nat, k: nat) {
    && step.Dispatch? && step.log == i && i < |s.logs| && s.logs[i].phase == Fetched(k) && k < |s.logs[i].entries|
    && var m := s.logs[i].entries[k].msg;
    && m.value.Encoded?
    && |step.results| == |KafkaBus.HandlersFor(c.bindings, s.logs[i].site.business, m.value.event.name)|
    && forall h | 0 <= h < |step.results| :: step.results[h]
  }

  predicate EverHandled(c: Config, s: State, steps: seq<Step>, i: nat, k: nat)
    requires IsRun(c, s, steps)
    decreases |steps|
  {
    steps != [] && (HandledBy(c, s, steps[0], i, k) || EverHandled(c, Apply(c, s, steps[0]), steps[1..], i, k))
  }

  predicate IsCompleted(s: State, i: nat, k: nat) {
    i < |s.logs| && k < |s.logs[i].entries| && s.logs[i].entries[k].fate == Completed
  }

  /** Only such a step completes a message. */
  lemma StepCompletes(c: Config, s: State, step: Step, i: nat, k: nat)
    requires Inv(c, s) && Enabled(c, s, step) && !IsCompleted(s, i, k) && IsCompleted(Apply(c, s, step), i, k)
    ensures HandledBy(c, s, step, i, k)
  {
    if step.Dispatch? {
      DispatchExactly(c, s, step.log, step.results, step.cause);
    } else if step.Write? {
      WriteExactly(c, s, step.log, step.target, step.result);
    } else if step.Fetch? || step.Commit? || step.Restart? {
      CursorExactly(c, s, step.log, step);
    }
  }

  /** Over every run: a completed message was at some step of the run dispatched to all
      its subscribers with every one returning nil. */
  lemma {:induction false} CompletedWasHandled(c: Config, s: State, steps: seq<Step>, i: nat, k: nat)
    requires Inv(c, s) && IsRun(c, s, steps) && !IsCompleted(s, i, k) && IsCompleted(Final(c, s, steps), i, k)
    ensures EverHandled(c, s, steps, i, k)
    decreases |steps|
  {
    var s' := Apply(c, s, steps[0]);
    StepOk(c, s, steps[0]);
    if IsCompleted(s', i, k) {
      StepCompletes(c, s, steps[0], i, k);
    } else {
      CompletedWasHandled(c, s', steps[1..], i, k);
    }
  }

  /** And a message so handled is never lost. */
  lemma {:induction false} HandledStaysResolved(c: Config, s: State, steps: seq<Step>, i: nat, k: nat)
    requires Inv(c, s) && IsRun(c, s, steps) && i < |s.logs|
    requires k < |s.logs[i].entries| && (EverHandled(c, s, steps, i, k) || !Unresolved(s, i, k))
    ensures !Unresolved(Final(c, s, steps), i, k)
    decreases |steps|
  {
    if steps != [] {
      var s' := Apply(c, s, steps[0]);
      StepOk(c, s, steps[0]);
      StepExtends(c, s, steps[0]);
      assert LogExtends(s.logs[i], s'.logs[i]);
      if HandledBy(c, s, steps[0], i, k) {
        DispatchExactly(c, s, i, steps[0].results, steps[0].cause);
      } else if !Unresolved(s, i, k) {
        LandedIsResolved(c, s, steps[0], i, k);
      }
      HandledStaysResolved(c, s', steps[1..], i, k);
    }
  }
}
