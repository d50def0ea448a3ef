/** No message is lost, on every run with restarts anywhere: exactly which
    commits break this, and the discipline that rules them out. */
module KafkaSafety {
  import opened KafkaRetry
  import opened KafkaProtocol
  import KafkaBus

  // ---------- runs ----------

  predicate IsRun(c: Config, s: State, steps: seq<Step>)
    decreases |steps|
  {
    steps == [] || (Enabled(c, s, steps[0]) && IsRun(c, Apply(c, s, steps[0]), steps[1..]))
  }

  function Final(c: Config, s: State, steps: seq<Step>): State
    requires IsRun(c, s, steps)
    decreases |steps|
  {
    if steps == [] then s else Final(c, Apply(c, s, steps[0]), steps[1..])
  }

  /** Nothing produced yet; one log per started reader and partition. */
  predicate Initial(c: Config, s: State) {
    && ValidConfig(c) && s.dlq == []
    && forall i | 0 <= i < |s.logs| ::
         && 0 <= s.logs[i].site.attempt <= c.maxRetries
         && s.logs[i] == Log(s.logs[i].site, [], 0, 0, Idle)
  }

  lemma {:induction false} RunKeepsInv(c: Config, s: State, steps: seq<Step>)
    requires Inv(c, s) && IsRun(c, s, steps)
    ensures Inv(c, Final(c, s, steps))
    decreases |steps|
  {
    if steps != [] {
      StepOk(c, s, steps[0]);
      RunKeepsInv(c, Apply(c, s, steps[0]), steps[1..]);
    }
  }

  /** What every reader may rely on: a message on retry topic n reads back attempt
      n, 1 <= n <= MaxRetries, and decodes; a dead letter carries MaxRetries+1 if
      it decodes and 1 if it does not. */
  lemma ReachableHeaders(c: Config, s: State, steps: seq<Step>, i: nat, k: nat, m: nat)
    requires Initial(c, s) && IsRun(c, s, steps)
    ensures var t := Final(c, s, steps);
            && (i < |t.logs| && k < |t.logs[i].entries| ==>
                  && AttemptFrom(t.logs[i].entries[k].msg.headers) == t.logs[i].site.attempt
                  && 0 <= t.logs[i].site.attempt <= c.maxRetries
                  && (t.logs[i].site.attempt >= 1 ==> t.logs[i].entries[k].msg.value.Encoded?))
            && (m < |t.dlq| ==>
                  AttemptFrom(t.dlq[m].msg.headers) == if t.dlq[m].msg.value.Encoded? then c.maxRetries + 1 else 1)
  {
    RunKeepsInv(c, s, steps);
    var t := Final(c, s, steps);
    if i < |t.logs| && k < |t.logs[i].entries| {
      assert LogOk(c, t, t.logs[i]);
      assert EntryOk(c, t.logs[i].site, t.logs[i].entries[k]);
    }
    if m < |t.dlq| { assert LetterOk(c, t.dlq[m]); }
  }

  /** min(base, cap) + min(2*base, cap) + ... over n attempts. */
  function CappedSum(base: int, cap: int, n: int): int
    decreases n
  {
    if n <= 0 then 0 else CappedSum(base, cap, n - 1) + Min(base * Pow2(n - 1), cap)
  }

  lemma {:induction false} DelaysAreCapped(c: Config, n: int)
    requires 0 <= c.base < TWO62 && 0 <= c.maxDelay <= TWO62
    ensures DelaysUpTo(c, n) == CappedSum(c.base, c.maxDelay, n)
    decreases n
  {
    if n > 0 {
      DelaysAreCapped(c, n - 1);
      DelayIsCappedPower(c.base, c.maxDelay, n);
    }
  }

  /** A message that exhausted its retries is dead-lettered no sooner than the
      sum of all backoff delays after its first failure. */
  lemma ReachableDeadlines(c: Config, s: State, steps: seq<Step>, m: nat)
    requires Initial(c, s) && IsRun(c, s, steps)
    requires m < |Final(c, s, steps).dlq| && Final(c, s, steps).dlq[m].msg.value.Encoded?
    ensures var l := Final(c, s, steps).dlq[m];
            && NotBeforeFrom(l.msg.headers).Some?
            && NotBeforeFrom(l.msg.headers).value >= l.firstFailure + DelaysUpTo(c, c.maxRetries)
            && (0 <= c.base < TWO62 && 0 <= c.maxDelay <= TWO62 ==>
                  NotBeforeFrom(l.msg.headers).value >= l.firstFailure + CappedSum(c.base, c.maxDelay, c.maxRetries))
  {
    RunKeepsInv(c, s, steps);
    assert LetterOk(c, Final(c, s, steps).dlq[m]);
    if 0 <= c.base < TWO62 && 0 <= c.maxDelay <= TWO62 { DelaysAreCapped(c, c.maxRetries); }
  }

  // ---------- the retry topic written to always has a reader ----------

  /** Every business topic consumed has all of its retry hops consumed too. */
  predicate Covered(c: Config, s: State) {
    forall i, n | 0 <= i < |s.logs| && 1 <= n <= c.maxRetries ::
      HasLog(s, Site(s.logs[i].site.business, n))
  }

  predicate HasLog(s: State, site: Site) {
    exists j :: 0 <= j < |s.logs| && s.logs[j].site == site
  }

  /** The readers started by `Run`, with at least one partition each, cover it. */
  lemma RunCovers(c: Config, s: State, readers: seq<KafkaBus.Reader>)
    requires forall r :: r in readers <==> KafkaBus.Wanted(c.bindings, c.maxRetries, r)
    requires forall r | r in readers :: HasLog(s, Site(r.business, r.attempt))
    requires forall i | 0 <= i < |s.logs| ::
               KafkaBus.ReaderOf(s.logs[i].site.business, s.logs[i].site.attempt) in readers
    ensures Covered(c, s)
  {
    forall i, n | 0 <= i < |s.logs| && 1 <= n <= c.maxRetries
      ensures HasLog(s, Site(s.logs[i].site.business, n))
    {
      var own := KafkaBus.ReaderOf(s.logs[i].site.business, s.logs[i].site.attempt);
      assert own in readers && KafkaBus.Wanted(c.bindings, c.maxRetries, own);
      var r := KafkaBus.ReaderOf(s.logs[i].site.business, n);
      assert KafkaBus.Wanted(c.bindings, c.maxRetries, r) && r in readers;
      assert HasLog(s, Site(r.business, r.attempt));
    }
  }

  lemma CoveredExtends(c: Config, s: State, s': State)
    requires Covered(c, s) && Extends(s, s')
    ensures Covered(c, s')
  {
    forall i, n | 0 <= i < |s'.logs| && 1 <= n <= c.maxRetries
      ensures HasLog(s', Site(s'.logs[i].site.business, n))
    {
      assert LogExtends(s.logs[i], s'.logs[i]);
      var j :| 0 <= j < |s.logs| && s.logs[j].site == Site(s.logs[i].site.business, n);
      assert LogExtends(s.logs[j], s'.logs[j]);
    }
  }

  lemma {:induction false} RunKeepsCovered(c: Config, s: State, steps: seq<Step>)
    requires Covered(c, s) && IsRun(c, s, steps)
    ensures Covered(c, Final(c, s, steps))
    decreases |steps|
  {
    if steps != [] {
      StepExtends(c, s, steps[0]);
      CoveredExtends(c, s, Apply(c, s, steps[0]));
      RunKeepsCovered(c, Apply(c, s, steps[0]), steps[1..]);
    }
  }

  /** A reader about to hop always finds a consumed topic to write to. */
  lemma RetryTopicHasReader(c: Config, s: State, steps: seq<Step>, i: nat)
    requires Initial(c, s) && Covered(c, s) && IsRun(c, s, steps)
    requires i < |Final(c, s, steps).logs| && Final(c, s, steps).logs[i].phase.Sending?
    ensures exists j: nat :: Enabled(c, Final(c, s, steps), Write(i, j, Acked))
  {
    RunKeepsInv(c, s, steps);
    RunKeepsCovered(c, s, steps);
    var t := Final(c, s, steps);
    assert LogOk(c, t, t.logs[i]);
    var p := t.logs[i].phase;
    if p.target.ToRetry? {
      assert HasLog(t, Site(t.logs[i].site.business, p.target.attempt));
      var j: nat :| j < |t.logs| && t.logs[j].site == Site(t.logs[i].site.business, p.target.attempt);
      assert Enabled(c, t, Write(i, j, Acked));
    } else {
      assert Enabled(c, t, Write(i, 0, Acked));
    }
  }

  // ---------- which commits lose a message ----------

  predicate Unresolved(s: State, i: int, k: int) {
    0 <= i < |s.logs| && 0 <= k < |s.logs[i].entries| && s.logs[i].entries[k].fate == Open
  }

  /** Every acknowledged message was handled, or a copy of it landed on a retry or
      dead-letter topic. */
  predicate AllResolved(s: State) {
    forall i, k | 0 <= i < |s.logs| && 0 <= k < s.logs[i].committed :: !Unresolved(s, i, k)
  }

  /** An acknowledged commit that runs over an unresolved offset. */
  predicate PassesOpen(s: State, step: Step) {
    && step.Commit? && step.ok && step.log < |s.logs| && s.logs[step.log].phase.Committing?
    && exists k :: s.logs[step.log].committed <= k < s.logs[step.log].phase.offset && Unresolved(s, step.log, k)
  }

  predicate NeverPasses(c: Config, s: State, steps: seq<Step>)
    requires IsRun(c, s, steps)
    decreases |steps|
  {
    steps == [] || (!PassesOpen(s, steps[0]) && NeverPasses(c, Apply(c, s, steps[0]), steps[1..]))
  }

  /** Below the committed offset nothing is ever handled again. */
  lemma BelowCommittedIsFrozen(c: Config, s: State, step: Step, i: nat, k: nat)
    requires Inv(c, s) && Enabled(c, s, step) && i < |s.logs| && k < s.logs[i].committed
    ensures var s' := Apply(c, s, step);
            && k < s'.logs[i].committed && s.logs[i].committed <= s'.logs[i].committed
            && k < |s.logs[i].entries| && k < |s'.logs[i].entries|
            && s'.logs[i].entries[k] == s.logs[i].entries[k]
  {
    assert LogOk(c, s, s.logs[i]);
    if step.Write? {
      WriteFreezes(c, s, step, i, k);
    } else if step.Dispatch? {
      assert LogOk(c, s, s.logs[step.log]);
    }
  }

  lemma WriteFreezes(c: Config, s: State, step: Step, i: nat, k: nat)
    requires step.Write? && Inv(c, s) && Enabled(c, s, step) && i < |s.logs| && k < s.logs[i].committed
    ensures var g, g' := s.logs[i], Apply(c, s, step).logs[i];
            g'.committed == g.committed && k < |g.entries| <= |g'.entries| && g'.entries[k] == g.entries[k]
  {
    assert LogOk(c, s, s.logs[i]);
    assert LogOk(c, s, s.logs[step.log]);
  }

  /** A step keeps all acknowledged messages resolved iff it does not pass one. */
  lemma StepResolvesExactly(c: Config, s: State, step: Step)
    requires Inv(c, s) && Enabled(c, s, step) && AllResolved(s)
    ensures AllResolved(Apply(c, s, step)) <==> !PassesOpen(s, step)
  {
    var s' := Apply(c, s, step);
    if PassesOpen(s, step) {
      var k :| s.logs[step.log].committed <= k < s.logs[step.log].phase.offset && Unresolved(s, step.log, k);
      assert Unresolved(s', step.log, k);
    } else {
      forall i, k | 0 <= i < |s'.logs| && 0 <= k < s'.logs[i].committed ensures !Unresolved(s', i, k) {
        if k < s.logs[i].committed {
          BelowCommittedIsFrozen(c, s, step, i, k);
          assert !Unresolved(s, i, k);
        } else {
          NewlyCommittedIsResolved(c, s, step, i, k);
        }
      }
    }
  }

  lemma NewlyCommittedIsResolved(c: Config, s: State, step: Step, i: nat, k: nat)
    requires Inv(c, s) && Enabled(c, s, step) && !PassesOpen(s, step)
    requires i < |s.logs| && s.logs[i].committed <= k < Apply(c, s, step).logs[i].committed
    ensures !Unresolved(Apply(c, s, step), i, k)
  {
    assert step == Commit(i, true);
    var g := s.logs[i];
    assert LogOk(c, s, g);
    if k < g.phase.offset { assert !Unresolved(s, i, k); }
  }

  /** A write that lands resolves its offset, acknowledged or not, and no step opens
      a resolved offset again. */
  lemma LandedIsResolved(c: Config, s: State, step: Step, i: nat, k: nat)
    requires Inv(c, s) && Enabled(c, s, step) && i < |s.logs| && k < |s.logs[i].entries|
    requires !Unresolved(s, i, k) ||
             (step.Write? && !step.result.Refused? && step.log == i && s.logs[i].phase.offset == k)
    ensures !Unresolved(Apply(c, s, step), i, k)
  {
    if step.Write? { assert LogOk(c, s, s.logs[step.log]); }
  }

  /** A message once passed stays lost: its offset stays unresolved and below the
      reader's position, so no later fetch takes it. */
  lemma {:induction false} LossIsPermanent(c: Config, s: State, steps: seq<Step>, i: nat, k: nat)
    requires Inv(c, s) && IsRun(c, s, steps) && i < |s.logs| && k < s.logs[i].committed && Unresolved(s, i, k)
    ensures var t := Final(c, s, steps);
            && i < |t.logs| && k < t.logs[i].committed <= t.logs[i].pos && Unresolved(t, i, k)
            && t.logs[i].entries[k] == s.logs[i].entries[k]
    decreases |steps|
  {
    if steps == [] {
      assert LogOk(c, s, s.logs[i]);
    } else {
      StepOk(c, s, steps[0]);
      BelowCommittedIsFrozen(c, s, steps[0], i, k);
      LossIsPermanent(c, Apply(c, s, steps[0]), steps[1..], i, k);
    }
  }

  /** A run ends with every acknowledged message resolved iff no commit of it
      passed an unresolved offset. */
  lemma {:induction false} RunResolvesExactly(c: Config, s: State, steps: seq<Step>)
    requires Inv(c, s) && IsRun(c, s, steps) && AllResolved(s)
    ensures AllResolved(Final(c, s, steps)) <==> NeverPasses(c, s, steps)
    decreases |steps|
  {
    if steps != [] {
      var s' := Apply(c, s, steps[0]);
      StepOk(c, s, steps[0]);
      StepResolvesExactly(c, s, steps[0]);
      if PassesOpen(s, steps[0]) {
        var i, k :| 0 <= i < |s'.logs| && 0 <= k < s'.logs[i].committed && Unresolved(s', i, k);
        LossIsPermanent(c, s', steps[1..], i, k);
      } else {
        RunResolvesExactly(c, s', steps[1..]);
      }
    }
  }

  // ---------- the discipline: restart after a failed write ----------

  function Failed(failed: set<nat>, step: Step): set<nat> {
    match step
    case Write(i, _, Refused) => failed + {i}
    case Restart(i) => failed - {i}
    case _ => failed
  }

  /** A reader whose write did not land restarts before its next successful commit. */
  predicate RestartsFirst(failed: set<nat>, steps: seq<Step>)
    decreases |steps|
  {
    steps == [] || (!(steps[0].Commit? && steps[0].ok && steps[0].log in failed)
                    && RestartsFirst(Failed(failed, steps[0]), steps[1..]))
  }

  predicate InHand(g: Log, k: int) { !g.phase.Idle? && g.phase.offset == k }

  /** A reader without a pending failed write has left nothing unresolved behind. */
  predicate Clean(s: State, failed: set<nat>) {
    forall i: nat, k | i < |s.logs| && i !in failed && s.logs[i].committed <= k < s.logs[i].pos && !InHand(s.logs[i], k) ::
      !Unresolved(s, i, k)
  }

  lemma StepKeepsClean(c: Config, s: State, step: Step, failed: set<nat>)
    requires Inv(c, s) && Enabled(c, s, step) && Clean(s, failed)
    ensures Clean(Apply(c, s, step), Failed(failed, step))
  {
    var s' := Apply(c, s, step);
    forall i: nat, k | i < |s'.logs| && i !in Failed(failed, step)
                       && s'.logs[i].committed <= k < s'.logs[i].pos && !InHand(s'.logs[i], k)
      ensures !Unresolved(s', i, k)
    {
      LeftBehind(c, s, step, failed, i, k);
    }
  }

  /** A log whose reader did not move keeps nothing open behind it. */
  lemma StillBehind(s: State, s': State, failed: set<nat>, i: nat, k: int)
    requires Clean(s, failed) && i < |s.logs| == |s'.logs| && i !in failed
    requires var g, g' := s.logs[i], s'.logs[i];
             && g'.pos == g.pos <= |g.entries| <= |g'.entries| && g'.committed == g.committed && g'.phase == g.phase
             && (0 <= k < |g.entries| ==> g'.entries[k] == g.entries[k])
    requires s'.logs[i].committed <= k < s'.logs[i].pos && !InHand(s'.logs[i], k)
    ensures !Unresolved(s', i, k)
  {
    assert !Unresolved(s, i, k);
  }

  lemma LeftBehind(c: Config, s: State, step: Step, failed: set<nat>, i: nat, k: int)
    requires Inv(c, s) && Enabled(c, s, step) && Clean(s, failed)
    requires var s' := Apply(c, s, step);
             i < |s'.logs| && i !in Failed(failed, step)
             && s'.logs[i].committed <= k < s'.logs[i].pos && !InHand(s'.logs[i], k)
    ensures !Unresolved(Apply(c, s, step), i, k)
  {
    match step
    case Produce(_, _, _, _) => LeftByOthers(c, s, step, failed, i, k);
    case Tick(_) => LeftByOthers(c, s, step, failed, i, k);
    case Fetch(l) => if l == i { LeftByFetch(c, s, failed, i, k); } else { LeftByOthers(c, s, step, failed, i, k); }
    case Dispatch(l, results, cause) =>
      if l == i { LeftByDispatch(c, s, results, cause, failed, i, k); } else { LeftByOthers(c, s, step, failed, i, k); }
    case Write(l, j, result) =>
      if l == i { LeftByWrite(c, s, j, result, failed, i, k); } else { LeftByOthers(c, s, step, failed, i, k); }
    case Commit(l, ok) => if l == i { LeftByCommit(c, s, ok, failed, i, k); } else { LeftByOthers(c, s, step, failed, i, k); }
    case Restart(l) => if l != i { LeftByOthers(c, s, step, failed, i, k); }
  }

  lemma LeftByOthers(c: Config, s: State, step: Step, failed: set<nat>, i: nat, k: int)
    requires Inv(c, s) && Enabled(c, s, step) && Clean(s, failed) && i < |s.logs| && i !in Failed(failed, step)
    requires step.Produce? || step.Tick? || step.log != i
    requires var g := Apply(c, s, step).logs[i]; g.committed <= k < g.pos && !InHand(g, k)
    ensures !Unresolved(Apply(c, s, step), i, k)
  {
    assert LogOk(c, s, s.logs[i]);
    StillBehind(s, Apply(c, s, step), failed, i, k);
  }

  lemma LeftByFetch(c: Config, s: State, failed: set<nat>, i: nat, k: int)
    requires Enabled(c, s, Fetch(i)) && Clean(s, failed) && i !in failed
    requires var g := Apply(c, s, Fetch(i)).logs[i]; g.committed <= k < g.pos && !InHand(g, k)
    ensures !Unresolved(Apply(c, s, Fetch(i)), i, k)
  {
    assert !Unresolved(s, i, k);
  }

  lemma LeftByDispatch(c: Config, s: State, results: seq<bool>, cause: string, failed: set<nat>, i: nat, k: int)
    requires Enabled(c, s, Dispatch(i, results, cause)) && Clean(s, failed) && i !in failed
    requires var g := Apply(c, s, Dispatch(i, results, cause)).logs[i]; g.committed <= k < g.pos && !InHand(g, k)
    ensures !Unresolved(Apply(c, s, Dispatch(i, results, cause)), i, k)
  {
    assert !Unresolved(s, i, k);
  }

  lemma LeftByWrite(c: Config, s: State, j: nat, result: WriteResult, failed: set<nat>, i: nat, k: int)
    requires Inv(c, s) && Enabled(c, s, Write(i, j, result)) && Clean(s, failed) && i !in failed && !result.Refused?
    requires var g := Apply(c, s, Write(i, j, result)).logs[i]; g.committed <= k < g.pos && !InHand(g, k)
    ensures !Unresolved(Apply(c, s, Write(i, j, result)), i, k)
  {
    assert LogOk(c, s, s.logs[i]);
    if k != s.logs[i].phase.offset { assert !Unresolved(s, i, k); }
  }

  lemma LeftByCommit(c: Config, s: State, ok: bool, failed: set<nat>, i: nat, k: int)
    requires Inv(c, s) && Enabled(c, s, Commit(i, ok)) && Clean(s, failed) && i !in failed
    requires var g := Apply(c, s, Commit(i, ok)).logs[i]; g.committed <= k < g.pos && !InHand(g, k)
    ensures !Unresolved(Apply(c, s, Commit(i, ok)), i, k)
  {
    assert LogOk(c, s, s.logs[i]);
    if k != s.logs[i].phase.offset { assert !Unresolved(s, i, k); }
  }

  lemma {:induction false} DisciplineNeverPasses(c: Config, s: State, steps: seq<Step>, failed: set<nat>)
    requires Inv(c, s) && IsRun(c, s, steps) && Clean(s, failed) && RestartsFirst(failed, steps)
    ensures NeverPasses(c, s, steps)
    decreases |steps|
  {
    if steps != [] {
      StepOk(c, s, steps[0]);
      StepKeepsClean(c, s, steps[0], failed);
      DisciplineNeverPasses(c, Apply(c, s, steps[0]), steps[1..], Failed(failed, steps[0]));
      CleanReaderNeverPasses(c, s, steps[0], failed);
    }
  }

  lemma CleanReaderNeverPasses(c: Config, s: State, step: Step, failed: set<nat>)
    requires Inv(c, s) && Enabled(c, s, step) && Clean(s, failed)
    requires !(step.Commit? && step.ok && step.log in failed)
    ensures !PassesOpen(s, step)
  {
    if step.Commit? { assert LogOk(c, s, s.logs[step.log]); }
  }

  // ---------- where a message ended up ----------

  datatype Destination = Handled(log: nat, offset: nat) | Letterbox(offset: nat) | Pending(log: nat, offset: nat) | Lost

  /** Follows the hops of a message to where it is now. */
  function Whereabouts(c: Config, s: State, i: nat, k: nat): Destination
    requires Inv(c, s) && i < |s.logs| && k < |s.logs[i].entries|
    decreases c.maxRetries - s.logs[i].site.attempt
  {
    var g := s.logs[i];
    assert LogOk(c, s, g) && FateOk(c, s, g.site, g.entries[k]);
    if k >= g.committed then Pending(i, k)
    else
      match g.entries[k].fate
      case Open => Lost
      case Completed => Handled(i, k)
      case Dead(m) => Letterbox(m)
      case Hopped(j, m) => Whereabouts(c, s, j, m)
  }

  /** The destination exists, is what it claims to be, and holds the message `m`. */
  predicate Holds(c: Config, s: State, business: string, m: Message, d: Destination) {
    match d
    case Handled(j, k) =>
      && j < |s.logs| && k < |s.logs[j].entries| && s.logs[j].site.business == business
      && SameBody(s.logs[j].entries[k].msg, m) && s.logs[j].entries[k].fate == Completed
    case Pending(j, k) =>
      && j < |s.logs| && s.logs[j].committed <= k < |s.logs[j].entries| && s.logs[j].site.business == business
      && SameBody(s.logs[j].entries[k].msg, m)
    case Letterbox(k) => k < |s.dlq| && s.dlq[k].business == business && SameBody(s.dlq[k].msg, m)
    case Lost => false
  }

  lemma {:induction false} ResolvedMeansFound(c: Config, s: State, i: nat, k: nat)
    requires Inv(c, s) && AllResolved(s) && i < |s.logs| && k < |s.logs[i].entries|
    ensures Holds(c, s, s.logs[i].site.business, s.logs[i].entries[k].msg, Whereabouts(c, s, i, k))
    decreases c.maxRetries - s.logs[i].site.attempt
  {
    var g := s.logs[i];
    assert LogOk(c, s, g) && FateOk(c, s, g.site, g.entries[k]);
    if k < g.committed {
      assert !Unresolved(s, i, k);
      if g.entries[k].fate.Hopped? {
        ResolvedMeansFound(c, s, g.entries[k].fate.log, g.entries[k].fate.offset);
      }
    }
  }

  /** Every message ever logged is completed, dead-lettered, or waits uncommitted,
      itself or a copy of it. */
  ghost predicate AllFound(c: Config, s: State)
    requires Inv(c, s)
  {
    forall i: nat, k: nat | i < |s.logs| && k < |s.logs[i].entries| ::
      Holds(c, s, s.logs[i].site.business, s.logs[i].entries[k].msg, Whereabouts(c, s, i, k))
  }

  lemma FoundMeansResolved(c: Config, s: State)
    requires Inv(c, s)
    ensures AllFound(c, s) <==> AllResolved(s)
  {
    if AllResolved(s) {
      forall i: nat, k: nat | i < |s.logs| && k < |s.logs[i].entries|
        ensures Holds(c, s, s.logs[i].site.business, s.logs[i].entries[k].msg, Whereabouts(c, s, i, k))
      {
        ResolvedMeansFound(c, s, i, k);
      }
    } else {
      var i, k :| 0 <= i < |s.logs| && 0 <= k < s.logs[i].committed && Unresolved(s, i, k);
      assert Whereabouts(c, s, i, k) == Lost;
    }
  }

  /** Over every run from an empty cluster: no message is lost if and only if no
      commit ran over an offset that was neither handled nor sent on. */
  lemma LossExactly(c: Config, s: State, steps: seq<Step>)
    requires Initial(c, s) && IsRun(c, s, steps)
    ensures Inv(c, Final(c, s, steps))
    ensures AllFound(c, Final(c, s, steps)) <==> NeverPasses(c, s, steps)
  {
    RunKeepsInv(c, s, steps);
    RunResolvesExactly(c, s, steps);
    FoundMeansResolved(c, Final(c, s, steps));
  }

  /** On every run with restarts anywhere, if a reader whose hop or dead-letter
      write did not land restarts before its next commit, every message ever logged is
      completed, dead-lettered, or waits uncommitted — itself or a copy of it. */
  lemma NothingIsLost(c: Config, s: State, steps: seq<Step>, i: nat, k: nat)
    requires Initial(c, s) && IsRun(c, s, steps) && RestartsFirst({}, steps)
    requires i < |Final(c, s, steps).logs| && k < |Final(c, s, steps).logs[i].entries|
    ensures Inv(c, Final(c, s, steps))
    ensures var t := Final(c, s, steps);
            Holds(c, t, t.logs[i].site.business, t.logs[i].entries[k].msg, Whereabouts(c, t, i, k))
  {
    RunKeepsInv(c, s, steps);
    DisciplineNeverPasses(c, s, steps, {});
    RunResolvesExactly(c, s, steps);
    ResolvedMeansFound(c, Final(c, s, steps), i, k);
  }
}
