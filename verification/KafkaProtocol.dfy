/** The retry-hop / dead-letter protocol as a step system.

    One log per (topic, partition) that a reader consumes. Each log carries the
    reader's position, the committed offset (acknowledging everything below it)
    and where the reader stands inside `handle`. Handler, write and commit
    results are chosen by the step; a restart may happen between any two steps. */
module KafkaProtocol {
  import opened Prelude
  import opened Text
  import opened Events
  import opened KafkaRetry
  import KafkaBus

  datatype Value = Encoded(event: Event) | Undecodable(bytes: string)

  datatype Message = Message(key: string, value: Value, headers: seq<Header>)

  /** The topic a reader consumes: a business topic (attempt 0) or a retry hop. */
  datatype Site = Site(business: string, attempt: int)

  /** History: what the last handling of an entry that achieved something achieved.
      A write that lands counts whether or not its acknowledgement arrives. */
  datatype Fate = Open | Completed | Hopped(log: nat, offset: nat) | Dead(offset: nat)

  /** A logged message; `firstFailure` and `fate` are history, not on the wire. */
  datatype Entry = Entry(msg: Message, firstFailure: Option<int>, fate: Fate)

  datatype Target = ToRetry(attempt: int) | ToDlq

  datatype Phase =
    | Idle
    | Fetched(offset: nat)
    | Sending(offset: nat, target: Target, msg: Message, firstFailure: int)
    | Committing(offset: nat)

  datatype Log = Log(site: Site, entries: seq<Entry>, pos: nat, committed: nat, phase: Phase)

  /** A message on a dead-letter topic. */
  datatype Letter = Letter(business: string, msg: Message, firstFailure: int)

  datatype State = State(logs: seq<Log>, dlq: seq<Letter>, now: int)

  datatype Config = Config(maxRetries: int, base: int, maxDelay: int, bindings: KafkaBus.Bindings)

  datatype WriteResult = Acked | AckLost | Refused

  datatype Step =
    | Produce(log: nat, key: string, value: Value, headers: seq<Header>)
    | Tick(to: int)
    | Fetch(log: nat)
    | Dispatch(log: nat, results: seq<bool>, cause: string)
    | Write(log: nat, target: nat, result: WriteResult)
    | Commit(log: nat, ok: bool)
    | Restart(log: nat)

  predicate ValidConfig(c: Config) { 1 <= c.maxRetries < INT64_MAX }

  /** The waits a message owes once it has reached retry hop `n`. */
  function DelaysUpTo(c: Config, n: int): int
    decreases n
  {
    if n <= 0 then 0 else DelaysUpTo(c, n - 1) + Delay(c.base, c.maxDelay, n)
  }

  // ---------- what each step does ----------

  predicate Due(m: Message, now: int) {
    match NotBeforeFrom(m.headers)
    case None => true
    case Some(t) => t <= now
  }

  function HandlerCount(c: Config, site: Site, m: Message): nat {
    if m.value.Undecodable? then 0 else |KafkaBus.HandlersFor(c.bindings, site.business, m.value.event.name)|
  }

  predicate Enabled(c: Config, s: State, step: Step) {
    match step
    case Produce(i, _, _, headers) =>
      i < |s.logs| && s.logs[i].site.attempt == 0 && forall h | h in headers :: h.key != HEADER_ATTEMPT
    case Tick(t) => s.now <= t
    case Fetch(i) => i < |s.logs| && s.logs[i].phase.Idle? && s.logs[i].pos < |s.logs[i].entries|
    case Dispatch(i, results, _) =>
      i < |s.logs| && s.logs[i].phase.Fetched? && s.logs[i].phase.offset < |s.logs[i].entries|
      && var m := s.logs[i].entries[s.logs[i].phase.offset].msg;
      Due(m, s.now) && |results| == HandlerCount(c, s.logs[i].site, m)
    case Write(i, j, _) =>
      i < |s.logs| && s.logs[i].phase.Sending? && s.logs[i].phase.offset < |s.logs[i].entries|
      && (s.logs[i].phase.target.ToRetry? ==>
            j < |s.logs| && s.logs[j].site == Site(s.logs[i].site.business, s.logs[i].phase.target.attempt))
    case Commit(i, _) => i < |s.logs| && s.logs[i].phase.Committing?
    case Restart(i) => i < |s.logs|
  }

  /** Where a decided message goes next, and with which headers. */
  function Onward(c: Config, site: Site, e: Entry, now: int, cause: string): (Target, Message) {
    var attempt := AttemptFrom(e.msg.headers) + 1;
    if e.msg.value.Encoded? && DecideOutcome(attempt, c.maxRetries).OutcomeRetry? then
      (ToRetry(attempt),
       e.msg.(headers := RetryHeaders(attempt, now + Delay(c.base, c.maxDelay, attempt), site.business, Some(cause))))
    else
      (ToDlq, e.msg.(headers := RetryHeaders(attempt, now, site.business, Some(cause))))
  }

  function FirstFailure(e: Entry, now: int): int {
    match e.firstFailure case Some(t) => t case None => now
  }

  function SetFate(entries: seq<Entry>, k: nat, f: Fate): seq<Entry>
    requires k < |entries|
  {
    entries[k := entries[k].(fate := f)]
  }

  function DispatchLog(c: Config, g: Log, now: int, results: seq<bool>, cause: string): Log
    requires g.phase.Fetched? && g.phase.offset < |g.entries|
  {
    var k := g.phase.offset;
    var e := g.entries[k];
    if e.msg.value.Encoded? && false !in results then
      g.(entries := SetFate(g.entries, k, Completed), phase := Committing(k))
    else
      var (target, msg) := Onward(c, g.site, e, now, cause);
      g.(phase := Sending(k, target, msg, FirstFailure(e, now)))
  }

  function Append(g: Log, e: Entry): Log { g.(entries := g.entries + [e]) }

  function WriteState(s: State, i: nat, j: nat, result: WriteResult): State
    requires i < |s.logs| && s.logs[i].phase.Sending? && s.logs[i].phase.offset < |s.logs[i].entries|
    requires s.logs[i].phase.target.ToRetry? ==> j < |s.logs|
  {
    var g := s.logs[i];
    var p := g.phase;
    var landed := !result.Refused?;
    var f := if p.target.ToRetry? then Hopped(j, |s.logs[j].entries|) else Dead(|s.dlq|);
    var source := g.(entries := if landed then SetFate(g.entries, p.offset, f) else g.entries,
                     phase := if result.Acked? then Committing(p.offset) else Idle);
    var logs := s.logs[i := source];
    if !landed then s.(logs := logs)
    else if p.target.ToRetry? then
      s.(logs := logs[j := Append(logs[j], Entry(p.msg, Some(p.firstFailure), Open))])
    else
      s.(logs := logs, dlq := s.dlq + [Letter(g.site.business, p.msg, p.firstFailure)])
  }

  function Apply(c: Config, s: State, step: Step): State
    requires Enabled(c, s, step)
  {
    match step
    case Produce(i, key, value, headers) =>
      s.(logs := s.logs[i := Append(s.logs[i], Entry(Message(key, value, headers), None, Open))])
    case Tick(t) => s.(now := t)
    case Fetch(i) =>
      var g := s.logs[i];
      s.(logs := s.logs[i := g.(phase := Fetched(g.pos), pos := g.pos + 1)])
    case Dispatch(i, results, cause) =>
      s.(logs := s.logs[i := DispatchLog(c, s.logs[i], s.now, results, cause)])
    case Write(i, j, result) => WriteState(s, i, j, result)
    case Commit(i, ok) =>
      var g := s.logs[i];
      s.(logs := s.logs[i := if ok then g.(committed := g.phase.offset + 1, phase := Idle) else g.(phase := Idle)])
    case Restart(i) =>
      var g := s.logs[i];
      s.(logs := s.logs[i := g.(phase := Idle, pos := g.committed)])
  }

  // ---------- what holds in every reachable state ----------

  predicate SameBody(a: Message, b: Message) { a.key == b.key && a.value == b.value }

  /** A message on hop `site.attempt`, as far as it can be seen alone. */
  predicate EntryOk(c: Config, site: Site, e: Entry) {
    && AttemptFrom(e.msg.headers) == site.attempt
    && (site.attempt == 0 ==> e.firstFailure.None?)
    && (site.attempt >= 1 ==>
          && e.msg.value.Encoded? && e.firstFailure.Some?
          && NotBeforeFrom(e.msg.headers).Some?
          && NotBeforeFrom(e.msg.headers).value >= e.firstFailure.value + DelaysUpTo(c, site.attempt))
  }

  /** A recorded hop or dead letter really exists and has the same body. */
  predicate FateOk(c: Config, s: State, site: Site, e: Entry) {
    match e.fate
    case Open => true
    case Completed => e.msg.value.Encoded?
    case Hopped(j, m) =>
      && site.attempt < c.maxRetries && j < |s.logs| && m < |s.logs[j].entries|
      && s.logs[j].site == Site(site.business, site.attempt + 1)
      && SameBody(s.logs[j].entries[m].msg, e.msg)
    case Dead(m) => m < |s.dlq| && s.dlq[m].business == site.business && SameBody(s.dlq[m].msg, e.msg)
  }

  predicate LetterOk(c: Config, l: Letter) {
    && AttemptFrom(l.msg.headers) == (if l.msg.value.Encoded? then c.maxRetries + 1 else 1)
    && NotBeforeFrom(l.msg.headers).Some?
    && (l.msg.value.Encoded? ==>
          NotBeforeFrom(l.msg.headers).value >= l.firstFailure + DelaysUpTo(c, c.maxRetries))
  }

  predicate PhaseOk(c: Config, g: Log) {
    match g.phase
    case Idle => true
    case Fetched(k) => g.committed <= k && k + 1 == g.pos
    case Committing(k) => g.committed <= k && k + 1 == g.pos && k < |g.entries| && g.entries[k].fate != Open
    case Sending(k, target, msg, ff) =>
      && g.committed <= k && k + 1 == g.pos && k < |g.entries| && SameBody(msg, g.entries[k].msg)
      && (match target
          case ToRetry(n) =>
            n == g.site.attempt + 1 && n <= c.maxRetries && EntryOk(c, Site(g.site.business, n), Entry(msg, Some(ff), Open))
          case ToDlq => LetterOk(c, Letter(g.site.business, msg, ff)))
  }

  predicate LogOk(c: Config, s: State, g: Log) {
    && 0 <= g.site.attempt <= c.maxRetries
    && g.committed <= g.pos <= |g.entries|
    && PhaseOk(c, g)
    && (forall k | 0 <= k < |g.entries| :: EntryOk(c, g.site, g.entries[k]))
    && (forall k | 0 <= k < |g.entries| :: FateOk(c, s, g.site, g.entries[k]))
  }

  predicate Inv(c: Config, s: State) {
    && ValidConfig(c)
    && (forall i | 0 <= i < |s.logs| :: LogOk(c, s, s.logs[i]))
    && (forall m | 0 <= m < |s.dlq| :: LetterOk(c, s.dlq[m]))
  }

  /** Logs and the dead-letter topics only grow, and never change what they hold. */
  predicate LogExtends(g: Log, g': Log) {
    g.site == g'.site && |g.entries| <= |g'.entries|
    && forall k | 0 <= k < |g.entries| :: g'.entries[k].msg == g.entries[k].msg
  }

  predicate Extends(s: State, s': State) {
    && |s.logs| == |s'.logs| && s.dlq <= s'.dlq
    && forall i | 0 <= i < |s.logs| :: LogExtends(s.logs[i], s'.logs[i])
  }

  lemma FateOkExtends(c: Config, s: State, s': State, site: Site, e: Entry)
    requires FateOk(c, s, site, e) && Extends(s, s')
    ensures FateOk(c, s', site, e)
  {
    if e.fate.Hopped? { assert LogExtends(s.logs[e.fate.log], s'.logs[e.fate.log]); }
  }

  lemma LogOkExtends(c: Config, s: State, s': State, g: Log)
    requires LogOk(c, s, g) && Extends(s, s')
    ensures LogOk(c, s', g)
  {
    forall k | 0 <= k < |g.entries| ensures FateOk(c, s', g.site, g.entries[k]) {
      FateOkExtends(c, s, s', g.site, g.entries[k]);
    }
  }

  lemma StepExtends(c: Config, s: State, step: Step)
    requires Enabled(c, s, step)
    ensures Extends(s, Apply(c, s, step))
  {
  }

  /** Replacing one log by a good one keeps every other log good. */
  lemma ReplaceLog(c: Config, s: State, i: nat, g: Log)
    requires Inv(c, s) && i < |s.logs|
    requires var s' := s.(logs := s.logs[i := g]); Extends(s, s') && LogOk(c, s', g)
    ensures Inv(c, s.(logs := s.logs[i := g]))
  {
    var s' := s.(logs := s.logs[i := g]);
    forall j | 0 <= j < |s'.logs| ensures LogOk(c, s', s'.logs[j]) {
      if j != i { LogOkExtends(c, s, s', s.logs[j]); }
    }
  }

  lemma AppendOk(c: Config, s: State, i: nat, e: Entry)
    requires Inv(c, s) && i < |s.logs| && EntryOk(c, s.logs[i].site, e) && e.fate == Open
    ensures Inv(c, s.(logs := s.logs[i := Append(s.logs[i], e)]))
  {
    var g := Append(s.logs[i], e);
    var s' := s.(logs := s.logs[i := g]);
    assert Extends(s, s');
    LogOkExtends(c, s, s', s.logs[i]);
    assert forall k | 0 <= k < |s.logs[i].entries| :: g.entries[k] == s.logs[i].entries[k];
    ReplaceLog(c, s, i, g);
  }

  /** The headers written onward say what the next reader will need. */
  lemma OnwardOk(c: Config, site: Site, e: Entry, now: int, cause: string)
    requires ValidConfig(c) && 0 <= site.attempt <= c.maxRetries && EntryOk(c, site, e) && Due(e.msg, now)
    ensures var (target, msg) := Onward(c, site, e, now, cause);
            && SameBody(msg, e.msg)
            && (match target
                case ToRetry(n) => n == site.attempt + 1 && n <= c.maxRetries
                                   && EntryOk(c, Site(site.business, n), Entry(msg, Some(FirstFailure(e, now)), Open))
                case ToDlq => LetterOk(c, Letter(site.business, msg, FirstFailure(e, now))))
  {
    var attempt := site.attempt + 1;
    assert DelaysUpTo(c, attempt) == DelaysUpTo(c, site.attempt) + Delay(c.base, c.maxDelay, attempt);
    HeadersRoundTrip(attempt, now + Delay(c.base, c.maxDelay, attempt), site.business, Some(cause));
    HeadersRoundTrip(attempt, now, site.business, Some(cause));
  }

  lemma DispatchOk(c: Config, s: State, i: nat, results: seq<bool>, cause: string)
    requires Inv(c, s) && Enabled(c, s, Dispatch(i, results, cause))
    ensures Inv(c, Apply(c, s, Dispatch(i, results, cause)))
  {
    var g := s.logs[i];
    var k := g.phase.offset;
    var e := g.entries[k];
    assert LogOk(c, s, g) && EntryOk(c, g.site, e);
    if e.msg.value.Encoded? && false !in results {
      MoveOnOk(c, s, i, g.(entries := SetFate(g.entries, k, Completed), phase := Committing(k)));
    } else {
      OnwardOk(c, g.site, e, s.now, cause);
      CursorOk(c, s, i, DispatchLog(c, g, s.now, results, cause));
    }
  }

  lemma WriteOk(c: Config, s: State, i: nat, j: nat, result: WriteResult)
    requires Inv(c, s) && Enabled(c, s, Write(i, j, result))
    ensures Inv(c, Apply(c, s, Write(i, j, result)))
  {
    // First the append, then the reader moves on.
    var s1 := Sent(c, s, i, j, result);
    SentOk(c, s, i, j, result);
    var s2 := Apply(c, s, Write(i, j, result));
    SentThenMoved(c, s, i, j, result);
    MoveOnOk(c, s1, i, s2.logs[i]);
  }

  lemma SentThenMoved(c: Config, s: State, i: nat, j: nat, result: WriteResult)
    requires Enabled(c, s, Write(i, j, result)) && (s.logs[i].phase.target.ToRetry? ==> i != j)
    ensures var s1, s2 := Sent(c, s, i, j, result), Apply(c, s, Write(i, j, result));
            s2 == s1.(logs := s1.logs[i := s2.logs[i]])
  {
  }

  /** The message of a write appended where it goes, if it lands. */
  function Sent(c: Config, s: State, i: nat, j: nat, result: WriteResult): State
    requires Enabled(c, s, Write(i, j, result))
  {
    var p := s.logs[i].phase;
    if result.Refused? then s
    else if p.target.ToRetry? then
      s.(logs := s.logs[j := Append(s.logs[j], Entry(p.msg, Some(p.firstFailure), Open))])
    else s.(dlq := s.dlq + [Letter(s.logs[i].site.business, p.msg, p.firstFailure)])
  }

  lemma SentOk(c: Config, s: State, i: nat, j: nat, result: WriteResult)
    requires Inv(c, s) && Enabled(c, s, Write(i, j, result))
    ensures Inv(c, Sent(c, s, i, j, result)) && Sent(c, s, i, j, result).logs[i] == s.logs[i]
    ensures s.logs[i].phase.target.ToRetry? ==> i != j
  {
    var g := s.logs[i];
    var p := g.phase;
    assert LogOk(c, s, g);
    if !result.Refused? {
      if p.target.ToRetry? {
        AppendOk(c, s, j, Entry(p.msg, Some(p.firstFailure), Open));
      } else {
        AppendLetterOk(c, s, Letter(g.site.business, p.msg, p.firstFailure));
      }
    }
  }

  lemma AppendLetterOk(c: Config, s: State, l: Letter)
    requires Inv(c, s) && LetterOk(c, l)
    ensures Inv(c, s.(dlq := s.dlq + [l]))
  {
    var s' := s.(dlq := s.dlq + [l]);
    forall j | 0 <= j < |s'.logs| ensures LogOk(c, s', s'.logs[j]) {
      LogOkExtends(c, s, s', s.logs[j]);
    }
  }

  /** The reader leaves a message with its fate recorded, or gives up on it. */
  lemma MoveOnOk(c: Config, s: State, i: nat, g': Log)
    requires Inv(c, s) && i < |s.logs| && (s.logs[i].phase.Sending? || s.logs[i].phase.Fetched?)
    requires var g, k := s.logs[i], s.logs[i].phase.offset;
             || g' == g.(phase := Idle)
             || (k < |g.entries| && exists f ::
                   && f != Open && FateOk(c, s, g.site, g.entries[k].(fate := f))
                   && g' == g.(entries := SetFate(g.entries, k, f), phase := g'.phase)
                   && (g'.phase == Committing(k) || g'.phase == Idle))
    ensures Inv(c, s.(logs := s.logs[i := g']))
  {
    var g := s.logs[i];
    assert LogOk(c, s, g);
    var s' := s.(logs := s.logs[i := g']);
    assert Extends(s, s');
    forall k | 0 <= k < |g'.entries| ensures FateOk(c, s', g'.site, g'.entries[k]) {
      assert FateOk(c, s, g.site, g'.entries[k]);
      FateOkExtends(c, s, s', g.site, g'.entries[k]);
    }
    ReplaceLog(c, s, i, g');
  }

  /** Every step keeps the invariant. */
  lemma StepOk(c: Config, s: State, step: Step)
    requires Inv(c, s) && Enabled(c, s, step)
    ensures Inv(c, Apply(c, s, step))
  {
    match step
    case Produce(i, key, value, headers) =>
      AttemptDefaultsToZero(headers);
      AppendOk(c, s, i, Entry(Message(key, value, headers), None, Open));
    case Tick(_) =>
      var s' := Apply(c, s, step);
      forall j | 0 <= j < |s'.logs| ensures LogOk(c, s', s'.logs[j]) { LogOkExtends(c, s, s', s.logs[j]); }
    case Dispatch(i, results, cause) => DispatchOk(c, s, i, results, cause);
    case Write(i, j, result) => WriteOk(c, s, i, j, result);
    case Fetch(i) => CursorOk(c, s, i, Apply(c, s, step).logs[i]);
    case Commit(i, _) => CursorOk(c, s, i, Apply(c, s, step).logs[i]);
    case Restart(i) => CursorOk(c, s, i, Apply(c, s, step).logs[i]);
  }

  lemma CursorOk(c: Config, s: State, i: nat, g': Log)
    requires Inv(c, s) && i < |s.logs| && g'.site == s.logs[i].site && g'.entries == s.logs[i].entries
    requires g'.committed <= g'.pos <= |g'.entries| && PhaseOk(c, g')
    ensures Inv(c, s.(logs := s.logs[i := g']))
  {
    var s' := s.(logs := s.logs[i := g']);
    LogOkExtends(c, s, s', s.logs[i]);
    ReplaceLog(c, s, i, g');
  }
}
