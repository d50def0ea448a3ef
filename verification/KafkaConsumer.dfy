/** The read loop's body, statement by statement, over the shared cluster state:
    it takes exactly the protocol's steps. */
module KafkaConsumer {
  import opened Prelude
  import opened KafkaRetry
  import opened KafkaProtocol
  import opened KafkaSafety
  import KafkaBus
  import KafkaExact

  /** What the world answers during one `handle`: the handlers' results, the
      error they report, the partition written to, and the two broker replies. */
  datatype Replies = Replies(results: seq<bool>, cause: string, target: nat, write: WriteResult, commit: bool)

  function DueAt(m: Message, now: int): int {
    match NotBeforeFrom(m.headers)
    case None => now
    case Some(t) => Max(t, now)
  }

  /** The fetched message that `handle` works on. */
  predicate HasFetched(s: State, i: nat) {
    i < |s.logs| && s.logs[i].phase.Fetched? && s.logs[i].phase.offset < |s.logs[i].entries|
  }

  function Current(s: State, i: nat): Entry
    requires HasFetched(s, i)
  {
    s.logs[i].entries[s.logs[i].phase.offset]
  }

  function Waited(s: State, i: nat): State
    requires HasFetched(s, i)
  {
    s.(now := DueAt(Current(s, i).msg, s.now))
  }

  /** `handle` may be called: the replies fit the message. */
  predicate Answers(c: Config, s: State, i: nat, r: Replies) {
    && HasFetched(s, i)
    && Enabled(c, Waited(s, i), Dispatch(i, r.results, r.cause))
    && var s2 := Apply(c, Waited(s, i), Dispatch(i, r.results, r.cause));
    s2.logs[i].phase.Sending? ==> Enabled(c, s2, Write(i, r.target, r.write))
  }

  /** The protocol steps of one `handle`. */
  function HandleSteps(c: Config, s: State, i: nat, r: Replies): seq<Step>
    requires Answers(c, s, i, r)
  {
    var w := Waited(s, i);
    var decided := [Tick(w.now), Dispatch(i, r.results, r.cause)];
    if Apply(c, w, decided[1]).logs[i].phase.Committing? then decided + [Commit(i, r.commit)]
    else if r.write.Acked? then decided + [Write(i, r.target, r.write), Commit(i, r.commit)]
    else decided + [Write(i, r.target, r.write)]
  }

  /** Where they lead. */
  function HandleState(c: Config, s: State, i: nat, r: Replies): State
    requires Answers(c, s, i, r)
  {
    var s2 := Apply(c, Waited(s, i), Dispatch(i, r.results, r.cause));
    if s2.logs[i].phase.Committing? then Apply(c, s2, Commit(i, r.commit))
    else SendState(c, s2, i, r)
  }

  function SendState(c: Config, s2: State, i: nat, r: Replies): State
    requires Enabled(c, s2, Write(i, r.target, r.write))
  {
    var s3 := Apply(c, s2, Write(i, r.target, r.write));
    if r.write.Acked? then Apply(c, s3, Commit(i, r.commit)) else s3
  }

  lemma TwoThen(c: Config, s: State, a: Step, b: Step, rest: seq<Step>)
    requires Enabled(c, s, a) && Enabled(c, Apply(c, s, a), b)
    requires IsRun(c, Apply(c, Apply(c, s, a), b), rest)
    ensures IsRun(c, s, [a, b] + rest)
    ensures Final(c, s, [a, b] + rest) == Final(c, Apply(c, Apply(c, s, a), b), rest)
  {
    assert ([a, b] + rest)[1..] == [b] + rest && ([b] + rest)[1..] == rest;
    assert IsRun(c, Apply(c, s, a), [b] + rest);
  }

  /** One `handle` is one stretch of a protocol run. */
  lemma HandleIsRun(c: Config, s: State, i: nat, r: Replies)
    requires Answers(c, s, i, r)
    ensures IsRun(c, s, HandleSteps(c, s, i, r))
    ensures Final(c, s, HandleSteps(c, s, i, r)) == HandleState(c, s, i, r)
  {
    var w := Waited(s, i);
    var d := Dispatch(i, r.results, r.cause);
    var s2 := Apply(c, w, d);
    assert Apply(c, s, Tick(w.now)) == w;
    if s2.logs[i].phase.Committing? {
      OneStep(c, s2, Commit(i, r.commit));
      TwoThen(c, s, Tick(w.now), d, [Commit(i, r.commit)]);
    } else {
      var wr := Write(i, r.target, r.write);
      if r.write.Acked? {
        OneStep(c, Apply(c, s2, wr), Commit(i, r.commit));
        assert [wr, Commit(i, r.commit)][1..] == [Commit(i, r.commit)];
        TwoThen(c, s, Tick(w.now), d, [wr, Commit(i, r.commit)]);
      } else {
        OneStep(c, s2, wr);
        TwoThen(c, s, Tick(w.now), d, [wr]);
      }
    }
  }

  lemma OneStep(c: Config, s: State, a: Step)
    requires Enabled(c, s, a)
    ensures IsRun(c, s, [a]) && Final(c, s, [a]) == Apply(c, s, a)
  {
    assert [a][1..] == [];
  }

  /** `handle` waits exactly until the deadline of its message, if that is still ahead. */
  lemma WaitsUntilDue(s: State, i: nat)
    requires HasFetched(s, i)
    ensures var deadline := NotBeforeFrom(Current(s, i).msg.headers);
            && Waited(s, i).logs == s.logs && Waited(s, i).dlq == s.dlq
            && Waited(s, i).now == if deadline.Some? && deadline.value > s.now then deadline.value else s.now
  {
  }

  /** How a `handle` ends: the reader is idle; the message is acknowledged if and only if
      it was completed or its write was acknowledged, and the commit went through. */
  lemma HandleExactly(c: Config, s: State, i: nat, r: Replies)
    requires Inv(c, s) && Answers(c, s, i, r)
    ensures var g, g' := s.logs[i], HandleState(c, s, i, r).logs[i];
            var k := g.phase.offset;
            var done := KafkaExact.AllNil(g.entries[k], r.results);
            && g'.phase == Idle && g'.pos == g.pos && g'.site == g.site && |g'.entries| == |g.entries|
            && g'.committed == (if (done || r.write.Acked?) && r.commit then k + 1 else g.committed)
            && (done ==> g'.entries[k].fate == Completed)
            && (!done && r.write.Refused? ==> g'.entries == g.entries)
  {
    var w := Waited(s, i);
    var d := Dispatch(i, r.results, r.cause);
    assert Apply(c, s, Tick(w.now)) == w;
    StepOk(c, s, Tick(w.now));
    StepOk(c, w, d);
    KafkaExact.DispatchExactly(c, w, i, r.results, r.cause);
    var s2 := Apply(c, w, d);
    if s2.logs[i].phase.Sending? { KafkaExact.WriteExactly(c, s2, i, r.target, r.write); }
  }

  class Cluster {
    const c: Config
    var logs: seq<Log>
    var dlq: seq<Letter>
    var now: int

    constructor (c: Config, sites: seq<Site>, now: int)
      ensures this.c == c && St() == State(seq(|sites|, i requires 0 <= i < |sites| => Log(sites[i], [], 0, 0, Idle)), [], now)
    {
      this.c := c;
      this.logs := seq(|sites|, i requires 0 <= i < |sites| => Log(sites[i], [], 0, 0, Idle));
      this.dlq := [];
      this.now := now;
    }

    function St(): State
      reads this
    {
      State(logs, dlq, now)
    }

    method Handle(i: nat, r: Replies)
      requires Answers(c, St(), i, r)
      modifies this
      ensures St() == HandleState(c, old(St()), i, r)
    {
      var k := logs[i].phase.offset;
      var m := logs[i].entries[k].msg;
      match NotBeforeFrom(m.headers) {
        case Some(notBefore) =>
          if notBefore > now { now := notBefore; }
        case None =>
      }
      assert St() == Waited(old(St()), i);
      if m.value.Undecodable? {
        var acked := DeadLetter(i, r);
        if acked { CommitOffset(i, r.commit); }
        return;
      }
      var handlers := |KafkaBus.HandlersFor(c.bindings, logs[i].site.business, m.value.event.name)|;
      if handlers == 0 {
        Settle(i);
        CommitOffset(i, r.commit);
        return;
      }
      var errs := 0;
      for h := 0 to handlers
        invariant errs == 0 <==> false !in r.results[..h]
        invariant errs >= 0
      {
        assert r.results[..h + 1] == r.results[..h] + [r.results[h]];
        if !r.results[h] { errs := errs + 1; }
      }
      assert r.results[..handlers] == r.results;
      if errs > 0 {
        Fail(i, r);
        return;
      }
      Settle(i);
      CommitOffset(i, r.commit);
    }

    method Fail(i: nat, r: Replies)
      requires HasFetched(St(), i) && Current(St(), i).msg.value.Encoded? && false in r.results
      requires Enabled(c, St(), Dispatch(i, r.results, r.cause))
      requires Enabled(c, Apply(c, St(), Dispatch(i, r.results, r.cause)), Write(i, r.target, r.write))
      modifies this
      ensures St() == SendState(c, Apply(c, old(St()), Dispatch(i, r.results, r.cause)), i, r)
    {
      var e := logs[i].entries[logs[i].phase.offset];
      var attempt := AttemptFrom(e.msg.headers) + 1;
      match DecideOutcome(attempt, c.maxRetries) {
        case OutcomeRetry =>
          var notBefore := now + Delay(c.base, c.maxDelay, attempt);
          var msg := e.msg.(headers := RetryHeaders(attempt, notBefore, logs[i].site.business, Some(r.cause)));
          var acked := WriteMessage(i, ToRetry(attempt), msg, r);
          if !acked { return; }
          CommitOffset(i, r.commit);
        case OutcomeDeadLetter =>
          var acked := DeadLetter(i, r);
          if !acked { return; }
          CommitOffset(i, r.commit);
      }
    }

    method DeadLetter(i: nat, r: Replies) returns (acked: bool)
      requires HasFetched(St(), i)
      requires Enabled(c, St(), Dispatch(i, r.results, r.cause))
      requires var s2 := Apply(c, St(), Dispatch(i, r.results, r.cause));
               s2.logs[i].phase.Sending? && s2.logs[i].phase.target == ToDlq
      modifies this
      ensures acked == r.write.Acked?
      ensures var s2 := Apply(c, old(St()), Dispatch(i, r.results, r.cause));
              St() == Apply(c, s2, Write(i, r.target, r.write))
    {
      var e := logs[i].entries[logs[i].phase.offset];
      var attempt := AttemptFrom(e.msg.headers) + 1;
      var msg := e.msg.(headers := RetryHeaders(attempt, now, logs[i].site.business, Some(r.cause)));
      acked := WriteMessage(i, ToDlq, msg, r);
    }

    /** Hands one message to the producer; the reply decides what is recorded. */
    method WriteMessage(i: nat, target: Target, msg: Message, r: Replies) returns (acked: bool)
      requires HasFetched(St(), i)
      requires target.ToRetry? ==>
                 r.target < |logs| && logs[r.target].site == Site(logs[i].site.business, target.attempt)
      modifies this`logs, this`dlq
      ensures acked == r.write.Acked?
      ensures var g := old(logs[i]);
              var p := Sending(g.phase.offset, target, msg, FirstFailure(Current(old(St()), i), now));
              St() == WriteState(old(St()).(logs := old(logs)[i := g.(phase := p)]), i, r.target, r.write)
    {
      var g := logs[i];
      var k := g.phase.offset;
      var first := FirstFailure(g.entries[k], now);
      logs := logs[i := g.(phase := Sending(k, target, msg, first))];
      var landing := if target.ToRetry? then Hopped(r.target, |logs[r.target].entries|) else Dead(|dlq|);
      acked := r.write.Acked?;
      var entries := if r.write.Refused? then g.entries else SetFate(g.entries, k, landing);
      logs := logs[i := g.(entries := entries, phase := if acked then Committing(k) else Idle)];
      if !r.write.Refused? {
        if target.ToRetry? {
          logs := logs[r.target := Append(logs[r.target], Entry(msg, Some(first), Open))];
        } else {
          dlq := dlq + [Letter(g.site.business, msg, first)];
        }
      }
      assert logs == WriteState(old(St()).(logs := old(logs)[i := g.(phase := Sending(k, target, msg, first))]),
                                i, r.target, r.write).logs;
    }

    /** Every handler returned nil, or there was none. */
    method Settle(i: nat)
      requires HasFetched(St(), i)
      modifies this`logs
      ensures logs == old(logs)[i := old(logs[i]).(entries := SetFate(old(logs[i].entries), old(logs[i].phase.offset), Completed),
                                                    phase := Committing(old(logs[i].phase.offset)))]
    {
      var g := logs[i];
      var k := g.phase.offset;
      logs := logs[i := g.(entries := SetFate(g.entries, k, Completed), phase := Committing(k))];
    }

    method CommitOffset(i: nat, ok: bool)
      requires Enabled(c, St(), Commit(i, ok))
      modifies this`logs
      ensures St() == Apply(c, old(St()), Commit(i, ok))
    {
      var g := logs[i];
      if ok {
        logs := logs[i := g.(committed := g.phase.offset + 1, phase := Idle)];
      } else {
        logs := logs[i := g.(phase := Idle)];
      }
    }
  }
}
