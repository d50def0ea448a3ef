/** Commands that overlap: the in-memory unit of work takes no lock, so another
    command may run between the uniqueness check of one and its save. */
module EmailRace {
  import opened Customer
  import opened Repository

  /** The repository, and the addresses each client was told are free. */
  datatype Sys = Sys(repo: Repo, cleared: map<nat, string>)

  datatype Step = Ask(client: nat, email: string) | Store(client: nat, snap: Snapshot)

  /** A client saves only under the address it was told is free. */
  predicate Enabled(s: Sys, step: Step) {
    step.Store? ==> step.client in s.cleared && s.cleared[step.client] == step.snap.email
  }

  function Apply(s: Sys, step: Step): Sys
    requires Enabled(s, step)
  {
    match step
    case Ask(client, email) =>
      s.(cleared := if email in s.repo.byEmail then s.cleared - {client} else s.cleared[client := email])
    case Store(client, snap) =>
      var done := s.cleared - {client};
      match Saved(s.repo, snap)
      case Ok(repo) => Sys(repo, done)
      case Err(_) => Sys(s.repo, done)
  }

  predicate IsRun(s: Sys, steps: seq<Step>)
    decreases |steps|
  {
    steps == [] || (Enabled(s, steps[0]) && IsRun(Apply(s, steps[0]), steps[1..]))
  }

  /** The index is exact in every state of the run. */
  predicate AlwaysIndexed(s: Sys, steps: seq<Step>)
    requires IsRun(s, steps)
    decreases |steps|
  {
    Indexed(s.repo) && (steps == [] || AlwaysIndexed(Apply(s, steps[0]), steps[1..]))
  }

  /** An accepted save under an address that is someone else's by now. */
  predicate Takes(s: Sys, step: Step) {
    && step.Store? && Saved(s.repo, step.snap).Ok?
    && step.snap.email in s.repo.byEmail && s.repo.byEmail[step.snap.email] != step.snap.id
  }

  predicate NeverTakes(s: Sys, steps: seq<Step>)
    requires IsRun(s, steps)
    decreases |steps|
  {
    steps == [] || (!Takes(s, steps[0]) && NeverTakes(Apply(s, steps[0]), steps[1..]))
  }

  lemma StepKeepsIndexExactly(s: Sys, step: Step)
    requires Indexed(s.repo) && Enabled(s, step)
    ensures Indexed(Apply(s, step).repo) <==> !Takes(s, step)
  {
    if step.Store? && Saved(s.repo, step.snap).Ok? { SaveKeepsIndexExactly(s.repo, step.snap); }
  }

  /** Over every interleaving of checks and saves, the index stays exact, and with it
      addresses stay unique, if and only if no accepted save finds its address indexed
      for someone else. */
  lemma {:induction false} IndexedExactly(s: Sys, steps: seq<Step>)
    requires Indexed(s.repo) && IsRun(s, steps)
    ensures AlwaysIndexed(s, steps) <==> NeverTakes(s, steps)
    decreases |steps|
  {
    if steps != [] {
      StepKeepsIndexExactly(s, steps[0]);
      if !Takes(s, steps[0]) {
        IndexedExactly(Apply(s, steps[0]), steps[1..]);
      } else {
        assert !AlwaysIndexed(Apply(s, steps[0]), steps[1..]);
      }
    }
  }

  /** A client that saves right after its check takes nobody's address. */
  lemma CheckedSaveIsSafe(s: Sys, client: nat, snap: Snapshot)
    requires var s' := Apply(s, Ask(client, snap.email)); Enabled(s', Store(client, snap))
    requires snap.email !in s.repo.byEmail
    ensures !Takes(Apply(s, Ask(client, snap.email)), Store(client, snap))
  {
  }

  /** Two clients, both told the address is free, both register it: from any exact
      index, both saves are accepted and two customers share the address. */
  lemma TwoCreatesShareAnAddress(r: Repo, a: Snapshot, b: Snapshot)
    requires Indexed(r) && a.id !in r.byId && b.id !in r.byId && a.id != b.id && a.email == b.email && a.email !in r.byEmail
    ensures var steps := [Ask(1, a.email), Ask(2, b.email), Store(1, a), Store(2, b)];
            IsRun(Sys(r, map[]), steps) && !AlwaysIndexed(Sys(r, map[]), steps)
    ensures var repo := Saved(Saved(r, a).value, b).value;
            a.id in repo.byId && b.id in repo.byId && repo.byId[a.id].email == repo.byId[b.id].email
  {
    var steps := [Ask(1, a.email), Ask(2, b.email), Store(1, a), Store(2, b)];
    var s0 := Sys(r, map[]);
    var s1 := Apply(s0, steps[0]);
    var s2 := Apply(s1, steps[1]);
    var s3 := Apply(s2, steps[2]);
    assert steps[1..][1..][1..][1..] == [];
    assert steps[1..][0] == steps[1] && steps[1..][1..][0] == steps[2] && steps[1..][1..][1..][0] == steps[3];
    assert IsRun(s3, steps[1..][1..][1..]);
    assert IsRun(s2, steps[1..][1..]);
    assert IsRun(s1, steps[1..]);
    assert Takes(s3, steps[3]);
    assert !NeverTakes(s3, steps[1..][1..][1..]);
    assert !NeverTakes(s2, steps[1..][1..]);
    assert !NeverTakes(s1, steps[1..]);
    IndexedExactly(s0, steps);
  }
}
