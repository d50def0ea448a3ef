/** A run that loses a message: the reader that failed to write a retry hop goes
    on to the next message, and that message's commit acknowledges both. */
module KafkaLossExample {
  import opened Prelude
  import opened Events
  import opened KafkaProtocol
  import opened KafkaSafety
  import KafkaBus

  const SAMPLE := Encoded(Event("e", "n", "", "", 1, 1, NotJson("")))
  const CONFIG := Config(1, 1, 1, map["t" := [KafkaBus.Binding("n", "h")]])
  const START := State([Log(Site("t", 0), [], 0, 0, Idle), Log(Site("t", 1), [], 0, 0, Idle)], [], 0)

  /** Two messages arrive; the first one's handler fails and its hop is refused;
      the second is handled and committed. */
  const STEPS: seq<Step> :=
    [Produce(0, "a", SAMPLE, []), Produce(0, "b", SAMPLE, []),
     Fetch(0), Dispatch(0, [false], "x"), Write(0, 1, Refused),
     Fetch(0), Dispatch(0, [true], ""), Commit(0, true)]

  lemma OneMore(c: Config, s: State, steps: seq<Step>)
    requires steps != [] && Enabled(c, s, steps[0]) && IsRun(c, Apply(c, s, steps[0]), steps[1..])
    ensures IsRun(c, s, steps) && Final(c, s, steps) == Final(c, Apply(c, s, steps[0]), steps[1..])
  {
  }

  function Trail(n: nat): State
    requires n <= 8
  {
    var a := Entry(Message("a", SAMPLE, []), None, Open);
    var b := Entry(Message("b", SAMPLE, []), None, Open);
    var (target, msg) := Onward(CONFIG, Site("t", 0), a, 0, "x");
    var main :=
      match n
      case 0 => Log(Site("t", 0), [], 0, 0, Idle)
      case 1 => Log(Site("t", 0), [a], 0, 0, Idle)
      case 2 => Log(Site("t", 0), [a, b], 0, 0, Idle)
      case 3 => Log(Site("t", 0), [a, b], 1, 0, Fetched(0))
      case 4 => Log(Site("t", 0), [a, b], 1, 0, Sending(0, target, msg, 0))
      case 5 => Log(Site("t", 0), [a, b], 1, 0, Idle)
      case 6 => Log(Site("t", 0), [a, b], 2, 0, Fetched(1))
      case 7 => Log(Site("t", 0), [a, b.(fate := Completed)], 2, 0, Committing(1))
      case _ => Log(Site("t", 0), [a, b.(fate := Completed)], 2, 2, Idle);
    State([main, Log(Site("t", 1), [], 0, 0, Idle)], [], 0)
  }

  lemma TrailStep(n: nat)
    requires n < 8
    ensures Enabled(CONFIG, Trail(n), STEPS[n]) && Apply(CONFIG, Trail(n), STEPS[n]) == Trail(n + 1)
  {
    match n
    case 0 => Step0();
    case 1 => Step1();
    case 2 => Step2();
    case 3 => Step3();
    case 4 => Step4();
    case 5 => Step5();
    case 6 => Step6();
    case 7 => Step7();
  }

  lemma Step0()
    ensures Enabled(CONFIG, Trail(0), STEPS[0]) && Apply(CONFIG, Trail(0), STEPS[0]) == Trail(1)
  {
    assert Apply(CONFIG, Trail(0), STEPS[0]).logs[0].entries == Trail(1).logs[0].entries;
    assert Apply(CONFIG, Trail(0), STEPS[0]).logs == Trail(1).logs;
  }

  lemma Step1()
    ensures Enabled(CONFIG, Trail(1), STEPS[1]) && Apply(CONFIG, Trail(1), STEPS[1]) == Trail(2)
  {
    assert Apply(CONFIG, Trail(1), STEPS[1]).logs[0].entries == Trail(2).logs[0].entries;
    assert Apply(CONFIG, Trail(1), STEPS[1]).logs == Trail(2).logs;
  }

  lemma Step2()
    ensures Enabled(CONFIG, Trail(2), STEPS[2]) && Apply(CONFIG, Trail(2), STEPS[2]) == Trail(3)
  {
    assert Apply(CONFIG, Trail(2), STEPS[2]).logs == Trail(3).logs;
  }

  lemma Step3()
    ensures Enabled(CONFIG, Trail(3), STEPS[3]) && Apply(CONFIG, Trail(3), STEPS[3]) == Trail(4)
  {
    OneHandler("a");
    assert Apply(CONFIG, Trail(3), STEPS[3]).logs == Trail(4).logs;
  }

  lemma Step4()
    ensures Enabled(CONFIG, Trail(4), STEPS[4]) && Apply(CONFIG, Trail(4), STEPS[4]) == Trail(5)
  {
    assert Apply(CONFIG, Trail(4), STEPS[4]).logs == Trail(5).logs;
  }

  lemma Step5()
    ensures Enabled(CONFIG, Trail(5), STEPS[5]) && Apply(CONFIG, Trail(5), STEPS[5]) == Trail(6)
  {
    assert Apply(CONFIG, Trail(5), STEPS[5]).logs == Trail(6).logs;
  }

  lemma Step6()
    ensures Enabled(CONFIG, Trail(6), STEPS[6]) && Apply(CONFIG, Trail(6), STEPS[6]) == Trail(7)
  {
    OneHandler("b");
    assert Apply(CONFIG, Trail(6), STEPS[6]).logs[0].entries == Trail(7).logs[0].entries;
    assert Apply(CONFIG, Trail(6), STEPS[6]).logs == Trail(7).logs;
  }

  lemma Step7()
    ensures Enabled(CONFIG, Trail(7), STEPS[7]) && Apply(CONFIG, Trail(7), STEPS[7]) == Trail(8)
  {
    assert Apply(CONFIG, Trail(7), STEPS[7]).logs == Trail(8).logs;
  }

  lemma OneHandler(key: string)
    ensures HandlerCount(CONFIG, Site("t", 0), Message(key, SAMPLE, [])) == 1
  {
    var bs := CONFIG.bindings["t"];
    assert KafkaBus.Matching(bs, "n") == ["h"] + KafkaBus.Matching(bs[1..], "n");
    assert KafkaBus.HandlersFor(CONFIG.bindings, "t", "n") == ["h"];
  }

  lemma {:induction false} TrailRun(n: nat)
    requires n <= 8
    ensures IsRun(CONFIG, Trail(n), STEPS[n..]) && Final(CONFIG, Trail(n), STEPS[n..]) == Trail(8)
    decreases 8 - n
  {
    if n < 8 {
      TrailStep(n);
      TrailRun(n + 1);
      assert STEPS[n..][1..] == STEPS[n + 1..];
      OneMore(CONFIG, Trail(n), STEPS[n..]);
    }
  }

  /** Without the restart the claim fails: the first message is acknowledged,
      was never completed, and is on no other topic. */
  lemma RestartIsNeeded()
    ensures Initial(CONFIG, START) && IsRun(CONFIG, START, STEPS) && !RestartsFirst({}, STEPS)
    ensures Inv(CONFIG, Final(CONFIG, START, STEPS))
    ensures |Final(CONFIG, START, STEPS).logs| == 2 && |Final(CONFIG, START, STEPS).logs[0].entries| == 2
    ensures Final(CONFIG, START, STEPS).logs[1].entries == [] && Final(CONFIG, START, STEPS).dlq == []
    ensures Whereabouts(CONFIG, Final(CONFIG, START, STEPS), 0, 0) == Lost
  {
    TrailRun(0);
    assert STEPS[0..] == STEPS;
    RunKeepsInv(CONFIG, START, STEPS);
    NotDisciplined();
  }

  lemma NotDisciplined()
    ensures !RestartsFirst({}, STEPS)
  {
    assert !RestartsFirst({0}, STEPS[7..]);
    assert !RestartsFirst({0}, STEPS[6..]) by { assert STEPS[6..][1..] == STEPS[7..]; }
    assert !RestartsFirst({0}, STEPS[5..]) by { assert STEPS[5..][1..] == STEPS[6..]; }
    assert !RestartsFirst({}, STEPS[4..]) by {
      assert STEPS[4..][1..] == STEPS[5..];
      assert Failed({}, STEPS[4]) == {0};
    }
    assert !RestartsFirst({}, STEPS[3..]) by { assert STEPS[3..][1..] == STEPS[4..]; }
    assert !RestartsFirst({}, STEPS[2..]) by { assert STEPS[2..][1..] == STEPS[3..]; }
    assert !RestartsFirst({}, STEPS[1..]) by { assert STEPS[1..][1..] == STEPS[2..]; }
  }
}
