/** Topic naming of the Kafka bus: the event-name convention, the per-attempt
    retry topics and the dead-letter topic. */
module KafkaTopics {
  import opened Prelude
  import opened Text

  /** The convention: the first two dot-separated fields of the event name, then
      "events"; a name with fewer than two dots is its own topic. */
  function TopicFor(eventName: string): string {
    var f := Split(eventName);
    if |f| >= 3 then f[0] + "." + f[1] + ".events" else eventName
  }

  lemma SplitsAtTwoDots(s: string, i: nat, j: nat)
    requires i < j < |s| && s[i] == '.' && s[j] == '.'
    requires forall k | 0 <= k < j && k != i :: s[k] != '.'
    ensures |Split(s)| >= 3 && Split(s)[0] == s[..i] && Split(s)[1] == s[i + 1..j]
  {
    SplitHead(s, i);
    var rest := s[i + 1..];
    SplitHead(rest, j - i - 1);
    assert rest[..j - i - 1] == s[i + 1..j];
  }

  lemma SplitHead(s: string, i: nat)
    requires i < |s| && s[i] == '.' && forall k | 0 <= k < i :: s[k] != '.'
    ensures Split(s) == [s[..i]] + Split(s[i + 1..])
  {
    assert s == s[..i] + "." + s[i + 1..];
    SplitAtFirstDot(s[..i], s[i + 1..]);
  }

  lemma SplitsAtOneDot(s: string, i: nat)
    requires i < |s| && s[i] == '.'
    requires forall k | 0 <= k < |s| && k != i :: s[k] != '.'
    ensures |Split(s)| == 2
  {
    assert s == s[..i] + "." + s[i + 1..];
    SplitAtFirstDot(s[..i], s[i + 1..]);
  }

  /** The nested scan for the second dot computes the field-wise convention. */
  method DefaultTopicFor(eventName: string) returns (topic: string)
    ensures topic == TopicFor(eventName)
  {
    ghost var dot := -1;  // the only dot seen so far
    var i := 0;
    while i < |eventName|
      invariant 0 <= i <= |eventName|
      invariant -1 <= dot < i
      invariant dot == -1 ==> forall k | 0 <= k < i :: eventName[k] != '.'
      invariant dot >= 0 ==> eventName[dot] == '.'
      invariant dot >= 0 ==> forall k | 0 <= k < |eventName| && k != dot :: eventName[k] != '.'
    {
      if eventName[i] == '.' {
        var j := i + 1;
        while j < |eventName|
          invariant i < j <= |eventName|
          invariant forall k | 0 <= k < j && k != i :: eventName[k] != '.'
        {
          if eventName[j] == '.' {
            SplitsAtTwoDots(eventName, i, j);
            assert eventName[..j] + ".events" == eventName[..i] + "." + eventName[i + 1..j] + ".events";
            return eventName[..j] + ".events";
          }
          j := j + 1;
        }
        dot := i;
      }
      i := i + 1;
    }
    if dot >= 0 { SplitsAtOneDot(eventName, dot); }
    return eventName;
  }

  /** The names a business topic of a well-formed event can have. */
  predicate IsBusinessTopic(b: string) {
    |Split(b)| == 3 && Split(b)[2] == "events"
  }

  lemma TopicForFields(eventName: string)
    requires |Split(eventName)| >= 3
    ensures Split(TopicFor(eventName)) == Split(eventName)[..2] + ["events"]
  {
    var f := Split(eventName);
    FieldsAreDotless(eventName);
    ThreeFields(f[0], f[1]);
    FirstTwo(f, "events");
  }

  lemma FieldsAreDotless(s: string)
    ensures forall i | 0 <= i < |Split(s)| :: '.' !in Split(s)[i]
  {
    JoinOfSplit(s);
  }

  lemma FirstTwo(f: seq<string>, last: string)
    requires |f| >= 2
    ensures f[..2] + [last] == [f[0], f[1], last]
  {
  }

  /** The topic of an event name: with at least two dots its first two fields and
      "events", otherwise the name itself. */
  lemma TopicExactly(eventName: string)
    ensures |Split(eventName)| >= 3 ==> Split(TopicFor(eventName)) == [Split(eventName)[0], Split(eventName)[1], "events"]
    ensures |Split(eventName)| < 3 ==> TopicFor(eventName) == eventName
  {
    if |Split(eventName)| >= 3 {
      TopicForFields(eventName);
      FirstTwo(Split(eventName), "events");
    }
  }

  lemma ThreeFields(x: string, y: string)
    requires '.' !in x && '.' !in y
    ensures Split(x + "." + y + ".events") == [x, y, "events"]
  {
    calc {
      Split(x + "." + y + ".events");
      { DottedLiterals(x + "." + y); }
      Split(x + "." + y + "." + "events");
      { SplitOfJoined(x + "." + y, "events"); }
      Split(x + "." + y) + Split("events");
      { SplitOfJoined(x, y); }
      Split(x) + Split(y) + Split("events");
    }
  }

  lemma DottedLiterals(s: string)
    ensures s + ".events" == s + "." + "events"
    ensures s + ".dlq" == s + "." + "dlq"
    ensures s + ".retry." == s + "." + "retry" + "."
  {
  }

  /** Every event name with two dots or more gets a business topic. */
  lemma TopicForIsBusiness(eventName: string)
    requires |Split(eventName)| >= 3
    ensures IsBusinessTopic(TopicFor(eventName))
  {
    TopicForFields(eventName);
  }

  /** Naming a topic after a topic changes nothing, for every string. */
  lemma TopicForIdempotent(eventName: string)
    ensures TopicFor(TopicFor(eventName)) == TopicFor(eventName)
  {
    if |Split(eventName)| >= 3 { TopicForFields(eventName); }
  }

  /** The physical topics of one business topic. */
  datatype Topic = Main(business: string) | Retry(business: string, attempt: int) | DeadLetter(business: string)

  function RetryTopicFor(business: string, attempt: int): string {
    business + ".retry." + Itoa(attempt)
  }

  function DlqTopicFor(business: string): string {
    business + ".dlq"
  }

  function Name(t: Topic): string {
    match t
    case Main(b) => b
    case Retry(b, n) => RetryTopicFor(b, n)
    case DeadLetter(b) => DlqTopicFor(b)
  }

  predicate WellFormed(t: Topic) {
    IsBusinessTopic(t.business) && (t.Retry? ==> INT64_MIN <= t.attempt <= INT64_MAX)
  }

  /** Reads a physical topic back from its name alone. */
  function ParseName(name: string): Option<Topic> { ParseFields(Split(name)) }

  function ParseFields(f: seq<string>): Option<Topic> {
    if |f| < 3 then None
    else
      var b := f[0] + "." + f[1] + "." + f[2];
      if |f| == 3 then Some(Main(b))
      else if |f| == 4 && f[3] == "dlq" then Some(DeadLetter(b))
      else if |f| == 5 && f[3] == "retry" && Atoi(f[4]).Some? then Some(Retry(b, Atoi(f[4]).value))
      else None
  }

  /** A physical topic name determines its kind, business topic and attempt. */
  lemma ParseOfName(t: Topic)
    requires WellFormed(t)
    ensures ParseName(Name(t)) == Some(t)
  {
    match t
    case Main(b) => BusinessIsItsFields(b);
    case DeadLetter(b) => ParseOfDlq(b);
    case Retry(b, n) => ParseOfRetry(b, n);
  }

  lemma ParseOfDlq(b: string)
    requires IsBusinessTopic(b)
    ensures ParseName(DlqTopicFor(b)) == Some(DeadLetter(b))
  {
    BusinessIsItsFields(b);
    DlqFields(b);
    ParseLongFields(Split(b), 0);
  }

  lemma ParseOfRetry(b: string, n: int)
    requires IsBusinessTopic(b) && INT64_MIN <= n <= INT64_MAX
    ensures ParseName(RetryTopicFor(b, n)) == Some(Retry(b, n))
  {
    BusinessIsItsFields(b);
    RetryFields(b, n);
    AtoiOfItoa(n);
    ParseLongFields(Split(b), n);
  }

  lemma ParseLongFields(f: seq<string>, n: int)
    requires |f| == 3
    ensures ParseFields(f + ["dlq"]) == Some(DeadLetter(f[0] + "." + f[1] + "." + f[2]))
    ensures Atoi(Itoa(n)) == Some(n) ==>
              ParseFields(f + ["retry", Itoa(n)]) == Some(Retry(f[0] + "." + f[1] + "." + f[2], n))
  {
  }

  lemma BusinessIsItsFields(b: string)
    requires IsBusinessTopic(b)
    ensures b == Split(b)[0] + "." + Split(b)[1] + "." + Split(b)[2]
  {
    JoinOfSplit(b);
    var f := Split(b);
    assert Join(f[1..]) == f[1] + "." + f[2];
    assert f[0] + "." + (f[1] + "." + f[2]) == f[0] + "." + f[1] + "." + f[2];
  }

  lemma DlqFields(b: string)
    ensures Split(DlqTopicFor(b)) == Split(b) + ["dlq"]
  {
    DottedLiterals(b);
    SplitOfJoined(b, "dlq");
  }

  lemma RetryFields(b: string, n: int)
    ensures Split(RetryTopicFor(b, n)) == Split(b) + ["retry", Itoa(n)]
  {
    calc {
      Split(RetryTopicFor(b, n));
      { DottedLiterals(b); }
      Split(b + "." + "retry" + "." + Itoa(n));
      { SplitOfJoined(b + "." + "retry", Itoa(n)); }
      Split(b + "." + "retry") + Split(Itoa(n));
      { SplitOfJoined(b, "retry"); }
      Split(b) + Split("retry") + Split(Itoa(n));
      { ItoaHasNoDot(n); }
      Split(b) + ["retry"] + [Itoa(n)];
    }
  }

  /** Business, retry and dead-letter names never collide. */
  lemma NamesAreDistinct(t: Topic, u: Topic)
    requires WellFormed(t) && WellFormed(u)
    ensures Name(t) == Name(u) <==> t == u
  {
    ParseOfName(t);
    ParseOfName(u);
  }

  // ---------- event names with any number of dots ----------

  lemma TopicFields(eventName: string)
    ensures |Split(TopicFor(eventName))| <= 3
    ensures |Split(TopicFor(eventName))| == 3 <==> |Split(eventName)| >= 3
    ensures |Split(eventName)| >= 3 ==> Split(TopicFor(eventName))[2] == "events"
  {
    if |Split(eventName)| >= 3 { TopicForFields(eventName); }
  }

  /** The business topic of one event name is the dead-letter topic of another's if
      and only if the other has no dots and the one is it with ".dlq" appended. */
  lemma DlqCollidesExactly(eventName: string, other: string)
    ensures TopicFor(eventName) == DlqTopicFor(TopicFor(other)) <==> '.' !in other && eventName == other + ".dlq"
  {
    TopicFields(eventName);
    TopicFields(other);
    DlqFields(TopicFor(other));
    var f := Split(DlqTopicFor(TopicFor(other)));
    assert f[|f| - 1] == "dlq";
    assert "events"[0] != "dlq"[0];
    DotlessField(other);
    if '.' !in other && eventName == other + ".dlq" { assert Split(eventName) == f; }
  }

  lemma DotlessField(s: string)
    ensures |Split(s)| == 1 <==> '.' !in s
  {
  }

  /** It is never a retry topic, whatever the event names. */
  lemma RetryNeverCollides(eventName: string, other: string, n: int)
    ensures TopicFor(eventName) != RetryTopicFor(TopicFor(other), n)
  {
    TopicFields(eventName);
    RetryFields(TopicFor(other), n);
    var f := Split(RetryTopicFor(TopicFor(other), n));
    assert f[|f| - 1] == Itoa(n);
    ItoaIsNoWord(n);
  }

  /** Nor does a retry topic ever name a dead-letter topic. */
  lemma RetryIsNoDlq(business: string, n: int, other: string)
    ensures RetryTopicFor(business, n) != DlqTopicFor(other)
  {
    RetryFields(business, n);
    DlqFields(other);
    var f, d := Split(RetryTopicFor(business, n)), Split(DlqTopicFor(other));
    assert f[|f| - 1] == Itoa(n) && d[|d| - 1] == "dlq";
    ItoaIsNoWord(n);
  }

  lemma ItoaIsNoWord(n: int)
    ensures Itoa(n) != "events" && Itoa(n) != "dlq"
  {
    var first := Itoa(n)[0];
    assert first == '-' || IsDigit(first);
    assert "events"[0] == 'e' && "dlq"[0] == 'd';
  }

  /** A colliding pair. */
  lemma ShortNamesCollide()
    ensures TopicFor("x.dlq") == DlqTopicFor(TopicFor("x"))
  {
    SplitsAtOneDot("x.dlq", 1);
  }
}
