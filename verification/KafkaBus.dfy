/** Subscriptions and the reader set of the Kafka bus. */
module KafkaBus {
  import opened Prelude
  import opened Ids
  import opened KafkaTopics
  import opened Text

  /** A handler registered for one event name; handlers are known by a tag. */
  datatype Binding = Binding(eventName: string, handler: string)

  datatype Reader = Reader(physical: string, business: string, attempt: int)

  datatype SubscribeError = MissingNameOrHandler

  type Bindings = map<string, seq<Binding>>

  function DefaultMaxRetries(configured: int): (m: int)
    ensures m >= 1 && (configured >= 1 ==> m == configured) && (configured < 1 ==> m == 3)
  {
    if configured <= 0 then 3 else configured
  }

  function At(bindings: Bindings, business: string): seq<Binding> {
    if business in bindings then bindings[business] else []
  }

  function Matching(bs: seq<Binding>, eventName: string): seq<string> {
    if bs == [] then []
    else (if bs[0].eventName == eventName then [bs[0].handler] else []) + Matching(bs[1..], eventName)
  }

  /** The handlers a message named `eventName` on business topic `business` gets. */
  function HandlersFor(bindings: Bindings, business: string, eventName: string): seq<string> {
    Matching(At(bindings, business), eventName)
  }

  lemma {:induction false} MatchingOfAppended(bs: seq<Binding>, b: Binding, eventName: string)
    ensures Matching(bs + [b], eventName)
         == Matching(bs, eventName) + (if b.eventName == eventName then [b.handler] else [])
  {
    if bs == [] {
      assert bs + [b] == [b];
    } else {
      MatchingOfAppended(bs[1..], b, eventName);
      assert (bs + [b])[1..] == bs[1..] + [b];
    }
  }

  /** They are the handlers of exactly the topic's bindings with that event name, in
      subscription order. */
  lemma {:induction false} HandlersExactly(bs: seq<Binding>, eventName: string)
    ensures Picks(Matching(bs, eventName), bs, (b: Binding) => b.eventName == eventName, (b: Binding) => b.handler)
  {
    var named, handler := (b: Binding) => b.eventName == eventName, (b: Binding) => b.handler;
    if bs == [] {
      PicksNothing(named, handler);
    } else {
      var front, last := bs[..|bs| - 1], bs[|bs| - 1];
      HandlersExactly(front, eventName);
      PicksSnoc(Matching(front, eventName), front, named, handler, last);
      MatchingOfAppended(front, last, eventName);
      assert front + [last] == bs;
    }
  }

  /** `after` has one more handler than `before`, last on one (topic, event) pair. */
  ghost predicate Gains(before: Bindings, after: Bindings, topic: string, eventName: string, handler: string) {
    forall b, n ::
      HandlersFor(after, b, n)
      == HandlersFor(before, b, n) + (if b == topic && n == eventName then [handler] else [])
  }

  function ReaderOf(business: string, attempt: int): Reader {
    Reader(Name(if attempt == 0 then Main(business) else Retry(business, attempt)), business, attempt)
  }

  /** The readers `Run` has to start: the business topic and each retry hop. */
  predicate Wanted(bindings: Bindings, maxRetries: int, r: Reader) {
    r.business in bindings && 0 <= r.attempt <= maxRetries && r == ReaderOf(r.business, r.attempt)
  }

  /** The reader of a subscribed business topic, or of its n-th retry topic, by name. */
  predicate ReadsTopic(bindings: Bindings, maxRetries: int, r: Reader) {
    && r.business in bindings && 0 <= r.attempt <= maxRetries
    && r.physical == if r.attempt == 0 then r.business else r.business + ".retry." + Itoa(r.attempt)
  }

  class Bus {
    const maxRetries: int
    var bindings: Bindings
    var started: bool
    var readers: seq<Reader>

    ghost predicate Valid()
      reads this
    {
      maxRetries >= 1 && (!started ==> readers == [])
    }

    constructor (configuredRetries: int)
      ensures Valid() && bindings == map[] && !started
      ensures maxRetries == if configuredRetries >= 1 then configuredRetries else 3
    {
      maxRetries := DefaultMaxRetries(configuredRetries);
      bindings := map[];
      started := false;
      readers := [];
    }

    /** Subscribing appends one handler to exactly one (topic, event name) pair. */
    method Subscribe(eventName: string, handler: Option<string>) returns (r: Result<(), SubscribeError>)
      requires Valid()
      modifies this`bindings
      ensures Valid()
      ensures r.Err? <==> eventName == "" || handler.None?
      ensures r.Err? ==> bindings == old(bindings)
      ensures r.Ok? ==> Gains(old(bindings), bindings, TopicFor(eventName), eventName, handler.value)
      ensures r.Ok? ==> bindings.Keys == old(bindings.Keys) + {TopicFor(eventName)}
    {
      if eventName == "" || handler.None? {
        return Err(MissingNameOrHandler);
      }
      var topic := DefaultTopicFor(eventName);
      var binding := Binding(eventName, handler.value);
      ghost var was := At(bindings, topic);
      bindings := bindings[topic := (if topic in bindings then bindings[topic] else []) + [binding]];
      forall b, n
        ensures HandlersFor(bindings, b, n) == HandlersFor(old(bindings), b, n)
                  + (if b == topic && n == eventName then [handler.value] else [])
      {
        MatchingOfAppended(was, binding, n);
      }
      return Ok(());
    }

    method MatchingHandlers(business: string, eventName: string) returns (out: seq<string>)
      ensures out == HandlersFor(bindings, business, eventName)
    {
      out := [];
      var bs := if business in bindings then bindings[business] else [];
      for i := 0 to |bs|
        invariant out == Matching(bs[..i], eventName)
      {
        MatchingOfAppended(bs[..i], bs[i], eventName);
        assert bs[..i + 1] == bs[..i] + [bs[i]];
        if bs[i].eventName == eventName {
          out := out + [bs[i].handler];
        }
      }
      assert bs[..|bs|] == bs;
    }

    /** A second call is refused; the first starts exactly the wanted readers,
        each once, whatever order the topic map is visited in. */
    method Run() returns (accepted: bool)
      requires Valid()
      modifies this`started, this`readers
      ensures Valid() && started
      ensures accepted <==> !old(started)
      ensures !accepted ==> readers == old(readers)
      ensures accepted ==> forall r :: r in readers <==> Wanted(bindings, maxRetries, r)
      ensures accepted ==> forall r :: r in readers <==> ReadsTopic(bindings, maxRetries, r)
      ensures accepted ==> forall i, j | 0 <= i < j < |readers| :: readers[i] != readers[j]
    {
      if started {
        return false;
      }
      started := true;
      var todo := bindings.Keys;
      while todo != {}
        invariant todo <= bindings.Keys && started && Valid()
        invariant forall r :: r in readers <==> Wanted(bindings, maxRetries, r) && r.business !in todo
        invariant forall i, j | 0 <= i < j < |readers| :: readers[i] != readers[j]
        decreases |todo|
      {
        var topic :| topic in todo;
        StartReaders(topic, todo);
        todo := todo - {topic};
      }
      return true;
    }

    method StartReaders(topic: string, ghost todo: set<string>)
      requires Valid() && topic in todo && todo <= bindings.Keys && started
      requires forall r :: r in readers <==> Wanted(bindings, maxRetries, r) && r.business !in todo
      requires forall i, j | 0 <= i < j < |readers| :: readers[i] != readers[j]
      modifies this`readers
      ensures Valid()
      ensures forall r :: r in readers <==> Wanted(bindings, maxRetries, r) && r.business !in todo - {topic}
      ensures forall i, j | 0 <= i < j < |readers| :: readers[i] != readers[j]
    {
      ghost var before := readers;
      readers := readers + [Reader(topic, topic, 0)];
      var attempt := 1;
      while attempt <= maxRetries
        invariant 1 <= attempt <= maxRetries + 1
        invariant forall r :: r in readers <==>
                    r in before || (r.business == topic && 0 <= r.attempt < attempt && r == ReaderOf(topic, r.attempt))
        invariant forall i, j | 0 <= i < j < |readers| :: readers[i] != readers[j]
      {
        var r := Reader(RetryTopicFor(topic, attempt), topic, attempt);
        assert r == ReaderOf(topic, attempt) && r !in readers;
        readers := readers + [r];
        attempt := attempt + 1;
      }
    }
  }
}
