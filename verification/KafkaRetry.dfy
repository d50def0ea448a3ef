/** Retry policy and bookkeeping headers of the Kafka bus. */
module KafkaRetry {
  import opened Prelude
  import opened Text

  // ---------- exponential backoff on int64 durations ----------

  const TWO62: int := 0x4000_0000_0000_0000
  const TWO64: int := 0x1_0000_0000_0000_0000

  /** Two's complement wrap-around of a 64-bit product. */
  function Wrap64(x: int): (r: int)
    ensures INT64_MIN <= x <= INT64_MAX ==> r == x
  {
    (x - INT64_MIN) % TWO64 + INT64_MIN
  }

  function Pow2(k: nat): (p: nat)
    ensures p >= 1
  {
    if k == 0 then 1 else 2 * Pow2(k - 1)
  }

  function Min(a: int, b: int): int { if a <= b then a else b }

  function Max(a: int, b: int): int { if a >= b then a else b }

  /** What `n` rounds of the doubling loop leave, on wrapping int64 arithmetic. */
  function Doubled(d: int, maxDelay: int, n: nat): int
    decreases n
  {
    if n == 0 then Min(d, maxDelay)
    else
      var d' := Wrap64(d * 2);
      if d' >= maxDelay then maxDelay else Doubled(d', maxDelay, n - 1)
  }

  function Delay(base: int, maxDelay: int, attempt: int): int {
    Doubled(base, maxDelay, Max(attempt, 1) - 1)
  }

  method ExponentialBackoff(base: int, maxDelay: int, attempt: int) returns (delay: int)
    requires INT64_MIN <= base <= INT64_MAX && INT64_MIN <= maxDelay <= INT64_MAX
    ensures delay == Delay(base, maxDelay, attempt)
    ensures 0 <= base < TWO62 && 0 <= maxDelay <= TWO62 ==>
              delay == Min(base * Pow2(Max(attempt, 1) - 1), maxDelay)
  {
    if 0 <= base < TWO62 && 0 <= maxDelay <= TWO62 {
      DelayIsCappedPower(base, maxDelay, attempt);
    }
    var n := attempt;
    if n < 1 {
      n := 1;
    }
    var d := base;
    var i := 1;
    while i < n
      invariant 1 <= i <= n
      invariant Doubled(d, maxDelay, n - i) == Delay(base, maxDelay, attempt)
    {
      d := Wrap64(d * 2);
      if d >= maxDelay {
        return maxDelay;
      }
      i := i + 1;
    }
    if d > maxDelay {
      return maxDelay;
    }
    return d;
  }

  lemma {:induction false} DoubledIsCappedPower(d: int, maxDelay: int, n: nat)
    requires 0 <= d < TWO62 && 0 <= maxDelay <= TWO62
    ensures Doubled(d, maxDelay, n) == Min(d * Pow2(n), maxDelay)
    decreases n
  {
    if n > 0 {
      TwiceTheBase(d, Pow2(n - 1));
      if 2 * d < maxDelay { DoubledIsCappedPower(2 * d, maxDelay, n - 1); }
    }
  }

  lemma TwiceTheBase(d: nat, p: nat)
    requires p >= 1
    ensures d * (2 * p) == 2 * d * p >= 2 * d
  {
    ScaleMonotone(2 * d, 1, p);
  }

  /** The closed form; in particular no doubling wraps in this range. */
  lemma DelayIsCappedPower(base: int, maxDelay: int, attempt: int)
    requires 0 <= base < TWO62 && 0 <= maxDelay <= TWO62
    ensures Delay(base, maxDelay, attempt) == Min(base * Pow2(Max(attempt, 1) - 1), maxDelay)
    ensures 0 <= Delay(base, maxDelay, attempt) <= maxDelay
  {
    var n := Max(attempt, 1) - 1;
    DoubledIsCappedPower(base, maxDelay, n);
    assert base * Pow2(n) >= 0;
  }

  lemma {:induction false} Pow2Monotone(a: nat, b: nat)
    requires a <= b
    ensures Pow2(a) <= Pow2(b)
    decreases b
  {
    if a < b { Pow2Monotone(a, b - 1); }
  }

  lemma ScaleMonotone(k: nat, a: nat, b: nat)
    requires a <= b
    ensures k * a <= k * b
  {
  }

  /** A later attempt never waits less. */
  lemma DelayMonotone(base: int, maxDelay: int, a: int, b: int)
    requires 0 <= base < TWO62 && 0 <= maxDelay <= TWO62 && a <= b
    ensures Delay(base, maxDelay, a) <= Delay(base, maxDelay, b)
  {
    var m, n := Max(a, 1) - 1, Max(b, 1) - 1;
    DelayIsCappedPower(base, maxDelay, a);
    DelayIsCappedPower(base, maxDelay, b);
    Pow2Monotone(m, n);
    ScaleMonotone(base, Pow2(m), Pow2(n));
  }

  predicate IsCappedPower(base: int, maxDelay: int, attempt: int) {
    Delay(base, maxDelay, attempt) == Min(base * Pow2(Max(attempt, 1) - 1), maxDelay)
  }

  /** Some doubling of the base reaches the cap and still fits 64 bits. */
  predicate MeetsCap(base: int, maxDelay: int, k: nat) { k >= 1 && maxDelay <= base * Pow2(k) <= INT64_MAX }

  lemma {:induction false} DoubledUnderCap(d: int, maxDelay: int, n: nat, k: nat)
    requires 0 <= d && 0 <= maxDelay && MeetsCap(d, maxDelay, k)
    ensures Doubled(d, maxDelay, n) == Min(d * Pow2(n), maxDelay)
    decreases n
  {
    TwiceTheBase(d, Pow2(k - 1));
    if n > 0 {
      TwiceTheBase(d, Pow2(n - 1));
      if 2 * d < maxDelay {
        assert k >= 2;
        DoubledUnderCap(2 * d, maxDelay, n - 1, k - 1);
      }
    } else {
      assert Pow2(0) == 1 && d * Pow2(0) == d;
    }
  }

  /** No doubling from d up to the k-th reaches the cap, and the k-th does not fit. */
  predicate Overflows(d: int, maxDelay: int, k: nat) {
    && k >= 1 && d * Pow2(k) > INT64_MAX
    && forall i: nat | 1 <= i < k :: d * Pow2(i) <= INT64_MAX && d * Pow2(i) < maxDelay
  }

  lemma {:induction false} DoubledWraps(d: int, maxDelay: int, k: nat)
    requires 1 <= d <= INT64_MAX && 0 <= maxDelay && Overflows(d, maxDelay, k)
    ensures Doubled(d, maxDelay, k) < 0
    decreases k
  {
    assert Pow2(1) == 2 * Pow2(0) && Pow2(0) == 1;
    if k == 1 {
      assert d * Pow2(1) == 2 * d;
      assert Wrap64(2 * d) < 0;
      assert Doubled(d, maxDelay, 1) == Doubled(Wrap64(2 * d), maxDelay, 0);
    } else {
      assert d * Pow2(1) == 2 * d;
      DoublingOverflows(d, maxDelay, k);
      DoubledWraps(2 * d, maxDelay, k - 1);
    }
  }

  lemma DoublingOverflows(d: nat, maxDelay: int, k: nat)
    requires k >= 2 && Overflows(d, maxDelay, k)
    ensures Overflows(2 * d, maxDelay, k - 1)
  {
    TwiceTheBase(d, Pow2(k - 1));
    forall i: nat | 1 <= i < k - 1 ensures 2 * d * Pow2(i) <= INT64_MAX && 2 * d * Pow2(i) < maxDelay {
      TwiceTheBase(d, Pow2(i));
      assert d * Pow2(i + 1) == 2 * d * Pow2(i);
    }
  }

  lemma FirstOverflow(d: int) returns (k: nat)
    requires 1 <= d <= INT64_MAX
    ensures k >= 1 && d * Pow2(k) > INT64_MAX && forall i: nat | 1 <= i < k :: d * Pow2(i) <= INT64_MAX
    decreases INT64_MAX - d
  {
    assert Pow2(1) == 2 * Pow2(0) && Pow2(0) == 1;
    if 2 * d > INT64_MAX {
      k := 1;
      assert d * Pow2(1) == 2 * d;
    } else {
      var k' := FirstOverflow(2 * d);
      k := k' + 1;
      TwiceTheBase(d, Pow2(k'));
      forall i: nat | 1 <= i < k ensures d * Pow2(i) <= INT64_MAX {
        TwiceTheBase(d, Pow2(i - 1));
        assert i == 1 ==> d * Pow2(i) == 2 * d;
        assert d * Pow2(i) == 2 * d * Pow2(i - 1);
      }
    }
  }

  /** Without such a doubling some attempt's delay is negative. */
  lemma DelayWraps(base: int, maxDelay: int) returns (attempt: int)
    requires 1 <= base <= INT64_MAX && 0 <= maxDelay && forall k: nat :: !MeetsCap(base, maxDelay, k)
    ensures Delay(base, maxDelay, attempt) < 0 && !IsCappedPower(base, maxDelay, attempt)
  {
    var k := FirstOverflow(base);
    forall i: nat | 1 <= i < k ensures base * Pow2(i) < maxDelay { assert !MeetsCap(base, maxDelay, i); }
    DoubledWraps(base, maxDelay, k);
    attempt := k + 1;
    ScaleMonotone(base, 0, Pow2(k));
  }

  /** From base 2^62 on it is the second attempt already, whatever the cap. */
  lemma SecondAttemptWraps(base: int, maxDelay: int)
    requires TWO62 <= base <= INT64_MAX && 0 <= maxDelay
    ensures Delay(base, maxDelay, 2) < 0 && !IsCappedPower(base, maxDelay, 2)
  {
    assert Pow2(1) == 2 * Pow2(0) && base * Pow2(1) == 2 * base;
    DoubledWraps(base, maxDelay, 1);
  }

  lemma {:induction false} DoubledZero(maxDelay: int, n: nat)
    requires 0 <= maxDelay
    ensures Doubled(0, maxDelay, n) == 0
  {
    if n > 0 && maxDelay > 0 { DoubledZero(maxDelay, n - 1); }
  }

  /** For every base and cap the code can be given, the closed form holds for every
      attempt if and only if the base is 0 or one of its doublings reaches the cap and
      still fits 64 bits. */
  lemma CappedPowerExactly(base: int, maxDelay: int)
    requires 0 <= base <= INT64_MAX && 0 <= maxDelay <= INT64_MAX
    ensures (forall attempt :: IsCappedPower(base, maxDelay, attempt)) <==>
            base == 0 || exists k: nat :: MeetsCap(base, maxDelay, k)
  {
    if base == 0 {
      forall attempt ensures IsCappedPower(base, maxDelay, attempt) { DoubledZero(maxDelay, Max(attempt, 1) - 1); }
    } else if k: nat :| MeetsCap(base, maxDelay, k) {
      forall attempt ensures IsCappedPower(base, maxDelay, attempt) {
        DoubledUnderCap(base, maxDelay, Max(attempt, 1) - 1, k);
      }
    } else {
      var attempt := DelayWraps(base, maxDelay);
    }
  }

  // ---------- the retry / dead-letter decision ----------

  datatype Outcome = OutcomeRetry | OutcomeDeadLetter

  function DecideOutcome(attempt: int, maxRetries: int): Outcome {
    if attempt > maxRetries then OutcomeDeadLetter else OutcomeRetry
  }

  // ---------- headers ----------

  /** Header values are text, except the not-before deadline, which is kept as
      the instant its text encodes. */
  datatype HeaderValue = Plain(text: string) | Instant(at: int)

  datatype Header = Header(key: string, value: HeaderValue)

  const HEADER_ATTEMPT := "x-retry-attempt"
  const HEADER_NOT_BEFORE := "x-retry-not-before"
  const HEADER_ORIGINAL_TOPIC := "x-original-topic"
  const HEADER_LAST_ERROR := "x-last-error"

  function RetryHeaders(attempt: int, notBefore: int, originalTopic: string, lastError: Option<string>): seq<Header> {
    [Header(HEADER_ATTEMPT, Plain(Itoa(attempt))),
     Header(HEADER_NOT_BEFORE, Instant(notBefore)),
     Header(HEADER_ORIGINAL_TOPIC, Plain(originalTopic))]
    + (match lastError case None => [] case Some(e) => [Header(HEADER_LAST_ERROR, Plain(e))])
  }

  /** The value of the first header named `key`, or the empty text. */
  function ValueOf(headers: seq<Header>, key: string): HeaderValue {
    if headers == [] then Plain("")
    else if headers[0].key == key then headers[0].value
    else ValueOf(headers[1..], key)
  }

  method FindHeaderValue(headers: seq<Header>, key: string) returns (v: HeaderValue)
    ensures v == ValueOf(headers, key)
    ensures (forall h | h in headers :: h.key != key) ==> v == Plain("")
    ensures forall i | 0 <= i < |headers| && headers[i].key == key && (forall j | 0 <= j < i :: headers[j].key != key) ::
              v == headers[i].value
  {
    for i := 0 to |headers|
      invariant ValueOf(headers, key) == ValueOf(headers[i..], key)
      invariant forall j | 0 <= j < i :: headers[j].key != key
    {
      if headers[i].key == key {
        return headers[i].value;
      }
    }
    return Plain("");
  }

  function AttemptFrom(headers: seq<Header>): int {
    match ValueOf(headers, HEADER_ATTEMPT)
    case Plain(text) => (match Atoi(text) case Some(n) => n case None => 0)
    case Instant(_) => 0
  }

  function NotBeforeFrom(headers: seq<Header>): Option<int> {
    match ValueOf(headers, HEADER_NOT_BEFORE)
    case Plain(_) => None
    case Instant(t) => Some(t)
  }

  /** What was written is what is read back, for every int64 attempt. */
  lemma HeadersRoundTrip(attempt: int, notBefore: int, originalTopic: string, lastError: Option<string>)
    requires INT64_MIN <= attempt <= INT64_MAX
    ensures AttemptFrom(RetryHeaders(attempt, notBefore, originalTopic, lastError)) == attempt
    ensures NotBeforeFrom(RetryHeaders(attempt, notBefore, originalTopic, lastError)) == Some(notBefore)
  {
    AtoiOfItoa(attempt);
    assert HEADER_ATTEMPT != HEADER_NOT_BEFORE by { assert HEADER_ATTEMPT[8] != HEADER_NOT_BEFORE[8]; }
    var h := RetryHeaders(attempt, notBefore, originalTopic, lastError);
    assert h[0].key == HEADER_ATTEMPT;
    assert ValueOf(h, HEADER_NOT_BEFORE) == ValueOf(h[1..], HEADER_NOT_BEFORE);
    assert h[1..][0] == Header(HEADER_NOT_BEFORE, Instant(notBefore));
  }

  /** So are the business topic and the last error. */
  lemma OriginRoundTrip(attempt: int, notBefore: int, originalTopic: string, lastError: Option<string>)
    ensures var h := RetryHeaders(attempt, notBefore, originalTopic, lastError);
            && ValueOf(h, HEADER_ORIGINAL_TOPIC) == Plain(originalTopic)
            && ValueOf(h, HEADER_LAST_ERROR) == Plain(match lastError case None => "" case Some(e) => e)
  {
    var h := RetryHeaders(attempt, notBefore, originalTopic, lastError);
    assert HEADER_ATTEMPT[2] == 'r' && HEADER_NOT_BEFORE[2] == 'r';
    assert HEADER_ORIGINAL_TOPIC[2] == 'o' && HEADER_LAST_ERROR[2] == 'l';
    ValueAfter(h, HEADER_ORIGINAL_TOPIC);
    ValueAfter(h[1..], HEADER_ORIGINAL_TOPIC);
    ValueAfter(h, HEADER_LAST_ERROR);
    ValueAfter(h[1..], HEADER_LAST_ERROR);
    ValueAfter(h[1..][1..], HEADER_LAST_ERROR);
  }

  lemma ValueAfter(headers: seq<Header>, key: string)
    requires headers != [] && headers[0].key != key
    ensures ValueOf(headers, key) == ValueOf(headers[1..], key)
  {
  }

  /** Without an attempt header a message counts as never retried. */
  lemma {:induction false} AttemptDefaultsToZero(headers: seq<Header>)
    requires forall h | h in headers :: h.key != HEADER_ATTEMPT
    ensures AttemptFrom(headers) == 0
  {
    if headers != [] {
      AttemptDefaultsToZero(headers[1..]);
    }
  }
}
