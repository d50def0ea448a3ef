/** The text primitives the program takes from the Go standard library: decimal
    printing and parsing, the byte order on strings, and splitting at dots. */
module Text {
  import opened Prelude

  const INT64_MIN: int := -0x8000_0000_0000_0000
  const INT64_MAX: int := 0x7fff_ffff_ffff_ffff
  const UINT64_MAX: int := 0xffff_ffff_ffff_ffff

  // ---------- decimal text ----------

  predicate IsDigit(c: char) { '0' <= c <= '9' }

  predicate AllDigits(s: string) { forall i | 0 <= i < |s| :: IsDigit(s[i]) }

  function Digits(n: nat): (s: string)
    ensures |s| > 0 && AllDigits(s)
  {
    var last := [(n % 10) as char + '0'];
    if n < 10 then last else Digits(n / 10) + last
  }

  function Value(s: string): nat
    requires AllDigits(s)
  {
    if s == "" then 0
    else Value(s[..|s| - 1]) * 10 + (s[|s| - 1] as int - '0' as int)
  }

  lemma {:induction false} ValueOfDigits(n: nat)
    ensures Value(Digits(n)) == n
  {
    var s := Digits(n);
    if n >= 10 {
      ValueOfDigits(n / 10);
      assert s[..|s| - 1] == Digits(n / 10);
    }
  }

  /** strconv.Itoa */
  function Itoa(n: int): string {
    if n < 0 then "-" + Digits(-n) else Digits(n)
  }

  /** strconv.Atoi: an optional sign, at least one digit, an int64 result. */
  function Atoi(s: string): Option<int> {
    if s == "" then None
    else
      var signed := s[0] == '-' || s[0] == '+';
      var digits := if signed then s[1..] else s;
      if digits == "" || !AllDigits(digits) then None
      else
        var v: int := Value(digits);
        var n := if s[0] == '-' then -v else v;
        if INT64_MIN <= n <= INT64_MAX then Some(n) else None
  }

  /** strconv.ParseUint(s, 10, 64) */
  function ParseUint(s: string): Option<nat> {
    if s == "" || !AllDigits(s) || Value(s) > UINT64_MAX then None else Some(Value(s))
  }

  /** Printing then parsing gives the number back, for every int64. */
  lemma AtoiOfItoa(n: int)
    requires INT64_MIN <= n <= INT64_MAX
    ensures Atoi(Itoa(n)) == Some(n)
  {
    if n < 0 {
      ValueOfDigits(-n);
      assert Itoa(n)[1..] == Digits(-n);
    } else {
      ValueOfDigits(n);
      assert IsDigit(Digits(n)[0]);
    }
  }

  lemma ItoaHasNoDot(n: int)
    ensures '.' !in Itoa(n)
  {
    var d := Digits(if n < 0 then -n else n);
    assert forall c | c in d :: IsDigit(c);
  }

  // ---------- byte order ----------

  predicate Less(a: string, b: string) {
    b != "" && (a == "" || a[0] < b[0] || (a[0] == b[0] && Less(a[1..], b[1..])))
  }

  lemma {:induction false} LessIrreflexive(a: string)
    ensures !Less(a, a)
  {
    if a != "" { LessIrreflexive(a[1..]); }
  }

  lemma {:induction false} LessTransitive(a: string, b: string, c: string)
    requires Less(a, b) && Less(b, c)
    ensures Less(a, c)
  {
    if a != "" && a[0] == b[0] && b[0] == c[0] {
      LessTransitive(a[1..], b[1..], c[1..]);
    }
  }

  lemma {:induction false} LessTotal(a: string, b: string)
    ensures a == b || Less(a, b) || Less(b, a)
  {
    if a != "" && b != "" && a[0] == b[0] {
      LessTotal(a[1..], b[1..]);
      if a[1..] == b[1..] {
        assert a == [a[0]] + a[1..];
        assert b == [b[0]] + b[1..];
      }
    }
  }

  /** a comes before b if and only if, where they first differ, a has ended or has the
      smaller character. */
  lemma {:induction false} LessExactly(a: string, b: string)
    ensures Less(a, b) <==> exists k: nat :: DiffersAt(a, b, k)
  {
    if a != "" && b != "" && a[0] == b[0] {
      LessExactly(a[1..], b[1..]);
      if k: nat :| DiffersAt(a[1..], b[1..], k) { assert DiffersAt(a, b, k + 1); }
      if k: nat :| DiffersAt(a, b, k) {
        assert k > 0;
        assert a[1..][..k - 1] == a[..k][1..] && b[1..][..k - 1] == b[..k][1..];
        assert DiffersAt(a[1..], b[1..], k - 1);
      }
    } else {
      if Less(a, b) { assert DiffersAt(a, b, 0); }
      if k: nat :| DiffersAt(a, b, k) {
        if k > 0 { assert a[..k][0] == b[..k][0]; }
      }
    }
  }

  predicate DiffersAt(a: string, b: string, k: nat) {
    k <= |a| && k < |b| && a[..k] == b[..k] && (k == |a| || a[k] < b[k])
  }

  // ---------- numeric order and byte order on equal widths ----------

  function Pow10(k: nat): (p: nat)
    ensures p >= 1
  {
    if k == 0 then 1 else 10 * Pow10(k - 1)
  }

  lemma {:induction false} ValueBound(s: string)
    requires AllDigits(s)
    ensures Value(s) < Pow10(|s|)
  {
    if s != "" { ValueBound(s[..|s| - 1]); }
  }

  lemma {:induction false} ValueHead(s: string)
    requires s != "" && AllDigits(s)
    ensures Value(s) == (s[0] as int - '0' as int) * Pow10(|s| - 1) + Value(s[1..])
  {
    if |s| == 1 {
      assert s[..0] == "" && s[1..] == "";
    } else {
      var front := s[..|s| - 1];
      ValueHead(front);
      assert front[1..] == s[1..][..|s| - 2];
      var d := s[0] as int - '0' as int;
      assert Pow10(|s| - 1) == 10 * Pow10(|s| - 2);
      assert d * Pow10(|s| - 1) == 10 * (d * Pow10(|s| - 2));
    }
  }

  lemma LeadingDigitDecides(da: int, ra: nat, db: int, rb: nat, p: nat)
    requires ra < p && rb < p
    ensures da < db ==> da * p + ra < db * p + rb
    ensures da > db ==> da * p + ra > db * p + rb
  {
    if da < db { assert (da + 1) * p <= db * p; }
    if da > db { assert (db + 1) * p <= da * p; }
  }

  /** On digit strings of one width the numeric and the byte order coincide. */
  lemma {:induction false} OrdersAgreeOnEqualWidth(a: string, b: string)
    requires AllDigits(a) && AllDigits(b) && |a| == |b|
    ensures Less(a, b) <==> Value(a) < Value(b)
  {
    if a != "" {
      var da, db := a[0] as int - '0' as int, b[0] as int - '0' as int;
      var p := Pow10(|a| - 1);
      ValueHead(a);
      ValueHead(b);
      ValueBound(a[1..]);
      ValueBound(b[1..]);
      OrdersAgreeOnEqualWidth(a[1..], b[1..]);
      LeadingDigitDecides(da, Value(a[1..]), db, Value(b[1..]), p);
    }
  }

  // ---------- splitting at dots ----------

  function FirstDot(s: string): (i: nat)
    requires '.' in s
    ensures i < |s| && s[i] == '.' && forall k | 0 <= k < i :: s[k] != '.'
  {
    if s[0] == '.' then 0 else 1 + FirstDot(s[1..])
  }

  function Split(s: string): (fields: seq<string>)
    ensures |fields| >= 1
    decreases |s|
  {
    if '.' in s then [s[..FirstDot(s)]] + Split(s[FirstDot(s) + 1..]) else [s]
  }

  lemma SplitAtFirstDot(a: string, b: string)
    requires '.' !in a
    ensures Split(a + "." + b) == [a] + Split(b)
  {
    var s := a + "." + b;
    assert s[|a|] == '.';
    var i := FirstDot(s);
    assert i >= |a| by { assert forall k | 0 <= k < |a| :: s[k] == a[k]; }
    assert s[..i] == a && s[i + 1..] == b;
  }

  lemma RegroupAtDot(a: string, i: nat, b: string)
    requires i < |a| && a[i] == '.'
    ensures a + "." + b == a[..i] + "." + (a[i + 1..] + "." + b)
  {
  }

  lemma Regroup<T>(a: seq<T>, b: seq<T>, c: seq<T>)
    ensures a + (b + c) == a + b + c
  {
  }

  /** Splitting distributes over joining with a dot. */
  lemma {:induction false} SplitOfJoined(a: string, b: string)
    ensures Split(a + "." + b) == Split(a) + Split(b)
    decreases |a|
  {
    if '.' in a {
      var i := FirstDot(a);
      var head, tail := a[..i], a[i + 1..];
      calc {
        Split(a + "." + b);
        { RegroupAtDot(a, i, b); }
        Split(head + "." + (tail + "." + b));
        { SplitAtFirstDot(head, tail + "." + b); }
        [head] + Split(tail + "." + b);
        { SplitOfJoined(tail, b); }
        [head] + (Split(tail) + Split(b));
        { Regroup([head], Split(tail), Split(b)); }
        Split(a) + Split(b);
      }
    } else {
      SplitAtFirstDot(a, b);
    }
  }

  /** A string is its fields joined by dots. */
  function Join(fields: seq<string>): string {
    if fields == [] then "" else if |fields| == 1 then fields[0] else fields[0] + "." + Join(fields[1..])
  }

  lemma {:induction false} JoinOfSplit(s: string)
    ensures Join(Split(s)) == s
    ensures forall f | f in Split(s) :: '.' !in f
    decreases |s|
  {
    if '.' in s {
      var i := FirstDot(s);
      JoinOfSplit(s[i + 1..]);
      assert Split(s)[1..] == Split(s[i + 1..]);
      assert s == s[..i] + "." + s[i + 1..];
    }
  }
}
