/** The email value object: normalisation and validation, on ASCII text. */
module Email {
  import opened Prelude

  datatype DomainError = Validation | Conflict | NotFound

  predicate IsSpace(c: char) { c == ' ' || ('\t' <= c <= '\r') }

  predicate Trimmed(s: string) { s == "" || (!IsSpace(s[0]) && !IsSpace(s[|s| - 1])) }

  /** strings.TrimSpace */
  function Trim(s: string): (t: string)
    ensures Trimmed(t)
  {
    if s == "" then ""
    else if IsSpace(s[0]) then Trim(s[1..])
    else if IsSpace(s[|s| - 1]) then Trim(s[..|s| - 1])
    else s
  }

  function LowerChar(c: char): char { if 'A' <= c <= 'Z' then c - 'A' + 'a' else c }

  /** strings.ToLower */
  function Lower(s: string): (t: string)
    ensures |t| == |s| && forall i | 0 <= i < |s| :: t[i] == LowerChar(s[i])
  {
    if s == "" then "" else [LowerChar(s[0])] + Lower(s[1..])
  }

  function IndexOf(s: string, c: char): (i: int)
    ensures -1 <= i < |s|
    ensures i == -1 ==> c !in s
    ensures i >= 0 ==> s[i] == c && forall k | 0 <= k < i :: s[k] != c
  {
    if s == "" then -1
    else if s[0] == c then 0
    else var i := IndexOf(s[1..], c); if i == -1 then -1 else i + 1
  }

  function Count(s: string, c: char): nat {
    if s == "" then 0 else (if s[0] == c then 1 else 0) + Count(s[1..], c)
  }

  function Normalise(raw: string): string { Lower(Trim(raw)) }

  function NewEmail(raw: string): Result<string, DomainError> { Validate(Normalise(raw)) }

  function Validate(v: string): Result<string, DomainError> {
    if v == "" then Err(Validation)
    else
      var at := IndexOf(v, '@');
      if at <= 0 || at == |v| - 1 then Err(Validation)
      else if Count(v, '@') != 1 then Err(Validation)
      else if '.' !in v[at + 1..] then Err(Validation)
      else Ok(v)
  }

  /** A stored address: one that validation leaves as it is. */
  predicate IsEmail(e: string) { NewEmail(e) == Ok(e) }

  /** Normalising twice is normalising once, so a stored address stays valid. */
  lemma NewEmailIdempotent(raw: string)
    requires NewEmail(raw).Ok?
    ensures IsEmail(NewEmail(raw).value)
  {
    NormaliseIdempotent(raw);
  }

  lemma NormaliseIdempotent(raw: string)
    ensures Normalise(Normalise(raw)) == Normalise(raw)
  {
    var t := Trim(raw);
    LowerKeepsTrimmed(t);
    assert Trim(Lower(t)) == Lower(t);
    LowerIdempotent(t);
  }

  lemma LowerKeepsTrimmed(t: string)
    requires Trimmed(t)
    ensures Trimmed(Lower(t))
  {
  }

  lemma LowerIdempotent(t: string)
    ensures Lower(Lower(t)) == Lower(t)
  {
    assert forall i | 0 <= i < |t| :: Lower(Lower(t))[i] == Lower(t)[i];
  }

  lemma {:induction false} CountConcat(a: string, b: string, c: char)
    ensures Count(a + b, c) == Count(a, c) + Count(b, c)
  {
    if a == "" {
      assert a + b == b;
    } else {
      CountConcat(a[1..], b, c);
      assert (a + b)[1..] == a[1..] + b;
    }
  }

  lemma {:induction false} CountZero(s: string, c: char)
    ensures Count(s, c) == 0 <==> c !in s
  {
    if s != "" { CountZero(s[1..], c); }
  }

  /** local@domain with a single '@', a non-empty local part and a dotted domain. */
  predicate WellFormed(local: string, domain: string) {
    local != "" && '@' !in local && '@' !in domain && '.' in domain
  }

  lemma CountAround(local: string, domain: string)
    ensures Count(local + "@" + domain, '@') == Count(local, '@') + 1 + Count(domain, '@')
  {
    CountConcat(local + "@", domain, '@');
    CountConcat(local, "@", '@');
  }

  lemma AcceptedShape(v: string)
    requires Validate(v).Ok?
    ensures exists local, domain :: v == local + "@" + domain && WellFormed(local, domain)
  {
    var at := IndexOf(v, '@');
    var local, domain := v[..at], v[at + 1..];
    assert v == local + "@" + domain;
    CountAround(local, domain);
    CountZero(domain, '@');
    assert WellFormed(local, domain);
  }

  lemma ShapeAccepted(local: string, domain: string)
    requires WellFormed(local, domain)
    ensures Validate(local + "@" + domain).Ok?
  {
    var v := local + "@" + domain;
    CountAround(local, domain);
    CountZero(local, '@');
    CountZero(domain, '@');
    assert v[|local|] == '@' && v[|local| + 1..] == domain;
    assert IndexOf(v, '@') == |local| by {
      assert forall k | 0 <= k < |local| :: v[k] == local[k];
    }
  }

  // ---------- the accepted text, said by its characters ----------

  predicate White(c: char) {
    c == ' ' || c == '\t' || c == '\n' || c == '\U{b}' || c == '\U{c}' || c == '\r'
  }

  predicate AllWhite(s: string) { forall i | 0 <= i < |s| :: White(s[i]) }

  /** The middle of raw, without the white space around it. */
  predicate IsCore(raw: string, pre: string, mid: string, post: string) {
    && raw == pre + mid + post && AllWhite(pre) && AllWhite(post)
    && (mid == "" || (!White(mid[0]) && !White(mid[|mid| - 1])))
  }

  /** The same text with every letter in lower case. */
  predicate IsLowered(text: string, mid: string) {
    |text| == |mid| && forall i | 0 <= i < |mid| ::
      text[i] == if 'A' <= mid[i] <= 'Z' then (mid[i] as int + 32) as char else mid[i]
  }

  ghost predicate IsNormal(raw: string, text: string) {
    exists pre: string, mid: string, post: string :: IsCore(raw, pre, mid, post) && IsLowered(text, mid)
  }

  lemma {:induction false} TrimIsCore(raw: string) returns (pre: string, post: string)
    ensures IsCore(raw, pre, Trim(raw), post)
    decreases |raw|
  {
    pre, post := "", "";
    if raw == "" {
      assert raw == "" + "" + "";
    } else if IsSpace(raw[0]) {
      pre, post := TrimIsCore(raw[1..]);
      pre := [raw[0]] + pre;
      assert raw == [raw[0]] + raw[1..];
    } else if IsSpace(raw[|raw| - 1]) {
      var n := |raw| - 1;
      pre, post := TrimIsCore(raw[..n]);
      post := post + [raw[n]];
      assert raw == raw[..n] + [raw[n]];
    } else {
      assert raw == "" + raw + "";
    }
  }

  lemma CoreUnique(raw: string, a: string, m: string, b: string, a': string, m': string, b': string)
    requires IsCore(raw, a, m, b) && IsCore(raw, a', m', b')
    ensures m == m'
  {
    CoreStarts(raw, a, m, b, a', m', b');
    CoreStarts(raw, a', m', b', a, m, b);
    assert m == raw[|a|..|a| + |m|] && m' == raw[|a'|..|a'| + |m'|];
  }

  /** A core that is not empty lies inside every other core. */
  lemma CoreStarts(raw: string, a: string, m: string, b: string, a': string, m': string, b': string)
    requires IsCore(raw, a, m, b) && IsCore(raw, a', m', b')
    ensures m != "" ==> |a'| <= |a| && |a| + |m| <= |a'| + |m'|
  {
    if m != "" {
      CharAt(a, m, b, 0);
      CharAt(a, m, b, |m| - 1);
      WhiteOutside(raw, a', m', b', |a|);
      WhiteOutside(raw, a', m', b', |a| + |m| - 1);
    }
  }

  lemma CharAt(a: string, m: string, b: string, i: nat)
    requires i < |m|
    ensures (a + m + b)[|a| + i] == m[i]
  {
  }

  lemma WhiteOutside(raw: string, a: string, m: string, b: string, k: nat)
    requires IsCore(raw, a, m, b) && k < |raw|
    ensures White(raw[k]) || |a| <= k < |a| + |m|
  {
    if k < |a| {
      assert raw[k] == a[k];
    } else if k >= |a| + |m| {
      assert raw[k] == b[k - |a| - |m|];
    }
  }

  lemma LoweredUnique(text: string, text': string, mid: string)
    requires IsLowered(text, mid) && IsLowered(text', mid)
    ensures text == text'
  {
  }

  /** The text that is checked and stored: raw without the white space around it, in
      lower case. There is exactly one such text. */
  lemma NormalText(raw: string, text: string)
    ensures IsNormal(raw, text) <==> text == Normalise(raw)
  {
    var pre, post := TrimIsCore(raw);
    var mid := Trim(raw);
    LowerIsLowered(mid);
    assert IsNormal(raw, Normalise(raw));
    if IsNormal(raw, text) {
      var a, m, b :| IsCore(raw, a, m, b) && IsLowered(text, m);
      CoreUnique(raw, a, m, b, pre, mid, post);
      LoweredUnique(text, Normalise(raw), mid);
    }
  }

  lemma LowerIsLowered(mid: string)
    ensures IsLowered(Lower(mid), mid)
  {
  }

  /** Exactly what is accepted and what it becomes: an address is accepted if and only if
      its text, without the white space around it and in lower case, is local@domain
      with a single '@', a non-empty local part and a dotted domain; and that text is
      the result. */
  lemma NewEmailExactly(raw: string, text: string)
    requires IsNormal(raw, text)
    ensures NewEmail(raw).Ok? <==> exists local, domain :: text == local + "@" + domain && WellFormed(local, domain)
    ensures NewEmail(raw) == Ok(text) || NewEmail(raw) == Err(Validation)
  {
    NormalText(raw, text);
    NewEmailAccepts(raw);
  }

  /** Every raw text has such a text. */
  lemma NormalExists(raw: string) returns (text: string)
    ensures IsNormal(raw, text)
  {
    text := Normalise(raw);
    NormalText(raw, text);
  }

  /** The checks accept exactly the addresses of that shape. */
  lemma NewEmailAccepts(raw: string)
    ensures NewEmail(raw).Ok? <==>
            exists local, domain :: Normalise(raw) == local + "@" + domain && WellFormed(local, domain)
    ensures NewEmail(raw).Ok? ==> NewEmail(raw).value == Normalise(raw)
  {
    var v := Normalise(raw);
    if Validate(v).Ok? { AcceptedShape(v); }
    if local, domain :| v == local + "@" + domain && WellFormed(local, domain) {
      ShapeAccepted(local, domain);
    }
  }
}
