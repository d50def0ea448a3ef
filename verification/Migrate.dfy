/** The migration tool: discovering the files, planning a run up or down, and
    applying it file by file. */
module Migrate {
  import opened Prelude
  import opened Ids
  import opened Sorting
  import Text

  /** One directory entry whose name matches the pattern. */
  datatype File = File(version: string, name: string, up: bool, path: string)

  datatype Migration = Migration(version: string, name: string, upPath: string, downPath: string)

  // ---------- the two orders ----------

  /** The order of loading: numeric if both versions parse, textual otherwise. */
  predicate LoadLess(a: string, b: string) {
    match (Text.ParseUint(a), Text.ParseUint(b))
    case (Some(m), Some(n)) => m < n
    case _ => Text.Less(a, b)
  }

  /** The order of rolling back: textual, descending. */
  predicate DownLess(a: string, b: string) { Text.Less(b, a) }

  predicate EqualWidthDigits(s: set<string>) {
    && (forall v | v in s :: v != "" && Text.AllDigits(v))
    && (forall v, w | v in s && w in s :: |v| == |w|)
  }

  /** On digit strings of one width loading is textual too, even where the numbers
      overflow. */
  lemma LoadIsTextual(a: string, b: string)
    requires Text.AllDigits(a) && Text.AllDigits(b) && |a| == |b|
    ensures LoadLess(a, b) <==> Text.Less(a, b)
  {
    Text.OrdersAgreeOnEqualWidth(a, b);
  }

  lemma TextOrder(s: set<string>)
    ensures StrictOrder(Text.Less, s) && StrictOrder(DownLess, s)
  {
    forall a | a in s ensures !Text.Less(a, a) { Text.LessIrreflexive(a); }
    forall a, b, c | a in s && b in s && c in s && Text.Less(a, b) && Text.Less(b, c) ensures Text.Less(a, c) {
      Text.LessTransitive(a, b, c);
    }
    forall a, b | a in s && b in s && a != b ensures Text.Less(a, b) || Text.Less(b, a) { Text.LessTotal(a, b); }
    forall a, b, c | a in s && b in s && c in s && DownLess(a, b) && DownLess(b, c) ensures DownLess(a, c) {
      Text.LessTransitive(c, b, a);
    }
  }

  predicate Parses(v: string) { Text.ParseUint(v).Some? }

  function Number(v: string): nat
    requires Parses(v)
  {
    Text.ParseUint(v).value
  }

  /** Two versions are the same number. */
  predicate Twins(a: string, b: string) { a != b && Parses(a) && Parses(b) && Number(a) == Number(b) }

  /** n is no 64-bit number and lies textually between two numbers that are the other
      way round. */
  predicate Sandwich(p: string, q: string, n: string) {
    Parses(p) && Parses(q) && !Parses(n) && Number(p) < Number(q) && Text.Less(q, n) && Text.Less(n, p)
  }

  predicate NoTwins(s: set<string>) { forall a, b | a in s && b in s :: !Twins(a, b) }

  predicate NoSandwich(s: set<string>) { forall p, q, n | p in s && q in s && n in s :: !Sandwich(p, q, n) }

  lemma LoadTransitive(s: set<string>, a: string, b: string, c: string)
    requires NoTwins(s) && NoSandwich(s) && a in s && b in s && c in s && LoadLess(a, b) && LoadLess(b, c)
    ensures LoadLess(a, c)
  {
    assert !Sandwich(a, b, c) && !Sandwich(c, a, b) && !Sandwich(b, c, a) && !Twins(a, c);
    Text.LessTotal(a, c);
    if Text.Less(a, b) && Text.Less(b, c) { Text.LessTransitive(a, b, c); }
    if Text.Less(a, b) && Text.Less(b, a) {
      Text.LessTransitive(a, b, a);
      Text.LessIrreflexive(a);
    }
  }

  lemma LoadTotal(s: set<string>, a: string, b: string)
    requires NoTwins(s) && a in s && b in s && a != b
    ensures LoadLess(a, b) || LoadLess(b, a)
  {
    assert !Twins(a, b);
    Text.LessTotal(a, b);
  }

  /** The load comparison orders a set of versions if and only if no two of them are
      the same number and no version that is no 64-bit number lies textually between
      two numbers that are the other way round. */
  lemma LoadOrderExactly(s: set<string>)
    ensures StrictOrder(LoadLess, s) <==> NoTwins(s) && NoSandwich(s)
  {
    if NoTwins(s) && NoSandwich(s) {
      forall a | a in s ensures !LoadLess(a, a) { LoadIrreflexive(a); }
      forall a, b, c | a in s && b in s && c in s && LoadLess(a, b) && LoadLess(b, c) ensures LoadLess(a, c) {
        LoadTransitive(s, a, b, c);
      }
      forall a, b | a in s && b in s && a != b ensures LoadLess(a, b) || LoadLess(b, a) { LoadTotal(s, a, b); }
    }
    if StrictOrder(LoadLess, s) {
      forall a, b | a in s && b in s ensures !Twins(a, b) { assert a != b ==> LoadLess(a, b) || LoadLess(b, a); }
      forall p, q, n | p in s && q in s && n in s ensures !Sandwich(p, q, n) {
        assert LoadLess(p, q) && LoadLess(q, n) ==> LoadLess(p, n);
        assert LoadLess(p, n) && LoadLess(n, p) ==> LoadLess(p, p);
      }
    }
  }

  lemma LoadOrder(s: set<string>)
    requires EqualWidthDigits(s)
    ensures StrictOrder(LoadLess, s)
  {
    forall a, b | a in s && b in s ensures !Twins(a, b) {
      Text.OrdersAgreeOnEqualWidth(a, b);
      Text.OrdersAgreeOnEqualWidth(b, a);
      Text.LessTotal(a, b);
    }
    forall p, q, n | p in s && q in s && n in s ensures !Sandwich(p, q, n) {
      if Text.Less(q, n) && Text.Less(n, p) {
        Text.LessTransitive(q, n, p);
        Text.OrdersAgreeOnEqualWidth(q, p);
      }
    }
    LoadOrderExactly(s);
  }

  /** A leading zero makes a twin, so the two are not ordered at all. */
  lemma LeadingZeroTies(v: string)
    requires Parses(v)
    ensures Twins(v, "0" + v) && !StrictOrder(LoadLess, {v, "0" + v})
  {
    var w := "0" + v;
    SameNumber(v, w);
    assert |w| == |v| + 1;
    assert v in {v, w} && w in {v, w};
    LoadOrderExactly({v, w});
  }

  lemma SameNumber(v: string, w: string)
    requires Parses(v) && w == "0" + v
    ensures Parses(w) && Number(w) == Number(v)
  {
    assert w != "" && w[0] == '0' && w[1..] == v;
    assert forall i | 1 <= i < |w| :: w[i] == v[i - 1];
    Text.ValueHead(w);
  }

  /** A version this long does not fit 64 bits unless it starts with zeros. */
  lemma LongOverflows(v: string)
    requires Text.AllDigits(v) && |v| >= 21 && v[0] != '0'
    ensures Text.ParseUint(v) == None
  {
    LeadingDigit(v);
    PowGrows(20, |v| - 1);
    TenToTwenty();
  }

  lemma LeadingDigit(v: string)
    requires v != "" && Text.AllDigits(v) && v[0] != '0'
    ensures Text.Value(v) >= Text.Pow10(|v| - 1)
  {
    Text.ValueHead(v);
    AtLeastOnce(v[0] as int - '0' as int, Text.Pow10(|v| - 1));
  }

  lemma AtLeastOnce(d: int, p: nat)
    requires d >= 1
    ensures d * p >= p
  {
  }

  lemma TenToTwenty()
    ensures Text.Pow10(20) > Text.UINT64_MAX
  {
    assert Text.Pow10(5) == 100_000;
    assert Text.Pow10(10) == 10_000_000_000;
    assert Text.Pow10(15) == 1_000_000_000_000_000;
  }

  lemma {:induction false} PowGrows(a: nat, b: nat)
    requires a <= b
    ensures Text.Pow10(a) <= Text.Pow10(b)
  {
    if a < b { PowGrows(a, b - 1); }
  }

  /** Mixing widths with overflow, the load comparison is not an order: 3 comes
      before 20, 20 before a long version starting 21 to 29, and that before 3. */
  lemma LoadLessCycles(v: string)
    requires Text.AllDigits(v) && |v| >= 21 && v[0] == '2' && v[1] > '0'
    ensures LoadLess("3", "20") && LoadLess("20", v) && LoadLess(v, "3")
    ensures !StrictOrder(LoadLess, {"3", "20", v})
  {
    LongOverflows(v);
    ThreeTwenty();
    assert Sandwich("3", "20", v);
    LoadOrderExactly({"3", "20", v});
  }

  lemma ThreeTwenty()
    ensures LoadLess("3", "20") && Parses("3") && Parses("20")
  {
    assert Text.Value("3") == 3 by { assert "3"[..0] == ""; }
    assert Text.Value("20") == 20 by { assert "20"[..1] == "2" && "2"[..0] == ""; }
  }

  lemma LoadIrreflexive(a: string)
    ensures !LoadLess(a, a)
  {
    Text.LessIrreflexive(a);
  }

  // ---------- loading ----------

  function Versions(ms: seq<Migration>): (vs: seq<string>)
    ensures |vs| == |ms| && forall i {:trigger vs[i]} | 0 <= i < |ms| :: vs[i] == ms[i].version
  {
    seq(|ms|, i requires 0 <= i < |ms| => ms[i].version)
  }

  /** The path found for a version: the last entry of that kind, or none. */
  function PathIn(files: seq<File>, version: string, up: bool): string {
    if files == [] then ""
    else
      var last := files[|files| - 1];
      if last.version == version && last.up == up then last.path else PathIn(files[..|files| - 1], version, up)
  }

  /** The name found for a version: that of its first entry. */
  function NameIn(files: seq<File>, version: string): string {
    if files == [] then "" else if files[0].version == version then files[0].name else NameIn(files[1..], version)
  }

  function PairOf(files: seq<File>, version: string): Migration {
    Migration(version, NameIn(files, version), PathIn(files, version, true), PathIn(files, version, false))
  }

  predicate Has(files: seq<File>, version: string) { exists f :: f in files && f.version == version }

  lemma {:induction false} NameSnoc(files: seq<File>, f: File, v: string)
    ensures NameIn(files + [f], v) == if Has(files, v) || f.version != v then NameIn(files, v) else f.name
    decreases |files|
  {
    if files == [] {
      assert ([f] + [])[1..] == [];
    } else {
      NameSnoc(files[1..], f, v);
      assert (files + [f])[1..] == files[1..] + [f];
      assert files == [files[0]] + files[1..];
    }
  }

  lemma {:induction false} PathMissing(files: seq<File>, v: string, up: bool)
    requires !Has(files, v)
    ensures PathIn(files, v, up) == ""
  {
    if files != [] { PathMissing(files[..|files| - 1], v, up); }
  }

  lemma PairSnoc(files: seq<File>, f: File, v: string)
    ensures var m := if Has(files, v) then PairOf(files, v) else Migration(v, f.name, "", "");
            && (f.version != v ==> PairOf(files + [f], v) == PairOf(files, v))
            && (f.version == v ==>
                  PairOf(files + [f], v) == if f.up then m.(upPath := f.path) else m.(downPath := f.path))
  {
    NameSnoc(files, f, v);
    assert (files + [f])[..|files|] == files;
    if !Has(files, v) {
      PathMissing(files, v, true);
      PathMissing(files, v, false);
    }
  }

  lemma HasSnoc(files: seq<File>, f: File)
    ensures forall v :: Has(files + [f], v) <==> (v == f.version || Has(files, v))
  {
    assert f in files + [f];
    assert forall g | g in files :: g in files + [f];
  }

  /** The name is that of the version's first entry. */
  lemma {:induction false} NameExactly(files: seq<File>, i: nat)
    requires i < |files| && forall j | 0 <= j < i :: files[j].version != files[i].version
    ensures NameIn(files, files[i].version) == files[i].name
  {
    if i > 0 { NameExactly(files[1..], i - 1); }
  }

  /** Each path is that of the version's last entry of that kind, or empty. */
  lemma {:induction false} PathExactly(files: seq<File>, i: nat)
    requires i < |files|
    requires forall j | i < j < |files| :: !(files[j].version == files[i].version && files[j].up == files[i].up)
    ensures PathIn(files, files[i].version, files[i].up) == files[i].path
  {
    if i < |files| - 1 { PathExactly(files[..|files| - 1], i); }
  }

  lemma {:induction false} NoPath(files: seq<File>, v: string, up: bool)
    requires forall f | f in files :: !(f.version == v && f.up == up)
    ensures PathIn(files, v, up) == ""
  {
    if files != [] { NoPath(files[..|files| - 1], v, up); }
  }

  /** Pairs the entries by version. */
  method PairFiles(files: seq<File>) returns (found: map<string, Migration>)
    ensures forall v :: v in found <==> Has(files, v)
    ensures forall v | v in found :: found[v] == PairOf(files, v)
  {
    found := map[];
    for i := 0 to |files|
      invariant forall v :: v in found <==> Has(files[..i], v)
      invariant forall v | v in found :: found[v] == PairOf(files[..i], v)
    {
      var f := files[i];
      var m := if f.version in found then found[f.version] else Migration(f.version, f.name, "", "");
      if f.up {
        m := m.(upPath := f.path);
      } else {
        m := m.(downPath := f.path);
      }
      assert files[..i + 1] == files[..i] + [f];
      HasSnoc(files[..i], f);
      forall v | v in found || v == f.version ensures PairOf(files[..i + 1], v) == if v == f.version then m else found[v] {
        PairSnoc(files[..i], f, v);
      }
      found := found[f.version := m];
    }
    assert files[..|files|] == files;
  }

  /** ms is what loading may give: one migration per version, each paired with its
      files, in load order where that is an order. */
  ghost predicate Loaded(files: seq<File>, ms: seq<Migration>) {
    && (forall v :: v in Elems(Versions(ms)) <==> Has(files, v))
    && Distinct(Versions(ms))
    && (forall m | m in ms :: m == PairOf(files, m.version))
    && (StrictOrder(LoadLess, Elems(Versions(ms))) ==> Ascending(LoadLess, Versions(ms)))
  }

  method LoadMigrations(files: seq<File>) returns (ms: seq<Migration>)
    ensures Loaded(files, ms)
  {
    var byVersion := PairFiles(files);
    var versions := Enumerate(byVersion.Keys);
    SortPermutes(LoadLess, versions);
    var sorted := Sort(LoadLess, versions);
    if StrictOrder(LoadLess, Elems(versions)) {
      SortArranges(LoadLess, versions);
    }
    assert forall v | v in sorted :: v in Elems(sorted) && v in byVersion;
    ms := InOrder(byVersion, sorted);
  }

  /** The migrations of these versions, in this order. */
  method InOrder(byVersion: map<string, Migration>, versions: seq<string>) returns (ms: seq<Migration>)
    requires forall v | v in versions :: v in byVersion && byVersion[v].version == v
    ensures Versions(ms) == versions && forall m | m in ms :: m.version in byVersion && m == byVersion[m.version]
  {
    ms := [];
    for i := 0 to |versions|
      invariant |ms| == i && forall k | 0 <= k < i :: ms[k] == byVersion[versions[k]]
    {
      ms := ms + [byVersion[versions[i]]];
    }
  }
}
