/** Sorting by a strict total order: the sorted arrangement of a finite set exists
    and is unique, so a sort's result does not depend on the order of its input. */
module Sorting {
  import opened Ids

  /** `less` is irreflexive, transitive and total on s. */
  predicate StrictOrder<T(==)>(less: (T, T) -> bool, s: set<T>) {
    && (forall a | a in s :: !less(a, a))
    && (forall a, b, c | a in s && b in s && c in s && less(a, b) && less(b, c) :: less(a, c))
    && (forall a, b | a in s && b in s && a != b :: less(a, b) || less(b, a))
  }

  predicate Ascending<T(==)>(less: (T, T) -> bool, xs: seq<T>) { forall i, j | 0 <= i < j < |xs| :: less(xs[i], xs[j]) }

  /** xs lists the members of s in ascending order. */
  predicate Arranges<T(==)>(less: (T, T) -> bool, xs: seq<T>, s: set<T>) { Elems(xs) == s && Ascending(less, xs) }

  function Insert<T(==)>(less: (T, T) -> bool, x: T, xs: seq<T>): seq<T> {
    if xs == [] || less(x, xs[0]) then [x] + xs else [xs[0]] + Insert(less, x, xs[1..])
  }

  function Sort<T(==)>(less: (T, T) -> bool, xs: seq<T>): seq<T> {
    if xs == [] then [] else Insert(less, xs[0], Sort(less, xs[1..]))
  }

  lemma ElemsCons<T>(x: T, xs: seq<T>)
    ensures Elems([x] + xs) == {x} + Elems(xs)
  {
  }

  lemma ElemsSplit<T>(xs: seq<T>, k: nat)
    requires k <= |xs|
    ensures Elems(xs) == Elems(xs[..k]) + Elems(xs[k..])
  {
    assert xs == xs[..k] + xs[k..];
  }

  lemma AscendingCons<T>(less: (T, T) -> bool, x: T, xs: seq<T>)
    requires Ascending(less, xs) && forall y | y in xs :: less(x, y)
    ensures Ascending(less, [x] + xs)
  {
    var r := [x] + xs;
    forall i, j | 0 <= i < j < |r| ensures less(r[i], r[j]) {
      assert r[j] == xs[j - 1];
      if i > 0 { assert r[i] == xs[i - 1]; }
    }
  }

  lemma AscendingTail<T>(less: (T, T) -> bool, xs: seq<T>)
    requires xs != [] && Ascending(less, xs)
    ensures Ascending(less, xs[1..]) && forall y | y in xs[1..] :: less(xs[0], y)
  {
  }

  lemma {:induction false} InsertArranges<T>(less: (T, T) -> bool, x: T, xs: seq<T>, s: set<T>)
    requires StrictOrder(less, s) && x in s && Elems(xs) <= s && x !in xs && Ascending(less, xs)
    ensures Arranges(less, Insert(less, x, xs), {x} + Elems(xs))
    decreases |xs|
  {
    if xs != [] {
      AscendingTail(less, xs);
      ElemsSplit(xs, 1);
      assert xs[0] in Elems(xs) && xs == [xs[0]] + xs[1..];
      if less(x, xs[0]) {
        forall y | y in xs ensures less(x, y) { assert y in Elems(xs); }
        AscendingCons(less, x, xs);
        ElemsCons(x, xs);
      } else {
        var rest := Insert(less, x, xs[1..]);
        InsertArranges(less, x, xs[1..], s);
        forall y | y in rest ensures less(xs[0], y) { assert y in Elems(rest); }
        AscendingCons(less, xs[0], rest);
        ElemsCons(xs[0], rest);
      }
    }
  }

  /** Sorting a list without repeats arranges its elements. */
  lemma {:induction false} SortArranges<T>(less: (T, T) -> bool, xs: seq<T>)
    requires StrictOrder(less, Elems(xs)) && Distinct(xs)
    ensures Arranges(less, Sort(less, xs), Elems(xs))
  {
    if xs != [] {
      ElemsCons(xs[0], xs[1..]);
      assert xs == [xs[0]] + xs[1..];
      SortArranges(less, xs[1..]);
      var rest := Sort(less, xs[1..]);
      assert xs[0] !in Elems(rest);
      InsertArranges(less, xs[0], rest, Elems(xs));
    }
  }

  /** Two arrangements of one set are the same list. */
  lemma {:induction false} ArrangementUnique<T>(less: (T, T) -> bool, a: seq<T>, b: seq<T>, s: set<T>)
    requires StrictOrder(less, s) && Arranges(less, a, s) && Arranges(less, b, s)
    ensures a == b
    decreases |a|
  {
    if a == [] {
      NonEmpty(b);
    } else {
      SameHead(less, a, b, s);
      AscendingTail(less, a);
      AscendingTail(less, b);
      TailElems(less, a, s);
      TailElems(less, b, s);
      ArrangementUnique(less, a[1..], b[1..], s - {a[0]});
      assert a == [a[0]] + a[1..] && b == [b[0]] + b[1..];
    }
  }

  lemma NonEmpty<T>(xs: seq<T>)
    ensures xs == [] <==> Elems(xs) == {}
    ensures xs != [] ==> xs[0] in Elems(xs)
  {
    if xs != [] { assert xs[0] in Elems(xs); }
  }

  lemma HeadIsLeast<T>(less: (T, T) -> bool, xs: seq<T>, y: T)
    requires Ascending(less, xs) && y in Elems(xs)
    ensures xs != [] && (y == xs[0] || less(xs[0], y))
  {
  }

  lemma SameHead<T>(less: (T, T) -> bool, a: seq<T>, b: seq<T>, s: set<T>)
    requires StrictOrder(less, s) && Arranges(less, a, s) && Arranges(less, b, s) && a != []
    ensures b != [] && a[0] == b[0]
  {
    NonEmpty(a);
    NonEmpty(b);
    HeadIsLeast(less, a, b[0]);
    HeadIsLeast(less, b, a[0]);
  }

  lemma TailElems<T>(less: (T, T) -> bool, a: seq<T>, s: set<T>)
    requires StrictOrder(less, s) && Arranges(less, a, s) && a != []
    ensures Elems(a[1..]) == s - {a[0]}
  {
    ElemsCons(a[0], a[1..]);
    assert a == [a[0]] + a[1..];
    AscendingTail(less, a);
    assert a[0] in Elems(a);
    assert a[0] !in a[1..] by { assert !less(a[0], a[0]); }
  }

  lemma {:induction false} InsertElems<T>(less: (T, T) -> bool, x: T, xs: seq<T>)
    requires Distinct(xs) && x !in xs
    ensures Distinct(Insert(less, x, xs)) && Elems(Insert(less, x, xs)) == {x} + Elems(xs)
    decreases |xs|
  {
    if xs == [] || less(x, xs[0]) {
      ElemsCons(x, xs);
    } else {
      var rest := Insert(less, x, xs[1..]);
      InsertElems(less, x, xs[1..]);
      ElemsCons(xs[0], rest);
      ElemsCons(xs[0], xs[1..]);
      assert xs == [xs[0]] + xs[1..];
      assert xs[0] !in Elems(rest);
    }
  }

  /** Whatever the comparison, sorting keeps the elements. */
  lemma {:induction false} SortPermutes<T>(less: (T, T) -> bool, xs: seq<T>)
    requires Distinct(xs)
    ensures Distinct(Sort(less, xs)) && Elems(Sort(less, xs)) == Elems(xs)
  {
    if xs != [] {
      SortPermutes(less, xs[1..]);
      ElemsCons(xs[0], xs[1..]);
      assert xs == [xs[0]] + xs[1..];
      assert xs[0] !in Elems(Sort(less, xs[1..]));
      InsertElems(less, xs[0], Sort(less, xs[1..]));
    }
  }

  lemma ElemsSnoc<T>(xs: seq<T>, x: T)
    ensures Elems(xs + [x]) == Elems(xs) + {x}
  {
  }

  /** Ranging over a map's keys, in whatever order they come. */
  method Enumerate<T>(s: set<T>) returns (xs: seq<T>)
    ensures Distinct(xs) && Elems(xs) == s
  {
    xs := [];
    var unread := s;
    while unread != {}
      invariant unread <= s && Elems(xs) == s - unread && Distinct(xs)
      decreases |unread|
    {
      var x :| x in unread;
      assert x !in Elems(xs);
      ElemsSnoc(xs, x);
      xs := xs + [x];
      unread := unread - {x};
    }
  }
}
