/**
  Orders used by the summary pivot: Python's string comparison (lexicographic
  by code point), the lexicographic order on (area, teacher) pairs, and
  insertion into a strictly sorted sequence without repeats, which is how the
  pivot's sorted row and column labels are built here.
 */
module Ordering {

  /** `a < b` on Python strings: lexicographic by code point, a proper prefix first. */
  predicate Less(a: string, b: string) {
    if a == [] then b != []
    else if b == [] then false
    else if a[0] != b[0] then a[0] < b[0]
    else Less(a[1..], b[1..])
  }

  /** Tuple order on (area, teacher) pairs. */
  predicate PairLess(p: (string, string), q: (string, string)) {
    Less(p.0, q.0) || (p.0 == q.0 && Less(p.1, q.1))
  }

  /** `lt` is irreflexive, transitive and total on distinct values. */
  ghost predicate StrictTotalOrder<T(!new)>(lt: (T, T) -> bool) {
    && (forall x :: !lt(x, x))
    && (forall x, y, z :: lt(x, y) && lt(y, z) ==> lt(x, z))
    && (forall x, y :: x != y ==> lt(x, y) || lt(y, x))
  }

  /** Every element precedes every later one. */
  ghost predicate StrictlySorted<T>(s: seq<T>, lt: (T, T) -> bool) {
    forall i, j :: 0 <= i < j < |s| ==> lt(s[i], s[j])
  }

  lemma {:induction false} LessIrreflexive(a: string)
    ensures !Less(a, a)
  {
    if a != [] {
      LessIrreflexive(a[1..]);
    }
  }

  lemma {:induction false} LessTransitive(a: string, b: string, c: string)
    requires Less(a, b) && Less(b, c)
    ensures Less(a, c)
  {
    if a != [] && a[0] == b[0] && b[0] == c[0] {
      LessTransitive(a[1..], b[1..], c[1..]);
    }
  }

  lemma {:induction false} LessTotal(a: string, b: string)
    requires a != b
    ensures Less(a, b) || Less(b, a)
  {
    if a != [] && b != [] && a[0] == b[0] {
      assert a == [a[0]] + a[1..] && b == [b[0]] + b[1..];
      LessTotal(a[1..], b[1..]);
    }
  }

  /** Python's string comparison is a strict total order. */
  lemma LessIsStrictTotal()
    ensures StrictTotalOrder(Less)
  {
    forall a ensures !Less(a, a) {
      LessIrreflexive(a);
    }
    forall a, b, c | Less(a, b) && Less(b, c) ensures Less(a, c) {
      LessTransitive(a, b, c);
    }
    forall a, b | a != b ensures Less(a, b) || Less(b, a) {
      LessTotal(a, b);
    }
  }

  /** Tuple comparison on pairs of strings is a strict total order. */
  lemma PairLessIsStrictTotal()
    ensures StrictTotalOrder(PairLess)
  {
    LessIsStrictTotal();
  }

  /** `x` inserted into `s` at its place under `lt`, unless it is already there. */
  function Insert<T(==, !new)>(x: T, s: seq<T>, lt: (T, T) -> bool): (r: seq<T>)
    ensures forall y :: y in r <==> y == x || y in s
    ensures |r| <= |s| + 1
  {
    if s == [] then [x]
    else if x == s[0] then s
    else if lt(x, s[0]) then [x] + s
    else [s[0]] + Insert(x, s[1..], lt)
  }

  /** Insertion keeps a strictly sorted sequence strictly sorted. */
  lemma {:induction false} InsertSorted<T(!new)>(x: T, s: seq<T>, lt: (T, T) -> bool)
    requires StrictTotalOrder(lt)
    requires StrictlySorted(s, lt)
    ensures StrictlySorted(Insert(x, s, lt), lt)
  {
    if s != [] && x != s[0] && !lt(x, s[0]) {
      assert lt(s[0], x);
      InsertSorted(x, s[1..], lt);
      var r := Insert(x, s[1..], lt);
      forall j | 0 <= j < |r| ensures lt(s[0], r[j]) {
        assert r[j] == x || r[j] in s[1..];
      }
    }
  }

  /** The distinct elements of `s`, strictly sorted under `lt`. */
  function SortedDistinct<T(==, !new)>(s: seq<T>, lt: (T, T) -> bool): (r: seq<T>)
    ensures forall y :: y in r <==> y in s
  {
    if s == [] then [] else Insert(s[|s| - 1], SortedDistinct(s[..|s| - 1], lt), lt)
  }

  lemma {:induction false} SortedDistinctIsSorted<T(!new)>(s: seq<T>, lt: (T, T) -> bool)
    requires StrictTotalOrder(lt)
    ensures StrictlySorted(SortedDistinct(s, lt), lt)
  {
    if s != [] {
      SortedDistinctIsSorted(s[..|s| - 1], lt);
      InsertSorted(s[|s| - 1], SortedDistinct(s[..|s| - 1], lt), lt);
    }
  }

  /** `s` read back to front. */
  function Reverse<T(!new)>(s: seq<T>): (r: seq<T>)
    ensures |r| == |s|
    ensures forall i :: 0 <= i < |s| ==> r[i] == s[|s| - 1 - i]
    ensures forall x :: x in r <==> x in s
  {
    if s == [] then []
    else
      assert s == [s[0]] + s[1..];
      Reverse(s[1..]) + [s[0]]
  }

  /** Reversing an ascending string sequence gives a strictly descending one. */
  lemma ReverseDescends(s: seq<string>)
    requires StrictlySorted(s, Less)
    ensures forall i, j :: 0 <= i < j < |s| ==> Less(Reverse(s)[j], Reverse(s)[i])
  {
  }
}
