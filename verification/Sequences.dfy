/** Facts about sequences as collections. */
module Sequences {
  function Mapped<T, U>(s: seq<T>, f: T -> U): (r: seq<U>)
    ensures |r| == |s| && forall k | 0 <= k < |r| :: r[k] == f(s[k])
  {
    seq(|s|, k requires 0 <= k < |s| => f(s[k]))
  }

  function Itself<T>(x: T): T {
    x
  }

  /** No two elements have the same image. */
  ghost predicate DistinctBy<T, K>(a: seq<T>, f: T -> K) {
    forall i, j | 0 <= i < j < |a| :: f(a[i]) != f(a[j])
  }

  lemma {:induction false} OccursTwice<T>(a: seq<T>, x: T)
    requires multiset(a)[x] >= 2
    ensures exists p, q :: 0 <= p < q < |a| && a[p] == x && a[q] == x
  {
    assert a == [a[0]] + a[1..];
    if a[0] == x {
      assert x in multiset(a[1..]);
      var q :| 0 <= q < |a[1..]| && a[1..][q] == x;
      assert a[q + 1] == x && a[0] == x;
    } else {
      OccursTwice(a[1..], x);
      var p, q :| 0 <= p < q < |a[1..]| && a[1..][p] == x && a[1..][q] == x;
      assert a[p + 1] == x && a[q + 1] == x;
    }
  }

  /** Distinctness does not depend on the order. */
  lemma DistinctIsOrderFree<T, K>(a: seq<T>, b: seq<T>, f: T -> K)
    requires DistinctBy(a, f) && multiset(a) == multiset(b)
    ensures DistinctBy(b, f)
  {
    forall i, j | 0 <= i < j < |b| ensures f(b[i]) != f(b[j]) {
      var x, y := b[i], b[j];
      if x == y {
        assert b == b[..j] + [y] + b[j + 1..];
        assert b[..j][i] == x;
        assert multiset(b)[x] >= 2;
        OccursTwice(a, x);
      } else {
        assert x in multiset(a) && y in multiset(a);
        var p :| 0 <= p < |a| && a[p] == x;
        var q :| 0 <= q < |a| && a[q] == y;
        if p < q { assert f(a[p]) != f(a[q]); } else { assert f(a[q]) != f(a[p]); }
      }
    }
  }

  // ---------------------------------------------------------------- stable sorting

  function Insert<T>(x: T, s: seq<T>, before: (T, T) -> bool): (r: seq<T>)
    ensures multiset(r) == multiset(s) + multiset{x}
  {
    if s == [] || !before(s[0], x) then [x] + s
    else
      assert s == [s[0]] + s[1..];
      [s[0]] + Insert(x, s[1..], before)
  }

  /** `sorted`; it keeps the order of elements of which neither is before the other. */
  function SortedBy<T>(s: seq<T>, before: (T, T) -> bool): (r: seq<T>)
    ensures multiset(r) == multiset(s)
  {
    if s == [] then []
    else
      assert s == [s[0]] + s[1..];
      Insert(s[0], SortedBy(s[1..], before), before)
  }

  /** Among the elements of `all`, `before` never holds both ways, and everything in between is
      before the later or after the earlier. */
  ghost predicate Orders<T(!new)>(before: (T, T) -> bool, all: seq<T>) {
    && (forall x, y | x in all && y in all :: !(before(x, y) && before(y, x)))
    && (forall x, y, z | x in all && y in all && z in all && before(x, z) :: before(x, y) || before(y, z))
  }

  ghost predicate AscendingBy<T>(s: seq<T>, before: (T, T) -> bool) {
    forall i, j | 0 <= i < j < |s| :: !before(s[j], s[i])
  }

  lemma {:induction false} InsertAscending<T(!new)>(x: T, s: seq<T>, before: (T, T) -> bool, all: seq<T>)
    requires Orders(before, all) && x in all && forall y | y in s :: y in all
    requires AscendingBy(s, before)
    ensures AscendingBy(Insert(x, s, before), before)
  {
    if s != [] && before(s[0], x) {
      InsertAscending(x, s[1..], before, all);
      var r := Insert(x, s[1..], before);
      forall j | 0 <= j < |r| ensures !before(r[j], s[0]) {
        assert r[j] in multiset(r);
        assert r[j] == x || r[j] in s[1..];
      }
    }
  }

  lemma {:induction false} SortedAscending<T(!new)>(s: seq<T>, before: (T, T) -> bool, all: seq<T>)
    requires Orders(before, all) && forall y | y in s :: y in all
    ensures AscendingBy(SortedBy(s, before), before)
  {
    if s != [] {
      SortedAscending(s[1..], before, all);
      SortedMembers(s[1..], before);
      InsertAscending(s[0], SortedBy(s[1..], before), before, all);
    }
  }

  lemma SortedMembers<T(!new)>(s: seq<T>, before: (T, T) -> bool)
    ensures forall x :: x in SortedBy(s, before) <==> x in s
    ensures |SortedBy(s, before)| == |s|
  {
    assert forall x :: x in SortedBy(s, before) <==> x in multiset(SortedBy(s, before));
    assert |multiset(SortedBy(s, before))| == |multiset(s)|;
  }

  // ---------------------------------------------------------------- texts in code point order

  predicate TextLess(a: string, b: string) {
    b != "" && (a == "" || a[0] < b[0] || (a[0] == b[0] && TextLess(a[1..], b[1..])))
  }

  lemma {:induction false} TextAsymmetric(a: string, b: string)
    ensures !(TextLess(a, b) && TextLess(b, a))
  {
    if a != "" && b != "" { TextAsymmetric(a[1..], b[1..]); }
  }

  lemma {:induction false} TextTotal(a: string, b: string)
    ensures TextLess(a, b) || a == b || TextLess(b, a)
  {
    if a != "" && b != "" && a[0] == b[0] {
      TextTotal(a[1..], b[1..]);
      assert a == [a[0]] + a[1..] && b == [b[0]] + b[1..];
    }
  }

  lemma {:induction false} TextTransitive(a: string, b: string, c: string)
    requires TextLess(a, b) && TextLess(b, c)
    ensures TextLess(a, c)
  {
    if a != "" && a[0] == b[0] == c[0] { TextTransitive(a[1..], b[1..], c[1..]); }
  }

  lemma TextsOrdered(all: seq<string>)
    ensures Orders(TextLess, all)
  {
    forall a, b | a in all && b in all ensures !(TextLess(a, b) && TextLess(b, a)) { TextAsymmetric(a, b); }
    forall a, b, c | a in all && b in all && c in all && TextLess(a, c) ensures TextLess(a, b) || TextLess(b, c) {
      TextTotal(b, c);
      if TextLess(c, b) { TextTransitive(a, c, b); }
    }
  }
}
