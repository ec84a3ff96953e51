/** Orders and sorting shared by the models.

    Strings are ordered by code point from the left, a proper prefix first.
    `Sort` is a stable sort: equal elements keep their order. */
module Ordering {

  predicate StringLess(a: string, b: string) {
    b != [] && (a == [] || a[0] < b[0] || (a[0] == b[0] && StringLess(a[1..], b[1..])))
  }

  predicate StringAtMost(a: string, b: string) {
    !StringLess(b, a)
  }

  lemma {:induction false} StringLessTotal(a: string, b: string)
    ensures StringLess(a, b) || a == b || StringLess(b, a)
  {
    if a != [] && b != [] && a[0] == b[0] {
      StringLessTotal(a[1..], b[1..]);
      assert a == [a[0]] + a[1..] && b == [b[0]] + b[1..];
    }
  }

  lemma {:induction false} StringLessTransitive(a: string, b: string, c: string)
    requires StringLess(a, b) && StringLess(b, c)
    ensures StringLess(a, c)
  {
    if a != [] && a[0] == b[0] && b[0] == c[0] {
      StringLessTransitive(a[1..], b[1..], c[1..]);
    }
  }

  lemma {:induction false} StringLessIrreflexive(a: string)
    ensures !StringLess(a, a)
  {
    if a != [] {
      StringLessIrreflexive(a[1..]);
    }
  }

  function Insert<T>(x: T, s: seq<T>, le: (T, T) -> bool): seq<T> {
    if s == [] then [x]
    else if le(x, s[0]) then [x] + s
    else [s[0]] + Insert(x, s[1..], le)
  }

  function Sort<T>(s: seq<T>, le: (T, T) -> bool): seq<T> {
    if s == [] then [] else Insert(s[0], Sort(s[1..], le), le)
  }

  ghost predicate Transitive<T(!new)>(lt: (T, T) -> bool) {
    forall a, b, c :: lt(a, b) && lt(b, c) ==> lt(a, c)
  }

  ghost predicate Ascending<T>(s: seq<T>, lt: (T, T) -> bool) {
    forall i, j :: 0 <= i < j < |s| ==> lt(s[i], s[j])
  }

  ghost predicate Distinct<T>(s: seq<T>) {
    forall i, j :: 0 <= i < j < |s| ==> s[i] != s[j]
  }

  lemma {:induction false} InsertPermutes<T>(x: T, s: seq<T>, le: (T, T) -> bool)
    ensures multiset(Insert(x, s, le)) == multiset{x} + multiset(s)
  {
    if s != [] {
      assert s == [s[0]] + s[1..];
      if !le(x, s[0]) {
        InsertPermutes(x, s[1..], le);
      }
    }
  }

  lemma {:induction false} SortPermutes<T>(s: seq<T>, le: (T, T) -> bool)
    ensures multiset(Sort(s, le)) == multiset(s)
    ensures |Sort(s, le)| == |s|
    ensures forall x :: x in Sort(s, le) <==> x in s
  {
    if s != [] {
      SortPermutes(s[1..], le);
      InsertPermutes(s[0], Sort(s[1..], le), le);
      assert s == [s[0]] + s[1..];
    }
    assert |multiset(Sort(s, le))| == |multiset(s)|;
    forall x ensures x in Sort(s, le) <==> x in s {
      assert x in multiset(Sort(s, le)) <==> x in multiset(s);
    }
  }

  lemma {:induction false} InsertAscending<T(!new)>(x: T, s: seq<T>, le: (T, T) -> bool, lt: (T, T) -> bool)
    requires Transitive(lt)
    requires Ascending(s, lt)
    requires forall y :: y in s && !le(x, y) ==> lt(y, x)
    requires forall y :: y in s && le(x, y) ==> lt(x, y)
    ensures Ascending(Insert(x, s, le), lt)
  {
    if s != [] {
      if le(x, s[0]) {
        assert lt(x, s[0]);
        forall j | 0 <= j < |s| ensures lt(x, s[j]) {
          if j > 0 { assert lt(s[0], s[j]); }
        }
      } else {
        InsertAscending(x, s[1..], le, lt);
        var r := Insert(x, s[1..], le);
        forall k | 0 <= k < |r| ensures lt(s[0], r[k]) {
          InsertPermutes(x, s[1..], le);
          assert r[k] in multiset(r);
          assert r[k] == x || r[k] in s[1..];
        }
      }
    }
  }

  /** The sort brings a sequence into any transitive order `lt` that is implied by
      the comparison `le` on elements in their original order. Read with `lt` the
      comparison itself, this is sortedness; read with `lt` a refinement of it, it
      is stability. */
  lemma {:induction false} SortAscending<T(!new)>(s: seq<T>, le: (T, T) -> bool, lt: (T, T) -> bool)
    requires Transitive(lt)
    requires forall a, b :: a in s && b in s && !le(a, b) ==> lt(b, a)
    requires forall i, j :: 0 <= i < j < |s| && le(s[i], s[j]) ==> lt(s[i], s[j])
    ensures Ascending(Sort(s, le), lt)
  {
    if s != [] {
      var rest := s[1..];
      SortAscending(rest, le, lt);
      SortPermutes(rest, le);
      forall y | y in Sort(rest, le) && le(s[0], y) ensures lt(s[0], y) {
        var k :| 0 <= k < |rest| && rest[k] == y;
        assert s[k + 1] == y;
      }
      InsertAscending(s[0], Sort(rest, le), le, lt);
    }
  }

  lemma FirstBelow<T>(s: seq<T>, lt: (T, T) -> bool)
    requires Ascending(s, lt)
    ensures s == [] || s[0] in s
    ensures forall x :: x in s ==> x == s[0] || lt(s[0], x)
  {
  }

  lemma TailMembership<T>(s: seq<T>, x: T, lt: (T, T) -> bool)
    requires s != [] && Ascending(s, lt) && !lt(s[0], s[0])
    ensures x in s[1..] <==> x in s && x != s[0]
  {
    if x in s && x != s[0] {
      var k :| 0 <= k < |s| && s[k] == x;
      assert s[1..][k - 1] == x;
    }
    if x in s[1..] {
      var k :| 0 <= k < |s| - 1 && s[1..][k] == x;
      assert lt(s[0], s[k + 1]);
    }
  }

  /** A strictly ascending sequence is determined by its elements. */
  lemma {:induction false} AscendingUnique<T(!new)>(a: seq<T>, b: seq<T>, lt: (T, T) -> bool)
    requires Transitive(lt)
    requires forall x :: x in a ==> !lt(x, x)
    requires Ascending(a, lt) && Ascending(b, lt)
    requires forall x :: x in a <==> x in b
    ensures a == b
  {
    if a == [] {
      FirstBelow(b, lt);
    } else {
      assert a[0] in b;
      assert b[0] in a;
      FirstBelow(a, lt);
      FirstBelow(b, lt);
      forall x ensures x in a[1..] <==> x in b[1..] {
        TailMembership(a, x, lt);
        TailMembership(b, x, lt);
      }
      AscendingUnique(a[1..], b[1..], lt);
    }
  }

  lemma {:induction false} DistinctCountsOnce<T>(s: seq<T>, x: T)
    requires Distinct(s)
    ensures multiset(s)[x] <= 1
  {
    if s != [] {
      var front, last := s[..|s| - 1], s[|s| - 1];
      DistinctCountsOnce(front, x);
      assert s == front + [last];
      assert last !in front;
    }
  }

  lemma DistinctAppend<T>(s: seq<T>, x: T)
    requires Distinct(s) && x !in s
    ensures Distinct(s + [x])
  {
  }

  lemma DistinctConcat<T>(a: seq<T>, b: seq<T>)
    requires Distinct(a) && Distinct(b) && forall x :: x in a ==> x !in b
    ensures Distinct(a + b)
  {
    forall i, j | 0 <= i < |a| && 0 <= j < |b| ensures a[i] != b[j] {
      assert a[i] in a && b[j] in b;
    }
  }

  lemma {:induction false} DistinctCardinality<T>(s: seq<T>)
    requires Distinct(s)
    ensures |set x | x in s| == |s|
  {
    if s != [] {
      var front, last := s[..|s| - 1], s[|s| - 1];
      DistinctCardinality(front);
      assert (set x | x in s) == (set x | x in front) + {last};
      assert last !in front;
    }
  }

  /** Sorting keeps elements apart that a `different` relation keeps apart. */
  lemma {:induction false} SortSeparates<T(!new)>(s: seq<T>, le: (T, T) -> bool, apart: (T, T) -> bool)
    requires forall a, b :: apart(a, b) <==> apart(b, a)
    requires Ascending(s, apart)
    ensures Ascending(Sort(s, le), apart)
  {
    if s != [] {
      SortSeparates(s[1..], le, apart);
      SortPermutes(s[1..], le);
      forall y | y in s[1..] ensures apart(s[0], y) {
        var k :| 1 <= k < |s| && s[k] == y;
      }
      InsertSeparates(s[0], Sort(s[1..], le), le, apart);
    }
  }

  lemma {:induction false} InsertSeparates<T(!new)>(x: T, s: seq<T>, le: (T, T) -> bool, apart: (T, T) -> bool)
    requires forall a, b :: apart(a, b) <==> apart(b, a)
    requires Ascending(s, apart) && forall y :: y in s ==> apart(x, y)
    ensures Ascending(Insert(x, s, le), apart)
  {
    if s != [] && !le(x, s[0]) {
      var r := Insert(x, s[1..], le);
      InsertSeparates(x, s[1..], le, apart);
      InsertPermutes(x, s[1..], le);
      forall k | 0 <= k < |r| ensures apart(s[0], r[k]) {
        assert r[k] in multiset(r);
        assert r[k] == x || r[k] in s[1..];
      }
    }
  }

  /** One more than the largest element, or `least` for an empty set. */
  ghost predicate IsNext(s: set<nat>, least: nat, n: nat) {
    if s == {} then n == least else (exists x :: x in s && n == x + 1) && forall x :: x in s ==> x < n
  }

  method NextAfter(s: set<nat>, least: nat) returns (n: nat)
    ensures IsNext(s, least, n)
  {
    var todo := s;
    n := least;
    while todo != {}
      invariant todo <= s
      invariant s - todo == {} ==> n == least
      invariant s - todo != {} ==> (exists x :: x in s - todo && n == x + 1) && forall x :: x in s - todo ==> x < n
      decreases todo
    {
      var x :| x in todo;
      n := if todo == s || x >= n then x + 1 else n;
      assert s - (todo - {x}) == (s - todo) + {x};
      todo := todo - {x};
    }
    assert s - todo == s;
  }

  /** The elements of `s` that are not in `other`, in their order. */
  function Absent<T(==, !new)>(s: seq<T>, other: seq<T>): (r: seq<T>)
    ensures forall d :: d in r <==> d in s && d !in other
    ensures Distinct(s) ==> Distinct(r)
  {
    if s == [] then []
    else
      assert s == [s[0]] + s[1..];
      (if s[0] in other then [] else [s[0]]) + Absent(s[1..], other)
  }

  /** The elements of a set, each once. */
  method Listed<T(==, !new)>(s: set<T>) returns (r: seq<T>)
    ensures Distinct(r) && forall x :: x in r <==> x in s
  {
    var todo := s;
    r := [];
    while todo != {}
      invariant todo <= s && Distinct(r) && forall x :: x in r <==> x in s - todo
      decreases todo
    {
      var x :| x in todo;
      DistinctAppend(r, x);
      r := r + [x];
      todo := todo - {x};
    }
  }

  lemma {:induction false} SubsetSize<T>(a: set<T>, b: set<T>)
    requires a <= b
    ensures |a| <= |b|
  {
    if a != {} {
      var x :| x in a;
      SubsetSize(a - {x}, b - {x});
    }
  }

  lemma {:induction false} AboveAll(s: set<nat>) returns (n: nat)
    ensures forall x :: x in s ==> x < n
  {
    if s == {} {
      n := 0;
    } else {
      var x :| x in s;
      var m := AboveAll(s - {x});
      n := if x < m then m else x + 1;
      assert forall y :: y in s ==> y == x || y in s - {x};
    }
  }
}
