/**
 Strings in byte order, and sorting: the order in which the services list identifiers, paths and Git
 tree entries.
 */
module Order {
  /** `a < b` as Go, Python and SQLite compare strings. */
  predicate Less(a: string, b: string) {
    b != [] && (a == [] || a[0] < b[0] || (a[0] == b[0] && Less(a[1..], b[1..])))
  }

  lemma LessIrreflexive(a: string)
    ensures !Less(a, a)
  {
  }

  lemma LessTransitive(a: string, b: string, c: string)
    requires Less(a, b) && Less(b, c)
    ensures Less(a, c)
  {
  }

  lemma LessTotal(a: string, b: string)
    ensures Less(a, b) || a == b || Less(b, a)
  {
    if a != [] && b != [] && a[0] == b[0] {
      LessTotal(a[1..], b[1..]);
      assert a == [a[0]] + a[1..] && b == [b[0]] + b[1..];
    }
  }

  /** `a` and `b` agree on their first `n` characters, and then `a` ends or has the smaller character. */
  predicate SmallerAt(a: string, b: string, n: nat) {
    n <= |a| && n < |b| && a[..n] == b[..n] && (n == |a| || a[n] < b[n])
  }

  lemma SameStart(a: string, b: string, n: nat)
    requires SmallerAt(a, b, n)
    ensures n > 0 ==> a != [] && b != [] && a[0] == b[0]
  {
    if n > 0 {
      assert a[..n][0] == a[0] && b[..n][0] == b[0];
    }
  }

  /** Byte order is decided at the first difference, and a beginning comes before what it begins. */
  lemma {:induction false} LessExactly(a: string, b: string)
    ensures Less(a, b) <==> exists n: nat :: SmallerAt(a, b, n)
  {
    if a != [] && b != [] && a[0] == b[0] {
      LessExactly(a[1..], b[1..]);
      if n: nat :| SmallerAt(a[1..], b[1..], n) {
        assert a[..n + 1] == [a[0]] + a[1..][..n] && b[..n + 1] == [b[0]] + b[1..][..n];
        assert SmallerAt(a, b, n + 1);
      }
      if n: nat :| SmallerAt(a, b, n) {
        assert n > 0;
        assert a[1..][..n - 1] == a[..n][1..] && b[1..][..n - 1] == b[..n][1..];
        assert SmallerAt(a[1..], b[1..], n - 1);
      }
    } else if b != [] && (a == [] || a[0] < b[0]) {
      assert SmallerAt(a, b, 0);
    } else {
      forall n: nat | SmallerAt(a, b, n)
        ensures n > 0 ==> a != [] && b != [] && a[0] == b[0]
      {
        SameStart(a, b, n);
      }
    }
  }

  lemma {:induction false} LessAfterPrefix(p: string, a: string, b: string)
    ensures Less(p + a, p + b) <==> Less(a, b)
  {
    if p == [] {
      assert p + a == a && p + b == b;
    } else {
      assert (p + a)[1..] == p[1..] + a && (p + b)[1..] == p[1..] + b;
      LessAfterPrefix(p[1..], a, b);
    }
  }

  /** `before` orders any two different elements of `dom`, one way only, and transitively. */
  ghost predicate Orders<T>(before: (T, T) -> bool, dom: set<T>) {
    && (forall a, b :: a in dom && b in dom && before(a, b) ==> !before(b, a))
    && (forall a, b :: a in dom && b in dom && a != b ==> before(a, b) || before(b, a))
    && (forall a, b, c :: a in dom && b in dom && c in dom && before(a, b) && before(b, c) ==> before(a, c))
  }

  ghost predicate Sorted<T>(before: (T, T) -> bool, s: seq<T>) {
    forall i, j :: 0 <= i < j < |s| ==> before(s[i], s[j])
  }

  function Insert<T>(before: (T, T) -> bool, x: T, s: seq<T>): (r: seq<T>)
    ensures |r| == |s| + 1
  {
    if s == [] || before(x, s[0]) then [x] + s else [s[0]] + Insert(before, x, s[1..])
  }

  function Sort<T>(before: (T, T) -> bool, s: seq<T>): (r: seq<T>)
    ensures |r| == |s|
  {
    if s == [] then [] else Insert(before, s[0], Sort(before, s[1..]))
  }

  lemma InsertMembers<T(!new)>(before: (T, T) -> bool, x: T, s: seq<T>)
    ensures forall y :: y in Insert(before, x, s) <==> y == x || y in s
  {
    if s != [] && !before(x, s[0]) {
      InsertMembers(before, x, s[1..]);
      assert s == [s[0]] + s[1..];
    }
  }

  lemma SortMembers<T(!new)>(before: (T, T) -> bool, s: seq<T>)
    ensures forall y :: y in Sort(before, s) <==> y in s
  {
    if s != [] {
      SortMembers(before, s[1..]);
      InsertMembers(before, s[0], Sort(before, s[1..]));
      assert s == [s[0]] + s[1..];
    }
  }

  lemma {:induction false} InsertSorts<T(!new)>(before: (T, T) -> bool, dom: set<T>, x: T, s: seq<T>)
    requires Orders(before, dom) && x in dom && (forall y :: y in s ==> y in dom)
    requires Sorted(before, s) && x !in s
    ensures Sorted(before, Insert(before, x, s))
  {
    if s != [] {
      assert s[0] in s;
      if before(x, s[0]) {
        forall j | 0 <= j < |s|
          ensures before(x, s[j])
        {
          assert s[j] in s;
        }
      } else {
        InsertSorts(before, dom, x, s[1..]);
        InsertMembers(before, x, s[1..]);
        var rest := Insert(before, x, s[1..]);
        forall j | 0 <= j < |rest|
          ensures before(s[0], rest[j])
        {
          assert rest[j] in rest;
          if rest[j] != x {
            var i :| 0 <= i < |s[1..]| && s[1..][i] == rest[j];
            assert s[i + 1] == rest[j];
          }
        }
      }
    }
  }

  lemma {:induction false} SortSorts<T(!new)>(before: (T, T) -> bool, dom: set<T>, s: seq<T>)
    requires Orders(before, dom) && (forall y :: y in s ==> y in dom)
    requires forall i, j :: 0 <= i < j < |s| ==> s[i] != s[j]
    ensures Sorted(before, Sort(before, s))
  {
    if s != [] {
      assert s == [s[0]] + s[1..] && s[0] in s;
      SortSorts(before, dom, s[1..]);
      SortMembers(before, s[1..]);
      InsertSorts(before, dom, s[0], Sort(before, s[1..]));
    }
  }

  /** A sorted arrangement is determined by what it contains. */
  lemma {:induction false} SortedIsUnique<T(!new)>(before: (T, T) -> bool, dom: set<T>, a: seq<T>, b: seq<T>)
    requires Orders(before, dom) && (forall y :: y in a ==> y in dom)
    requires Sorted(before, a) && Sorted(before, b)
    requires forall x :: x in a <==> x in b
    ensures a == b
  {
    assert a != [] ==> a[0] in a;
    assert b != [] ==> b[0] in b;
    if a != [] {
      SameHead(before, dom, a, b);
      assert a == [a[0]] + a[1..] && b == [b[0]] + b[1..];
      forall x
        ensures x in a[1..] <==> x in b[1..]
      {
        assert x in a <==> x == a[0] || x in a[1..];
        assert x in b <==> x == b[0] || x in b[1..];
        assert forall i :: 1 <= i < |a| ==> a[i] != a[0];
        assert forall i :: 1 <= i < |b| ==> b[i] != b[0];
      }
      SortedIsUnique(before, dom, a[1..], b[1..]);
    }
  }

  lemma SameHead<T(!new)>(before: (T, T) -> bool, dom: set<T>, a: seq<T>, b: seq<T>)
    requires Orders(before, dom) && (forall y :: y in a ==> y in dom) && a != [] && b != []
    requires Sorted(before, a) && Sorted(before, b)
    requires forall x :: x in a <==> x in b
    ensures a[0] == b[0]
  {
    assert a[0] in a && b[0] in b;
    var i :| 0 <= i < |a| && a[i] == b[0];
    var j :| 0 <= j < |b| && b[j] == a[0];
    assert i > 0 ==> before(a[0], b[0]);
    assert j > 0 ==> before(b[0], a[0]);
  }
}
