/**
 Which backups to keep (`retentionSet` and `selectBuckets` of internal/backup/service.go): the newest
 of each of the last 7 days, 4 ISO weeks and 6 months that have one.  The three calendars enter as
 arbitrary functions from a completion time to a bucket name.
 */
module Retention {
  import opened Order

  datatype Run = Run(id: string, completedAt: int)

  type Bucketing = int -> string

  datatype Calendar = Calendar(day: Bucketing, week: Bucketing, month: Bucketing)

  const DAYS := 7
  const WEEKS := 4
  const MONTHS := 6

  /** The order of the listing: latest completion first, the larger identifier first among equals. */
  predicate Newer(a: Run, b: Run) {
    a.completedAt > b.completedAt || (a.completedAt == b.completedAt && Less(b.id, a.id))
  }

  /** The buckets that have a run newer than `r`. */
  function BucketsBefore(s: set<Run>, f: Bucketing, r: Run): set<string> {
    set x | x in s && Newer(x, r) :: f(x.completedAt)
  }

  /** `r` is the newest run of its bucket, and fewer than `limit` other buckets come before. */
  ghost predicate Chosen(s: set<Run>, limit: nat, f: Bucketing, r: Run) {
    && r in s
    && f(r.completedAt) !in BucketsBefore(s, f, r)
    && |BucketsBefore(s, f, r)| < limit
  }

  ghost function Choice(s: set<Run>, limit: nat, f: Bucketing): set<Run> {
    set r | r in s && Chosen(s, limit, f, r)
  }

  /** What retention keeps of `s`. */
  ghost function Kept(s: set<Run>, c: Calendar): set<Run> {
    Choice(s, DAYS, c.day) + Choice(s, WEEKS, c.week) + Choice(s, MONTHS, c.month)
  }

  // -------------------------------------------------------------- the order

  lemma NewerIsTotal(a: Run, b: Run)
    ensures Newer(a, b) || a == b || Newer(b, a)
    ensures !(Newer(a, b) && Newer(b, a))
  {
    LessTotal(a.id, b.id);
    LessIrreflexive(a.id);
    if Less(a.id, b.id) && Less(b.id, a.id) {
      LessTransitive(a.id, b.id, a.id);
    }
  }

  lemma NewerIsTransitive(a: Run, b: Run, c: Run)
    requires Newer(a, b) && Newer(b, c)
    ensures Newer(a, c)
  {
    if a.completedAt == b.completedAt == c.completedAt {
      LessTransitive(c.id, b.id, a.id);
    }
  }

  lemma NewerOrders(s: set<Run>)
    ensures Orders(Newer, s)
  {
    forall a, b
      ensures Newer(a, b) ==> !Newer(b, a)
      ensures a != b ==> Newer(a, b) || Newer(b, a)
    {
      NewerIsTotal(a, b);
    }
    forall a, b, c | Newer(a, b) && Newer(b, c)
      ensures Newer(a, c)
    {
      NewerIsTransitive(a, b, c);
    }
  }

  lemma Newest(s: set<Run>) returns (r: Run)
    requires s != {}
    ensures r in s && forall x <- s :: x == r || Newer(r, x)
  {
    var x :| x in s;
    if s == {x} {
      r := x;
    } else {
      var y := Newest(s - {x});
      NewerIsTotal(x, y);
      if Newer(x, y) {
        r := x;
        forall z | z in s && z != x
          ensures Newer(x, z)
        {
          if z != y {
            NewerIsTransitive(x, y, z);
          }
        }
      } else {
        r := y;
      }
    }
  }

  lemma Oldest(s: set<Run>) returns (r: Run)
    requires s != {}
    ensures r in s && forall x <- s :: x == r || Newer(x, r)
  {
    var x :| x in s;
    if s == {x} {
      r := x;
    } else {
      var y := Oldest(s - {x});
      NewerIsTotal(x, y);
      if Newer(y, x) {
        r := x;
        forall z | z in s && z != x
          ensures Newer(z, x)
        {
          if z != y {
            NewerIsTransitive(z, y, x);
          }
        }
      } else {
        r := y;
      }
    }
  }

  lemma SubsetSize<T>(a: set<T>, b: set<T>)
    requires a <= b
    ensures |a| <= |b|
  {
    assert b == a + (b - a);
  }

  // ---------------------------------------------------- pruning in instalments

  /** If many buckets come before `r`, many chosen runs do. */
  lemma ChosenFillTheLimit(s: set<Run>, limit: nat, f: Bucketing, r: Run)
    requires |BucketsBefore(s, f, r)| >= limit
    ensures |BucketsBefore(Choice(s, limit, f), f, r)| >= limit
  {
    var chosen := BucketsBefore(Choice(s, limit, f), f, r);
    if |chosen| < limit {
      var missing := set x | x in s && Newer(x, r) && f(x.completedAt) !in chosen;
      if missing == {} {
        forall x | x in s && Newer(x, r)
          ensures f(x.completedAt) in chosen
        {
          assert x !in missing;
        }
        SubsetSize(BucketsBefore(s, f, r), chosen);
      } else {
        var w := Newest(missing);
        forall x | x in s && Newer(x, w)
          ensures f(x.completedAt) in chosen
        {
          NewerIsTotal(x, w);
          NewerIsTransitive(x, w, r);
        }
        SubsetSize(BucketsBefore(s, f, w), chosen);
        assert false;
      }
    }
  }

  /** Dropping old runs that were not chosen does not change what is chosen. */
  lemma ChoiceInInstalments(older: set<Run>, kept: set<Run>, newer: set<Run>, limit: nat, f: Bucketing)
    requires Choice(older, limit, f) <= kept <= older
    requires forall n <- newer, o <- older :: Newer(n, o)
    ensures Choice(newer + kept, limit, f) == Choice(newer + older, limit, f)
  {
    forall r
      ensures r in Choice(newer + kept, limit, f) <==> r in Choice(newer + older, limit, f)
    {
      if r in newer {
        NewestDoNotSeeOld(older, newer, f, r);
        NewestDoNotSeeOld(kept, newer, f, r);
      } else if r in older {
        assert BucketsBefore(older, f, r) <= BucketsBefore(newer + older, f, r);
        SubsetSize(BucketsBefore(older, f, r), BucketsBefore(newer + older, f, r));
        assert BucketsBefore(newer + kept, f, r) <= BucketsBefore(newer + older, f, r);
        SubsetSize(BucketsBefore(newer + kept, f, r), BucketsBefore(newer + older, f, r));
        SameBucketsUnlessFull(older, kept, newer, limit, f, r);
      }
    }
  }

  lemma NewestDoNotSeeOld(older: set<Run>, newer: set<Run>, f: Bucketing, r: Run)
    requires r in newer && forall n <- newer, o <- older :: Newer(n, o)
    ensures BucketsBefore(newer + older, f, r) == BucketsBefore(newer, f, r)
  {
    forall o | o in older
      ensures !Newer(o, r)
    {
      NewerIsTotal(o, r);
    }
  }

  /** A bucket lost with a dropped run lies behind `limit` buckets that were kept. */
  lemma SameBucketsUnlessFull(older: set<Run>, kept: set<Run>, newer: set<Run>, limit: nat, f: Bucketing, r: Run)
    requires Choice(older, limit, f) <= kept <= older
    ensures BucketsBefore(newer + kept, f, r) == BucketsBefore(newer + older, f, r)
         || |BucketsBefore(newer + kept, f, r)| >= limit
  {
    var lost := set x | x in older && Newer(x, r) && f(x.completedAt) !in BucketsBefore(newer + kept, f, r);
    if lost == {} {
      forall x | x in newer + older && Newer(x, r)
        ensures f(x.completedAt) in BucketsBefore(newer + kept, f, r)
      {
        assert x !in lost;
      }
    } else {
      var y := Newest(lost);
      forall x | x in older && Newer(x, y)
        ensures f(x.completedAt) != f(y.completedAt)
      {
        NewerIsTotal(x, y);
        NewerIsTransitive(x, y, r);
      }
      assert y !in kept;
      ChosenFillTheLimit(older, limit, f, y);
      var chosen := BucketsBefore(Choice(older, limit, f), f, y);
      forall x | x in Choice(older, limit, f) && Newer(x, y)
        ensures f(x.completedAt) in BucketsBefore(newer + kept, f, r)
      {
        NewerIsTransitive(x, y, r);
      }
      SubsetSize(chosen, BucketsBefore(newer + kept, f, r));
    }
  }

  /**
   Pruning after every backup keeps what pruning the whole history at once would keep: for all runs
   `older` and runs `newer` that completed later, or at the same time under a larger identifier.
   */
  lemma IncrementalPruning(older: set<Run>, newer: set<Run>, c: Calendar)
    requires forall n <- newer, o <- older ::
               o.completedAt < n.completedAt || (o.completedAt == n.completedAt && Less(o.id, n.id))
    ensures Kept(newer + Kept(older, c), c) == Kept(newer + older, c)
    ensures Kept(Kept(older, c), c) == Kept(older, c)
  {
    var kept := Kept(older, c);
    assert forall n <- newer, o <- older :: Newer(n, o);
    ChoiceInInstalments(older, kept, newer, DAYS, c.day);
    ChoiceInInstalments(older, kept, newer, WEEKS, c.week);
    ChoiceInInstalments(older, kept, newer, MONTHS, c.month);
    ChoiceInInstalments(older, kept, {}, DAYS, c.day);
    ChoiceInInstalments(older, kept, {}, WEEKS, c.week);
    ChoiceInInstalments(older, kept, {}, MONTHS, c.month);
    assert {} + kept == kept && {} + older == older;
  }

  /** What is kept of a history is kept of any part of it that still has it. */
  lemma KeptFromFewer(some: set<Run>, all: set<Run>, c: Calendar)
    requires some <= all
    ensures Kept(all, c) * some <= Kept(some, c)
  {
    forall r, f: Bucketing | r in all
      ensures |BucketsBefore(some, f, r)| <= |BucketsBefore(all, f, r)|
    {
      SubsetSize(BucketsBefore(some, f, r), BucketsBefore(all, f, r));
    }
  }

  // ------------------------------------------------------- how many are kept

  lemma ImageSize<T(!new)>(s: set<Run>, g: Run -> T)
    requires forall a <- s, b <- s :: a != b ==> g(a) != g(b)
    ensures |set r | r in s :: g(r)| == |s|
  {
    if s == {} {
      assert (set r | r in s :: g(r)) == {};
    } else {
      var x :| x in s;
      ImageSize(s - {x}, g);
      assert (set r | r in s :: g(r)) == (set r | r in s - {x} :: g(r)) + {g(x)};
    }
  }

  /** At most one run is chosen per bucket, from at most `limit` buckets. */
  lemma ChoiceIsLimited(s: set<Run>, limit: nat, f: Bucketing)
    ensures |Choice(s, limit, f)| <= limit
  {
    var chosen := Choice(s, limit, f);
    if chosen != {} {
      var last := Oldest(chosen);
      var rest := chosen - {last};
      var g := (r: Run) => f(r.completedAt);
      forall a, b | a in rest && b in rest && a != b
        ensures g(a) != g(b)
      {
        NewerIsTotal(a, b);
      }
      ImageSize(rest, g);
      forall r | r in rest
        ensures g(r) in BucketsBefore(s, f, last)
      {
      }
      SubsetSize(set r | r in rest :: g(r), BucketsBefore(s, f, last));
    }
  }

  lemma UnionSize(a: set<Run>, b: set<Run>)
    ensures |a + b| <= |a| + |b|
  {
    assert a + b == a + (b - a);
    SubsetSize(b - a, b);
  }

  lemma NewestIsChosen(s: set<Run>, limit: nat, f: Bucketing, r: Run)
    requires r in s && limit > 0 && forall x <- s :: x == r || Newer(r, x)
    ensures r in Choice(s, limit, f)
  {
    forall x | x in s
      ensures !Newer(x, r)
    {
      NewerIsTotal(x, r);
    }
    assert BucketsBefore(s, f, r) == {};
  }

  lemma ThreeUnionsSize(a: set<Run>, b: set<Run>, d: set<Run>, r: Run)
    requires r in a && r in b && r in d
    ensures |a + b + d| <= |a| + |b| + |d| - 2
  {
    assert a + b + d == a + (b - {r}) + (d - {r});
    UnionSize(a, b - {r});
    UnionSize(a + (b - {r}), d - {r});
  }

  /** The newest run is always kept, and a history keeps at most 15 runs. */
  lemma KeptIsBounded(s: set<Run>, c: Calendar)
    ensures Kept(s, c) <= s
    ensures s != {} ==> exists r :: r in Kept(s, c) && forall x <- s :: x == r || Newer(r, x)
    ensures |Kept(s, c)| <= DAYS + WEEKS + MONTHS - 2
  {
    assert Kept(s, c) <= s;
    hide Choice, Newer;
    if s != {} {
      var r := Newest(s);
      NewestIsChosen(s, DAYS, c.day, r);
      NewestIsChosen(s, WEEKS, c.week, r);
      NewestIsChosen(s, MONTHS, c.month, r);
      ChoiceIsLimited(s, DAYS, c.day);
      ChoiceIsLimited(s, WEEKS, c.week);
      ChoiceIsLimited(s, MONTHS, c.month);
      ThreeUnionsSize(Choice(s, DAYS, c.day), Choice(s, WEEKS, c.week), Choice(s, MONTHS, c.month), r);
    } else {
      assert Kept(s, c) == {};
    }
  }

  // ------------------------------------------------------ what is kept, in time

  /** `a` completed after `b`, or at the same time under a larger identifier. */
  predicate Outlasts(a: Run, b: Run) {
    b.completedAt < a.completedAt || (b.completedAt == a.completedAt && (a.id == b.id || Less(b.id, a.id)))
  }

  /**
   What is chosen, told by completion times alone.  A chosen run is the latest of its bucket, the larger identifier
   winning a tie; a bucket from which nothing is chosen has no run later than a chosen one; and it is passed over only
   if the limit is used up.
   */
  lemma ChoiceIsLatest(s: set<Run>, limit: nat, f: Bucketing)
    ensures Choice(s, limit, f) <= s
    ensures forall r <- Choice(s, limit, f), x <- s :: f(x.completedAt) == f(r.completedAt) ==> Outlasts(r, x)
    ensures forall r <- Choice(s, limit, f), x <- s ::
              f(x.completedAt) !in Buckets(Choice(s, limit, f), f) ==> x.completedAt <= r.completedAt
    ensures Buckets(Choice(s, limit, f), f) == Buckets(s, f) || |Choice(s, limit, f)| == limit
  {
    forall r, x | r in Choice(s, limit, f) && x in s
      ensures f(x.completedAt) == f(r.completedAt) ==> Outlasts(r, x)
      ensures f(x.completedAt) !in Buckets(Choice(s, limit, f), f) ==> x.completedAt <= r.completedAt
    {
      NewerIsTotal(r, x);
      if Newer(x, r) && f(x.completedAt) !in Buckets(Choice(s, limit, f), f) {
        LatestIsChosen(s, limit, f, r, x);
      }
    }
    LimitIsUsed(s, limit, f);
  }

  /** The buckets of some runs. */
  function Buckets(s: set<Run>, f: Bucketing): set<string> {
    set x | x in s :: f(x.completedAt)
  }

  /** The latest run of the bucket of `x`. */
  lemma LatestOf(s: set<Run>, f: Bucketing, x: Run) returns (y: Run)
    requires x in s
    ensures y in s && f(y.completedAt) == f(x.completedAt) && (y == x || Newer(y, x))
    ensures f(y.completedAt) !in BucketsBefore(s, f, y)
  {
    var same := set z | z in s && f(z.completedAt) == f(x.completedAt);
    assert x in same;
    y := Newest(same);
    forall z | z in s && Newer(z, y)
      ensures f(z.completedAt) != f(y.completedAt)
    {
      NewerIsTotal(z, y);
    }
  }

  /** A bucket with a run newer than a chosen one is chosen from. */
  lemma LatestIsChosen(s: set<Run>, limit: nat, f: Bucketing, r: Run, x: Run)
    requires r in Choice(s, limit, f) && x in s && Newer(x, r)
    ensures f(x.completedAt) in Buckets(Choice(s, limit, f), f)
  {
    var y := LatestOf(s, f, x);
    forall z | z in s && Newer(z, y)
      ensures Newer(z, r)
    {
      if y != x {
        NewerIsTransitive(z, y, x);
      }
      NewerIsTransitive(z, x, r);
    }
    SubsetSize(BucketsBefore(s, f, y), BucketsBefore(s, f, r));
    assert y in Choice(s, limit, f);
  }

  /** A bucket is passed over only when `limit` others were chosen from. */
  lemma LimitIsUsed(s: set<Run>, limit: nat, f: Bucketing)
    ensures Buckets(Choice(s, limit, f), f) == Buckets(s, f) || |Choice(s, limit, f)| == limit
  {
    var chosen := Choice(s, limit, f);
    if Buckets(chosen, f) != Buckets(s, f) {
      var x :| x in s && f(x.completedAt) !in Buckets(chosen, f);
      var y := LatestOf(s, f, x);
      assert y !in chosen;
      ChosenFillTheLimit(s, limit, f, y);
      SubsetSize(BucketsBefore(chosen, f, y), Buckets(chosen, f));
      BucketsSize(chosen, f);
      ChoiceIsLimited(s, limit, f);
    }
  }

  lemma {:induction false} BucketsSize(s: set<Run>, f: Bucketing)
    ensures |Buckets(s, f)| <= |s|
  {
    if s != {} {
      var x :| x in s;
      BucketsSize(s - {x}, f);
      assert Buckets(s, f) == Buckets(s - {x}, f) + {f(x.completedAt)};
    }
  }

  /** `r` is the latest run of its bucket, and fewer than `n` buckets have a run that completed after it. */
  ghost predicate LatestAmong(s: set<Run>, n: nat, f: Bucketing, r: Run) {
    && r in s
    && (forall x <- s :: f(x.completedAt) == f(r.completedAt) ==> Outlasts(r, x))
    && |set x | x in s && r.completedAt < x.completedAt :: f(x.completedAt)| < n
  }

  lemma ChosenMeansLatest(s: set<Run>, n: nat, f: Bucketing, r: Run)
    ensures r in Choice(s, n, f) <==> LatestAmong(s, n, f, r)
  {
    if r in s && (r in Choice(s, n, f) || LatestAmong(s, n, f, r)) {
      forall x | x in s
        ensures Newer(x, r) ==> r.completedAt < x.completedAt || f(x.completedAt) == f(r.completedAt)
        ensures Newer(x, r) <==> !Outlasts(r, x) && x != r
      {
        NewerIsTotal(x, r);
      }
      assert BucketsBefore(s, f, r) == set x | x in s && r.completedAt < x.completedAt :: f(x.completedAt);
    }
  }

  /** Kept are exactly the latest backups of the last seven days, four weeks and six months that have one. */
  lemma KeptExactly(s: set<Run>, c: Calendar, r: Run)
    ensures r in Kept(s, c) <==> LatestAmong(s, 7, c.day, r) || LatestAmong(s, 4, c.week, r) || LatestAmong(s, 6, c.month, r)
  {
    ChosenMeansLatest(s, 7, c.day, r);
    ChosenMeansLatest(s, 4, c.week, r);
    ChosenMeansLatest(s, 6, c.month, r);
  }

  /** The latest backup of all is always kept. */
  lemma LatestIsKept(s: set<Run>, c: Calendar)
    requires s != {}
    ensures exists r :: r in Kept(s, c) && forall x <- s :: Outlasts(r, x)
  {
    KeptIsBounded(s, c);
    var r :| r in Kept(s, c) && forall x <- s :: x == r || Newer(r, x);
    assert forall x <- s :: Outlasts(r, x);
  }

  // ------------------------------------------------------------ the algorithm

  function SetOf(runs: seq<Run>): set<Run> {
    set r | r in runs
  }

  function Seen(runs: seq<Run>, f: Bucketing, i: nat): set<string>
    requires i <= |runs|
  {
    set j | 0 <= j < i :: f(runs[j].completedAt)
  }

  ghost function ChosenAmong(runs: seq<Run>, limit: nat, f: Bucketing, i: nat): set<Run>
    requires i <= |runs|
  {
    set r | r in runs[..i] && Chosen(SetOf(runs), limit, f, r)
  }

  lemma ChosenNext(runs: seq<Run>, limit: nat, f: Bucketing, i: nat)
    requires Sorted(Newer, runs) && i < |runs|
    ensures Seen(runs, f, i + 1) == Seen(runs, f, i) + {f(runs[i].completedAt)}
    ensures ChosenAmong(runs, limit, f, i + 1)
         == ChosenAmong(runs, limit, f, i)
            + if f(runs[i].completedAt) !in Seen(runs, f, i) && |Seen(runs, f, i)| < limit then {runs[i]} else {}
  {
    hide BucketsBefore, Newer, Sorted;
    BeforeInOrder(runs, f, i);
    assert runs[..i + 1] == runs[..i] + [runs[i]];
    assert runs[i] in SetOf(runs);
    assert Chosen(SetOf(runs), limit, f, runs[i])
      <==> f(runs[i].completedAt) !in Seen(runs, f, i) && |Seen(runs, f, i)| < limit;
  }

  /** `selectBuckets`: one pass over the runs, newest first. */
  method SelectBuckets(runs: seq<Run>, limit: nat, f: Bucketing, keep: set<Run>) returns (kept: set<Run>)
    requires Sorted(Newer, runs)
    ensures kept == keep + Choice(SetOf(runs), limit, f)
  {
    hide Seen, ChosenAmong, Choice, Sorted, SetOf, BucketsBefore, Newer, Chosen;
    kept := keep;
    var seen: set<string> := {};
    StartEmpty(runs, limit, f);
    for i := 0 to |runs|
      invariant seen == Seen(runs, f, i) && |seen| <= limit
      invariant kept == keep + ChosenAmong(runs, limit, f, i)
    {
      var key := f(runs[i].completedAt);
      ChosenNext(runs, limit, f, i);
      if key !in seen {
        if |seen| == limit {
          NothingChosenAfter(runs, limit, f, i);
          return;
        }
        seen := seen + {key};
        kept := kept + {runs[i]};
      } else {
        assert seen + {key} == seen;
      }
    }
    AllChosen(runs, limit, f);
  }

  lemma StartEmpty(runs: seq<Run>, limit: nat, f: Bucketing)
    ensures Seen(runs, f, 0) == {} && ChosenAmong(runs, limit, f, 0) == {}
  {
  }

  lemma AllChosen(runs: seq<Run>, limit: nat, f: Bucketing)
    ensures ChosenAmong(runs, limit, f, |runs|) == Choice(SetOf(runs), limit, f)
  {
    assert runs[..|runs|] == runs;
  }

  /** In a listing sorted newest first, the runs newer than entry `i` are those before it. */
  lemma BeforeInOrder(runs: seq<Run>, f: Bucketing, i: nat)
    requires Sorted(Newer, runs) && i < |runs|
    ensures BucketsBefore(SetOf(runs), f, runs[i]) == Seen(runs, f, i)
  {
    forall j | 0 <= j < |runs|
      ensures Newer(runs[j], runs[i]) <==> j < i
    {
      NewerIsTotal(runs[i], runs[j]);
      assert i < j ==> Newer(runs[i], runs[j]);
      assert j < i ==> Newer(runs[j], runs[i]);
      NewerIsTotal(runs[i], runs[i]);
    }
    forall k | k in BucketsBefore(SetOf(runs), f, runs[i])
      ensures k in Seen(runs, f, i)
    {
      var x :| x in SetOf(runs) && Newer(x, runs[i]) && k == f(x.completedAt);
      var j :| 0 <= j < |runs| && runs[j] == x;
    }
    forall j | 0 <= j < i
      ensures f(runs[j].completedAt) in BucketsBefore(SetOf(runs), f, runs[i])
    {
      assert runs[j] in SetOf(runs);
    }
  }

  /** Once `limit` buckets are full, no later run is chosen: the early return loses nothing. */
  lemma NothingChosenAfter(runs: seq<Run>, limit: nat, f: Bucketing, i: nat)
    requires Sorted(Newer, runs) && i < |runs|
    requires |Seen(runs, f, i)| >= limit
    ensures Choice(SetOf(runs), limit, f) == ChosenAmong(runs, limit, f, i)
  {
    forall r | r in SetOf(runs) && r !in runs[..i]
      ensures !Chosen(SetOf(runs), limit, f, r)
    {
      var k :| 0 <= k < |runs| && runs[k] == r;
      assert forall m :: 0 <= m < i ==> runs[m] in runs[..i];
      BeforeInOrder(runs, f, k);
      SubsetSize(Seen(runs, f, i), Seen(runs, f, k));
    }
  }

  /** `retentionSet`: sort newest first, then select by day, by week and by month. */
  method RetentionSet(runs: seq<Run>, c: Calendar) returns (keep: set<Run>)
    requires forall i, j :: 0 <= i < j < |runs| ==> runs[i] != runs[j]
    ensures keep == Kept(SetOf(runs), c)
  {
    var sorted := Sort(Newer, runs);
    NewerOrders(SetOf(runs));
    SortSorts(Newer, SetOf(runs), runs);
    SortMembers(Newer, runs);
    assert SetOf(sorted) == SetOf(runs);
    keep := SelectBuckets(sorted, DAYS, c.day, {});
    keep := SelectBuckets(sorted, WEEKS, c.week, keep);
    keep := SelectBuckets(sorted, MONTHS, c.month, keep);
  }
}
