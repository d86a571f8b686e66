/**
 Keyset pagination (`List` of internal/credentials/service.go, `List` and `ListCredentialMetadata` of
 internal/assets/service.go, `List` of internal/audit/service.go).  Every query sees the table as it is at
 that moment: `tables(t)` is what query number `t` reads, sorted by key.
 */
module Pages {
  import opened Wrappers
  import opened Order
  import T = Timestamps

  const BATCH: nat := 256
  const MAX_SCAN: nat := 4096

  /** What filtering and authorization say of one row: return it, pass over it, or fail the request. */
  datatype Verdict = Show | Hide | Refuse

  datatype Row<K, V> = Row(key: K, value: V, verdict: Verdict)

  ghost predicate StrictTotal<K(!new)>(before: (K, K) -> bool) {
    && (forall a, b :: before(a, b) ==> !before(b, a))
    && (forall a, b :: a != b ==> before(a, b) || before(b, a))
    && (forall a, b, c :: before(a, b) && before(b, c) ==> before(a, c))
  }

  ghost predicate Ascending<K, V>(before: (K, K) -> bool, rows: seq<Row<K, V>>) {
    forall i, j :: 0 <= i < j < |rows| ==> before(rows[i].key, rows[j].key)
  }

  /** Past the cursor. */
  predicate Beyond<K(==)>(before: (K, K) -> bool, cursor: Option<K>, k: K) {
    cursor == None || before(cursor.value, k)
  }

  /** `WHERE key > cursor ORDER BY key` */
  function After<K(==), V>(before: (K, K) -> bool, rows: seq<Row<K, V>>, cursor: Option<K>): seq<Row<K, V>> {
    if rows == [] || Beyond(before, cursor, rows[0].key) then rows else After(before, rows[1..], cursor)
  }

  lemma {:induction false} AfterIs<K(!new), V>(before: (K, K) -> bool, rows: seq<Row<K, V>>, cursor: Option<K>)
    returns (n: nat)
    requires StrictTotal(before) && Ascending(before, rows)
    ensures n <= |rows| && After(before, rows, cursor) == rows[n..]
    ensures forall i :: 0 <= i < |rows| ==> (Beyond(before, cursor, rows[i].key) <==> n <= i)
  {
    if rows == [] || Beyond(before, cursor, rows[0].key) {
      n := 0;
    } else {
      var m := AfterIs(before, rows[1..], cursor);
      n := m + 1;
      forall i | 0 <= i < |rows|
        ensures Beyond(before, cursor, rows[i].key) <==> n <= i
      {
        if i > 0 {
          assert rows[i] == rows[1..][i - 1];
        }
      }
    }
  }

  // ------------------------------------------------------- a page, abstractly

  /** The row is there and shown to every query from `s` to `e`. */
  ghost predicate Throughout<K, V>(tables: nat -> seq<Row<K, V>>, s: nat, e: nat, k: K) {
    forall t: nat :: s <= t < e ==> ShownIn(tables(t), k)
  }

  ghost predicate ShownIn<K, V>(rows: seq<Row<K, V>>, k: K) {
    exists i :: 0 <= i < |rows| && rows[i].key == k && rows[i].verdict == Show
  }

  ghost predicate Listed<K, V>(page: seq<Row<K, V>>, k: K) {
    exists i :: 0 <= i < |page| && page[i].key == k
  }

  /** Some query from `s` to `e` read this row and showed it. */
  ghost predicate WasShown<K, V>(tables: nat -> seq<Row<K, V>>, s: nat, e: nat, row: Row<K, V>) {
    row.verdict == Show && exists t: nat :: s <= t < e && row in tables(t)
  }

  /** One answered request: its cursor, its rows, the cursor it hands out, and the queries it made. */
  datatype Visit<K, V> = Visit(from: Option<K>, page: seq<Row<K, V>>, next: Option<K>, s: nat, e: nat)

  /** Some query from `s` to `e` read a row with this key. */
  ghost predicate IsRowKey<K, V>(tables: nat -> seq<Row<K, V>>, s: nat, e: nat, k: K) {
    exists t: nat, i :: s <= t < e && 0 <= i < |tables(t)| && tables(t)[i].key == k
  }

  /** The keys a page answers for: past its cursor, not past the cursor it hands out. */
  predicate Covers<K(==), V>(before: (K, K) -> bool, v: Visit<K, V>, k: K) {
    Beyond(before, v.from, k) && (v.next == None || !before(v.next.value, k))
  }

  /**
   A page lists rows past its cursor in key order, each read by one of its queries; it skips no row that all
   of its queries could show up to the cursor it hands out, and none at all when it hands out none.
   */
  ghost predicate Right<K(!new), V(!new)>(before: (K, K) -> bool, tables: nat -> seq<Row<K, V>>, v: Visit<K, V>) {
    && v.s < v.e
    && Ascending(before, v.page)
    && (forall i :: 0 <= i < |v.page| ==> Covers(before, v, v.page[i].key) && WasShown(tables, v.s, v.e, v.page[i]))
    && (v.next.Some? ==> Beyond(before, v.from, v.next.value) && IsRowKey(tables, v.s, v.e, v.next.value))
    && (forall k :: Covers(before, v, k) && Throughout(tables, v.s, v.e, k) ==> Listed(v.page, k))
  }

  // ---------------------------------------------------------- the batched scan

  predicate Between<K(==)>(before: (K, K) -> bool, from: Option<K>, last: Option<K>, k: K) {
    Beyond(before, from, k) && !Beyond(before, last, k)
  }

  /** What the scan has done so far: everything up to `last` has been looked at. */
  ghost predicate Scanned<K(!new), V(!new)>(before: (K, K) -> bool, tables: nat -> seq<Row<K, V>>, from: Option<K>,
                                           found: seq<Row<K, V>>, last: Option<K>, s: nat, e: nat) {
    && Ascending(before, found)
    && (last == from || (last.Some? && Beyond(before, from, last.value) && IsRowKey(tables, s, e, last.value)))
    && (forall i :: 0 <= i < |found| ==> Between(before, from, last, found[i].key) && WasShown(tables, s, e, found[i]))
    && (forall k :: Between(before, from, last, k) && Throughout(tables, s, e, k) ==> Listed(found, k))
  }

  /** Looking at the next row of a query. */
  lemma ScanNext<K(!new), V(!new)>(before: (K, K) -> bool, tables: nat -> seq<Row<K, V>>, from: Option<K>,
                                   found: seq<Row<K, V>>, last: Option<K>, s: nat, e: nat, row: Row<K, V>, found': seq<Row<K, V>>)
    requires StrictTotal(before) && s < e && Ascending(before, tables(e - 1))
    requires Scanned(before, tables, from, found, last, s, e) && IsNext(before, tables(e - 1), last, row)
    requires row.verdict != Refuse && found' == if row.verdict == Show then found + [row] else found
    ensures Scanned(before, tables, from, found', Some(row.key), s, e)
  {
    hide Throughout;
    var i :| 0 <= i < |tables(e - 1)| && tables(e - 1)[i] == row;
    forall k | Beyond(before, from, k) && !before(row.key, k) && Throughout(tables, s, e, k)
      ensures Listed(found', k)
    {
      if !Beyond(before, last, k) {
        var j :| 0 <= j < |found| && found[j].key == k;
        assert found'[j].key == k;
      } else {
        InLastTable(tables, s, e, k);
        var j :| 0 <= j < |tables(e - 1)| && tables(e - 1)[j].key == k && tables(e - 1)[j].verdict == Show;
        assert tables(e - 1)[j] in tables(e - 1);
        assert found'[|found|].key == k;
      }
    }
  }

  lemma InLastTable<K(!new), V(!new)>(tables: nat -> seq<Row<K, V>>, s: nat, e: nat, k: K)
    requires s < e && Throughout(tables, s, e, k)
    ensures ShownIn(tables(e - 1), k)
  {
  }

  lemma OneMoreQuery<K(!new), V(!new)>(before: (K, K) -> bool, tables: nat -> seq<Row<K, V>>, from: Option<K>,
                                       found: seq<Row<K, V>>, last: Option<K>, s: nat, e: nat)
    requires Scanned(before, tables, from, found, last, s, e) && s <= e
    ensures Scanned(before, tables, from, found, last, s, e + 1)
  {
    forall k | Throughout(tables, s, e + 1, k)
      ensures Throughout(tables, s, e, k)
    {
    }
  }

  lemma ScanStarts<K(!new), V(!new)>(before: (K, K) -> bool, tables: nat -> seq<Row<K, V>>, from: Option<K>, s: nat)
    ensures Scanned(before, tables, from, [], from, s, s)
  {
  }

  /** The scan that found one row too many hands out the key of the last row it returns. */
  lemma FullPage<K(!new), V(!new)>(before: (K, K) -> bool, tables: nat -> seq<Row<K, V>>, from: Option<K>,
                                   found: seq<Row<K, V>>, last: Option<K>, s: nat, e: nat, limit: nat)
    requires StrictTotal(before) && Scanned(before, tables, from, found, last, s, e) && s < e
    requires 0 < limit && |found| == limit + 1
    ensures Right(before, tables, Visit(from, found[..limit], Some(found[limit - 1].key), s, e))
  {
    hide Throughout;
    var page, c := found[..limit], found[limit - 1].key;
    assert WasShown(tables, s, e, found[limit - 1]);
    var t: nat :| s <= t < e && found[limit - 1] in tables(t);
    var i :| 0 <= i < |tables(t)| && tables(t)[i] == found[limit - 1];
    assert IsRowKey(tables, s, e, c);
    forall k | Beyond(before, from, k) && !before(c, k) && Throughout(tables, s, e, k)
      ensures Listed(page, k)
    {
      assert before(c, found[limit].key);
      assert Between(before, from, last, found[limit].key);
      assert !Beyond(before, last, k);
      var j :| 0 <= j < |found| && found[j].key == k;
      assert page[j].key == k;
    }
  }

  /** The scan that stopped at its row limit hands out the last key it looked at. */
  lemma CappedPage<K(!new), V(!new)>(before: (K, K) -> bool, tables: nat -> seq<Row<K, V>>, from: Option<K>,
                                     found: seq<Row<K, V>>, last: Option<K>, s: nat, e: nat)
    requires Scanned(before, tables, from, found, last, s, e) && s < e && last.Some? && last != from
    ensures Right(before, tables, Visit(from, found, last, s, e))
  {
    hide Throughout;
    forall k | Beyond(before, from, k) && !before(last.value, k)
      ensures Between(before, from, last, k)
    {
    }
  }

  /** The scan that reached the end of the table hands out no cursor. */
  lemma LastPage<K(!new), V(!new)>(before: (K, K) -> bool, tables: nat -> seq<Row<K, V>>, from: Option<K>,
                                   found: seq<Row<K, V>>, last: Option<K>, s: nat, e: nat)
    requires Scanned(before, tables, from, found, last, s, e) && s < e
    requires forall x :: x in tables(e - 1) ==> !Beyond(before, last, x.key)
    ensures Right(before, tables, Visit(from, found, None, s, e))
  {
    hide Throughout;
    forall k | Beyond(before, from, k) && Throughout(tables, s, e, k)
      ensures Between(before, from, last, k)
    {
      InLastTable(tables, s, e, k);
      var j :| 0 <= j < |tables(e - 1)| && tables(e - 1)[j].key == k && tables(e - 1)[j].verdict == Show;
      assert tables(e - 1)[j] in tables(e - 1);
    }
  }

  /** `min(listScanBatch, maxListScan-scanned)` rows past the cursor. */
  function Batch<K(==), V>(before: (K, K) -> bool, rows: seq<Row<K, V>>, cursor: Option<K>, n: nat): seq<Row<K, V>> {
    var found := After(before, rows, cursor);
    if |found| <= n then found else found[..n]
  }

  ghost predicate IsNext<K, V>(before: (K, K) -> bool, rows: seq<Row<K, V>>, last: Option<K>, row: Row<K, V>) {
    && row in rows && Beyond(before, last, row.key)
    && forall x :: x in rows && Beyond(before, last, x.key) ==> x == row || before(row.key, x.key)
  }

  /** Row `i` of a batch is the next one past row `i - 1`; a short batch ends the table. */
  lemma BatchInOrder<K(!new), V(!new)>(before: (K, K) -> bool, rows: seq<Row<K, V>>, cursor: Option<K>, n: nat, i: nat, last: Option<K>)
    requires StrictTotal(before) && Ascending(before, rows) && i <= |Batch(before, rows, cursor, n)|
    requires last == if i == 0 then cursor else Some(Batch(before, rows, cursor, n)[i - 1].key)
    ensures var batch := Batch(before, rows, cursor, n);
            && (i < |batch| ==> IsNext(before, rows, last, batch[i]))
            && (i == |batch| < n ==> forall x :: x in rows ==> !Beyond(before, last, x.key))
  {
    var m := AfterIs(before, rows, cursor);
    var batch := Batch(before, rows, cursor, n);
    assert |batch| <= |rows| - m && (|batch| < n ==> |batch| == |rows| - m);
    assert forall j :: 0 <= j < |batch| ==> batch[j] == rows[m + j];
    BeyondRow(before, rows, cursor, m, i);
    hide After, Beyond, Batch, StrictTotal;
    if i < |batch| {
      NextRow(before, rows, last, m + i);
    } else if i < n {
      NoMoreRows(before, rows, last);
    }
  }

  lemma NextRow<K(!new), V(!new)>(before: (K, K) -> bool, rows: seq<Row<K, V>>, last: Option<K>, m: nat)
    requires m < |rows| && Ascending(before, rows)
    requires forall j :: 0 <= j < |rows| ==> (Beyond(before, last, rows[j].key) <==> m <= j)
    ensures IsNext(before, rows, last, rows[m])
  {
    hide Beyond;
    forall x | x in rows && Beyond(before, last, x.key)
      ensures x == rows[m] || before(rows[m].key, x.key)
    {
      var j :| 0 <= j < |rows| && rows[j] == x;
    }
  }

  lemma NoMoreRows<K(!new), V(!new)>(before: (K, K) -> bool, rows: seq<Row<K, V>>, last: Option<K>)
    requires forall j :: 0 <= j < |rows| ==> !Beyond(before, last, rows[j].key)
    ensures forall x :: x in rows ==> !Beyond(before, last, x.key)
  {
  }

  /** Past the row before position `m + i` are exactly the rows from there on. */
  lemma BeyondRow<K(!new), V(!new)>(before: (K, K) -> bool, rows: seq<Row<K, V>>, cursor: Option<K>, m: nat, i: nat)
    requires StrictTotal(before) && Ascending(before, rows) && m + i <= |rows|
    requires forall j :: 0 <= j < |rows| ==> (Beyond(before, cursor, rows[j].key) <==> m <= j)
    ensures forall j :: 0 <= j < |rows| ==>
              (Beyond(before, if i == 0 then cursor else Some(rows[m + i - 1].key), rows[j].key) <==> m + i <= j)
  {
  }

  // ------------------------------------------------------- how far it looked

  /** The keys looked at so far: in order, each read by a query, between the cursor and the last one. */
  ghost predicate LookedAt<K(!new), V(!new)>(before: (K, K) -> bool, tables: nat -> seq<Row<K, V>>, from: Option<K>,
                                            looked: seq<K>, last: Option<K>, s: nat, e: nat) {
    && (forall i, j :: 0 <= i < j < |looked| ==> before(looked[i], looked[j]))
    && (forall i :: 0 <= i < |looked| ==> Between(before, from, last, looked[i]) && IsRowKey(tables, s, e, looked[i]))
  }

  lemma LookNext<K(!new), V(!new)>(before: (K, K) -> bool, tables: nat -> seq<Row<K, V>>, from: Option<K>,
                                   looked: seq<K>, last: Option<K>, s: nat, e: nat, row: Row<K, V>)
    requires StrictTotal(before) && s < e && LookedAt(before, tables, from, looked, last, s, e)
    requires IsNext(before, tables(e - 1), last, row) && (last == from || (last.Some? && Beyond(before, from, last.value)))
    ensures LookedAt(before, tables, from, looked + [row.key], Some(row.key), s, e)
  {
    Queried(before, tables(e - 1), last, row);
    assert IsRowKey(tables, s, e, row.key);
    forall i | 0 <= i < |looked|
      ensures before(looked[i], row.key)
    {
      assert Between(before, from, last, looked[i]);
    }
  }

  lemma LookedBefore<K(!new), V(!new)>(before: (K, K) -> bool, tables: nat -> seq<Row<K, V>>, from: Option<K>,
                                       looked: seq<K>, last: Option<K>, s: nat, e: nat)
    requires LookedAt(before, tables, from, looked, last, s, e) && s <= e
    ensures LookedAt(before, tables, from, looked, last, s, e + 1)
  {
  }

  /** The queries of the page read at least `n` rows past its cursor and up to the one it hands out. */
  ghost predicate LookedFar<K(!new), V(!new)>(before: (K, K) -> bool, tables: nat -> seq<Row<K, V>>, v: Visit<K, V>, n: nat) {
    exists looked: seq<K> :: |looked| == n && LookedAt(before, tables, v.from, looked, v.next, v.s, v.e)
  }

  /**
   `List` of credentials, of assets, and of the credentials linked to an asset: batches of at most 256 rows,
   at most 4096 rows in all, one more match than fits on the page.  Query number `s` is its first.
   */
  method List<K(==, !new), V(!new)>(before: (K, K) -> bool, tables: nat -> seq<Row<K, V>>, from: Option<K>, limit: nat, s: nat)
    returns (ok: bool, visit: Visit<K, V>)
    requires StrictTotal(before) && (forall t :: Ascending(before, tables(t))) && 0 < limit
    ensures ok ==> Right(before, tables, visit) && visit.from == from && visit.s == s && |visit.page| <= limit
    ensures ok && visit.next.Some? ==> |visit.page| == limit || LookedFar(before, tables, visit, 4096)
    ensures !ok ==> exists t: nat, row :: s <= t && row in tables(t) && row.verdict == Refuse && Beyond(before, from, row.key)
  {
    hide Scanned, Right, Ascending, StrictTotal, Batch, IsNext, LookedAt;
    var last := from;
    var found: seq<Row<K, V>> := [];
    ghost var looked: seq<K> := [];
    var scanned, e := 0, s;
    var exhausted := false;
    ScanStarts(before, tables, from, s);
    NothingLookedAt(before, tables, from, s);
    while scanned < MAX_SCAN && |found| <= limit && !exhausted
      invariant s <= e && Scanned(before, tables, from, found, last, s, e) && |found| <= limit + 1
      invariant scanned > 0 ==> last.Some? && last != from && s < e
      invariant scanned == 0 && !exhausted ==> found == []
      invariant exhausted && |found| <= limit ==> s < e && forall x :: x in tables(e - 1) ==> !Beyond(before, last, x.key)
      invariant |found| > limit ==> s < e
      invariant scanned <= MAX_SCAN && |looked| == scanned && LookedAt(before, tables, from, looked, last, s, e)
      decreases MAX_SCAN - scanned, !exhausted
    {
      var batchLimit := if BATCH < MAX_SCAN - scanned then BATCH else MAX_SCAN - scanned;
      ghost var start := last;
      var rows := Batch(before, tables(e), last, batchLimit);
      BatchSize(before, tables(e), last, batchLimit);
      OneMoreQuery(before, tables, from, found, last, s, e);
      LookedBefore(before, tables, from, looked, last, s, e);
      e := e + 1;
      var i := 0;
      while i < |rows| && |found| <= limit
        invariant |looked| == scanned + i && LookedAt(before, tables, from, looked, last, s, e)
        invariant 0 <= i <= |rows| && Scanned(before, tables, from, found, last, s, e) && |found| <= limit + 1
        invariant last == if i == 0 then start else Some(rows[i - 1].key)
        invariant (i > 0 ==> last.Some? && last != from) && (|found| > limit ==> i > 0)
        decreases |rows| - i
      {
        BatchInOrder(before, tables(e - 1), start, batchLimit, i, last);
        if rows[i].verdict == Refuse {
          Refused(before, tables, from, found, last, s, e, rows[i]);
          return false, Visit(from, [], None, s, e);
        }
        ghost var sofar := found;
        if rows[i].verdict == Show {
          found := found + [rows[i]];
        }
        Advanced(before, tables, from, sofar, last, s, e, rows[i]);
        LastIsPast(before, tables, from, sofar, last, s, e);
        LookNext(before, tables, from, looked, last, s, e, rows[i]);
        looked := looked + [rows[i].key];
        ScanNext(before, tables, from, sofar, last, s, e, rows[i], found);
        last := Some(rows[i].key);
        i := i + 1;
      }
      scanned := scanned + i;
      if |rows| < batchLimit {
        exhausted := true;
        if |found| <= limit {
          BatchInOrder(before, tables(e - 1), start, batchLimit, |rows|, last);
        }
      }
    }
    ok := true;
    if |found| > limit {
      FullPage(before, tables, from, found, last, s, e, limit);
      visit := Visit(from, found[..limit], Some(found[limit - 1].key), s, e);
    } else if exhausted {
      LastPage(before, tables, from, found, last, s, e);
      visit := Visit(from, found, None, s, e);
    } else {
      CappedPage(before, tables, from, found, last, s, e);
      visit := Visit(from, found, last, s, e);
    }
  }

  lemma NothingLookedAt<K(!new), V(!new)>(before: (K, K) -> bool, tables: nat -> seq<Row<K, V>>, from: Option<K>, s: nat)
    ensures LookedAt(before, tables, from, [], from, s, s)
  {
  }

  lemma LastIsPast<K(!new), V(!new)>(before: (K, K) -> bool, tables: nat -> seq<Row<K, V>>, from: Option<K>,
                                     found: seq<Row<K, V>>, last: Option<K>, s: nat, e: nat)
    requires Scanned(before, tables, from, found, last, s, e)
    ensures last == from || (last.Some? && Beyond(before, from, last.value))
  {
  }

  lemma BatchSize<K(!new), V(!new)>(before: (K, K) -> bool, rows: seq<Row<K, V>>, cursor: Option<K>, n: nat)
    ensures |Batch(before, rows, cursor, n)| <= n
  {
  }

  lemma Refused<K(!new), V(!new)>(before: (K, K) -> bool, tables: nat -> seq<Row<K, V>>, from: Option<K>,
                                  found: seq<Row<K, V>>, last: Option<K>, s: nat, e: nat, row: Row<K, V>)
    requires StrictTotal(before) && s < e && Scanned(before, tables, from, found, last, s, e)
    requires IsNext(before, tables(e - 1), last, row) && row.verdict == Refuse
    ensures exists t: nat, x :: s <= t && x in tables(t) && x.verdict == Refuse && Beyond(before, from, x.key)
  {
  }

  /** The next row is past the cursor the scan started from. */
  lemma Advanced<K(!new), V(!new)>(before: (K, K) -> bool, tables: nat -> seq<Row<K, V>>, from: Option<K>,
                                   found: seq<Row<K, V>>, last: Option<K>, s: nat, e: nat, row: Row<K, V>)
    requires StrictTotal(before) && s < e && Scanned(before, tables, from, found, last, s, e)
    requires IsNext(before, tables(e - 1), last, row)
    ensures Some(row.key) != from
  {
  }

  // ---------------------------------------------------------- following cursors

  predicate Follows<K(==), V>(v: Visit<K, V>, w: Visit<K, V>) {
    v.next.Some? && w.from == v.next && v.e <= w.s
  }

  /** Requests that follow the cursors from the first page on, in time order. */
  ghost predicate Traversal<K(!new), V(!new)>(before: (K, K) -> bool, tables: nat -> seq<Row<K, V>>, visits: seq<Visit<K, V>>) {
    && visits != [] && visits[0].from == None
    && (forall i :: 0 <= i < |visits| ==> Right(before, tables, visits[i]))
    && (forall i :: 0 <= i < |visits| - 1 ==> Follows(visits[i], visits[i + 1]))
  }

  /** All pages one after the other. */
  function Pages<K, V>(visits: seq<Visit<K, V>>): seq<Row<K, V>> {
    if visits == [] then [] else Pages(visits[..|visits| - 1]) + visits[|visits| - 1].page
  }

  /** What the pages so far must list: nothing past the last cursor, everything up to it. */
  ghost predicate Complete<K(!new), V(!new)>(before: (K, K) -> bool, tables: nat -> seq<Row<K, V>>, rows: seq<Row<K, V>>,
                                            next: Option<K>, s: nat, e: nat) {
    && Ascending(before, rows)
    && (forall i :: 0 <= i < |rows| ==> Reached(before, next, rows[i].key) && WasShown(tables, s, e, rows[i]))
    && (forall k :: Reached(before, next, k) && Throughout(tables, s, e, k) ==> Listed(rows, k))
  }

  predicate Reached<K(==)>(before: (K, K) -> bool, next: Option<K>, k: K) {
    next == None || !before(next.value, k)
  }

  /**
   Whatever is inserted, deleted, hidden or shown between the queries: the pages together list rows in
   strictly increasing key order, so none twice, and no row that every query could show is missing up to the
   last cursor; when the last page hands out none, no such row is missing at all.
   */
  lemma {:induction false} TraversalIsComplete<K(!new), V(!new)>(before: (K, K) -> bool, tables: nat -> seq<Row<K, V>>,
                                                                visits: seq<Visit<K, V>>)
    requires StrictTotal(before) && Traversal(before, tables, visits)
    ensures Complete(before, tables, Pages(visits), visits[|visits| - 1].next, visits[0].s, visits[|visits| - 1].e)
    ensures visits[0].s < visits[|visits| - 1].e
  {
    var last, init := visits[|visits| - 1], visits[..|visits| - 1];
    assert Right(before, tables, last);
    if init == [] {
      assert Pages(visits) == [] + last.page && [] + last.page == last.page;
      FirstPage(before, tables, last);
    } else {
      assert Right(before, tables, init[|init| - 1]);
      hide Right, StrictTotal, Complete;
      TraversalIsComplete(before, tables, init);
      NextPage(before, tables, Pages(init), last, visits[0].s, init[|init| - 1].e);
      assert last.s < last.e by { RightTakesTime(before, tables, last); }
    }
  }

  lemma RightTakesTime<K(!new), V(!new)>(before: (K, K) -> bool, tables: nat -> seq<Row<K, V>>, v: Visit<K, V>)
    requires Right(before, tables, v)
    ensures v.s < v.e
  {
  }

  lemma FirstPage<K(!new), V(!new)>(before: (K, K) -> bool, tables: nat -> seq<Row<K, V>>, v: Visit<K, V>)
    requires Right(before, tables, v) && v.from == None
    ensures Complete(before, tables, v.page, v.next, v.s, v.e)
  {
    hide Throughout;
    forall k | Reached(before, v.next, k)
      ensures Covers(before, v, k)
    {
    }
  }

  lemma NextPage<K(!new), V(!new)>(before: (K, K) -> bool, tables: nat -> seq<Row<K, V>>, rows: seq<Row<K, V>>, v: Visit<K, V>, s: nat, e: nat)
    requires StrictTotal(before) && v.from.Some? && Complete(before, tables, rows, v.from, s, e) && Right(before, tables, v)
    requires s <= e <= v.s
    ensures Complete(before, tables, rows + v.page, v.next, s, v.e)
  {
    var all := rows + v.page;
    forall i, j | 0 <= i < j < |all|
      ensures before(all[i].key, all[j].key)
    {
      if i < |rows| <= j {
        assert Covers(before, v, v.page[j - |rows|].key);
        assert Reached(before, v.from, rows[i].key);
      }
    }
    forall i | 0 <= i < |all|
      ensures Reached(before, v.next, all[i].key) && WasShown(tables, s, v.e, all[i])
    {
      if i < |rows| {
        assert Reached(before, v.from, rows[i].key);
      } else {
        assert Covers(before, v, v.page[i - |rows|].key);
      }
    }
    forall k | Reached(before, v.next, k) && Throughout(tables, s, v.e, k)
      ensures Listed(all, k)
    {
      Narrower(tables, s, v.e, k, s, e);
      Narrower(tables, s, v.e, k, v.s, v.e);
      if Beyond(before, v.from, k) {
        assert Covers(before, v, k);
        var i :| 0 <= i < |v.page| && v.page[i].key == k;
        assert all[|rows| + i].key == k;
      } else {
        assert Reached(before, v.from, k);
        var i :| 0 <= i < |rows| && rows[i].key == k;
        assert all[i].key == k;
      }
    }
  }

  lemma Narrower<K(!new), V(!new)>(tables: nat -> seq<Row<K, V>>, s: nat, e: nat, k: K, s': nat, e': nat)
    requires Throughout(tables, s, e, k) && s <= s' && e' <= e
    ensures Throughout(tables, s', e', k)
  {
  }

  // --------------------------------------------------------- a store at rest

  /** The rows the principal may see. */
  function Visible<K, V>(rows: seq<Row<K, V>>): seq<Row<K, V>> {
    if rows == [] then [] else (if rows[0].verdict == Show then [rows[0]] else []) + Visible(rows[1..])
  }

  lemma {:induction false} VisibleIs<K(!new), V(!new)>(before: (K, K) -> bool, rows: seq<Row<K, V>>)
    requires Ascending(before, rows)
    ensures Ascending(before, Visible(rows))
    ensures forall x :: x in Visible(rows) <==> x in rows && x.verdict == Show
  {
    if rows != [] {
      VisibleIs(before, rows[1..]);
      forall j | 0 <= j < |Visible(rows[1..])|
        ensures before(rows[0].key, Visible(rows[1..])[j].key)
      {
        assert Visible(rows[1..])[j] in rows[1..];
        var k :| 0 <= k < |rows[1..]| && rows[1..][k] == Visible(rows[1..])[j];
        assert rows[k + 1] == Visible(rows[1..])[j];
      }
      assert rows == [rows[0]] + rows[1..];
    }
  }

  predicate ByKey<K, V>(before: (K, K) -> bool, a: Row<K, V>, b: Row<K, V>) {
    before(a.key, b.key)
  }

  lemma TailMembers<K(!new), V(!new)>(before: (K, K) -> bool, a: seq<Row<K, V>>, x: Row<K, V>)
    requires StrictTotal(before) && Ascending(before, a) && a != []
    ensures x in a[1..] <==> x in a && x != a[0]
  {
    assert a == [a[0]] + a[1..];
    assert forall k :: 1 <= k < |a| ==> before(a[0].key, a[k].key);
    assert !before(a[0].key, a[0].key);
  }

  /** Two ascending lists with the same members are the same list. */
  lemma {:induction false} AscendingIsUnique<K(!new), V(!new)>(before: (K, K) -> bool, a: seq<Row<K, V>>, b: seq<Row<K, V>>)
    requires StrictTotal(before) && Ascending(before, a) && Ascending(before, b)
    requires forall x :: x in a <==> x in b
    ensures a == b
  {
    assert a != [] ==> a[0] in a;
    assert b != [] ==> b[0] in b;
    if a != [] {
      var j :| 0 <= j < |b| && b[j] == a[0];
      var i :| 0 <= i < |a| && a[i] == b[0];
      NoLaterKey(before, a, 0, i);
      NoLaterKey(before, b, 0, j);
      assert a[0] == b[0];
      assert a == [a[0]] + a[1..] && b == [b[0]] + b[1..];
      forall x
        ensures x in a[1..] <==> x in b[1..]
      {
        TailMembers(before, a, x);
        TailMembers(before, b, x);
      }
      AscendingIsUnique(before, a[1..], b[1..]);
    }
  }

  /** On a store that does not change, the pages together are exactly the visible rows of the table, in order. */
  lemma StaticStoreIsListed<K(!new), V(!new)>(before: (K, K) -> bool, tables: nat -> seq<Row<K, V>>,
                                              rows: seq<Row<K, V>>, visits: seq<Visit<K, V>>)
    requires StrictTotal(before) && (forall t :: tables(t) == rows) && Ascending(before, rows)
    requires Traversal(before, tables, visits) && visits[|visits| - 1].next == None
    ensures Pages(visits) == Visible(rows)
  {
    assert visits != [];
    hide Right, Traversal;
    TraversalIsComplete(before, tables, visits);
    VisibleIs(before, rows);
    var all, s, e := Pages(visits), visits[0].s, visits[|visits| - 1].e;
    forall x
      ensures x in all <==> x in Visible(rows)
    {
      if x in all {
        var i :| 0 <= i < |all| && all[i] == x;
        assert WasShown(tables, s, e, all[i]);
      }
      if x in Visible(rows) {
        var j :| 0 <= j < |rows| && rows[j] == x;
        assert ShownIn(rows, x.key);
        assert Throughout(tables, s, e, x.key);
        assert Reached(before, None, x.key);
        var i :| 0 <= i < |all| && all[i].key == x.key;
        assert WasShown(tables, s, e, all[i]);
        var k :| 0 <= k < |rows| && rows[k] == all[i];
        assert !before(x.key, x.key);
      }
    }
    AscendingIsUnique(before, all, Visible(rows));
  }

  lemma NoLaterKey<K(!new), V(!new)>(before: (K, K) -> bool, rows: seq<Row<K, V>>, i: nat, j: nat)
    requires StrictTotal(before) && Ascending(before, rows) && i < |rows| && j < |rows|
    ensures i <= j ==> !before(rows[j].key, rows[i].key)
  {
  }

  /** Every page that hands out a cursor uses up at least one row, so the traversal of a store at rest ends. */
  lemma {:induction false} StaticTraversalEnds<K(!new), V(!new)>(before: (K, K) -> bool, tables: nat -> seq<Row<K, V>>,
                                                                rows: seq<Row<K, V>>, visits: seq<Visit<K, V>>)
    returns (n: nat)
    requires StrictTotal(before) && (forall t :: tables(t) == rows) && Ascending(before, rows)
    requires Traversal(before, tables, visits)
    ensures |visits| <= n + 1 && n <= |rows|
    ensures visits[|visits| - 1].next.Some? ==> |visits| <= n && 0 < n && rows[n - 1].key == visits[|visits| - 1].next.value
  {
    var last, init := visits[|visits| - 1], visits[..|visits| - 1];
    assert Right(before, tables, last);
    n := 0;
    if init != [] {
      assert Follows(visits[|init| - 1], visits[|init|]);
      n := StaticTraversalEnds(before, tables, rows, init);
    }
    if last.next.Some? {
      var t: nat, i :| last.s <= t < last.e && 0 <= i < |tables(t)| && tables(t)[i].key == last.next.value;
      if init != [] {
        NoLaterKey(before, rows, i, n - 1);
      }
      n := i + 1;
    }
  }

  // ---------------------------------------------------------------- the orders

  /** Credentials and assets are listed by identifier. */
  lemma LessIsStrictTotal()
    ensures StrictTotal(Less)
  {
    forall a, b
      ensures Less(a, b) ==> !Less(b, a)
      ensures a != b ==> Less(a, b) || Less(b, a)
    {
      LessTotal(a, b);
      LessIrreflexive(a);
      if Less(a, b) && Less(b, a) {
        LessTransitive(a, b, a);
      }
    }
    forall a, b, c | Less(a, b) && Less(b, c)
      ensures Less(a, c)
    {
      LessTransitive(a, b, c);
    }
  }

  /** An audit event's position: its time as fixed-width text, then its identifier. */
  datatype Position = Position(createdAt: string, id: string)

  /** `ORDER BY created_at DESC, id DESC` */
  predicate Later(a: Position, b: Position) {
    Less(b.createdAt, a.createdAt) || (b.createdAt == a.createdAt && Less(b.id, a.id))
  }

  lemma LaterIsStrictTotal()
    ensures StrictTotal(Later)
  {
    hide Less;
    LessIsStrictTotal();
    forall a, b: Position, c | Later(a, b) && Later(b, c)
      ensures Later(a, c)
    {
    }
  }

  /** Audit events are listed latest first, the larger identifier first among those of one instant. */
  lemma LaterMeansLater(seconds: int -> string, lo: int, hi: int, t: int, u: int, a: string, b: string)
    requires T.IsCalendar(seconds, lo, hi) && T.Within(lo, hi, t) && T.Within(lo, hi, u)
    ensures Later(Position(T.FixedText(seconds, t), a), Position(T.FixedText(seconds, u), b))
            <==> u < t || (u == t && Less(b, a))
  {
    T.FixedTextOrder(seconds, lo, hi, u, t);
  }

  /** `List` of the audit service: one query for one event more than the page holds. */
  method ListEvents<V(!new)>(tables: nat -> seq<Row<Position, V>>, from: Option<Position>, limit: nat, s: nat)
    returns (visit: Visit<Position, V>)
    requires (forall t :: Ascending(Later, tables(t))) && 0 < limit
    requires forall t: nat, i :: 0 <= i < |tables(t)| ==> tables(t)[i].verdict == Show
    ensures Right(Later, tables, visit) && visit.from == from && visit.s == s && |visit.page| <= limit
    ensures visit.next.Some? ==> |visit.page| == limit
  {
    hide Later, Ascending, Right, Scanned, StrictTotal, Batch, IsNext;
    LaterIsStrictTotal();
    var events := Batch(Later, tables(s), from, limit + 1);
    BatchSize(Later, tables(s), from, limit + 1);
    ScanStarts(Later, tables, from, s);
    OneMoreQuery(Later, tables, from, [], from, s, s);
    ghost var last := from;
    ghost var i := 0;
    while i < |events|
      invariant 0 <= i <= |events| && last == if i == 0 then from else Some(events[i - 1].key)
      invariant Scanned(Later, tables, from, events[..i], last, s, s + 1)
    {
      BatchInOrder(Later, tables(s), from, limit + 1, i, last);
      Queried(Later, tables(s), last, events[i]);
      assert events[..i + 1] == events[..i] + [events[i]];
      ScanNext(Later, tables, from, events[..i], last, s, s + 1, events[i], events[..i + 1]);
      last := Some(events[i].key);
      i := i + 1;
    }
    assert events[..|events|] == events;
    if |events| <= limit {
      BatchInOrder(Later, tables(s), from, limit + 1, |events|, last);
      LastPage(Later, tables, from, events, last, s, s + 1);
      return Visit(from, events, None, s, s + 1);
    }
    FullPage(Later, tables, from, events, last, s, s + 1, limit);
    return Visit(from, events[..limit], Some(events[limit - 1].key), s, s + 1);
  }

  lemma Queried<K(!new), V(!new)>(before: (K, K) -> bool, rows: seq<Row<K, V>>, last: Option<K>, row: Row<K, V>)
    requires IsNext(before, rows, last, row)
    ensures exists i :: 0 <= i < |rows| && rows[i] == row
  {
  }
}
