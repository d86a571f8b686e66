/**
 Raw Git tree objects: the cursor parser and the canonical-order test of deploy/release_export.py, the
 printer of deploy/offline_ops.py.  Bytes are characters.
 */
module GitTree {
  import opened Wrappers
  import opened Order

  /** One entry of a tree object; the object identifier is raw bytes, any bytes at all. */
  datatype Record = Record(mode: string, name: string, oid: string)

  const DIRECTORY := "40000"

  /** Python's `find`: the first index at or after `start`, or -1. */
  function Find(s: string, c: char, start: nat): (i: int)
    ensures i == -1 || (start <= i < |s| && s[i] == c)
    ensures forall j :: start <= j < |s| && (i == -1 || j < i) ==> s[j] != c
    decreases |s| - start
  {
    if start >= |s| then -1 else if s[start] == c then start else Find(s, c, start + 1)
  }

  /** The printer's fields cannot be confused: no space in a mode, no NUL in a name, `n` bytes of identifier. */
  predicate Printable(r: Record, n: nat) {
    ' ' !in r.mode && '\0' !in r.name && |r.oid| == n
  }

  function PrintRecord(r: Record): string {
    r.mode + " " + r.name + "\0" + r.oid
  }

  function PrintTree(rs: seq<Record>): string {
    if rs == [] then "" else PrintRecord(rs[0]) + PrintTree(rs[1..])
  }

  /** The first record of `raw` and what follows it. */
  function ParseRecord(raw: string, n: nat): (r: Option<(Record, string)>)
    ensures r.Some? ==> |r.value.1| < |raw|
  {
    var space := Find(raw, ' ', 0);
    var nul := Find(raw, '\0', space + 1);
    if space < 0 || nul < 0 || nul + 1 + n > |raw| then None
    else Some((Record(raw[..space], raw[space + 1..nul], raw[nul + 1..nul + 1 + n]), raw[nul + 1 + n..]))
  }

  function ParseTree(raw: string, n: nat): Option<seq<Record>>
    decreases |raw|
  {
    if raw == "" then Some([])
    else
      match ParseRecord(raw, n)
      case None => None
      case Some((r, tail)) =>
        match ParseTree(tail, n)
        case None => None
        case Some(rs) => Some([r] + rs)
  }

  // ------------------------------------------------------------- round trips

  lemma FindIs(s: string, c: char, start: nat, i: nat)
    requires start <= i < |s| && s[i] == c && forall j :: start <= j < i ==> s[j] != c
    ensures Find(s, c, start) == i
  {
  }

  lemma RecordComesBack(r: Record, tail: string, n: nat)
    requires Printable(r, n)
    ensures ParseRecord(PrintRecord(r) + tail, n) == Some((r, tail))
  {
    var raw := PrintRecord(r) + tail;
    var space := |r.mode|;
    var nul := space + 1 + |r.name|;
    assert raw[..space] == r.mode;
    FindIs(raw, ' ', 0, space);
    assert raw[space + 1..nul] == r.name;
    FindIs(raw, '\0', space + 1, nul);
    assert raw[nul + 1..nul + 1 + n] == r.oid;
    assert raw[nul + 1 + n..] == tail;
  }

  lemma RecordWasPrinted(raw: string, n: nat)
    requires ParseRecord(raw, n).Some?
    ensures PrintRecord(ParseRecord(raw, n).value.0) + ParseRecord(raw, n).value.1 == raw
    ensures Printable(ParseRecord(raw, n).value.0, n)
  {
  }

  /** Whatever bytes the identifiers hold, spaces and NULs included, a printed tree parses to its records. */
  lemma {:induction false} ParseAfterPrint(rs: seq<Record>, n: nat)
    requires forall r <- rs :: Printable(r, n)
    ensures ParseTree(PrintTree(rs), n) == Some(rs)
  {
    hide ParseRecord, Printable;
    if rs != [] {
      assert PrintTree(rs) != "";
      RecordComesBack(rs[0], PrintTree(rs[1..]), n);
      ParseAfterPrint(rs[1..], n);
      assert rs == [rs[0]] + rs[1..];
    }
  }

  /** Only printed trees parse. */
  lemma {:induction false} PrintAfterParse(raw: string, n: nat)
    requires ParseTree(raw, n).Some?
    ensures PrintTree(ParseTree(raw, n).value) == raw
    ensures forall r <- ParseTree(raw, n).value :: Printable(r, n)
    decreases |raw|
  {
    if raw != "" {
      RecordWasPrinted(raw, n);
      var (r, tail) := ParseRecord(raw, n).value;
      PrintAfterParse(tail, n);
      var rs := ParseTree(tail, n).value;
      assert ([r] + rs)[1..] == rs;
    }
  }

  lemma PrintIsInjective(a: seq<Record>, b: seq<Record>, n: nat)
    requires forall r <- a :: Printable(r, n)
    requires forall r <- b :: Printable(r, n)
    ensures PrintTree(a) == PrintTree(b) ==> a == b
  {
    ParseAfterPrint(a, n);
    ParseAfterPrint(b, n);
  }

  lemma FindInSuffix(s: string, c: char, cursor: nat, start: nat)
    requires cursor <= |s|
    ensures Find(s[cursor..], c, start) == (if Find(s, c, cursor + start) < 0 then -1 else Find(s, c, cursor + start) - cursor)
    decreases |s| - start
  {
    if cursor + start < |s| && s[cursor + start] != c {
      FindInSuffix(s, c, cursor, start + 1);
    }
  }

  lemma SuffixSlice(s: string, cursor: nat, i: nat, j: nat)
    requires i <= j && cursor + j <= |s|
    ensures s[cursor..][i..j] == s[cursor + i..cursor + j]
    ensures cursor + j == |s| ==> s[cursor..][i..] == s[cursor + i..]
    ensures i == 0 ==> s[cursor..][..j] == s[cursor..cursor + j]
  {
  }

  /** Searching from the cursor is parsing the rest. */
  lemma ParseAtCursor(raw: string, n: nat, cursor: nat, space: int, nul: int)
    requires cursor < |raw| && space == Find(raw, ' ', cursor) && nul == Find(raw, '\0', space + 1)
    ensures ParseRecord(raw[cursor..], n)
         == if space < 0 || nul < 0 || nul + 1 + n > |raw| then None
            else Some((Record(raw[cursor..space], raw[space + 1..nul], raw[nul + 1..nul + 1 + n]), raw[nul + 1 + n..]))
  {
    hide Find;
    FindInSuffix(raw, ' ', cursor, 0);
    if space >= 0 {
      FindInSuffix(raw, '\0', cursor, space + 1 - cursor);
      if nul >= 0 && nul + 1 + n <= |raw| {
        RecordInSuffix(raw, n, cursor, space, nul);
      }
    }
  }

  lemma RecordInSuffix(raw: string, n: nat, cursor: nat, space: nat, nul: nat)
    requires cursor <= space < nul && nul + 1 + n <= |raw|
    ensures var suffix, i, j := raw[cursor..], space - cursor, nul - cursor;
            && suffix[..i] == raw[cursor..space] && suffix[i + 1..j] == raw[space + 1..nul]
            && suffix[j + 1..j + 1 + n] == raw[nul + 1..nul + 1 + n] && suffix[j + 1 + n..] == raw[nul + 1 + n..]
  {
    SuffixSlice(raw, cursor, 0, space - cursor);
    SuffixSlice(raw, cursor, space - cursor + 1, nul - cursor);
    SuffixSlice(raw, cursor, nul - cursor + 1, nul - cursor + 1 + n);
    SuffixSlice(raw, cursor, nul - cursor + 1 + n, |raw| - cursor);
  }

  function Prepend(a: seq<Record>, b: Option<seq<Record>>): Option<seq<Record>> {
    if b.Some? then Some(a + b.value) else None
  }

  lemma PrependNext(a: seq<Record>, raw: string, n: nat)
    requires raw != ""
    ensures Prepend(a, ParseTree(raw, n))
         == match ParseRecord(raw, n)
            case None => None
            case Some((r, tail)) => Prepend(a + [r], ParseTree(tail, n))
  {
    hide ParseRecord;
    if ParseRecord(raw, n).Some? {
      var (r, tail) := ParseRecord(raw, n).value;
      if ParseTree(tail, n).Some? {
        assert a + ([r] + ParseTree(tail, n).value) == a + [r] + ParseTree(tail, n).value;
      }
    }
  }

  /** The loop of `walk_tree` that moves a cursor over a raw tree object. */
  method ReadRecords(raw: string, n: nat) returns (parsed: Option<seq<Record>>)
    ensures parsed == ParseTree(raw, n)
  {
    hide Find, ParseRecord, ParseTree;
    var cursor: nat := 0;
    var records: seq<Record> := [];
    assert raw[0..] == raw;
    assert ParseTree(raw, n) == Prepend([], ParseTree(raw, n)) by {
      assert ParseTree(raw, n).Some? ==> [] + ParseTree(raw, n).value == ParseTree(raw, n).value;
    }
    while cursor < |raw|
      invariant cursor <= |raw|
      invariant ParseTree(raw, n) == Prepend(records, ParseTree(raw[cursor..], n))
    {
      var space := Find(raw, ' ', cursor);
      var nul := Find(raw, '\0', space + 1);
      ParseAtCursor(raw, n, cursor, space, nul);
      PrependNext(records, raw[cursor..], n);
      if space < 0 || nul < 0 || nul + 1 + n > |raw| {
        return None;
      }
      records := records + [Record(raw[cursor..space], raw[space + 1..nul], raw[nul + 1..nul + 1 + n])];
      cursor := nul + 1 + n;
    }
    EmptyTree(n);
    assert raw[cursor..] == "" && records + [] == records;
    return Some(records);
  }

  lemma EmptyTree(n: nat)
    ensures ParseTree("", n) == Some([])
  {
  }

  // --------------------------------------------------------- canonical order

  /** Git sorts a directory as if its name ended with a slash. */
  function Key(r: Record): string {
    r.name + if r.mode == DIRECTORY then "/" else ""
  }

  predicate NotAfter(a: Record, b: Record) {
    !Less(Key(b), Key(a))
  }

  predicate Ascending(rs: seq<Record>) {
    forall i, j :: 0 <= i < j < |rs| ==> NotAfter(rs[i], rs[j])
  }

  /** The test `parsed == sorted(parsed, key=...)`, with a stable sort. */
  predicate IsCanonical(rs: seq<Record>) {
    rs == Sort(NotAfter, rs)
  }

  lemma NotAfterIsTransitive(a: Record, b: Record, c: Record)
    requires NotAfter(a, b) && NotAfter(b, c)
    ensures NotAfter(a, c)
  {
    if Less(Key(c), Key(a)) {
      LessTotal(Key(b), Key(c));
      if Less(Key(b), Key(c)) {
        LessTransitive(Key(b), Key(c), Key(a));
      }
    }
  }

  lemma {:induction false} InsertAscends(r: Record, rs: seq<Record>)
    requires Ascending(rs)
    ensures Ascending(Insert(NotAfter, r, rs))
  {
    hide Less, Key;
    if rs != [] {
      if NotAfter(r, rs[0]) {
        forall j | 0 <= j < |rs|
          ensures NotAfter(r, rs[j])
        {
          if j > 0 {
            NotAfterIsTransitive(r, rs[0], rs[j]);
          }
        }
      } else {
        NotAfterIsTotal(r, rs[0]);
        InsertAscends(r, rs[1..]);
        InsertMembers(NotAfter, r, rs[1..]);
        var tail := Insert(NotAfter, r, rs[1..]);
        forall j | 0 <= j < |tail|
          ensures NotAfter(rs[0], tail[j])
        {
          assert tail[j] in tail;
          if tail[j] != r {
            var i :| 0 <= i < |rs[1..]| && rs[1..][i] == tail[j];
            assert rs[i + 1] == tail[j];
          }
        }
      }
    }
  }

  lemma NotAfterIsTotal(a: Record, b: Record)
    ensures NotAfter(a, b) || NotAfter(b, a)
  {
    LessTotal(Key(a), Key(b));
    if Less(Key(b), Key(a)) && Less(Key(a), Key(b)) {
      LessTransitive(Key(a), Key(b), Key(a));
      LessIrreflexive(Key(a));
    }
  }

  lemma {:induction false} SortAscends(rs: seq<Record>)
    ensures Ascending(Sort(NotAfter, rs))
  {
    if rs != [] {
      SortAscends(rs[1..]);
      InsertAscends(rs[0], Sort(NotAfter, rs[1..]));
    }
  }

  lemma {:induction false} AscendingIsSorted(rs: seq<Record>)
    requires Ascending(rs)
    ensures Sort(NotAfter, rs) == rs
  {
    if rs != [] {
      AscendingIsSorted(rs[1..]);
      assert |rs| > 1 ==> NotAfter(rs[0], rs[1]);
      assert rs == [rs[0]] + rs[1..];
    }
  }

  /** A tree passes the exporter's order test exactly when its keys never decrease. */
  lemma CanonicalMeansAscending(rs: seq<Record>)
    ensures IsCanonical(rs) <==> Ascending(rs)
  {
    SortAscends(rs);
    if Ascending(rs) {
      AscendingIsSorted(rs);
    }
  }
}
