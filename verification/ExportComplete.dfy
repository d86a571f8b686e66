/**
 Which releases the exporter accepts: exactly those whose tree is stored under its hashes, has safe names and stays
 within the limits.
 */
module ExportComplete {
  import opened Wrappers
  import opened Order
  import opened Numerals
  import opened GitTree
  import opened GitHash
  import opened Paths
  import opened Rebuild
  import opened Manifest
  import opened Export

  /** The object is there and has this identifier. */
  predicate Holds(r: Repository, oid: string, o: Object) {
    oid in r.objects && r.objects[oid] == o && r.h(o.kind + " " + Dec(|o.raw|) + "\0" + o.raw) == oid
  }

  /** The tree stands below the directories `trail`: all its objects are stored, all its paths may be exported. */
  ghost predicate Exportable(r: Repository, items: seq<Item>, trail: seq<string>)
    requires Sane(r) && Good(items, r.n)
    decreases items, 1
  {
    && |trail| <= 32
    && Holds(r, Oid(r.h, r.n, items), Object("tree", Raw(r.h, r.n, items)))
    && EntriesExportable(r, items, trail)
  }

  ghost predicate EntriesExportable(r: Repository, items: seq<Item>, trail: seq<string>)
    requires Sane(r) && Good(items, r.n)
    decreases items, 0
  {
    items == [] || (EntryExportable(r, items[0], trail) && EntriesExportable(r, items[1..], trail))
  }

  ghost predicate EntryExportable(r: Repository, item: Item, trail: seq<string>)
    requires Sane(r) && GoodItem(item, r.n)
    decreases item, 0
  {
    && SafeComponent(item.name) && |Join(trail + [item.name], '/')| <= 4096
    && match item.node
       case Dir(below) => Exportable(r, below, trail + [item.name])
       case File(_, oid) =>
         oid in r.objects && Holds(r, oid, Object("blob", r.objects[oid].raw)) && |r.objects[oid].raw| <= 64 * 1024 * 1024
  }

  /** How many files a tree has. */
  function Files(items: seq<Item>): nat
    decreases items, 1
  {
    if items == [] then 0 else FilesIn(items[0]) + Files(items[1..])
  }

  function FilesIn(item: Item): nat
    decreases item, 0
  {
    match item.node
    case Dir(below) => Files(below)
    case File(_, _) => 1
  }

  /** How many bytes its files have together. */
  function Bytes(r: Repository, items: seq<Item>): nat
    decreases items, 1
  {
    if items == [] then 0 else BytesIn(r, items[0]) + Bytes(r, items[1..])
  }

  function BytesIn(r: Repository, item: Item): nat
    decreases item, 0
  {
    match item.node
    case Dir(below) => Bytes(r, below)
    case File(_, oid) => if oid in r.objects then |r.objects[oid].raw| else 0
  }

  // -------------------------------------------------------- in walking order

  lemma {:induction false} FilesTogether(r: Repository, a: seq<Item>, b: seq<Item>)
    ensures Files(a + b) == Files(a) + Files(b) && Bytes(r, a + b) == Bytes(r, a) + Bytes(r, b)
    decreases |a|
  {
    if a == [] {
      assert a + b == b;
    } else {
      assert (a + b)[1..] == a[1..] + b;
      FilesTogether(r, a[1..], b);
    }
  }

  lemma {:induction false} InsertAt<T>(before: (T, T) -> bool, x: T, s: seq<T>) returns (k: nat)
    ensures k <= |s| && Insert(before, x, s) == s[..k] + [x] + s[k..]
  {
    if s == [] || before(x, s[0]) {
      k := 0;
    } else {
      k := InsertAt(before, x, s[1..]);
      k := k + 1;
      assert s[..k] == [s[0]] + s[1..][..k - 1];
    }
  }

  /** The same items in another order. */
  ghost predicate Rearranged(r: Repository, items: seq<Item>, walked: seq<Item>) {
    && |walked| == |items| && (forall x :: x in walked <==> x in items)
    && (forall i, j :: 0 <= i < j < |walked| ==> walked[i].name != walked[j].name)
    && Files(walked) == Files(items) && Bytes(r, walked) == Bytes(r, items)
  }

  ghost predicate Recorded(r: Repository, items: seq<Item>, rs: seq<Record>)
    requires Sane(r)
  {
    |rs| == |items| && forall i :: 0 <= i < |items| ==> GoodItem(items[i], r.n) && rs[i] == RecordOf(r.h, r.n, items[i])
  }

  lemma Inserted<T>(x: T, s: seq<T>, k: nat)
    requires k <= |s|
    ensures var all := s[..k] + [x] + s[k..];
            && |all| == |s| + 1
            && (forall i :: 0 <= i < |all| ==> all[i] == if i < k then s[i] else if i == k then x else s[i - 1])
            && (forall y :: y in all <==> y == x || y in s)
  {
    assert s == s[..k] + s[k..];
  }

  lemma InsertItem(r: Repository, x: Item, items: seq<Item>, walked: seq<Item>, k: nat)
    requires Rearranged(r, items, walked) && k <= |walked| && forall y <- items :: y.name != x.name
    ensures Rearranged(r, [x] + items, walked[..k] + [x] + walked[k..])
  {
    var all := walked[..k] + [x] + walked[k..];
    Inserted(x, walked, k);
    InsertedFiles(r, x, walked, k);
    FilesTogether(r, [x], items);
    hide Files, Bytes;
    forall i | 0 <= i < |walked|
      ensures walked[i].name != x.name
    {
      assert walked[i] in walked;
    }
  }

  lemma InsertedFiles(r: Repository, x: Item, walked: seq<Item>, k: nat)
    requires k <= |walked|
    ensures Files(walked[..k] + [x] + walked[k..]) == Files([x]) + Files(walked)
    ensures Bytes(r, walked[..k] + [x] + walked[k..]) == Bytes(r, [x]) + Bytes(r, walked)
  {
    hide Files, Bytes;
    assert walked == walked[..k] + walked[k..];
    FilesTogether(r, walked[..k], walked[k..]);
    FilesTogether(r, walked[..k] + [x], walked[k..]);
    FilesTogether(r, walked[..k], [x]);
  }

  lemma InsertRecord(r: Repository, x: Item, walked: seq<Item>, rs: seq<Record>, k: nat)
    requires Sane(r) && Recorded(r, walked, rs) && k <= |walked| && GoodItem(x, r.n)
    ensures Recorded(r, walked[..k] + [x] + walked[k..], rs[..k] + [RecordOf(r.h, r.n, x)] + rs[k..])
  {
    hide RecordOf, GoodItem;
    Inserted(x, walked, k);
    Inserted(RecordOf(r.h, r.n, x), rs, k);
  }

  /** Git's order of the records is the walking order of the items. */
  lemma {:induction false} WalkingOrder(r: Repository, items: seq<Item>) returns (walked: seq<Item>)
    requires Sane(r) && Good(items, r.n)
    ensures Rearranged(r, items, walked) && Recorded(r, walked, Sort(NotAfter, Records(r.h, r.n, items)))
    decreases |items|
  {
    if items == [] {
      walked := [];
      NothingToWalk(r);
    } else {
      var x, rest := items[0], items[1..];
      assert [x] + rest == items && Records(r.h, r.n, items) == [RecordOf(r.h, r.n, x)] + Records(r.h, r.n, rest);
      var others := WalkingOrder(r, rest);
      var rs := Sort(NotAfter, Records(r.h, r.n, rest));
      var k := InsertAt(NotAfter, RecordOf(r.h, r.n, x), rs);
      walked := others[..k] + [x] + others[k..];
      assert Sort(NotAfter, Records(r.h, r.n, items)) == rs[..k] + [RecordOf(r.h, r.n, x)] + rs[k..];
      hide Rearranged, RecordOf, NotAfter, Records, GoodItem, Sane, Insert, Sort;
      assert k <= |others| by {
        assert Recorded(r, others, rs);
      }
      InsertItem(r, x, rest, others, k);
      InsertRecord(r, x, others, rs, k);
    }
  }

  lemma NothingToWalk(r: Repository)
    ensures Rearranged(r, [], [])
  {
  }

  // ---------------------------------------------------------- what is listed

  /** A stored tree is listed as its records in Git's order. */
  lemma {:induction false} StoredIsListed(r: Repository, items: seq<Item>, walked: seq<Item>)
    requires Sane(r) && Good(items, r.n) && Holds(r, Oid(r.h, r.n, items), Object("tree", Raw(r.h, r.n, items)))
    requires Rearranged(r, items, walked) && Recorded(r, walked, Sort(NotAfter, Records(r.h, r.n, items)))
    ensures Listing(r, Oid(r.h, r.n, items)) == Some(Sort(NotAfter, Records(r.h, r.n, items)))
  {
    var rs := Sort(NotAfter, Records(r.h, r.n, items));
    assert Raw(r.h, r.n, items) == PrintTree(rs);
    RecordsArePrintable(r.h, r.n, items);
    hide IsCanonical, ParseTree, PrintTree, Good, NotAfter, Records, Raw, Rearranged, Sort, Digests, Printable;
    ParseAfterPrint(rs, r.n);
    SortAscends(Records(r.h, r.n, items));
    CanonicalMeansAscending(rs);
    NamesAreRecorded(r, items, walked, rs);
    TreeIsRead(r, items);
  }

  lemma TreeIsRead(r: Repository, items: seq<Item>)
    requires Sane(r) && Good(items, r.n) && Holds(r, Oid(r.h, r.n, items), Object("tree", Raw(r.h, r.n, items)))
    ensures ReadObject(r, Oid(r.h, r.n, items)) == Some(Object("tree", Raw(r.h, r.n, items)))
  {
    hide Good, Raw;
    assert IsHex(Oid(r.h, r.n, items)) && |Oid(r.h, r.n, items)| == 2 * r.n;
  }

  lemma NamesAreRecorded(r: Repository, items: seq<Item>, walked: seq<Item>, rs: seq<Record>)
    requires Sane(r) && Rearranged(r, items, walked) && Recorded(r, walked, rs)
    ensures forall i, j :: 0 <= i < j < |rs| ==> rs[i].name != rs[j].name
  {
    hide Sane, GoodItem;
    forall i | 0 <= i < |rs|
      ensures rs[i].name == walked[i].name
    {
    }
  }

  // ----------------------------------------------------------- the walk ends

  /** Nothing seen so far lies at or below an entry of `items`. */
  ghost predicate Clear(seen: set<string>, trail: seq<string>, items: seq<Item>) {
    forall q, x :: q in seen && x in items ==> !(trail + [x.name] <= Split(q, '/'))
  }

  /** The walk below `trail` listed this many files and bytes, and saw nothing outside `trail`. */
  ghost predicate Walked(s: State, done: Option<State>, files: nat, bytes: nat, trail: seq<string>) {
    && done.Some? && |done.value.entries| == |s.entries| + files && done.value.total == s.total + bytes
    && forall q :: q in done.value.seen && q !in s.seen ==> trail <= Split(q, '/')
  }

  predicate Fits(s: State, files: nat, bytes: nat) {
    |s.entries| + files <= 20_000 && s.total + bytes <= 512 * 1024 * 1024
  }

  lemma {:induction false} WalkSucceeds(r: Repository, items: seq<Item>, trail: seq<string>, s: State)
    requires Sane(r) && Good(items, r.n) && Exportable(r, items, trail) && SafeTrail(trail)
    requires Clear(s.seen, trail, items) && Fits(s, Files(items), Bytes(r, items))
    ensures Walked(s, Walk(r, Oid(r.h, r.n, items), Prefix(trail), |trail|, s), Files(items), Bytes(r, items), trail)
    decreases MAX_DEPTH + 1 - |trail|, 2, 0
  {
    var walked := WalkingOrder(r, items);
    var rs := Sort(NotAfter, Records(r.h, r.n, items));
    StoredIsListed(r, items, walked);
    ListingIsPrintable(r, Oid(r.h, r.n, items));
    hide Files, Bytes, Listing, Oid, Raw, Records, Sort, SafeTrail, Prefix, EntryExportable, EntriesExportable;
    forall i | 0 <= i < |walked|
      ensures GoodItem(walked[i], r.n) && EntryExportable(r, walked[i], trail)
    {
      assert walked[i] in items;
      ExportableAt(r, items, trail, walked[i]);
    }
    VisitAllSucceeds(r, walked, rs, trail, s);
  }

  lemma {:induction false} ExportableAt(r: Repository, items: seq<Item>, trail: seq<string>, x: Item)
    requires Sane(r) && Good(items, r.n) && EntriesExportable(r, items, trail) && x in items
    ensures GoodItem(x, r.n) && EntryExportable(r, x, trail)
    decreases |items|
  {
    hide EntryExportable, GoodItem;
    if x != items[0] {
      ExportableAt(r, items[1..], trail, x);
    }
  }

  lemma {:induction false} VisitAllSucceeds(r: Repository, items: seq<Item>, rs: seq<Record>, trail: seq<string>, s: State)
    requires Sane(r) && SafeTrail(trail) && |trail| <= MAX_DEPTH && Recorded(r, items, rs)
    requires forall i :: 0 <= i < |rs| ==> Printable(rs[i], r.n) && IsBytes(rs[i].oid)
    requires forall i :: 0 <= i < |items| ==> GoodItem(items[i], r.n) && EntryExportable(r, items[i], trail)
    requires forall i, j :: 0 <= i < j < |items| ==> items[i].name != items[j].name
    requires Clear(s.seen, trail, items) && Fits(s, Files(items), Bytes(r, items))
    ensures Walked(s, VisitAll(r, rs, Prefix(trail), |trail|, s), Files(items), Bytes(r, items), trail)
    decreases MAX_DEPTH + 1 - |trail|, 1, |items|
  {
    hide EntryExportable, GoodItem, SafeTrail, Prefix, Visit, RecordOf, FilesIn, BytesIn;
    if items != [] {
      assert items[0] in items;
      VisitSucceeds(r, items[0], rs[0], trail, s);
      var next := Visit(r, rs[0], Prefix(trail), |trail|, s).value;
      StillClear(s.seen, next.seen, trail, items);
      VisitAllSucceeds(r, items[1..], rs[1..], trail, next);
      forall q | q in next.seen && q !in s.seen
        ensures trail <= Split(q, '/')
      {
        PrefixShortens(trail, items[0].name, Split(q, '/'));
      }
    }
  }

  lemma PrefixShortens(trail: seq<string>, name: string, q: seq<string>)
    ensures trail + [name] <= q ==> trail <= q
  {
  }

  lemma OneWayDown(trail: seq<string>, a: string, b: string, q: seq<string>)
    ensures trail + [a] <= q && trail + [b] <= q ==> a == b
  {
    if trail + [a] <= q && trail + [b] <= q {
      assert q[|trail|] == a;
    }
  }

  /** What was seen below one entry is out of the way of the others. */
  lemma StillClear(before: set<string>, after: set<string>, trail: seq<string>, items: seq<Item>)
    requires items != [] && Clear(before, trail, items)
    requires forall i, j :: 0 <= i < j < |items| ==> items[i].name != items[j].name
    requires forall q :: q in after && q !in before ==> trail + [items[0].name] <= Split(q, '/')
    ensures Clear(after, trail, items[1..])
  {
    hide Split;
    forall q, x | q in after && x in items[1..]
      ensures !(trail + [x.name] <= Split(q, '/'))
    {
      var j :| 0 <= j < |items[1..]| && items[1..][j] == x;
      assert items[j + 1] == x && x in items;
      OneWayDown(trail, x.name, items[0].name, Split(q, '/'));
    }
  }

  lemma {:induction false} VisitSucceeds(r: Repository, item: Item, record: Record, trail: seq<string>, s: State)
    requires Sane(r) && SafeTrail(trail) && |trail| <= MAX_DEPTH && GoodItem(item, r.n) && EntryExportable(r, item, trail)
    requires record == RecordOf(r.h, r.n, item) && Printable(record, r.n) && IsBytes(record.oid)
    requires Clear(s.seen, trail, [item]) && Fits(s, FilesIn(item), BytesIn(r, item))
    ensures Walked(s, Visit(r, record, Prefix(trail), |trail|, s), FilesIn(item), BytesIn(r, item), trail + [item.name])
    decreases MAX_DEPTH + 1 - |trail|, 0, 0
  {
    PathIsClear(trail, item.name, s.seen, item);
    hide Join, Split, SafeComponent, SafeTrail, PathOk;
    match item.node {
      case Dir(below) =>
        HexAfterUnhex(Oid(r.h, r.n, below));
        SafeFurther(trail, item.name);
        ClearBelow(s.seen, trail, item, below);
        hide Exportable, Files, Bytes, Oid, Good, Raw, Clear, Prefix;
        WalkSucceeds(r, below, trail + [item.name], s);
      case File(mode, oid) =>
        HexAfterUnhex(oid);
        BlobIsVisited(r, record, mode, oid, trail, s, Join(trail + [item.name], '/'));
    }
  }

  /** The path of an entry that nothing seen so far lies at or below is new, and the walk knows it by the same text. */
  lemma PathIsClear(trail: seq<string>, name: string, seen: set<string>, item: Item)
    requires SafeTrail(trail) && SafeComponent(name) && |Join(trail + [name], '/')| <= 4096
    requires Clear(seen, trail, [item]) && item.name == name
    ensures Relative(Prefix(trail), name) == Join(trail + [name], '/') && Join(trail + [name], '/') !in seen
    ensures Split(Join(trail + [name], '/'), '/') == trail + [name] && Prefix(trail + [name]) == Join(trail + [name], '/')
  {
    JoinNext(trail, name);
    SafePathIsOk(trail, name);
    assert item in [item];
    hide Split, PathOk, Join, SafeComponent;
  }

  /** A file within the limits is listed. */
  lemma BlobIsVisited(r: Repository, record: Record, mode: string, oid: string, trail: seq<string>, s: State, path: string)
    requires Sane(r) && |trail| <= MAX_DEPTH && Printable(record, r.n) && IsBytes(record.oid)
    requires record.mode == mode && Hex(record.oid) == oid && (mode == "100644" || mode == "100755")
    requires SafeComponent(record.name) && Relative(Prefix(trail), record.name) == path && |path| <= 4096 && path !in s.seen
    requires oid in r.objects && Holds(r, oid, Object("blob", r.objects[oid].raw)) && |r.objects[oid].raw| <= 64 * 1024 * 1024
    requires Fits(s, 1, |r.objects[oid].raw|)
    ensures var done := Visit(r, record, Prefix(trail), |trail|, s);
            done.Some? && |done.value.entries| == |s.entries| + 1 && done.value.total == s.total + |r.objects[oid].raw|
            && done.value.seen == s.seen + {path}
  {
    assert IsHex(oid) && |oid| == 2 * r.n;
    hide SafeComponent, Split, IsHex, Prefix, Relative, Walk;
    assert ReadObject(r, oid) == Some(r.objects[oid]);
  }

  lemma SafeFurther(trail: seq<string>, name: string)
    requires SafeTrail(trail) && SafeComponent(name)
    ensures SafeTrail(trail + [name])
  {
    hide SafeComponent;
  }

  lemma ClearBelow(seen: set<string>, trail: seq<string>, item: Item, below: seq<Item>)
    requires Clear(seen, trail, [item])
    ensures Clear(seen, trail + [item.name], below)
  {
    hide Split;
    assert item in [item];
    forall q, x | q in seen && x in below
      ensures !(trail + [item.name] + [x.name] <= Split(q, '/'))
    {
      PrefixShortens(trail + [item.name], x.name, Split(q, '/'));
    }
  }

  /** Whatever is stored safely and within the limits is exported. */
  lemma {:induction false} ExportSucceeds(r: Repository, items: seq<Item>)
    requires Sane(r) && Good(items, r.n) && Exportable(r, items, [])
    requires 1 <= Files(items) <= 20_000 && Bytes(r, items) <= 512 * 1024 * 1024
    ensures Exported(r, Oid(r.h, r.n, items)).Some?
  {
    WalkSucceeds(r, items, [], State([], 0, {}));
  }

  // ---------------------------------------------------- what an export tells

  lemma {:induction false} FlattenCounts(r: Repository, items: seq<Item>, trail: seq<string>)
    requires Sane(r)
    ensures |Flatten(r, items, trail)| == Files(items) && Total(Flatten(r, items, trail)) == Bytes(r, items)
    decreases items, 1
  {
    if items != [] {
      FlattenItemCounts(r, items[0], trail);
      FlattenCounts(r, items[1..], trail);
      TotalTogether(FlattenItem(r, items[0], trail), Flatten(r, items[1..], trail));
    }
  }

  lemma {:induction false} FlattenItemCounts(r: Repository, item: Item, trail: seq<string>)
    requires Sane(r)
    ensures |FlattenItem(r, item, trail)| == FilesIn(item) && Total(FlattenItem(r, item, trail)) == BytesIn(r, item)
    decreases item, 0
  {
    match item.node
    case Dir(below) => FlattenCounts(r, below, trail + [item.name]);
    case File(_, _) =>
      var e := FlattenItem(r, item, trail)[0];
      assert [e][..0] == [] && Total([e]) == e.size;
  }

  /** A finished walk read an exportable tree. */
  lemma {:induction false} WalkedIsExportable(r: Repository, oid: string, trail: seq<string>, s: State)
    requires Sane(r) && SafeTrail(trail) && Kept(s, r.n)
    requires Walk(r, oid, Prefix(trail), |trail|, s).Some?
    ensures Good(TreeOf(r, oid, |trail|), r.n) && Exportable(r, TreeOf(r, oid, |trail|), trail)
    decreases MAX_DEPTH + 1 - |trail|, 2, 0
  {
    WalkTells(r, oid, trail, |trail|, s);
    var rs := Listing(r, oid).value;
    ListingIsPrintable(r, oid);
    VisitAllTells(r, rs, trail, |trail|, s);
    hide Kept, Good, SafeTrail, Prefix, VisitAll, Raw, EntriesExportable, ItemsOf;
    VisitedAreExportable(r, rs, trail, s);
    RawIsRead(r, oid, TreeOf(r, oid, |trail|));
  }

  lemma {:induction false} VisitedAreExportable(r: Repository, rs: seq<Record>, trail: seq<string>, s: State)
    requires Sane(r) && |trail| <= MAX_DEPTH && SafeTrail(trail) && Kept(s, r.n)
    requires forall i :: 0 <= i < |rs| ==> Printable(rs[i], r.n) && IsBytes(rs[i].oid)
    requires VisitAll(r, rs, Prefix(trail), |trail|, s).Some?
    requires Good(ItemsOf(r, rs, |trail|), r.n)
    ensures EntriesExportable(r, ItemsOf(r, rs, |trail|), trail)
    decreases MAX_DEPTH + 1 - |trail|, 1, |rs|
  {
    hide Kept, Visit, GoodItem, SafeTrail, Prefix, ItemOf, EntryExportable;
    if rs != [] {
      VisitTells(r, rs[0], trail, |trail|, s);
      var items := ItemsOf(r, rs, |trail|);
      assert items[0] == ItemOf(r, rs[0], |trail|) && items[1..] == ItemsOf(r, rs[1..], |trail|);
      VisitedIsExportable(r, rs[0], trail, s);
      VisitedAreExportable(r, rs[1..], trail, Visit(r, rs[0], Prefix(trail), |trail|, s).value);
    }
  }

  lemma {:induction false} VisitedIsExportable(r: Repository, record: Record, trail: seq<string>, s: State)
    requires Sane(r) && |trail| <= MAX_DEPTH && SafeTrail(trail) && Kept(s, r.n)
    requires Printable(record, r.n) && IsBytes(record.oid)
    requires Visit(r, record, Prefix(trail), |trail|, s).Some? && GoodItem(ItemOf(r, record, |trail|), r.n)
    ensures EntryExportable(r, ItemOf(r, record, |trail|), trail)
    decreases MAX_DEPTH + 1 - |trail|, 0, 0
  {
    JoinNext(trail, record.name);
    if record.mode == DIRECTORY {
      var parts := trail + [record.name];
      assert SafeTrail(parts) && Prefix(parts) == Relative(Prefix(trail), record.name) && |parts| == |trail| + 1;
      hide Kept, Good, SafeTrail, Prefix, Exportable, Walk, TreeOf;
      WalkedIsExportable(r, Hex(record.oid), parts, s);
    }
  }

  lemma RawIsRead(r: Repository, oid: string, items: seq<Item>)
    requires Sane(r) && Listing(r, oid).Some? && Good(items, r.n) && Records(r.h, r.n, items) == Listing(r, oid).value
    requires Oid(r.h, r.n, items) == oid
    ensures Holds(r, oid, Object("tree", Raw(r.h, r.n, items)))
  {
    PrintAfterParse(r.objects[oid].raw, r.n);
    hide Good, Records, ParseTree, PrintTree, Sort;
  }

  /** A tree the exporter accepts. */
  ghost predicate Acceptable(r: Repository, items: seq<Item>)
    requires Sane(r)
  {
    && Good(items, r.n) && Exportable(r, items, [])
    && 1 <= Files(items) <= 20_000 && Bytes(r, items) <= 512 * 1024 * 1024
  }

  /**
   The exporter accepts an identifier exactly when it is that of a tree with at least one file whose objects are all
   stored under their hashes, whose names are safe, and which stays within the limits: directories at most 32 deep,
   paths of 4096 characters, 20000 files, 64 MiB for one file and 512 MiB for all.
   */
  lemma {:induction false} ExportedExactly(r: Repository, oid: string)
    requires Sane(r)
    ensures Exported(r, oid).Some? <==> exists items :: Acceptable(r, items) && Oid(r.h, r.n, items) == oid
  {
    if Exported(r, oid).Some? {
      var start, items := State([], 0, {}), TreeOf(r, oid, 0);
      KeptAtStart(r.n);
      WalkedIsExportable(r, oid, [], start);
      WalkTells(r, oid, [], 0, start);
      FlattenCounts(r, items, []);
      var done := Walk(r, oid, "", 0, start).value;
      LimitsWereKept(done, r.n);
      hide Walk, TreeOf, Good, Exportable, Kept, Flatten, Files, Bytes, Oid;
      assert done.entries == Flatten(r, items, []);
      assert Acceptable(r, items);
    }
    if items :| Acceptable(r, items) && Oid(r.h, r.n, items) == oid {
      ExportSucceeds(r, items);
    }
  }

  lemma LimitsWereKept(s: State, n: nat)
    requires Kept(s, n)
    ensures |s.entries| <= 20_000 && Total(s.entries) <= 512 * 1024 * 1024
  {
  }

  // ------------------------------------------------------- sizes and digests

  /** The entry tells the size and the SHA-256 of the blob it names. */
  ghost predicate Measured(r: Repository, e: Entry) {
    e.oid in r.objects && e.size == |r.objects[e.oid].raw| && e.digest == r.sha256(r.objects[e.oid].raw)
  }

  lemma {:induction false} EntriesAreMeasured(r: Repository, items: seq<Item>, trail: seq<string>)
    requires Sane(r) && Good(items, r.n) && EntriesExportable(r, items, trail)
    ensures forall e <- Flatten(r, items, trail) :: Measured(r, e)
    decreases items, 1
  {
    hide Measured, EntryExportable, FlattenItem, GoodItem;
    if items != [] {
      EntryIsMeasured(r, items[0], trail);
      EntriesAreMeasured(r, items[1..], trail);
    }
  }

  lemma {:induction false} EntryIsMeasured(r: Repository, item: Item, trail: seq<string>)
    requires Sane(r) && GoodItem(item, r.n) && EntryExportable(r, item, trail)
    ensures forall e <- FlattenItem(r, item, trail) :: Measured(r, e)
    decreases item, 0
  {
    if item.node.Dir? {
      EntriesAreMeasured(r, item.node.items, trail + [item.name]);
    }
  }

  /** Every line of an export tells the size and the SHA-256 of its blob. */
  lemma {:induction false} ExportIsMeasured(r: Repository, oid: string)
    requires Sane(r) && Exported(r, oid).Some?
    ensures forall e <- Exported(r, oid).value :: Measured(r, e)
  {
    var start, items := State([], 0, {}), TreeOf(r, oid, 0);
    KeptAtStart(r.n);
    WalkedIsExportable(r, oid, [], start);
    WalkTells(r, oid, [], 0, start);
    EntriesAreMeasured(r, items, []);
    var done := Walk(r, oid, "", 0, start).value;
    assert done.entries == Flatten(r, items, []);
    SortMembers(ByPath, done.entries);
    hide Walk, TreeOf, Measured, Sort;
  }
}
