/**
 The exporter's walk over raw Git trees (`export_release` in deploy/release_export.py) and what the
 importer makes of the manifest it prints.
 */
module Export {
  import opened Wrappers
  import opened Order
  import opened Numerals
  import opened GitTree
  import opened GitHash
  import opened Paths
  import opened Rebuild
  import opened Manifest

  datatype Object = Object(kind: string, raw: string)

  /** The object store, the hash of its format, and SHA-256 for the blobs' contents. */
  datatype Repository = Repository(h: Hash, n: nat, sha256: Hash, objects: map<string, Object>)

  ghost predicate Sane(r: Repository) {
    && (r.n == 20 || r.n == 32) && Digests(r.h, r.n) && Digests(r.sha256, 32)
    && forall oid :: oid in r.objects ==> IsBytes(r.objects[oid].raw)
  }

  /** `read_object`: the bytes must hash to the identifier they were asked for by. */
  function ReadObject(r: Repository, oid: string): (o: Option<Object>) {
    if oid in r.objects && (|oid| == 40 || |oid| == 64) && IsHex(oid)
       && r.h(r.objects[oid].kind + " " + Dec(|r.objects[oid].raw|) + "\0" + r.objects[oid].raw) == oid
    then Some(r.objects[oid]) else None
  }

  predicate SafeComponent(name: string) {
    && 1 <= |name| <= 4096 && name !in [".", "..", ".git"]
    && forall i :: 0 <= i < |name| ==> PathChar(name[i]) && name[i] != '/'
  }

  /** One path component: the allowed characters, and none of the names that mean something to Git or the file system. */
  lemma SafeComponentExactly(name: string)
    ensures SafeComponent(name) <==>
              && 1 <= |name| <= 4096 && name != "." && name != ".." && name != ".git"
              && forall i :: 0 <= i < |name| ==> LetterOrDigit(name[i]) || name[i] in {'.', '_', '+', '@', '-'}
  {
    hide PathChar;
    forall i | 0 <= i < |name|
      ensures PathChar(name[i]) && name[i] != '/' <==> LetterOrDigit(name[i]) || name[i] in {'.', '_', '+', '@', '-'}
    {
      CharactersExactly("", name[i]);
    }
  }

  /** The entries of a tree object, in canonical order and without duplicates. */
  function Listing(r: Repository, oid: string): Option<seq<Record>> {
    match ReadObject(r, oid)
    case None => None
    case Some(o) =>
      if o.kind != "tree" then None
      else
        match ParseTree(o.raw, r.n)
        case None => None
        case Some(rs) =>
          if IsCanonical(rs) && (forall i, j :: 0 <= i < j < |rs| ==> rs[i].name != rs[j].name) then Some(rs) else None
  }

  /** The variables the walk updates. */
  datatype State = State(entries: seq<Entry>, total: nat, seen: set<string>)

  function Relative(prefix: string, name: string): string {
    if prefix == "" then name else prefix + "/" + name
  }

  function Walk(r: Repository, oid: string, prefix: string, depth: nat, s: State): Option<State>
    requires Sane(r)
    decreases MAX_DEPTH + 1 - depth, 1, 0
  {
    if depth > MAX_DEPTH then None
    else
      match Listing(r, oid)
      case None => None
      case Some(rs) => ListingIsPrintable(r, oid); VisitAll(r, rs, prefix, depth, s)
  }

  lemma ListingIsPrintable(r: Repository, oid: string)
    requires Sane(r) && Listing(r, oid).Some?
    ensures forall i :: 0 <= i < |Listing(r, oid).value| ==> Printable(Listing(r, oid).value[i], r.n) && IsBytes(Listing(r, oid).value[i].oid)
  {
    var raw := r.objects[oid].raw;
    PrintAfterParse(raw, r.n);
    BytesOfParts(raw, Listing(r, oid).value);
  }

  lemma {:induction false} BytesOfParts(raw: string, rs: seq<Record>)
    requires IsBytes(raw) && PrintTree(rs) == raw
    ensures forall i :: 0 <= i < |rs| ==> IsBytes(rs[i].oid)
  {
    if rs != [] {
      var head, tail := PrintRecord(rs[0]), PrintTree(rs[1..]);
      assert raw == head + tail;
      assert tail == raw[|head|..];
      assert rs[0].oid == raw[|head| - |rs[0].oid|..|head|];
      BytesOfParts(tail, rs[1..]);
    }
  }

  function VisitAll(r: Repository, rs: seq<Record>, prefix: string, depth: nat, s: State): Option<State>
    requires Sane(r) && depth <= MAX_DEPTH
    requires forall i :: 0 <= i < |rs| ==> Printable(rs[i], r.n) && IsBytes(rs[i].oid)
    decreases MAX_DEPTH + 1 - depth, 0, |rs|
  {
    if rs == [] then Some(s)
    else
      match Visit(r, rs[0], prefix, depth, s)
      case None => None
      case Some(s') => VisitAll(r, rs[1..], prefix, depth, s')
  }

  /** One entry of a tree: a directory is walked, a file is checked, counted and listed. */
  function Visit(r: Repository, record: Record, prefix: string, depth: nat, s: State): Option<State>
    requires Sane(r) && depth <= MAX_DEPTH && Printable(record, r.n) && IsBytes(record.oid)
    decreases MAX_DEPTH + 1 - depth, 0, 0
  {
    var path := Relative(prefix, record.name);
    var oid := Hex(record.oid);
    if !SafeComponent(record.name) || |path| > 4096 || path in s.seen then None
    else if record.mode == DIRECTORY then Walk(r, oid, path, depth + 1, s)
    else if record.mode != "100644" && record.mode != "100755" then None
    else
      match ReadObject(r, oid)
      case None => None
      case Some(o) =>
        if o.kind != "blob" || |o.raw| > MAX_FILE_SIZE || s.total + |o.raw| > MAX_TOTAL_SIZE || |s.entries| >= MAX_ENTRIES
        then None
        else Some(State(s.entries + [Entry(record.mode, oid, |o.raw|, r.sha256(o.raw), path)], s.total + |o.raw|, s.seen + {path}))
  }

  class Walker {
    const r: Repository
    var entries: seq<Entry>
    var total: nat
    var seen: set<string>

    function Current(): State
      reads this
    {
      State(entries, total, seen)
    }

    constructor (r: Repository)
      ensures this.r == r && Current() == State([], 0, {})
    {
      this.r := r;
      entries, total, seen := [], 0, {};
    }

    /** `walk_tree` */
    method WalkTree(oid: string, prefix: string, depth: nat) returns (ok: bool)
      requires Sane(r)
      modifies this
      ensures ok ==> Walk(r, oid, prefix, depth, old(Current())) == Some(Current())
      ensures !ok ==> Walk(r, oid, prefix, depth, old(Current())) == None
      decreases MAX_DEPTH + 1 - depth
    {
      hide Visit, ReadObject, ParseTree, IsCanonical, Sane;
      if depth > MAX_DEPTH {
        return false;
      }
      var found := ReadObject(r, oid);
      if found.None? || found.value.kind != "tree" {
        return false;
      }
      var parsed := ReadRecords(found.value.raw, r.n);
      if parsed.None? {
        return false;
      }
      var rs := parsed.value;
      if !IsCanonical(rs) || exists i, j :: 0 <= i < j < |rs| && rs[i].name == rs[j].name {
        return false;
      }
      ListingIsPrintable(r, oid);
      for i := 0 to |rs|
        invariant VisitAll(r, rs, prefix, depth, old(Current())) == VisitAll(r, rs[i..], prefix, depth, Current())
      {
        assert rs[i..][0] == rs[i] && rs[i..][1..] == rs[i + 1..];
        ok := VisitEntry(rs[i], prefix, depth);
        if !ok {
          return;
        }
      }
      return true;
    }

    method VisitEntry(record: Record, prefix: string, depth: nat) returns (ok: bool)
      requires Sane(r) && depth <= MAX_DEPTH && Printable(record, r.n) && IsBytes(record.oid)
      modifies this
      ensures ok ==> Visit(r, record, prefix, depth, old(Current())) == Some(Current())
      ensures !ok ==> Visit(r, record, prefix, depth, old(Current())) == None
      decreases MAX_DEPTH + 1 - depth, 0
    {
      hide Walk, ReadObject, SafeComponent, Sane;
      var path := Relative(prefix, record.name);
      var oid := Hex(record.oid);
      if !SafeComponent(record.name) || |path| > 4096 || path in seen {
        return false;
      }
      if record.mode == DIRECTORY {
        ok := WalkTree(oid, path, depth + 1);
        return;
      }
      if record.mode != "100644" && record.mode != "100755" {
        return false;
      }
      var found := ReadObject(r, oid);
      if found.None? || found.value.kind != "blob" {
        return false;
      }
      var blob := found.value.raw;
      if |blob| > MAX_FILE_SIZE || total + |blob| > MAX_TOTAL_SIZE || |entries| >= MAX_ENTRIES {
        return false;
      }
      total := total + |blob|;
      seen := seen + {path};
      entries := entries + [Entry(record.mode, oid, |blob|, r.sha256(blob), path)];
      return true;
    }
  }

  // ------------------------------------------------ what a finished walk means

  /** The nested tree below a tree object. */
  function TreeOf(r: Repository, oid: string, depth: nat): seq<Item>
    requires Sane(r)
    decreases MAX_DEPTH + 1 - depth, 1, 0
  {
    if depth > MAX_DEPTH || Listing(r, oid).None? then []
    else
      ListingIsPrintable(r, oid);
      ItemsOf(r, Listing(r, oid).value, depth)
  }

  function ItemsOf(r: Repository, rs: seq<Record>, depth: nat): (items: seq<Item>)
    requires Sane(r) && depth <= MAX_DEPTH
    requires forall i :: 0 <= i < |rs| ==> Printable(rs[i], r.n) && IsBytes(rs[i].oid)
    ensures |items| == |rs| && forall i :: 0 <= i < |rs| ==> items[i].name == rs[i].name
    decreases MAX_DEPTH + 1 - depth, 0, |rs|
  {
    if rs == [] then [] else [ItemOf(r, rs[0], depth)] + ItemsOf(r, rs[1..], depth)
  }

  function ItemOf(r: Repository, record: Record, depth: nat): (item: Item)
    requires Sane(r) && depth <= MAX_DEPTH && Printable(record, r.n) && IsBytes(record.oid)
    ensures item.name == record.name
    decreases MAX_DEPTH + 1 - depth, 0, 0
  {
    Item(record.name, if record.mode == DIRECTORY then Dir(TreeOf(r, Hex(record.oid), depth + 1))
                      else File(record.mode, Hex(record.oid)))
  }

  /** The manifest entries of a tree found below the directories `trail`, in walking order. */
  function Flatten(r: Repository, items: seq<Item>, trail: seq<string>): seq<Entry>
    requires Sane(r)
    decreases items, 1
  {
    if items == [] then [] else FlattenItem(r, items[0], trail) + Flatten(r, items[1..], trail)
  }

  function FlattenItem(r: Repository, item: Item, trail: seq<string>): seq<Entry>
    requires Sane(r)
    decreases item, 0
  {
    match item.node
    case Dir(below) => Flatten(r, below, trail + [item.name])
    case File(mode, oid) =>
      var blob := if oid in r.objects then r.objects[oid].raw else "";
      [Entry(mode, oid, |blob|, r.sha256(blob), Join(trail + [item.name], '/'))]
  }

  predicate SafeTrail(trail: seq<string>) {
    forall i :: 0 <= i < |trail| ==> SafeComponent(trail[i])
  }

  function Prefix(trail: seq<string>): string {
    if trail == [] then "" else Join(trail, '/')
  }

  lemma {:induction false} JoinNext(trail: seq<string>, name: string)
    requires SafeTrail(trail)
    ensures Relative(Prefix(trail), name) == Join(trail + [name], '/')
    ensures trail != [] ==> Join(trail, '/') != ""
    decreases |trail|
  {
    if trail == [] {
      assert trail + [name] == [name];
    } else if |trail| == 1 {
      assert SafeComponent(trail[0]);
      assert (trail + [name])[1..] == [name];
    } else {
      var tail := trail[1..];
      JoinNext(tail, name);
      assert (trail + [name])[1..] == tail + [name];
    }
  }

  /** What the walk keeps: exact totals, one entry per path, every entry printable and within the limits. */
  predicate Kept(s: State, n: nat) {
    && s.total == Total(s.entries) <= MAX_TOTAL_SIZE && |s.entries| <= MAX_ENTRIES && s.seen == PathsOf(s.entries)
    && (forall i, j :: 0 <= i < j < |s.entries| ==> s.entries[i].path != s.entries[j].path)
    && (forall i :: 0 <= i < |s.entries| ==> EntryOk(s.entries[i], n) && s.entries[i].size <= MAX_FILE_SIZE)
  }

  lemma SafePathIsOk(trail: seq<string>, name: string)
    requires SafeTrail(trail) && SafeComponent(name) && |Join(trail + [name], '/')| <= 4096
    ensures PathOk(Join(trail + [name], '/')) && Split(Join(trail + [name], '/'), '/') == trail + [name]
  {
    var parts := trail + [name];
    var path := Join(parts, '/');
    assert SafeTrail(parts);
    assert Free(parts, '/') by {
      forall i | 0 <= i < |parts|
        ensures '/' !in parts[i]
      {
        assert SafeComponent(parts[i]);
      }
    }
    SplitAfterJoin(parts, '/');
    JoinIsPath(parts);
    forall i | 0 <= i < |parts|
      ensures parts[i] !in ["", ".", "..", ".git"]
    {
      assert SafeComponent(parts[i]);
    }
  }

  lemma {:induction false} JoinIsPath(parts: seq<string>)
    requires parts != [] && SafeTrail(parts)
    ensures |Join(parts, '/')| >= 1 && forall i :: 0 <= i < |Join(parts, '/')| ==> PathChar(Join(parts, '/')[i])
  {
    assert SafeComponent(parts[0]);
    if |parts| > 1 {
      JoinIsPath(parts[1..]);
      assert PathChar('/');
    }
  }

  lemma KeptNext(s: State, n: nat, e: Entry)
    requires Kept(s, n) && EntryOk(e, n) && e.size <= MAX_FILE_SIZE && e.path !in s.seen
    requires |s.entries| < MAX_ENTRIES && s.total + e.size <= MAX_TOTAL_SIZE
    ensures Kept(State(s.entries + [e], s.total + e.size, s.seen + {e.path}), n)
  {
    hide EntryOk, PathsOf, Total;
    TotalNext(s.entries, e);
    PathsNext(s.entries, e);
    var all := s.entries + [e];
    assert forall i :: 0 <= i < |s.entries| ==> all[i] == s.entries[i] && s.entries[i] in s.entries;
  }

  lemma FileIsKept(r: Repository, record: Record, trail: seq<string>, depth: nat, s: State)
    requires Sane(r) && depth <= MAX_DEPTH && Printable(record, r.n) && IsBytes(record.oid)
    requires SafeTrail(trail) && Kept(s, r.n) && record.mode != DIRECTORY
    requires Visit(r, record, Prefix(trail), depth, s).Some?
    ensures Kept(Visit(r, record, Prefix(trail), depth, s).value, r.n)
    ensures Visit(r, record, Prefix(trail), depth, s).value.entries == s.entries + FlattenItem(r, ItemOf(r, record, depth), trail)
    ensures GoodItem(ItemOf(r, record, depth), r.n)
    ensures RecordOf(r.h, r.n, ItemOf(r, record, depth)) == record
  {
    JoinNext(trail, record.name);
    SafePathIsOk(trail, record.name);
    UnhexAfterHex(record.oid);
    hide Kept, PathOk, Split, Join, SafeTrail, Prefix, Walk;
    var blob := r.objects[Hex(record.oid)].raw;
    var e := Entry(record.mode, Hex(record.oid), |blob|, r.sha256(blob), Relative(Prefix(trail), record.name));
    assert EntryOk(e, r.n);
    KeptNext(s, r.n, e);
    assert '\0' !in record.name && '/' !in record.name;
  }

  /**
   A finished walk of a tree object: the tree found there has exactly that identifier, in Git's order, and
   the walk listed exactly its files.
   */
  lemma {:induction false} WalkTells(r: Repository, oid: string, trail: seq<string>, depth: nat, s: State)
    requires Sane(r) && SafeTrail(trail) && Kept(s, r.n)
    requires Walk(r, oid, Prefix(trail), depth, s).Some?
    ensures Good(TreeOf(r, oid, depth), r.n) && Oid(r.h, r.n, TreeOf(r, oid, depth)) == oid
    ensures var s' := Walk(r, oid, Prefix(trail), depth, s).value;
            Kept(s', r.n) && s'.entries == s.entries + Flatten(r, TreeOf(r, oid, depth), trail)
    decreases MAX_DEPTH + 1 - depth, 1, 0
  {
    hide Kept, Good, Flatten, SafeTrail, Prefix;
    var rs := Listing(r, oid).value;
    ListingIsPrintable(r, oid);
    VisitAllTells(r, rs, trail, depth, s);
    TreeIsListed(r, oid, rs, ItemsOf(r, rs, depth));
  }

  /** The tree object is what its own records print, and hashes to the identifier it was read by. */
  lemma TreeIsListed(r: Repository, oid: string, rs: seq<Record>, items: seq<Item>)
    requires Sane(r) && Listing(r, oid) == Some(rs) && Good(items, r.n) && Records(r.h, r.n, items) == rs
    ensures Oid(r.h, r.n, items) == oid
  {
    hide Good, Records, ParseTree, PrintTree, Sort;
    var raw := r.objects[oid].raw;
    PrintAfterParse(raw, r.n);
    assert Raw(r.h, r.n, items) == raw;
    assert "tree" + " " == "tree ";
    assert "tree" + " " + Dec(|raw|) + "\0" + raw == Preimage(raw);
  }

  lemma {:induction false} VisitAllTells(r: Repository, rs: seq<Record>, trail: seq<string>, depth: nat, s: State)
    requires Sane(r) && depth <= MAX_DEPTH && SafeTrail(trail) && Kept(s, r.n)
    requires forall i :: 0 <= i < |rs| ==> Printable(rs[i], r.n) && IsBytes(rs[i].oid)
    requires forall i, j :: 0 <= i < j < |rs| ==> rs[i].name != rs[j].name
    requires VisitAll(r, rs, Prefix(trail), depth, s).Some?
    ensures Good(ItemsOf(r, rs, depth), r.n) && Records(r.h, r.n, ItemsOf(r, rs, depth)) == rs
    ensures var s' := VisitAll(r, rs, Prefix(trail), depth, s).value;
            Kept(s', r.n) && s'.entries == s.entries + Flatten(r, ItemsOf(r, rs, depth), trail)
    decreases MAX_DEPTH + 1 - depth, 0, |rs|
  {
    hide Kept, Visit, GoodItem, FlattenItem, SafeTrail, Prefix, Sane, Printable, IsBytes, RecordOf, ItemOf;
    if rs != [] {
      VisitTells(r, rs[0], trail, depth, s);
      var s1 := Visit(r, rs[0], Prefix(trail), depth, s).value;
      VisitAllTells(r, rs[1..], trail, depth, s1);
      var items := ItemsOf(r, rs, depth);
      assert items[0] == ItemOf(r, rs[0], depth) && items[1..] == ItemsOf(r, rs[1..], depth);
      hide ItemsOf, VisitAll, Good, Records, Flatten;
      ItemsTogether(r, rs, items, trail, s.entries, s1.entries, VisitAll(r, rs[1..], Prefix(trail), depth, s1).value.entries);
    }
  }

  lemma ItemsTogether(r: Repository, rs: seq<Record>, items: seq<Item>, trail: seq<string>,
                      before: seq<Entry>, middle: seq<Entry>, after: seq<Entry>)
    requires Sane(r) && items != [] && |items| == |rs| && forall i :: 0 <= i < |rs| ==> items[i].name == rs[i].name
    requires forall i, j :: 0 <= i < j < |rs| ==> rs[i].name != rs[j].name
    requires GoodItem(items[0], r.n) && RecordOf(r.h, r.n, items[0]) == rs[0]
    requires Good(items[1..], r.n) && Records(r.h, r.n, items[1..]) == rs[1..]
    requires middle == before + FlattenItem(r, items[0], trail) && after == middle + Flatten(r, items[1..], trail)
    ensures Good(items, r.n) && Records(r.h, r.n, items) == rs && after == before + Flatten(r, items, trail)
  {
    hide GoodItem, RecordOf, FlattenItem, Sane;
    GoodNext(items, r.n, rs);
    assert rs == [rs[0]] + rs[1..];
    MoreEntries(before, FlattenItem(r, items[0], trail), Flatten(r, items[1..], trail));
  }

  lemma MoreEntries(a: seq<Entry>, b: seq<Entry>, c: seq<Entry>)
    ensures a + b + c == a + (b + c)
  {
  }

  lemma GoodNext(items: seq<Item>, n: nat, rs: seq<Record>)
    requires items != [] && |items| == |rs| && GoodItem(items[0], n) && Good(items[1..], n)
    requires forall i :: 0 <= i < |rs| ==> items[i].name == rs[i].name
    requires forall i, j :: 0 <= i < j < |rs| ==> rs[i].name != rs[j].name
    ensures Good(items, n)
  {
    forall x | x in items[1..]
      ensures x.name != items[0].name
    {
      var i :| 0 <= i < |items[1..]| && items[1..][i] == x;
      assert x == items[i + 1];
    }
  }

  lemma {:induction false} VisitTells(r: Repository, record: Record, trail: seq<string>, depth: nat, s: State)
    requires Sane(r) && depth <= MAX_DEPTH && Printable(record, r.n) && IsBytes(record.oid)
    requires SafeTrail(trail) && Kept(s, r.n)
    requires Visit(r, record, Prefix(trail), depth, s).Some?
    ensures GoodItem(ItemOf(r, record, depth), r.n) && RecordOf(r.h, r.n, ItemOf(r, record, depth)) == record
    ensures var s' := Visit(r, record, Prefix(trail), depth, s).value;
            Kept(s', r.n) && s'.entries == s.entries + FlattenItem(r, ItemOf(r, record, depth), trail)
    decreases MAX_DEPTH + 1 - depth, 0, 0
  {
    if record.mode == DIRECTORY {
      var oid, inner := Hex(record.oid), trail + [record.name];
      JoinNext(trail, record.name);
      assert SafeTrail(inner) && Prefix(inner) == Relative(Prefix(trail), record.name);
      hide Kept, Walk, Flatten, Good, SafeTrail, Prefix, Oid;
      WalkTells(r, oid, inner, depth + 1, s);
      UnhexAfterHex(record.oid);
      DirectoryRecord(r, record, TreeOf(r, oid, depth + 1), oid);
    } else {
      hide Walk;
      FileIsKept(r, record, trail, depth, s);
    }
  }

  lemma DirectoryRecord(r: Repository, record: Record, items: seq<Item>, oid: string)
    requires Sane(r) && SafeComponent(record.name) && record.mode == DIRECTORY
    requires Good(items, r.n) && Oid(r.h, r.n, items) == oid && Unhex(oid) == record.oid
    ensures GoodItem(Item(record.name, Dir(items)), r.n)
    ensures RecordOf(r.h, r.n, Item(record.name, Dir(items))) == record
  {
    hide Good;
    assert '\0' !in record.name && '/' !in record.name;
  }

  // --------------------------------------------- the listed files of the tree

  /** The files of a tree that stands below the directories `trail`. */
  function Placed(trail: seq<string>, leaves: set<Leaf>): set<Leaf> {
    set l | l in leaves && l.what.Blob? :: Leaf(trail + l.path, l.what)
  }

  lemma ListedTogether(a: seq<Entry>, b: seq<Entry>)
    ensures Listed(a + b) == Listed(a) + Listed(b)
  {
    assert forall e :: e in a + b <==> e in a || e in b;
  }

  lemma PlacedTogether(trail: seq<string>, a: set<Leaf>, b: set<Leaf>)
    ensures Placed(trail, a + b) == Placed(trail, a) + Placed(trail, b)
  {
  }

  lemma PlacedUnder(trail: seq<string>, name: string, leaves: set<Leaf>)
    ensures Placed(trail, Under(name, leaves)) == Placed(trail + [name], leaves)
  {
    forall l | l in leaves
      ensures trail + ([name] + l.path) == trail + [name] + l.path
    {
    }
    forall x | x in Placed(trail + [name], leaves)
      ensures x in Placed(trail, Under(name, leaves))
    {
      var l :| l in leaves && l.what.Blob? && x == Leaf(trail + [name] + l.path, l.what);
      assert Leaf([name] + l.path, l.what) in Under(name, leaves);
    }
  }

  lemma {:induction false} FlattenLists(r: Repository, items: seq<Item>, trail: seq<string>)
    requires Sane(r) && Good(items, r.n) && Free(trail, '/')
    ensures Listed(Flatten(r, items, trail)) == Placed(trail, Leaves(items))
    decreases items, 1
  {
    hide LeavesOf, FlattenItem, Placed, Listed, Free, GoodItem;
    if items == [] {
      assert Listed([]) == {} && Placed(trail, {}) == {} by { NothingListed(trail); }
    } else {
      FlattenItemLists(r, items[0], trail);
      FlattenLists(r, items[1..], trail);
      ListedTogether(FlattenItem(r, items[0], trail), Flatten(r, items[1..], trail));
      PlacedTogether(trail, LeavesOf(items[0]), Leaves(items[1..]));
    }
  }

  lemma NothingListed(trail: seq<string>)
    ensures Listed([]) == {} && Placed(trail, {}) == {}
  {
  }

  lemma {:induction false} FlattenItemLists(r: Repository, item: Item, trail: seq<string>)
    requires Sane(r) && GoodItem(item, r.n) && Free(trail, '/')
    ensures Listed(FlattenItem(r, item, trail)) == Placed(trail, LeavesOf(item))
    decreases item, 0
  {
    var parts := trail + [item.name];
    assert Free(parts, '/');
    match item.node
    case File(mode, oid) =>
      SplitAfterJoin(parts, '/');
      assert Placed(trail, LeavesOf(item)) == {Leaf(parts, Blob(mode, oid))};
    case Dir(below) =>
      FlattenLists(r, below, parts);
      if below == [] {
        assert Placed(trail, {Leaf([item.name], Nothing)}) == {};
        NothingListed(parts);
      } else {
        PlacedUnder(trail, item.name, Leaves(below));
      }
  }

  /** In a tree, no path runs through another path's end. */
  lemma {:induction false} LeavesArePrefixFree(items: seq<Item>, n: nat, l: Leaf, m: Leaf)
    requires Good(items, n) && l in Leaves(items) && m in Leaves(items) && l.path <= m.path
    ensures l == m
    decreases items
  {
    LeavesAre(items, l);
    LeavesAre(items, m);
    hide Leaves, Good;
    var i :| 0 <= i < |items| && l in LeavesOf(items[i]);
    var j :| 0 <= j < |items| && m in LeavesOf(items[j]);
    LeafBelow(items[i], l);
    LeafBelow(items[j], m);
    GoodAt(items, n, i);
    assert i == j;
    if items[i].node.Dir? && items[i].node.items != [] {
      var below := items[i].node.items;
      var l' :| l' in Leaves(below) && l == Leaf([items[i].name] + l'.path, l'.what);
      var m' :| m' in Leaves(below) && m == Leaf([items[i].name] + m'.path, m'.what);
      PrefixBelow(items[i].name, l'.path, m'.path);
      LeavesArePrefixFree(below, n, l', m');
    }
  }

  // ----------------------------------------------------- sorting the manifest

  predicate ByPath(a: Entry, b: Entry) {
    Less(a.path, b.path)
  }

  lemma {:induction false} TotalOfInsert(e: Entry, es: seq<Entry>)
    ensures Total(Insert(ByPath, e, es)) == Total(es) + e.size
  {
    if es == [] || ByPath(e, es[0]) {
      TotalTogether([e], es);
      assert [e][..0] == [];
    } else {
      TotalOfInsert(e, es[1..]);
      TotalTogether([es[0]], Insert(ByPath, e, es[1..]));
      TotalTogether([es[0]], es[1..]);
      assert es == [es[0]] + es[1..];
    }
  }

  lemma {:induction false} TotalTogether(a: seq<Entry>, b: seq<Entry>)
    ensures Total(a + b) == Total(a) + Total(b)
  {
    if b == [] {
      assert a + b == a;
    } else {
      assert (a + b)[..|a + b| - 1] == a + b[..|b| - 1];
      TotalTogether(a, b[..|b| - 1]);
    }
  }

  lemma {:induction false} TotalOfSort(es: seq<Entry>)
    ensures Total(Sort(ByPath, es)) == Total(es)
  {
    if es != [] {
      TotalOfSort(es[1..]);
      TotalOfInsert(es[0], Sort(ByPath, es[1..]));
      TotalTogether([es[0]], es[1..]);
      assert es == [es[0]] + es[1..] && [es[0]][..0] == [];
    }
  }

  lemma ByPathOrders(es: seq<Entry>, dom: set<Entry>)
    requires forall i, j :: 0 <= i < j < |es| ==> es[i].path != es[j].path
    requires forall e :: e in dom <==> e in es
    ensures Orders(ByPath, dom)
  {
    hide Less;
    forall a, b | a in dom && b in dom
      ensures ByPath(a, b) ==> !ByPath(b, a)
      ensures a != b ==> ByPath(a, b) || ByPath(b, a)
    {
      LessTotal(a.path, b.path);
      LessIrreflexive(a.path);
      if Less(a.path, b.path) && Less(b.path, a.path) {
        LessTransitive(a.path, b.path, a.path);
      }
    }
    forall a, b, c | a in dom && b in dom && c in dom && ByPath(a, b) && ByPath(b, c)
      ensures ByPath(a, c)
    {
      LessTransitive(a.path, b.path, c.path);
    }
  }

  lemma SortedByPath(es: seq<Entry>)
    requires forall i, j :: 0 <= i < j < |es| ==> es[i].path != es[j].path
    ensures Sorted(ByPath, Sort(ByPath, es))
    ensures forall e :: e in Sort(ByPath, es) <==> e in es
  {
    var dom := set e | e in es;
    ByPathOrders(es, dom);
    SortSorts(ByPath, dom, es);
    SortMembers(ByPath, es);
  }

  predicate Shallow(es: seq<Entry>) {
    forall i :: 0 <= i < |es| ==> |Split(es[i].path, '/')| <= MAX_DEPTH
  }

  /** A sorted list within the exporter's limits is acceptable to the importer exactly when no path is too deep. */
  lemma {:induction false} AcceptableIfShallow(es: seq<Entry>)
    requires Sorted(ByPath, es) && |es| <= MAX_ENTRIES && Total(es) <= MAX_TOTAL_SIZE
    requires forall i :: 0 <= i < |es| ==> es[i].path != "" && es[i].size <= MAX_FILE_SIZE
    ensures Acceptable(es) <==> Shallow(es)
  {
    if es != [] {
      var init, e := es[..|es| - 1], es[|es| - 1];
      ComesNext(es);
      ShallowNext(es);
      assert es[|es| - 1].path != "";
      hide Less, Split, Sorted, ByPath, Shallow;
      AcceptableIfShallow(init);
      FitsIfShallow(init, e);
      hide Fits, Total;
    }
  }

  lemma ShallowNext(es: seq<Entry>)
    requires es != []
    ensures Shallow(es) <==> Shallow(es[..|es| - 1]) && |Split(es[|es| - 1].path, '/')| <= MAX_DEPTH
  {
    hide Split;
    assert es == es[..|es| - 1] + [es[|es| - 1]];
  }

  lemma FitsIfShallow(init: seq<Entry>, e: Entry)
    requires forall x <- init :: Less(x.path, e.path) && x.path != e.path
    requires |init| < MAX_ENTRIES && Total(init) + e.size <= MAX_TOTAL_SIZE && e.path != "" && e.size <= MAX_FILE_SIZE
    ensures Fits(init, e) <==> |Split(e.path, '/')| <= MAX_DEPTH
  {
    NothingIsLeast(e.path);
    hide Less, Split, Total;
    assert init != [] ==> init[|init| - 1] in init;
  }

  lemma ComesNext(es: seq<Entry>)
    requires es != [] && Sorted(ByPath, es)
    ensures Sorted(ByPath, es[..|es| - 1])
    ensures forall x <- es[..|es| - 1] :: Less(x.path, es[|es| - 1].path) && x.path != es[|es| - 1].path
  {
    hide Less;
    var init, e := es[..|es| - 1], es[|es| - 1];
    LessIrreflexive(e.path);
    forall i | 0 <= i < |init|
      ensures Less(init[i].path, e.path)
    {
      assert ByPath(es[i], es[|es| - 1]);
    }
  }

  lemma NothingIsLeast(s: string)
    requires s != ""
    ensures Less("", s)
  {
  }

  // -------------------------------------------------------------- the theorem

  /** A whole export: the walk from the root, and the entries as the manifest lists them. */
  function Exported(r: Repository, oid: string): Option<seq<Entry>>
    requires Sane(r)
  {
    match Walk(r, oid, "", 0, State([], 0, {}))
    case None => None
    case Some(s) => if s.entries == [] then None else Some(Sort(ByPath, s.entries))
  }

  lemma ExportedIsTree(r: Repository, oid: string)
    requires Sane(r) && Exported(r, oid).Some?
    ensures Good(TreeOf(r, oid, 0), r.n) && Oid(r.h, r.n, TreeOf(r, oid, 0)) == oid
    ensures var es := Exported(r, oid).value;
            && es != [] && (forall i :: 0 <= i < |es| ==> EntryOk(es[i], r.n))
            && Listed(es) == Placed([], Leaves(TreeOf(r, oid, 0)))
            && (forall i, j :: 0 <= i < j < |es| ==> es[i].path != es[j].path)
            && (Acceptable(es) <==> Shallow(es))
  {
    hide Kept, Good, Flatten, Sorted, EntryOk, Split, Leaves, Listed, Placed, Acceptable, Shallow, Walk;
    var start := State([], 0, {});
    KeptAtStart(r.n);
    WalkTells(r, oid, [], 0, start);
    var s := Walk(r, oid, "", 0, start).value;
    var items := TreeOf(r, oid, 0);
    assert s.entries == Flatten(r, items, []);
    FlattenLists(r, items, []) by { assert Free([], '/'); }
    SortKeeps(s, r.n);
  }

  lemma KeptAtStart(n: nat)
    ensures Kept(State([], 0, {}), n)
  {
  }

  lemma SortKeeps(s: State, n: nat)
    requires Kept(s, n)
    ensures var es := Sort(ByPath, s.entries);
            && Listed(es) == Listed(s.entries)
            && (forall i :: 0 <= i < |es| ==> EntryOk(es[i], n))
            && (forall i, j :: 0 <= i < j < |es| ==> es[i].path != es[j].path)
            && (Acceptable(es) <==> Shallow(es))
  {
    hide EntryOk, Acceptable, Shallow, Less;
    var es := Sort(ByPath, s.entries);
    SortedByPath(s.entries);
    TotalOfSort(s.entries);
    forall i | 0 <= i < |es|
      ensures EntryOk(es[i], n) && es[i].path != "" && es[i].size <= MAX_FILE_SIZE
    {
      assert es[i] in es;
      var j :| 0 <= j < |s.entries| && s.entries[j] == es[i];
      PathIsNotEmpty(s.entries[j], n);
    }
    forall i, j | 0 <= i < j < |es|
      ensures es[i].path != es[j].path
    {
      assert ByPath(es[i], es[j]);
      LessIrreflexive(es[i].path);
    }
    AcceptableIfShallow(es);
  }

  lemma PathIsNotEmpty(e: Entry, n: nat)
    requires EntryOk(e, n)
    ensures e.path != ""
  {
  }

  /** Files of one tree never collide. */
  lemma TreeFilesAreApart(es: seq<Entry>, items: seq<Item>, n: nat)
    requires Good(items, n) && Listed(es) == Placed([], Leaves(items))
    requires forall i, j :: 0 <= i < j < |es| ==> es[i].path != es[j].path
    ensures Apart(es)
  {
    forall i, j | 0 <= i < j < |es|
      ensures !Meet(es[i], es[j])
    {
      var l := LeafOf(es, items, i);
      var m := LeafOf(es, items, j);
      JoinAfterSplit(es[i].path, '/');
      JoinAfterSplit(es[j].path, '/');
      if l.path <= m.path {
        LeavesArePrefixFree(items, n, l, m);
      }
      if m.path <= l.path {
        LeavesArePrefixFree(items, n, m, l);
      }
    }
  }

  lemma LeafOf(es: seq<Entry>, items: seq<Item>, i: nat) returns (l: Leaf)
    requires Listed(es) == Placed([], Leaves(items)) && i < |es|
    ensures l in Leaves(items) && l.path == Split(es[i].path, '/')
  {
    hide Leaves;
    var x := Leaf(Split(es[i].path, '/'), Blob(es[i].mode, es[i].oid));
    assert x in Listed(es);
    l :| l in Leaves(items) && l.what.Blob? && x == Leaf([] + l.path, l.what);
  }

  lemma FullIsPlaced(items: seq<Item>)
    ensures Full(items) <==> Placed([], Leaves(items)) == Leaves(items)
  {
    hide Leaves;
    var all, none := Leaves(items), [];
    forall l
      ensures l in Placed(none, all) <==> l in all && l.what.Blob?
    {
      assert none + l.path == l.path && Leaf(none + l.path, l.what) == l;
      if l in Placed(none, all) {
        var x :| x in all && x.what.Blob? && l == Leaf(none + x.path, x.what);
        assert none + x.path == x.path;
      }
    }
  }

  /**
   Exporting and importing.  For every repository and tree the exporter accepts, the printed manifest is
   parsed back to the same metadata and entries if no path has more than 32 components and no directory is
   empty; a deeper path is always refused; and with an empty directory it is accepted only on a collision
   between two strings hashed for the original and for the rebuilt tree.
   */
  lemma ExportThenImport(hashes: Hashes, r: Repository, m: Meta)
    requires Widths(hashes) && MetaOk(m) && Sane(r) && r.h == hashes(m.format) && r.n == OidBytes(m.format)
    requires Exported(r, m.treeOid).Some?
    ensures var es, items := Exported(r, m.treeOid).value, TreeOf(r, m.treeOid, 0);
            var parsed := ParseManifest(hashes, PrintManifest(m, es));
            && Good(items, r.n)
            && (parsed == Some((m, es)) || parsed == None)
            && (Full(items) ==> (parsed == Some((m, es)) <==> Shallow(es)))
            && (!Shallow(es) ==> parsed == None)
            && (!Full(items) && parsed != None ==>
                  Build(es).Some? && Good(Build(es).value, r.n)
                  && Clash(r.h, Hashed(r.h, r.n, items), Hashed(r.h, r.n, Build(es).value)))
  {
    hide Kept, Good, Full, Listed, Placed, Leaves, Acceptable, Shallow, Apart, Clash, ParseManifest, PrintManifest, Hashed, Raw;
    var es, items := Exported(r, m.treeOid).value, TreeOf(r, m.treeOid, 0);
    ExportedIsTree(r, m.treeOid);
    RoundTrip(hashes, m, es);
    TreeFilesAreApart(es, items, r.n);
    BuildIsRight(es, r.n);
    var built := Build(es).value;
    FullIsPlaced(items);
    if Leaves(built) == Leaves(items) {
      TreeIsItsLeaves(r.h, r.n, built, items);
    } else if Oid(r.h, r.n, built) == m.treeOid {
      Binding(r.h, r.n, items, built);
    }
  }
}
