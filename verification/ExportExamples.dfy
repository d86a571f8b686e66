/**
 Two trees that the exporter accepts and the importer refuses: one with a path of 33 components, one with
 an empty directory.  They do so under every pair of hashes that tells their few objects apart.
 */
module ExportExamples {
  import opened Wrappers
  import opened Order
  import opened Numerals
  import opened GitTree
  import opened GitHash
  import opened Paths
  import opened Rebuild
  import opened Manifest
  import opened Export

  /** What is hashed for an object besides its bytes. */
  function Head(o: Object): string {
    o.kind + " " + Dec(|o.raw|) + "\0"
  }

  function ObjectId(h: Hash, o: Object): (id: string)
    requires Digests(h, 20)
    ensures IsHex(id) && |id| == 40
  {
    h(Head(o) + o.raw)
  }

  /** An identifier as it stands in a tree. */
  function Raw20(id: string): (s: string)
    requires IsHex(id) && |id| == 40
    ensures |s| == 20 && IsBytes(s) && Hex(s) == id
  {
    HexAfterUnhex(id);
    Unhex(id)
  }

  const BLOB := [255 as char]
  const FILE := Object("blob", BLOB)

  // ----------------------------------------------------------- a deep chain

  /** Level 0 is a blob, level 1 a tree holding it as `f`, each further level holds the one below as `a`. */
  function Level(h: Hash, k: nat): Object
    requires Digests(h, 20)
    decreases k, 0
  {
    if k == 0 then FILE else Object("tree", PrintTree([Entry1(h, k)]))
  }

  function Entry1(h: Hash, k: nat): Record
    requires Digests(h, 20) && 1 <= k
    decreases k - 1, 2
  {
    if k == 1 then Record("100644", "f", Raw20(Name(h, 0))) else Record("40000", "a", Raw20(Name(h, k - 1)))
  }

  function Name(h: Hash, k: nat): (id: string)
    requires Digests(h, 20)
    ensures IsHex(id) && |id| == 40
    decreases k, 1
  {
    ObjectId(h, Level(h, k))
  }

  /** The hash tells the 34 objects of the chain apart. */
  ghost predicate Separates(h: Hash)
    requires Digests(h, 20)
  {
    forall j: nat, k: nat :: j < k <= 33 ==> Name(h, j) != Name(h, k)
  }

  function Chain(h: Hash, k: nat): (objects: map<string, Object>)
    requires Digests(h, 20)
  {
    if k == 0 then map[Name(h, 0) := Level(h, 0)] else Chain(h, k - 1)[Name(h, k) := Level(h, k)]
  }

  lemma {:induction false} ChainHas(h: Hash, k: nat, j: nat)
    requires Digests(h, 20) && Separates(h) && j <= k <= 33
    ensures Name(h, j) in Chain(h, k) && Chain(h, k)[Name(h, j)] == Level(h, j)
  {
    if j < k {
      assert Name(h, j) != Name(h, k);
      hide Name, Level, Separates;
      ChainHas(h, k - 1, j);
    }
  }

  lemma {:induction false} ChainHasNoMore(h: Hash, k: nat, oid: string) returns (j: nat)
    requires Digests(h, 20) && oid in Chain(h, k)
    ensures j <= k && oid == Name(h, j)
  {
    hide Name, Level;
    j := k;
    if oid != Name(h, k) {
      j := ChainHasNoMore(h, k - 1, oid);
    }
  }

  function Deep(h: Hash, sha256: Hash): Repository
    requires Digests(h, 20)
  {
    Repository(h, 20, sha256, Chain(h, 33))
  }

  /** The bytes of a tree with one entry, and where they end. */
  lemma {:induction false} OneRecord(e: Record)
    ensures PrintTree([e]) == e.mode + " " + e.name + "\0" + e.oid
  {
    assert [e][1..] == [];
  }

  lemma {:induction false} LevelIsBytes(h: Hash, k: nat)
    requires Digests(h, 20)
    ensures IsBytes(Level(h, k).raw)
  {
    if k == 0 {
      assert Level(h, 0).raw == BLOB;
    } else {
      var e := Entry1(h, k);
      OneRecord(e);
      assert IsBytes(e.mode + " " + e.name + "\0");
    }
  }

  lemma {:induction false} DeepIsSane(h: Hash, sha256: Hash)
    requires Digests(h, 20) && Separates(h) && Digests(sha256, 32)
    ensures Sane(Deep(h, sha256))
  {
    hide IsBytes, Level, Name, Chain, Digests, Separates;
    forall oid | oid in Chain(h, 33)
      ensures IsBytes(Chain(h, 33)[oid].raw)
    {
      var j := ChainHasNoMore(h, 33, oid);
      ChainHas(h, 33, j);
      LevelIsBytes(h, j);
    }
  }

  lemma {:induction false} DeepObject(h: Hash, sha256: Hash, k: nat)
    requires Digests(h, 20) && Separates(h) && k <= 33
    ensures ReadObject(Deep(h, sha256), Name(h, k)) == Some(Level(h, k))
  {
    hide Chain, Level, Separates, Digests;
    ChainHas(h, 33, k);
    var o := Level(h, k);
    assert Head(o) + o.raw == o.kind + " " + Dec(|o.raw|) + "\0" + o.raw;
  }

  lemma {:induction false} DeepListing(h: Hash, sha256: Hash, k: nat)
    requires Digests(h, 20) && Separates(h) && 1 <= k <= 33
    ensures Listing(Deep(h, sha256), Name(h, k)) == Some([Entry1(h, k)])
  {
    hide Chain, Name, ReadObject, Raw20, Digests, Separates;
    DeepObject(h, sha256, k);
    var e := Entry1(h, k);
    assert Printable(e, 20);
    ParseAfterPrint([e], 20);
    AscendingIsSorted([e]);
  }

  /** `a/a/…/a`, `k` times. */
  function Trail(k: nat): seq<string> {
    seq(k, i => "a")
  }

  lemma {:induction false} TrailIsSafe(k: nat)
    ensures SafeTrail(Trail(k))
  {
    assert SafeComponent("a");
  }

  lemma {:induction false} PathLength(k: nat, name: string)
    requires |name| == 1
    ensures |Join(Trail(k) + [name], '/')| == 2 * k + 1
  {
    if k > 0 {
      assert (Trail(k) + [name])[1..] == Trail(k - 1) + [name];
      PathLength(k - 1, name);
    }
  }

  lemma {:induction false} StepPath(depth: nat, name: string)
    requires depth <= 32 && |name| == 1
    ensures Relative(Prefix(Trail(depth)), name) == Join(Trail(depth) + [name], '/')
    ensures |Relative(Prefix(Trail(depth)), name)| <= 4096
  {
    TrailIsSafe(depth);
    JoinNext(Trail(depth), name);
    PathLength(depth, name);
  }

  function DeepEntry(h: Hash, sha256: Hash): Entry
    requires Digests(h, 20)
  {
    Entry("100644", Name(h, 0), 1, sha256(BLOB), Join(Trail(32) + ["f"], '/'))
  }

  lemma {:induction false} WalkDown(h: Hash, sha256: Hash, k: nat, depth: nat)
    requires Digests(h, 20) && Separates(h) && 1 <= k <= 33 && depth + k == 33 && Sane(Deep(h, sha256))
    ensures Walk(Deep(h, sha256), Name(h, k), Prefix(Trail(depth)), depth, State([], 0, {}))
         == Some(State([DeepEntry(h, sha256)], 1, {DeepEntry(h, sha256).path}))
    decreases k
  {
    hide Chain, Name, Raw20, ReadObject, Listing, Prefix, Sane, Deep, Walk, Visit, Trail, DeepEntry, Digests, Separates;
    var start, r := State([], 0, {}), Deep(h, sha256);
    var e := Entry1(h, k);
    DeepListing(h, sha256, k);
    WalkIsVisit(r, Name(h, k), e, Prefix(Trail(depth)), depth, start);
    DeepWidth(h, sha256);
    if k == 1 {
      VisitFile(h, sha256, start);
    } else {
      StepPath(depth, "a");
      assert SafeComponent("a");
      VisitDirectory(r, e, Prefix(Trail(depth)), depth, start);
      WalkDown(h, sha256, k - 1, depth + 1);
      NextPrefix(depth);
    }
  }

  lemma {:induction false} DeepWidth(h: Hash, sha256: Hash)
    requires Digests(h, 20)
    ensures Deep(h, sha256).n == 20 && Deep(h, sha256).sha256 == sha256
  {
  }

  lemma {:induction false} WalkIsVisit(r: Repository, oid: string, e: Record, prefix: string, depth: nat, s: State)
    requires Sane(r) && depth <= MAX_DEPTH && Listing(r, oid) == Some([e])
    ensures Printable(e, r.n) && IsBytes(e.oid)
    ensures Walk(r, oid, prefix, depth, s) == Visit(r, e, prefix, depth, s)
  {
    hide Visit, Listing, Sane;
    ListingIsPrintable(r, oid);
    var rs := [e];
    assert rs[0] == e && rs[1..] == [];
    var next := Visit(r, e, prefix, depth, s);
    if next.Some? {
      assert VisitAll(r, rs[1..], prefix, depth, next.value) == next;
    }
    assert VisitAll(r, rs, prefix, depth, s) == next;
  }

  lemma {:induction false} VisitDirectory(r: Repository, e: Record, prefix: string, depth: nat, s: State)
    requires Sane(r) && depth <= MAX_DEPTH && Printable(e, r.n) && IsBytes(e.oid)
    requires SafeComponent(e.name) && |Relative(prefix, e.name)| <= 4096 && Relative(prefix, e.name) !in s.seen
    requires e.mode == DIRECTORY
    ensures Visit(r, e, prefix, depth, s) == Walk(r, Hex(e.oid), Relative(prefix, e.name), depth + 1, s)
  {
    hide Walk;
  }

  lemma {:induction false} NextPrefix(depth: nat)
    ensures Prefix(Trail(depth + 1)) == Join(Trail(depth) + ["a"], '/')
  {
    assert Trail(depth) + ["a"] == Trail(depth + 1);
  }

  lemma {:induction false} VisitBlob(r: Repository, e: Record, prefix: string, depth: nat, o: Object, entry: Entry)
    requires Sane(r) && depth <= MAX_DEPTH && Printable(e, r.n) && IsBytes(e.oid)
    requires SafeComponent(e.name) && (e.mode == "100644" || e.mode == "100755")
    requires ReadObject(r, Hex(e.oid)) == Some(o) && o.kind == "blob" && |o.raw| == 1
    requires entry == Entry(e.mode, Hex(e.oid), 1, r.sha256(o.raw), Relative(prefix, e.name)) && |entry.path| <= 4096
    ensures Visit(r, e, prefix, depth, State([], 0, {})) == Some(State([entry], 1, {entry.path}))
  {
    hide Sane, ReadObject, Hex, SafeComponent, IsBytes, Printable, Relative, Walk;
    var none: seq<Entry> := [];
    assert none + [entry] == [entry] && {} + {entry.path} == {entry.path};
  }

  lemma {:induction false} VisitFile(h: Hash, sha256: Hash, s: State)
    requires Digests(h, 20) && Separates(h) && Sane(Deep(h, sha256)) && s == State([], 0, {})
    requires Printable(Entry1(h, 1), 20) && IsBytes(Entry1(h, 1).oid)
    ensures Visit(Deep(h, sha256), Entry1(h, 1), Prefix(Trail(32)), 32, s)
         == Some(State([DeepEntry(h, sha256)], 1, {DeepEntry(h, sha256).path}))
  {
    hide Chain, Prefix, ReadObject, Join, Sane, Visit, Name, Raw20, Relative, Printable, IsBytes, Digests, Separates, Deep;
    StepPath(32, "f");
    assert SafeComponent("f");
    DeepObject(h, sha256, 0);
    DeepWidth(h, sha256);
    VisitBlob(Deep(h, sha256), Entry1(h, 1), Prefix(Trail(32)), 32, FILE, DeepEntry(h, sha256));
  }

  /**
   The exporter accepts the chain, whose only file has 33 path components; the importer refuses it.  The hash may
   be any that tells the 34 objects of the chain apart.
   */
  lemma {:induction false} DeepTreeIsExportedAndRefused(m: Meta, hashes: Hashes, sha256: Hash)
    requires Widths(hashes) && MetaOk(m) && m.format == "sha1" && Digests(sha256, 32)
    requires Separates(hashes("sha1")) && m.treeOid == Name(hashes("sha1"), 33)
    ensures var r, e := Deep(hashes("sha1"), sha256), DeepEntry(hashes("sha1"), sha256);
            && Sane(r) && Exported(r, m.treeOid) == Some([e])
            && |Split(e.path, '/')| == 33
            && ParseManifest(hashes, PrintManifest(m, [e])) == None
  {
    var h := hashes("sha1");
    DeepIsSane(h, sha256);
    RightHash(m, hashes, sha256);
    hide Walk, Chain, Name, ParseManifest, PrintManifest, Exported, DeepEntry, Sane, TreeOf, Full, Good, Clash, Hashed, Build, MetaOk, Deep,
      Digests, Separates;
    DeepIsExported(h, sha256);
    SafeLeaf(h, sha256);
    ExportThenImport(hashes, Deep(h, sha256), m);
    TooDeep([DeepEntry(h, sha256)]);
  }

  lemma {:induction false} RightHash(m: Meta, hashes: Hashes, sha256: Hash)
    requires m.format == "sha1" && Digests(hashes("sha1"), 20)
    ensures Deep(hashes("sha1"), sha256).h == hashes(m.format) && Deep(hashes("sha1"), sha256).n == OidBytes(m.format)
  {
  }

  lemma {:induction false} TooDeep(es: seq<Entry>)
    requires es != [] && |Split(es[0].path, '/')| > MAX_DEPTH
    ensures !Shallow(es)
  {
  }

  lemma {:induction false} DeepIsExported(h: Hash, sha256: Hash)
    requires Digests(h, 20) && Separates(h) && Sane(Deep(h, sha256))
    ensures Exported(Deep(h, sha256), Name(h, 33)) == Some([DeepEntry(h, sha256)])
  {
    hide Walk, Chain, Name, DeepEntry, Sane, Deep, Digests, Separates;
    WalkDown(h, sha256, 33, 0);
    assert Trail(0) == [];
    SortOfOne(DeepEntry(h, sha256));
  }

  lemma {:induction false} SortOfOne(e: Entry)
    ensures Sort(ByPath, [e]) == [e]
  {
    assert [e][1..] == [];
  }

  lemma {:induction false} SafeLeaf(h: Hash, sha256: Hash)
    requires Digests(h, 20)
    ensures var path := DeepEntry(h, sha256).path;
            Split(path, '/') == Trail(32) + ["f"] && |Split(path, '/')| == 33
  {
    hide Digests, Name;
    TrailIsSafe(32);
    PathLength(32, "f");
    assert SafeComponent("f");
    SafePathIsOk(Trail(32), "f");
  }

  // -------------------------------------------------------- an empty directory

  const HOLLOW := Object("tree", "")

  function RootObject(h: Hash): Object
    requires Digests(h, 20)
  {
    Object("tree", PrintTree(HollowRoot(h)))
  }

  /** The root without the empty directory. */
  function BareRoot(h: Hash): Object
    requires Digests(h, 20)
  {
    Object("tree", PrintTree([HollowRoot(h)[0]]))
  }

  /** The hash tells the file, the empty directory, the root and the root without that directory apart. */
  predicate TellsApart(h: Hash)
    requires Digests(h, 20)
  {
    && ObjectId(h, FILE) != ObjectId(h, HOLLOW) && ObjectId(h, FILE) != ObjectId(h, RootObject(h))
    && ObjectId(h, HOLLOW) != ObjectId(h, RootObject(h)) && ObjectId(h, BareRoot(h)) != ObjectId(h, RootObject(h))
  }

  /** A file `f` beside a directory `g` with nothing in it. */
  function Hollow(h: Hash, sha256: Hash): Repository
    requires Digests(h, 20)
  {
    Repository(h, 20, sha256,
      map[ObjectId(h, FILE) := FILE, ObjectId(h, HOLLOW) := HOLLOW, ObjectId(h, RootObject(h)) := RootObject(h)])
  }

  function HollowRoot(h: Hash): seq<Record>
    requires Digests(h, 20)
  {
    [Record("100644", "f", Raw20(ObjectId(h, FILE))), Record("40000", "g", Raw20(ObjectId(h, HOLLOW)))]
  }

  lemma {:induction false} HollowRootIs(h: Hash)
    requires Digests(h, 20)
    ensures IsBytes(PrintTree(HollowRoot(h)))
  {
    hide Digests, Raw20, ObjectId;
    var rs := HollowRoot(h);
    assert rs[1..] == [rs[1]];
    OneRecord(rs[1]);
    assert PrintTree(rs) == PrintRecord(rs[0]) + PrintRecord(rs[1]);
    assert IsBytes("100644" + " " + "f" + "\0") && IsBytes("40000" + " " + "g" + "\0");
  }

  lemma {:induction false} HollowObjects(h: Hash, sha256: Hash)
    requires Digests(h, 20) && TellsApart(h) && Digests(sha256, 32)
    ensures Sane(Hollow(h, sha256))
    ensures forall o :: o in [FILE, HOLLOW, RootObject(h)] ==> ReadObject(Hollow(h, sha256), ObjectId(h, o)) == Some(o)
  {
    hide PrintTree, Raw20;
    HollowRootIs(h);
    forall o | o in [FILE, HOLLOW, RootObject(h)]
      ensures ReadObject(Hollow(h, sha256), ObjectId(h, o)) == Some(o)
    {
      assert Head(o) + o.raw == o.kind + " " + Dec(|o.raw|) + "\0" + o.raw;
    }
  }

  function HollowEntry(h: Hash, sha256: Hash): Entry
    requires Digests(h, 20)
  {
    Entry("100644", ObjectId(h, FILE), 1, sha256(BLOB), "f")
  }

  lemma {:induction false} HollowAscends(h: Hash)
    requires Digests(h, 20)
    ensures IsCanonical(HollowRoot(h)) && IsCanonical([])
  {
    hide Raw20, Less, ObjectId, Digests;
    var rs := HollowRoot(h);
    assert Key(rs[0]) == "f" && Key(rs[1]) == "g/";
    FirstDiffers("g/", "f");
    AscendingIsSorted(rs);
    AscendingIsSorted([]);
  }

  lemma {:induction false} FirstDiffers(a: string, b: string)
    requires a != "" && b != "" && b[0] < a[0]
    ensures !Less(a, b)
  {
  }

  lemma {:induction false} HollowRootListing(h: Hash, sha256: Hash)
    requires Digests(h, 20) && TellsApart(h) && Digests(sha256, 32)
    ensures Listing(Hollow(h, sha256), ObjectId(h, RootObject(h))) == Some(HollowRoot(h))
  {
    hide ObjectId, Raw20, ReadObject, PrintTree, ParseTree, IsCanonical, Hollow, Sane, Digests, TellsApart;
    HollowObjects(h, sha256);
    HollowAscends(h);
    var rs := HollowRoot(h);
    assert Printable(rs[0], 20) && Printable(rs[1], 20);
    ParseAfterPrint(rs, 20);
    HollowWidth(h, sha256);
    assert rs[0].name != rs[1].name;
  }

  lemma {:induction false} HollowWidth(h: Hash, sha256: Hash)
    requires Digests(h, 20)
    ensures Hollow(h, sha256).n == 20 && Hollow(h, sha256).h == h && Hollow(h, sha256).sha256 == sha256
  {
  }

  lemma {:induction false} HollowEmptyListing(h: Hash, sha256: Hash)
    requires Digests(h, 20) && TellsApart(h) && Digests(sha256, 32)
    ensures Listing(Hollow(h, sha256), ObjectId(h, HOLLOW)) == Some([])
  {
    hide ObjectId, Raw20, ReadObject, PrintTree, IsCanonical, Hollow, Sane, ParseTree, Digests, TellsApart;
    HollowObjects(h, sha256);
    HollowAscends(h);
    EmptyTree(Hollow(h, sha256).n);
  }

  lemma {:induction false} HollowWalk(h: Hash, sha256: Hash)
    requires Digests(h, 20) && TellsApart(h) && Digests(sha256, 32) && Sane(Hollow(h, sha256))
    ensures Walk(Hollow(h, sha256), ObjectId(h, RootObject(h)), "", 0, State([], 0, {}))
         == Some(State([HollowEntry(h, sha256)], 1, {"f"}))
  {
    hide ObjectId, Raw20, ReadObject, Listing, Hollow, Sane, Visit, HollowEntry, Digests, TellsApart;
    var r, s0, s1 := Hollow(h, sha256), State([], 0, {}), State([HollowEntry(h, sha256)], 1, {"f"});
    HollowRootListing(h, sha256);
    ListingIsPrintable(r, ObjectId(h, RootObject(h)));
    HollowFile(h, sha256, s0, s1);
    HollowDirectory(h, sha256, s1);
    TwoVisits(r, HollowRoot(h), s0, s1);
  }

  lemma {:induction false} HollowFile(h: Hash, sha256: Hash, s0: State, s1: State)
    requires Digests(h, 20) && TellsApart(h) && Digests(sha256, 32) && Sane(Hollow(h, sha256))
    requires s0 == State([], 0, {}) && s1 == State([HollowEntry(h, sha256)], 1, {"f"})
    requires Printable(HollowRoot(h)[0], Hollow(h, sha256).n) && IsBytes(HollowRoot(h)[0].oid)
    ensures Visit(Hollow(h, sha256), HollowRoot(h)[0], "", 0, s0) == Some(s1)
  {
    hide ReadObject, Sane, ObjectId, Raw20, Visit, PrintTree, Hollow, IsBytes, Printable, Walk, Digests, TellsApart;
    HollowObjects(h, sha256);
    HollowWidth(h, sha256);
    assert SafeComponent("f");
    assert Relative("", "f") == "f";
    VisitBlob(Hollow(h, sha256), HollowRoot(h)[0], "", 0, FILE, HollowEntry(h, sha256));
  }

  lemma {:induction false} HollowDirectory(h: Hash, sha256: Hash, s: State)
    requires Digests(h, 20) && TellsApart(h) && Digests(sha256, 32) && Sane(Hollow(h, sha256)) && s.seen == {"f"}
    requires Printable(HollowRoot(h)[1], Hollow(h, sha256).n) && IsBytes(HollowRoot(h)[1].oid)
    ensures Visit(Hollow(h, sha256), HollowRoot(h)[1], "", 0, s) == Some(s)
  {
    hide ObjectId, Raw20, ReadObject, Listing, Hollow, Sane, Visit, IsBytes, Printable, VisitAll, Digests, TellsApart;
    HollowEmptyListing(h, sha256);
    assert SafeComponent("g");
    assert Relative("", "g") == "g";
    VisitDirectory(Hollow(h, sha256), HollowRoot(h)[1], "", 0, s);
    EmptyWalk(Hollow(h, sha256), ObjectId(h, HOLLOW), s);
  }

  lemma {:induction false} EmptyWalk(r: Repository, oid: string, s: State)
    requires Sane(r) && Listing(r, oid) == Some([])
    ensures Walk(r, oid, "g", 1, s) == Some(s)
  {
    hide Listing, Sane;
  }

  lemma {:induction false} TwoVisits(r: Repository, rs: seq<Record>, s0: State, s1: State)
    requires Sane(r) && |rs| == 2
    requires forall i :: 0 <= i < |rs| ==> Printable(rs[i], r.n) && IsBytes(rs[i].oid)
    requires Visit(r, rs[0], "", 0, s0) == Some(s1) && Visit(r, rs[1], "", 0, s1) == Some(s1)
    ensures VisitAll(r, rs, "", 0, s0) == Some(s1)
  {
    hide Visit;
    var tail := rs[1..];
    assert tail[0] == rs[1] && tail[1..] == [];
    assert VisitAll(r, tail[1..], "", 0, s1) == Some(s1);
    assert VisitAll(r, tail, "", 0, s1) == Some(s1);
  }

  /**
   The exporter accepts a tree with an empty directory; what it prints does not rebuild that tree.  The hash may be
   any that tells the four objects involved apart.
   */
  lemma {:induction false} HollowTreeIsExportedAndRefused(m: Meta, hashes: Hashes, sha256: Hash)
    requires Widths(hashes) && MetaOk(m) && m.format == "sha1" && Digests(sha256, 32)
    requires TellsApart(hashes("sha1")) && m.treeOid == ObjectId(hashes("sha1"), RootObject(hashes("sha1")))
    ensures var r, e := Hollow(hashes("sha1"), sha256), HollowEntry(hashes("sha1"), sha256);
            && Sane(r) && Exported(r, m.treeOid) == Some([e])
            && ParseManifest(hashes, PrintManifest(m, [e])) == None
  {
    var h := hashes("sha1");
    assert Digests(h, 20);
    hide Walk, ObjectId, ParseManifest, PrintManifest, Sane, Hollow, HollowEntry, Exported, MetaOk, PrintTree, TellsApart, Digests;
    HollowObjects(h, sha256);
    HollowIsExported(h, sha256);
    HollowIsRefused(hashes, m, sha256);
  }

  lemma {:induction false} HollowIsRefused(hashes: Hashes, m: Meta, sha256: Hash)
    requires Widths(hashes) && MetaOk(m) && m.format == "sha1" && Digests(sha256, 32)
    requires TellsApart(hashes("sha1")) && m.treeOid == ObjectId(hashes("sha1"), RootObject(hashes("sha1")))
    ensures ParseManifest(hashes, PrintManifest(m, [HollowEntry(hashes("sha1"), sha256)])) == None
  {
    var h := hashes("sha1");
    assert Digests(h, 20);
    hide ObjectId, ParseManifest, PrintManifest, HollowEntry, MetaOk, EntryOk, GoodFile, Acceptable, Widths, Rebuilds, Digests, TellsApart;
    HollowEntryIsOk(h, sha256);
    EntryIsFile(HollowEntry(h, sha256), 20);
    RightFormat(m);
    NotRebuilt(hashes, m, sha256);
    RoundTrip(hashes, m, [HollowEntry(h, sha256)]);
  }

  lemma {:induction false} NotRebuilt(hashes: Hashes, m: Meta, sha256: Hash)
    requires Widths(hashes) && MetaOk(m) && m.format == "sha1" && OidBytes(m.format) == 20
    requires TellsApart(hashes("sha1")) && m.treeOid == ObjectId(hashes("sha1"), RootObject(hashes("sha1")))
    requires GoodFile(HollowEntry(hashes("sha1"), sha256), 20)
    ensures !Rebuilds(hashes, m, [HollowEntry(hashes("sha1"), sha256)])
  {
    var h := hashes("sha1");
    assert Digests(h, 20) && ObjectId(h, BareRoot(h)) != m.treeOid;
    hide ObjectId, HollowEntry, HollowRebuilt, MetaOk, Build, GoodFile, Widths, Good, Digests, TellsApart;
    HollowBuild(h, sha256);
    HollowOid(h);
  }

  lemma {:induction false} RightFormat(m: Meta)
    requires m.format == "sha1"
    ensures OidBytes(m.format) == 20
  {
  }

  lemma {:induction false} HollowIsExported(h: Hash, sha256: Hash)
    requires Digests(h, 20) && TellsApart(h) && Digests(sha256, 32) && Sane(Hollow(h, sha256))
    ensures Exported(Hollow(h, sha256), ObjectId(h, RootObject(h))) == Some([HollowEntry(h, sha256)])
  {
    hide Walk, ObjectId, Hollow, Sane, HollowEntry, Digests, TellsApart;
    HollowWalk(h, sha256);
    SortOfOne(HollowEntry(h, sha256));
  }

  lemma {:induction false} HollowEntryIsOk(h: Hash, sha256: Hash)
    requires Digests(h, 20) && Digests(sha256, 32)
    ensures EntryOk(HollowEntry(h, sha256), 20)
  {
    SplitOfF();
  }

  lemma {:induction false} SplitOfF()
    ensures Split("f", '/') == ["f"]
  {
    assert Find("f", '/', 0) < 0;
  }

  function HollowRebuilt(h: Hash): seq<Item>
    requires Digests(h, 20)
  {
    [Item("f", File("100644", ObjectId(h, FILE)))]
  }

  lemma {:induction false} HollowBuild(h: Hash, sha256: Hash)
    requires Digests(h, 20)
    ensures Build([HollowEntry(h, sha256)]) == Some(HollowRebuilt(h)) && Good(HollowRebuilt(h), 20)
  {
    hide ObjectId, Split, Digests;
    SplitOfF();
    var es := [HollowEntry(h, sha256)];
    assert es[..0] == [] && Build([]) == Some([]);
    assert [] + HollowRebuilt(h) == HollowRebuilt(h);
    assert HollowRebuilt(h)[1..] == [];
    assert IndexOf([], "f") < 0;
  }

  lemma {:induction false} HollowOid(h: Hash)
    requires Digests(h, 20) && Good(HollowRebuilt(h), 20)
    ensures Oid(h, 20, HollowRebuilt(h)) == ObjectId(h, BareRoot(h))
  {
    hide Good, Digests, Raw, Records, Hex, Unhex, IsHex, PrintTree;
    var items, record := HollowRebuilt(h), HollowRoot(h)[0];
    RecordsOfOne(h, items);
    assert RecordOf(h, 20, items[0]) == record;
    AscendingIsSorted([record]);
    RawOfOne(h, items, record);
  }

  lemma {:induction false} RecordsOfOne(h: Hash, items: seq<Item>)
    requires Good(items, 20) && Digests(h, 20) && |items| == 1
    ensures GoodItem(items[0], 20) && Records(h, 20, items) == [RecordOf(h, 20, items[0])]
  {
    hide RecordOf, GoodItem, Digests;
    assert items[1..] == [];
  }

  lemma {:induction false} RawOfOne(h: Hash, items: seq<Item>, record: Record)
    requires Good(items, 20) && Digests(h, 20) && Records(h, 20, items) == [record]
    requires Sort(NotAfter, [record]) == [record]
    ensures Oid(h, 20, items) == ObjectId(h, Object("tree", PrintTree([record])))
  {
    hide Good, Records, Digests, PrintTree;
    var raw := Raw(h, 20, items);
    assert raw == PrintTree([record]);
    assert Preimage(raw) == Head(Object("tree", raw)) + raw;
  }
}
