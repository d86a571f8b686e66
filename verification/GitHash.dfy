/**
 Trees of files and the identifiers Git derives from them (`_git_object_oid` and `calculate` in
 deploy/offline_ops.py).  The hash is an arbitrary function from byte strings to hexadecimal digests;
 nothing is assumed about collisions, they are exhibited.
 */
module GitHash {
  import opened Wrappers
  import opened Order
  import opened Numerals
  import opened GitTree

  datatype Node = File(mode: string, oid: string) | Dir(items: seq<Item>)

  datatype Item = Item(name: string, node: Node)

  type Hash = string -> string

  /** Digests are lower-case hexadecimal of `n` bytes. */
  ghost predicate Digests(h: Hash, n: nat) {
    forall s :: IsHex(h(s)) && |h(s)| == 2 * n
  }

  /** What is hashed for a tree object: its type, its length in decimal, a NUL and its bytes. */
  function Preimage(raw: string): string {
    "tree " + Dec(|raw|) + "\0" + raw
  }

  function RecordOf(h: Hash, n: nat, item: Item): Record
    requires GoodItem(item, n) && Digests(h, n)
    decreases item, 0
  {
    match item.node
    case File(mode, oid) => Record(mode, item.name, Unhex(oid))
    case Dir(items) => Record(DIRECTORY, item.name, Unhex(h(Preimage(Raw(h, n, items)))))
  }

  function Records(h: Hash, n: nat, items: seq<Item>): (rs: seq<Record>)
    requires Good(items, n) && Digests(h, n)
    ensures |rs| == |items|
    decreases items, 0
  {
    if items == [] then [] else [RecordOf(h, n, items[0])] + Records(h, n, items[1..])
  }

  /** A tree object: its records in Git's order. */
  function Raw(h: Hash, n: nat, items: seq<Item>): string
    requires Good(items, n) && Digests(h, n)
    decreases items, 1
  {
    PrintTree(Sort(NotAfter, Records(h, n, items)))
  }

  predicate SafeName(s: string) {
    s != "" && '\0' !in s && '/' !in s
  }

  predicate GoodItem(item: Item, n: nat)
    decreases item
  {
    && SafeName(item.name)
    && match item.node
       case File(mode, oid) => (mode == "100644" || mode == "100755") && IsHex(oid) && |oid| == 2 * n
       case Dir(items) => Good(items, n)
  }

  predicate Good(items: seq<Item>, n: nat)
    decreases items
  {
    items == [] ||
    (GoodItem(items[0], n) && (forall x <- items[1..] :: x.name != items[0].name) && Good(items[1..], n))
  }

  /** `calculate`: the identifier of a tree. */
  function Oid(h: Hash, n: nat, items: seq<Item>): string
    requires Good(items, n) && Digests(h, n)
  {
    h(Preimage(Raw(h, n, items)))
  }

  /** Everything hashed to obtain the identifier of a tree. */
  function Hashed(h: Hash, n: nat, items: seq<Item>): set<string>
    requires Good(items, n) && Digests(h, n)
    decreases items, 2
  {
    {Preimage(Raw(h, n, items))} + HashedBelow(h, n, items)
  }

  function HashedBelow(h: Hash, n: nat, items: seq<Item>): set<string>
    requires Good(items, n) && Digests(h, n)
    decreases items, 1
  {
    if items == [] then {} else HashedIn(h, n, items[0]) + HashedBelow(h, n, items[1..])
  }

  function HashedIn(h: Hash, n: nat, item: Item): set<string>
    requires GoodItem(item, n) && Digests(h, n)
    decreases item, 0
  {
    match item.node
    case File(_, _) => {}
    case Dir(items) => Hashed(h, n, items)
  }

  /** Two different byte strings, one from each side, with the same digest. */
  predicate Clash(h: Hash, s: set<string>, t: set<string>) {
    exists x, y :: x in s && y in t && x != y && h(x) == h(y)
  }

  // ------------------------------------------------- what a tree says of paths

  /** The end of a path: a file, or a directory with nothing in it. */
  datatype What = Blob(mode: string, oid: string) | Nothing

  datatype Leaf = Leaf(path: seq<string>, what: What)

  function Under(name: string, leaves: set<Leaf>): set<Leaf> {
    set l | l in leaves :: Leaf([name] + l.path, l.what)
  }

  function LeavesOf(item: Item): set<Leaf>
    decreases item, 0
  {
    match item.node
    case File(mode, oid) => {Leaf([item.name], Blob(mode, oid))}
    case Dir(items) => if items == [] then {Leaf([item.name], Nothing)} else Under(item.name, Leaves(items))
  }

  function Leaves(items: seq<Item>): set<Leaf>
    decreases items, 1
  {
    if items == [] then {} else LeavesOf(items[0]) + Leaves(items[1..])
  }

  lemma {:induction false} LeavesAre(items: seq<Item>, l: Leaf)
    ensures l in Leaves(items) <==> exists i :: 0 <= i < |items| && l in LeavesOf(items[i])
    decreases |items|
  {
    if items != [] {
      LeavesAre(items[1..], l);
      if l in Leaves(items[1..]) {
        var i :| 0 <= i < |items[1..]| && l in LeavesOf(items[1..][i]);
        assert items[i + 1] == items[1..][i];
      } else {
        forall i | 1 <= i < |items|
          ensures l !in LeavesOf(items[i])
        {
          assert items[i] == items[1..][i - 1];
        }
      }
    }
  }

  lemma {:induction false} LeafBelow(item: Item, l: Leaf)
    requires l in LeavesOf(item)
    ensures l.path != [] && l.path[0] == item.name
  {
  }

  lemma {:induction false} SomeLeaf(item: Item) returns (l: Leaf)
    ensures l in LeavesOf(item)
    decreases item
  {
    match item.node
    case File(mode, oid) => l := Leaf([item.name], Blob(mode, oid));
    case Dir(items) =>
      if items == [] {
        l := Leaf([item.name], Nothing);
      } else {
        var m := SomeLeaf(items[0]);
        assert m in Leaves(items);
        l := Leaf([item.name] + m.path, m.what);
      }
  }

  lemma {:induction false} GoodAt(items: seq<Item>, n: nat, i: nat)
    requires Good(items, n) && i < |items|
    ensures GoodItem(items[i], n)
    ensures forall j :: 0 <= j < |items| && j != i ==> items[j].name != items[i].name
    decreases |items|
  {
    if i > 0 {
      GoodAt(items[1..], n, i - 1);
      assert items[i] == items[1..][i - 1];
      assert forall j :: 1 <= j < |items| ==> items[j] == items[1..][j - 1];
    } else {
      assert forall j :: 1 <= j < |items| ==> items[j] == items[1..][j - 1] && items[j] in items[1..];
    }
  }

  lemma {:induction false} RecordAt(h: Hash, n: nat, items: seq<Item>, i: nat)
    requires Good(items, n) && Digests(h, n) && i < |items| && GoodItem(items[i], n)
    ensures Records(h, n, items)[i] == RecordOf(h, n, items[i])
    ensures HashedIn(h, n, items[i]) <= HashedBelow(h, n, items)
    decreases |items|
  {
    if i > 0 {
      assert items[i] == items[1..][i - 1];
      RecordAt(h, n, items[1..], i - 1);
    }
  }

  // ---------------------------------------------------------------- binding

  lemma PreimageIsInjective(a: string, b: string)
    ensures Preimage(a) == Preimage(b) ==> a == b
  {
    if Preimage(a) == Preimage(b) {
      var p, i, j := Preimage(a), 5 + |Dec(|a|)|, 5 + |Dec(|b|)|;
      assert p[i] == '\0' && p[j] == '\0';
      assert forall k :: 5 <= k < i ==> p[k] == Dec(|a|)[k - 5];
      assert forall k :: 5 <= k < j ==> p[k] == Dec(|b|)[k - 5];
      assert i == j;
      assert a == p[i + 1..] && b == p[j + 1..];
    }
  }

  lemma RecordsArePrintable(h: Hash, n: nat, items: seq<Item>)
    requires Good(items, n) && Digests(h, n)
    ensures forall r <- Sort(NotAfter, Records(h, n, items)) :: Printable(r, n)
  {
    SortMembers(NotAfter, Records(h, n, items));
    hide Sort;
    forall r | r in Records(h, n, items)
      ensures Printable(r, n)
    {
      hide Records, Good;
      var i :| 0 <= i < |Records(h, n, items)| && Records(h, n, items)[i] == r;
      RecordIsPrintable(h, n, items, i);
    }
  }

  lemma RecordIsPrintable(h: Hash, n: nat, items: seq<Item>, i: nat)
    requires Good(items, n) && Digests(h, n) && i < |Records(h, n, items)|
    ensures Printable(Records(h, n, items)[i], n)
  {
    GoodAt(items, n, i);
    RecordAt(h, n, items, i);
  }

  /** Equal tree objects have equal records. */
  lemma SameRecords(h: Hash, n: nat, a: seq<Item>, b: seq<Item>)
    requires Good(a, n) && Good(b, n) && Digests(h, n) && Raw(h, n, a) == Raw(h, n, b)
    ensures forall r :: r in Records(h, n, a) <==> r in Records(h, n, b)
  {
    RecordsArePrintable(h, n, a);
    RecordsArePrintable(h, n, b);
    PrintIsInjective(Sort(NotAfter, Records(h, n, a)), Sort(NotAfter, Records(h, n, b)), n);
    SortMembers(NotAfter, Records(h, n, a));
    SortMembers(NotAfter, Records(h, n, b));
  }

  /** The same record binds the same paths, or two strings hashed on the way collide. */
  lemma {:induction false} ItemBinding(h: Hash, n: nat, x: Item, y: Item)
    requires GoodItem(x, n) && GoodItem(y, n) && Digests(h, n) && RecordOf(h, n, x) == RecordOf(h, n, y)
    ensures LeavesOf(x) == LeavesOf(y) || Clash(h, HashedIn(h, n, x), HashedIn(h, n, y))
    decreases x, 0
  {
    match (x.node, y.node) {
      case (File(m, o), File(m', o')) =>
        HexAfterUnhex(o);
        HexAfterUnhex(o');
      case (Dir(a), Dir(b)) =>
        HexAfterUnhex(Oid(h, n, a));
        HexAfterUnhex(Oid(h, n, b));
        Binding(h, n, a, b);
        if a != [] {
          var l := SomeLeaf(a[0]);
        }
        if b != [] {
          var l := SomeLeaf(b[0]);
        }
      case _ =>
    }
  }

  /**
   Two trees with the same identifier have the same files, with the same modes and identifiers, under the
   same paths; or two different strings hashed while computing that identifier have the same digest.
   */
  lemma {:induction false} Binding(h: Hash, n: nat, a: seq<Item>, b: seq<Item>)
    requires Good(a, n) && Good(b, n) && Digests(h, n) && Oid(h, n, a) == Oid(h, n, b)
    ensures Leaves(a) == Leaves(b) || Clash(h, Hashed(h, n, a), Hashed(h, n, b))
    decreases a, 1
  {
    if Raw(h, n, a) != Raw(h, n, b) {
      PreimageIsInjective(Raw(h, n, a), Raw(h, n, b));
    } else {
      SameRecords(h, n, a, b);
      hide Raw, Records, Good, Leaves;
      SameRecordsBinding(h, n, a, b);
    }
  }

  lemma {:induction false} SameRecordsBinding(h: Hash, n: nat, a: seq<Item>, b: seq<Item>)
    requires Good(a, n) && Good(b, n) && Digests(h, n)
    requires forall r :: r in Records(h, n, a) <==> r in Records(h, n, b)
    ensures Leaves(a) == Leaves(b) || Clash(h, Hashed(h, n, a), Hashed(h, n, b))
    decreases a, 0, 1
  {
    hide Raw, Clash, HasPeer, Leaves, Records, Hashed, Good;
    var clash := Clash(h, Hashed(h, n, a), Hashed(h, n, b));
    forall i | 0 <= i < |a|
      ensures clash || HasPeer(a[i], b)
    {
      Matched(h, n, a, b, i);
    }
    forall j | 0 <= j < |b|
      ensures clash || HasPeer(b[j], a)
    {
      MatchedBack(h, n, a, b, j);
    }
    if !clash {
      SameLeaves(a, b);
    }
  }

  lemma {:induction false} Matched(h: Hash, n: nat, a: seq<Item>, b: seq<Item>, i: nat)
    requires Good(a, n) && Good(b, n) && Digests(h, n) && i < |a|
    requires forall r :: r in Records(h, n, a) <==> r in Records(h, n, b)
    ensures HasPeer(a[i], b) || Clash(h, Hashed(h, n, a), Hashed(h, n, b))
    decreases a, 0, 0
  {
    hide Raw, Clash, LeavesOf, RecordOf, Records;
    GoodAt(a, n, i);
    var j := FindRecord(h, n, a, b, i);
    ItemBinding(h, n, a[i], b[j]);
    if LeavesOf(a[i]) != LeavesOf(b[j]) {
      ClashBelow(h, n, a, b, i, j);
    }
  }

  lemma {:induction false} MatchedBack(h: Hash, n: nat, a: seq<Item>, b: seq<Item>, j: nat)
    requires Good(a, n) && Good(b, n) && Digests(h, n) && j < |b|
    requires forall r :: r in Records(h, n, a) <==> r in Records(h, n, b)
    ensures HasPeer(b[j], a) || Clash(h, Hashed(h, n, a), Hashed(h, n, b))
    decreases a, 0, 0
  {
    hide Raw, Clash, LeavesOf, RecordOf, Records;
    GoodAt(b, n, j);
    var i := FindRecord(h, n, b, a, j);
    ItemBinding(h, n, a[i], b[j]);
    if LeavesOf(a[i]) != LeavesOf(b[j]) {
      ClashBelow(h, n, a, b, i, j);
    }
  }

  predicate HasPeer(item: Item, items: seq<Item>) {
    exists j :: 0 <= j < |items| && LeavesOf(items[j]) == LeavesOf(item)
  }

  lemma FindRecord(h: Hash, n: nat, a: seq<Item>, b: seq<Item>, i: nat) returns (j: nat)
    requires Good(a, n) && Good(b, n) && Digests(h, n) && i < |a| && GoodItem(a[i], n)
    requires forall r :: r in Records(h, n, a) <==> r in Records(h, n, b)
    ensures j < |b| && GoodItem(b[j], n) && RecordOf(h, n, a[i]) == RecordOf(h, n, b[j])
  {
    hide RecordOf;
    RecordAt(h, n, a, i);
    assert Records(h, n, a)[i] in Records(h, n, a);
    j :| 0 <= j < |b| && Records(h, n, b)[j] == Records(h, n, a)[i];
    GoodAt(b, n, j);
    RecordAt(h, n, b, j);
  }

  lemma ClashBelow(h: Hash, n: nat, a: seq<Item>, b: seq<Item>, i: nat, j: nat)
    requires Good(a, n) && Good(b, n) && Digests(h, n) && i < |a| && j < |b| && GoodItem(a[i], n) && GoodItem(b[j], n)
    requires Clash(h, HashedIn(h, n, a[i]), HashedIn(h, n, b[j]))
    ensures Clash(h, Hashed(h, n, a), Hashed(h, n, b))
  {
    RecordAt(h, n, a, i);
    RecordAt(h, n, b, j);
  }

  lemma SameLeaves(a: seq<Item>, b: seq<Item>)
    requires forall i :: 0 <= i < |a| ==> HasPeer(a[i], b)
    requires forall j :: 0 <= j < |b| ==> HasPeer(b[j], a)
    ensures Leaves(a) == Leaves(b)
  {
    forall l
      ensures l in Leaves(a) <==> l in Leaves(b)
    {
      LeavesAre(a, l);
      LeavesAre(b, l);
    }
  }

  // ------------------------------------------------------------- uniqueness

  /** The strict order of keys. */
  predicate Before(a: Record, b: Record) {
    Less(Key(a), Key(b))
  }

  /** Git's order and the strict order sort records with distinct keys alike. */
  lemma {:induction false} InsertAgrees(r: Record, rs: seq<Record>)
    requires forall x <- rs :: Key(x) != Key(r)
    ensures Insert(NotAfter, r, rs) == Insert(Before, r, rs)
  {
    hide Less, Key;
    if rs != [] {
      assert rs[0] in rs;
      NotAfterMeansBefore(r, rs[0]);
      InsertAgrees(r, rs[1..]);
    }
  }

  lemma NotAfterMeansBefore(a: Record, b: Record)
    requires Key(a) != Key(b)
    ensures NotAfter(a, b) <==> Before(a, b)
  {
    LessTotal(Key(a), Key(b));
    if Less(Key(a), Key(b)) && Less(Key(b), Key(a)) {
      LessTransitive(Key(a), Key(b), Key(a));
      LessIrreflexive(Key(a));
    }
  }

  lemma {:induction false} SortAgrees(rs: seq<Record>)
    requires forall i, j :: 0 <= i < j < |rs| ==> Key(rs[i]) != Key(rs[j])
    ensures Sort(NotAfter, rs) == Sort(Before, rs)
  {
    hide Key;
    if rs != [] {
      SortAgrees(rs[1..]);
      SortMembers(NotAfter, rs[1..]);
      forall x | x in Sort(NotAfter, rs[1..])
        ensures Key(x) != Key(rs[0])
      {
        var i :| 0 <= i < |rs[1..]| && rs[1..][i] == x;
        assert rs[i + 1] == x;
      }
      InsertAgrees(rs[0], Sort(NotAfter, rs[1..]));
    }
  }

  lemma RecordKeysDiffer(h: Hash, n: nat, items: seq<Item>, i: nat, j: nat)
    requires Good(items, n) && Digests(h, n) && i < |items| && j < |items| && i != j
    ensures Key(Records(h, n, items)[i]) != Key(Records(h, n, items)[j])
  {
    GoodAt(items, n, i);
    GoodAt(items, n, j);
    RecordAt(h, n, items, i);
    RecordAt(h, n, items, j);
    var a, b := items[i].name, items[j].name;
    assert a + "" == a && b + "" == b;
    SlashTells(a, b);
  }

  lemma SlashTells(a: string, b: string)
    requires '/' !in a && '/' !in b && a != b
    ensures a + "/" != b && a != b + "/" && a + "/" != b + "/"
  {
    assert (a + "/")[|a|] == '/' && (b + "/")[|b|] == '/';
    assert a == (a + "/")[..|a|] && b == (b + "/")[..|b|];
  }

  lemma BeforeOrders(h: Hash, n: nat, items: seq<Item>, dom: set<Record>)
    requires Good(items, n) && Digests(h, n)
    requires forall r :: r in dom <==> r in Records(h, n, items)
    ensures Orders(Before, dom)
  {
    hide Less, Key;
    forall a, b | a in dom && b in dom
      ensures Before(a, b) ==> !Before(b, a)
      ensures a != b ==> Before(a, b) || Before(b, a)
    {
      if a != b {
        var i :| 0 <= i < |items| && Records(h, n, items)[i] == a;
        var j :| 0 <= j < |items| && Records(h, n, items)[j] == b;
        RecordKeysDiffer(h, n, items, i, j);
        NotAfterMeansBefore(a, b);
      } else {
        LessIrreflexive(Key(a));
      }
    }
    forall a, b, c | a in dom && b in dom && c in dom && Before(a, b) && Before(b, c)
      ensures Before(a, c)
    {
      LessTransitive(Key(a), Key(b), Key(c));
    }
  }

  /** What is in a listing decides how it is printed. */
  lemma PrintedAlike(h: Hash, n: nat, a: seq<Item>, b: seq<Item>)
    requires Good(a, n) && Good(b, n) && Digests(h, n)
    requires forall r :: r in Records(h, n, a) <==> r in Records(h, n, b)
    ensures Raw(h, n, a) == Raw(h, n, b)
  {
    var dom := set r | r in Records(h, n, a);
    BeforeOrders(h, n, a, dom);
    SortsStrictly(h, n, a, dom);
    SortsStrictly(h, n, b, dom);
    hide Records, Orders, Good, Sorted;
    SortedIsUnique(Before, dom, Sort(NotAfter, Records(h, n, a)), Sort(NotAfter, Records(h, n, b)));
  }

  lemma SortsStrictly(h: Hash, n: nat, items: seq<Item>, dom: set<Record>)
    requires Good(items, n) && Digests(h, n) && Orders(Before, dom)
    requires forall r :: r in Records(h, n, items) <==> r in dom
    ensures Sorted(Before, Sort(NotAfter, Records(h, n, items)))
    ensures forall r :: r in Sort(NotAfter, Records(h, n, items)) <==> r in dom
  {
    hide Key, Before, Good, Orders, NotAfter;
    var rs := Records(h, n, items);
    forall i, j | 0 <= i < j < |rs|
      ensures Key(rs[i]) != Key(rs[j]) && rs[i] != rs[j]
    {
      RecordKeysDiffer(h, n, items, i, j);
    }
    SortAgrees(rs);
    SortMembers(NotAfter, rs);
    SortSorts(Before, dom, rs);
  }

  /** The same paths below an entry make the same record. */
  lemma {:induction false} ItemIsItsLeaves(h: Hash, n: nat, x: Item, y: Item)
    requires GoodItem(x, n) && GoodItem(y, n) && Digests(h, n) && LeavesOf(x) == LeavesOf(y)
    ensures RecordOf(h, n, x) == RecordOf(h, n, y)
    decreases x, 0
  {
    var l := SomeLeaf(x);
    LeafBelow(x, l);
    LeafBelow(y, l);
    match (x.node, y.node) {
      case (File(m, o), File(m', o')) =>
        assert Leaf([x.name], Blob(m, o)) in LeavesOf(y);
      case (Dir(a), Dir(b)) =>
        LeavesUnder(x, y, a, b);
        TreeIsItsLeaves(h, n, a, b);
      case (File(m, o), Dir(b)) =>
        assert Leaf([x.name], Blob(m, o)) in LeavesOf(y);
        FileIsNoDirectory(y, b, Leaf([x.name], Blob(m, o)));
      case (Dir(a), File(m, o)) =>
        assert Leaf([y.name], Blob(m, o)) in LeavesOf(x);
        FileIsNoDirectory(x, a, Leaf([y.name], Blob(m, o)));
    }
  }

  lemma FileIsNoDirectory(x: Item, a: seq<Item>, l: Leaf)
    requires x.node == Dir(a) && l in LeavesOf(x)
    ensures |l.path| > 1 || l.what == Nothing
  {
    if a != [] {
      var m :| m in Leaves(a) && l == Leaf([x.name] + m.path, m.what);
      LeavesAre(a, m);
      var i :| 0 <= i < |a| && m in LeavesOf(a[i]);
      LeafBelow(a[i], m);
    }
  }

  lemma LeavesUnder(x: Item, y: Item, a: seq<Item>, b: seq<Item>)
    requires x.node == Dir(a) && y.node == Dir(b) && LeavesOf(x) == LeavesOf(y)
    ensures Leaves(a) == Leaves(b)
  {
    if a == [] && b != [] {
      EmptyDiffers(x, y, b);
    } else if a != [] && b == [] {
      EmptyDiffers(y, x, a);
    } else if a != [] && b != [] {
      forall l
        ensures l in Leaves(a) <==> l in Leaves(b)
      {
        if l in Leaves(a) {
          InUnder(x.name, Leaves(a), l, y.name, Leaves(b));
        } else if l in Leaves(b) {
          InUnder(y.name, Leaves(b), l, x.name, Leaves(a));
        }
      }
    }
  }

  lemma EmptyDiffers(x: Item, y: Item, b: seq<Item>)
    requires x.node == Dir([]) && y.node == Dir(b) && b != []
    ensures LeavesOf(x) != LeavesOf(y)
  {
    var m := SomeLeaf(b[0]);
    LeafBelow(b[0], m);
    assert m in Leaves(b);
    var deep := Leaf([y.name] + m.path, m.what);
    assert deep in LeavesOf(y);
    assert |deep.path| > 1;
  }

  lemma InUnder(n: string, s: set<Leaf>, l: Leaf, m: string, t: set<Leaf>)
    requires Under(n, s) == Under(m, t) && l in s
    ensures l in t
  {
    var deep := Leaf([n] + l.path, l.what);
    assert deep in Under(n, s);
    var k :| k in t && deep == Leaf([m] + k.path, k.what);
    assert deep.path[1..] == l.path && deep.path[1..] == k.path;
  }

  /** The files of a tree decide its identifier, whatever the order of its listings. */
  lemma {:induction false} TreeIsItsLeaves(h: Hash, n: nat, a: seq<Item>, b: seq<Item>)
    requires Good(a, n) && Good(b, n) && Digests(h, n) && Leaves(a) == Leaves(b)
    ensures Raw(h, n, a) == Raw(h, n, b) && Oid(h, n, a) == Oid(h, n, b)
    decreases a, 1
  {
    forall r
      ensures r in Records(h, n, a) <==> r in Records(h, n, b)
    {
      RecordsFollow(h, n, a, b, r);
    }
    PrintedAlike(h, n, a, b);
  }

  lemma {:induction false} RecordsFollow(h: Hash, n: nat, a: seq<Item>, b: seq<Item>, r: Record)
    requires Good(a, n) && Good(b, n) && Digests(h, n) && Leaves(a) == Leaves(b)
    ensures r in Records(h, n, a) <==> r in Records(h, n, b)
    decreases a, 0, 1
  {
    hide RecordOf, LeavesOf, Leaves;
    if r in Records(h, n, a) {
      var i :| 0 <= i < |a| && Records(h, n, a)[i] == r;
      var j := Peer(a, b, n, i);
      GoodAt(a, n, i);
      GoodAt(b, n, j);
      ItemIsItsLeaves(h, n, a[i], b[j]);
      RecordAt(h, n, a, i);
      RecordAt(h, n, b, j);
    } else if r in Records(h, n, b) {
      var j :| 0 <= j < |b| && Records(h, n, b)[j] == r;
      var i := Peer(b, a, n, j);
      GoodAt(a, n, i);
      GoodAt(b, n, j);
      ItemIsItsLeaves(h, n, a[i], b[j]);
      RecordAt(h, n, a, i);
      RecordAt(h, n, b, j);
    }
  }

  lemma Peer(a: seq<Item>, b: seq<Item>, n: nat, i: nat) returns (j: nat)
    requires Good(a, n) && Good(b, n) && Leaves(a) == Leaves(b) && i < |a|
    ensures j < |b| && LeavesOf(b[j]) == LeavesOf(a[i])
  {
    hide LeavesOf, Leaves, Good;
    var l := SomeLeaf(a[i]);
    LeafBelow(a[i], l);
    LeavesAre(a, l);
    LeavesAre(b, l);
    j :| 0 <= j < |b| && l in LeavesOf(b[j]);
    LeafBelow(b[j], l);
    forall m
      ensures m in LeavesOf(a[i]) <==> m in LeavesOf(b[j])
    {
      if m in LeavesOf(a[i]) {
        OnlyOneSees(a, b, n, i, j, m);
      }
      if m in LeavesOf(b[j]) {
        OnlyOneSees(b, a, n, j, i, m);
      }
    }
  }

  lemma OnlyOneSees(a: seq<Item>, b: seq<Item>, n: nat, i: nat, j: nat, m: Leaf)
    requires Good(b, n) && Leaves(a) == Leaves(b) && i < |a| && j < |b| && a[i].name == b[j].name
    requires m in LeavesOf(a[i])
    ensures m in LeavesOf(b[j])
  {
    hide LeavesOf, Leaves, Good;
    LeavesAre(a, m);
    LeavesAre(b, m);
    var k :| 0 <= k < |b| && m in LeavesOf(b[k]);
    LeafBelow(a[i], m);
    LeafBelow(b[k], m);
    GoodAt(b, n, j);
  }
}
