/**
 Rebuilding nested directories from a list of paths (`_canonical_tree_oid` in deploy/offline_ops.py).
 */
module Rebuild {
  import opened Wrappers
  import opened Numerals
  import opened GitHash
  import opened Paths

  /** One line of the manifest. */
  datatype Entry = Entry(mode: string, oid: string, size: nat, digest: string, path: string)

  function IndexOf(items: seq<Item>, name: string): (i: int)
    ensures i == -1 || (0 <= i < |items| && items[i].name == name)
    ensures i == -1 ==> forall j :: 0 <= j < |items| ==> items[j].name != name
  {
    if items == [] then -1
    else if items[0].name == name then 0
    else
      var i := IndexOf(items[1..], name);
      assert forall j :: 1 <= j < |items| ==> items[j] == items[1..][j - 1];
      if i < 0 then -1 else i + 1
  }

  /** Enters a file under its path; a file in the way, or an entry already there, is a collision. */
  function Add(items: seq<Item>, path: seq<string>, file: Node): Option<seq<Item>>
    requires path != []
    decreases |path|
  {
    var i := IndexOf(items, path[0]);
    if |path| == 1 then
      if i < 0 then Some(items + [Item(path[0], file)]) else None
    else if i >= 0 && items[i].node.File? then None
    else
      match Add(if i < 0 then [] else items[i].node.items, path[1..], file)
      case None => None
      case Some(below) =>
        var item := Item(path[0], Dir(below));
        Some(if i < 0 then items + [item] else items[i := item])
  }

  function Build(entries: seq<Entry>): Option<seq<Item>> {
    if entries == [] then Some([])
    else
      var e := entries[|entries| - 1];
      match Build(entries[..|entries| - 1])
      case None => None
      case Some(items) => Add(items, Split(e.path, '/'), File(e.mode, e.oid))
  }

  // ------------------------------------------------------------ one addition

  /** Some path of the tree passes through this one, or the other way round. */
  predicate Blocked(leaves: set<Leaf>, path: seq<string>) {
    exists l :: l in leaves && (l.path <= path || path <= l.path)
  }

  /** No directory is empty. */
  predicate Full(items: seq<Item>) {
    forall l <- Leaves(items) :: l.what.Blob?
  }

  predicate SafePath(path: seq<string>) {
    path != [] && forall i :: 0 <= i < |path| ==> SafeName(path[i])
  }

  lemma {:induction false} GoodIf(items: seq<Item>, n: nat)
    requires forall i :: 0 <= i < |items| ==> GoodItem(items[i], n)
    requires forall i, j :: 0 <= i < j < |items| ==> items[i].name != items[j].name
    ensures Good(items, n)
    decreases |items|
  {
    if items != [] {
      var tail := items[1..];
      assert forall i :: 0 <= i < |tail| ==> tail[i] == items[i + 1];
      GoodIf(tail, n);
    }
  }

  lemma NewItem(items: seq<Item>, n: nat, item: Item)
    requires Good(items, n) && GoodItem(item, n) && IndexOf(items, item.name) < 0
    ensures Good(items + [item], n) && Leaves(items + [item]) == Leaves(items) + LeavesOf(item)
  {
    hide Good, GoodItem, LeavesOf, Leaves, IndexOf;
    var all := items + [item];
    forall i | 0 <= i < |all|
      ensures GoodItem(all[i], n)
      ensures forall j :: i < j < |all| ==> all[i].name != all[j].name
    {
      if i < |items| {
        GoodAt(items, n, i);
      }
    }
    GoodIf(all, n);
    forall l
      ensures l in Leaves(all) <==> l in Leaves(items) || l in LeavesOf(item)
    {
      LeavesAre(all, l);
      LeavesAre(items, l);
      assert all[|items|] == item && forall k :: 0 <= k < |items| ==> all[k] == items[k];
    }
  }

  lemma ReplacedItem(items: seq<Item>, n: nat, i: nat, item: Item, leaf: Leaf)
    requires Good(items, n) && GoodItem(item, n) && i < |items| && item.name == items[i].name
    requires LeavesOf(item) == LeavesOf(items[i]) + {leaf}
    ensures Good(items[i := item], n) && Leaves(items[i := item]) == Leaves(items) + {leaf}
  {
    hide Good, GoodItem, LeavesOf, Leaves;
    var all := items[i := item];
    forall k | 0 <= k < |all|
      ensures GoodItem(all[k], n)
      ensures forall j :: k < j < |all| ==> all[k].name != all[j].name
    {
      GoodAt(items, n, k);
    }
    GoodIf(all, n);
    forall l
      ensures l in Leaves(all) <==> l in Leaves(items) || l == leaf
    {
      LeavesAre(all, l);
      LeavesAre(items, l);
      assert all[i] == item;
      assert forall k :: 0 <= k < |items| && k != i ==> all[k] == items[k];
    }
  }

  lemma UnderMore(name: string, leaves: set<Leaf>, l: Leaf)
    ensures Under(name, leaves + {l}) == Under(name, leaves) + {Leaf([name] + l.path, l.what)}
  {
    assert forall m :: m in leaves + {l} <==> m in leaves || m == l;
  }

  lemma LeafMeets(items: seq<Item>, n: nat, path: seq<string>, l: Leaf)
    requires Good(items, n) && path != [] && l in Leaves(items) && (l.path <= path || path <= l.path)
    ensures IndexOf(items, path[0]) >= 0 && l in LeavesOf(items[IndexOf(items, path[0])])
  {
    hide LeavesOf, Leaves, Good;
    LeavesAre(items, l);
    var k :| 0 <= k < |items| && l in LeavesOf(items[k]);
    LeafBelow(items[k], l);
    assert items[k].name == path[0];
    GoodAt(items, n, k);
  }

  lemma BlockedBelow(items: seq<Item>, n: nat, path: seq<string>, sub: seq<Item>)
    requires Good(items, n) && |path| > 1 && IndexOf(items, path[0]) >= 0 && sub != []
    requires items[IndexOf(items, path[0])].node == Dir(sub)
    ensures Blocked(Leaves(items), path) <==> Blocked(Leaves(sub), path[1..])
  {
    hide Leaves, Good, IndexOf;
    var i := IndexOf(items, path[0]);
    var name := path[0];
    assert path == [name] + path[1..];
    if Blocked(Leaves(items), path) {
      var l :| l in Leaves(items) && (l.path <= path || path <= l.path);
      LeafMeets(items, n, path, l);
      var m :| m in Leaves(sub) && l == Leaf([name] + m.path, m.what);
      PrefixBelow(name, m.path, path[1..]);
    }
    if Blocked(Leaves(sub), path[1..]) {
      var m :| m in Leaves(sub) && (m.path <= path[1..] || path[1..] <= m.path);
      var l := Leaf([name] + m.path, m.what);
      assert l in LeavesOf(items[i]);
      LeavesAre(items, l);
      PrefixBelow(name, m.path, path[1..]);
    }
  }

  lemma PrefixBelow(name: string, a: seq<string>, b: seq<string>)
    ensures [name] + a <= [name] + b <==> a <= b
    ensures [name] + b <= [name] + a <==> b <= a
  {
    assert ([name] + a)[1..] == a && ([name] + b)[1..] == b;
  }

  lemma FullBelow(items: seq<Item>, i: nat, sub: seq<Item>)
    requires Full(items) && i < |items| && items[i].node == Dir(sub)
    ensures sub != [] && Full(sub)
  {
    hide Leaves;
    if sub == [] {
      var l := Leaf([items[i].name], Nothing);
      assert l in LeavesOf(items[i]);
      LeavesAre(items, l);
      assert false;
    }
    forall m | m in Leaves(sub)
      ensures m.what.Blob?
    {
      var l := Leaf([items[i].name] + m.path, m.what);
      assert l in LeavesOf(items[i]);
      LeavesAre(items, l);
    }
  }

  /**
   Entering a path succeeds exactly when no path of the tree meets it, and then the tree has exactly one
   more file.
   */
  lemma {:induction false} AddIsRight(items: seq<Item>, n: nat, path: seq<string>, mode: string, oid: string)
    requires Good(items, n) && Full(items) && SafePath(path) && GoodItem(Item(path[0], File(mode, oid)), n)
    ensures Add(items, path, File(mode, oid)).Some? <==> !Blocked(Leaves(items), path)
    ensures Add(items, path, File(mode, oid)).Some? ==>
              && Good(Add(items, path, File(mode, oid)).value, n)
              && Leaves(Add(items, path, File(mode, oid)).value) == Leaves(items) + {Leaf(path, Blob(mode, oid))}
    decreases |path|
  {
    hide Good, Leaves, IndexOf, Full, Blocked;
    var name, rest := path[0], path[1..];
    var i := IndexOf(items, name);
    assert path == [name] + rest;
    if i < 0 {
      NothingMeets(items, n, path);
      if rest == [] {
        assert path == [name];
        NewItem(items, n, Item(name, File(mode, oid)));
      } else {
        NothingInEmpty(n, rest);
        AddIsRight([], n, rest, mode, oid);
        var below := Add([], rest, File(mode, oid)).value;
        DirectoryOf(name, below, n, Leaves([]), Leaf(rest, Blob(mode, oid)));
        NewItem(items, n, Item(name, Dir(below)));
      }
    } else {
      GoodAt(items, n, i);
      if rest == [] || items[i].node.File? {
        SomethingMeets(items, path, i);
      } else {
        var sub := items[i].node.items;
        FullBelow(items, i, sub);
        assert Good(sub, n);
        BlockedBelow(items, n, path, sub);
        AddIsRight(sub, n, rest, mode, oid);
        if Add(sub, rest, File(mode, oid)).Some? {
          var below := Add(sub, rest, File(mode, oid)).value;
          DirectoryOf(name, below, n, Leaves(sub), Leaf(rest, Blob(mode, oid)));
          ReplacedItem(items, n, i, Item(name, Dir(below)), Leaf(path, Blob(mode, oid)));
        }
      }
    }
  }

  lemma NothingInEmpty(n: nat, path: seq<string>)
    ensures Good([], n) && Full([]) && !Blocked(Leaves([]), path) && Leaves([]) == {}
  {
  }

  lemma DirectoryOf(name: string, below: seq<Item>, n: nat, leaves: set<Leaf>, l: Leaf)
    requires SafeName(name) && Good(below, n) && Leaves(below) == leaves + {l}
    ensures GoodItem(Item(name, Dir(below)), n)
    ensures LeavesOf(Item(name, Dir(below))) == Under(name, leaves) + {Leaf([name] + l.path, l.what)}
  {
    UnderMore(name, leaves, l);
    assert l in Leaves(below);
  }

  lemma NothingMeets(items: seq<Item>, n: nat, path: seq<string>)
    requires Good(items, n) && path != [] && IndexOf(items, path[0]) < 0
    ensures !Blocked(Leaves(items), path)
  {
    forall l | l in Leaves(items) && (l.path <= path || path <= l.path)
      ensures false
    {
      LeafMeets(items, n, path, l);
    }
  }

  lemma SomethingMeets(items: seq<Item>, path: seq<string>, i: nat)
    requires path != [] && i < |items| && items[i].name == path[0] && (|path| == 1 || items[i].node.File?)
    ensures Blocked(Leaves(items), path)
  {
    var l := SomeLeaf(items[i]);
    LeafBelow(items[i], l);
    LeavesAre(items, l);
    assert l.path <= path || path <= l.path;
  }

  // ------------------------------------------------------------- all entries

  predicate GoodFile(e: Entry, n: nat) {
    && SafePath(Split(e.path, '/'))
    && (e.mode == "100644" || e.mode == "100755") && IsHex(e.oid) && |e.oid| == 2 * n
  }

  /** The files a manifest lists. */
  function Listed(entries: seq<Entry>): set<Leaf> {
    set e | e in entries :: Leaf(Split(e.path, '/'), Blob(e.mode, e.oid))
  }

  /** No listed path is another one, or lies inside another one. */
  predicate Apart(entries: seq<Entry>) {
    forall i, j :: 0 <= i < j < |entries| ==> !Meet(entries[i], entries[j])
  }

  predicate Meet(a: Entry, b: Entry) {
    Split(a.path, '/') <= Split(b.path, '/') || Split(b.path, '/') <= Split(a.path, '/')
  }

  /**
   Rebuilding succeeds exactly when no two listed paths collide, and then the tree has exactly the listed
   files.
   */
  lemma {:induction false} BuildIsRight(entries: seq<Entry>, n: nat)
    requires forall i :: 0 <= i < |entries| ==> GoodFile(entries[i], n)
    ensures Build(entries).Some? <==> Apart(entries)
    ensures Build(entries).Some? ==>
              Good(Build(entries).value, n) && Full(Build(entries).value) && Leaves(Build(entries).value) == Listed(entries)
  {
    hide Good, Full, Leaves, Add, Blocked, Meet;
    if entries == [] {
      NothingInEmpty(n, []);
      assert Listed([]) == {};
      assert Good([], n) && Full([]) && Leaves([]) == {};
    } else {
      var e, init := entries[|entries| - 1], entries[..|entries| - 1];
      assert GoodFile(e, n);
      BuildIsRight(init, n);
      ListedNext(init, e);
      assert entries == init + [e];
      if Build(init).Some? {
        var items, path := Build(init).value, Split(e.path, '/');
        AddIsRight(items, n, path, e.mode, e.oid);
        BlockedByListed(init, items, e);
        if Add(items, path, File(e.mode, e.oid)).Some? {
          StillFull(items, Add(items, path, File(e.mode, e.oid)).value, Leaf(path, Blob(e.mode, e.oid)));
        }
      }
    }
  }

  lemma ListedNext(init: seq<Entry>, e: Entry)
    ensures Listed(init + [e]) == Listed(init) + {Leaf(Split(e.path, '/'), Blob(e.mode, e.oid))}
    ensures Apart(init + [e]) <==> Apart(init) && forall i :: 0 <= i < |init| ==> !Meet(init[i], e)
  {
    hide Meet;
    var all := init + [e];
    assert forall x :: x in all <==> x in init || x == e;
    assert all[|init|] == e && forall i :: 0 <= i < |init| ==> all[i] == init[i];
  }

  lemma BlockedByListed(init: seq<Entry>, items: seq<Item>, e: Entry)
    requires Leaves(items) == Listed(init)
    ensures Blocked(Leaves(items), Split(e.path, '/')) <==> exists i :: 0 <= i < |init| && Meet(init[i], e)
  {
    var path := Split(e.path, '/');
    if Blocked(Leaves(items), path) {
      var l :| l in Leaves(items) && (l.path <= path || path <= l.path);
      var x :| x in init && l == Leaf(Split(x.path, '/'), Blob(x.mode, x.oid));
      var i :| 0 <= i < |init| && init[i] == x;
      assert Meet(init[i], e);
    }
    if i :| 0 <= i < |init| && Meet(init[i], e) {
      assert init[i] in init;
      assert Leaf(Split(init[i].path, '/'), Blob(init[i].mode, init[i].oid)) in Listed(init);
    }
  }

  lemma StillFull(items: seq<Item>, more: seq<Item>, l: Leaf)
    requires Full(items) && Leaves(more) == Leaves(items) + {l} && l.what.Blob?
    ensures Full(more)
  {
  }

  /** The loop of `_canonical_tree_oid` over the manifest's entries. */
  method RebuildTree(entries: seq<Entry>) returns (root: Option<seq<Item>>)
    ensures root == Build(entries)
  {
    hide Add;
    var items: seq<Item> := [];
    for i := 0 to |entries|
      invariant Build(entries[..i]) == Some(items)
    {
      assert entries[..i + 1][..i] == entries[..i];
      var added := Add(items, Split(entries[i].path, '/'), File(entries[i].mode, entries[i].oid));
      if added.None? {
        StaysNone(entries, i + 1);
        return None;
      }
      items := added.value;
    }
    assert entries[..|entries|] == entries;
    return Some(items);
  }

  lemma {:induction false} StaysNone(entries: seq<Entry>, i: nat)
    requires i <= |entries| && Build(entries[..i]).None?
    ensures Build(entries).None?
    decreases |entries|
  {
    if i < |entries| {
      assert entries[..|entries| - 1][..i] == entries[..i];
      StaysNone(entries[..|entries| - 1], i);
    } else {
      assert entries[..i] == entries;
    }
  }
}
