/**
 The release manifest: its text and the parser that accepts it only if its files rebuild the signed tree
 (`parse_release_manifest_bytes` in deploy/offline_ops.py, the printer in deploy/release_export.py).
 */
module Manifest {
  import opened Wrappers
  import opened Order
  import opened Numerals
  import opened GitHash
  import opened GitTree
  import opened Paths
  import opened Rebuild

  const HEADER := "OPSWARDEN-RELEASE-MANIFEST-V2"
  const KEYS: seq<string> := ["object-format", "tag-name", "tag-oid", "commit-oid", "tree-oid", "epoch"]
  const MAX_ENTRIES := 20_000
  const MAX_DEPTH := 32
  const MAX_FILE_SIZE := 64 * 1024 * 1024
  const MAX_TOTAL_SIZE := 512 * 1024 * 1024

  datatype Meta = Meta(format: string, tag: string, tagOid: string, commitOid: string, treeOid: string, epoch: string)

  /** SHA-1 and SHA-256 by the name of the object format. */
  type Hashes = string -> Hash

  ghost predicate Widths(hashes: Hashes) {
    Digests(hashes("sha1"), 20) && Digests(hashes("sha256"), 32)
  }

  /** Bytes in an object identifier; 0 for an unknown format. */
  function OidBytes(format: string): nat {
    if format == "sha1" then 20 else if format == "sha256" then 32 else 0
  }

  // --------------------------------------------------------------- characters

  predicate IsAlnum(c: char) {
    'a' <= c <= 'z' || 'A' <= c <= 'Z' || '0' <= c <= '9'
  }

  predicate TagOk(s: string) {
    && 1 <= |s| <= 255 && IsAlnum(s[0])
    && forall i :: 0 <= i < |s| ==> IsAlnum(s[i]) || s[i] in "._/+~-"
  }

  predicate PathChar(c: char) {
    IsAlnum(c) || c in "._+@/-"
  }

  /** The tests for a leading, trailing or double slash are the case of an empty component. */
  predicate PathOk(s: string) {
    && 1 <= |s| <= 4096
    && (forall i :: 0 <= i < |s| ==> PathChar(s[i]))
    && forall i :: 0 <= i < |Split(s, '/')| ==> Split(s, '/')[i] !in ["", ".", "..", ".git"]
  }

  predicate OidOk(s: string, n: nat) {
    |s| == 2 * n && (n == 20 || n == 32) && IsHex(s)
  }

  /** Text that survives `decode("ascii")` and the test for NUL and carriage return. */
  predicate Encodable(s: string) {
    forall i :: 0 <= i < |s| ==> s[i] != '\0' && s[i] != '\r' && s[i] as int < 128
  }

  // -------------------------------------------------------------------- lines

  function PrintEntry(e: Entry): string {
    e.mode + [' '] + (e.oid + [' '] + (Dec(e.size) + [' '] + (e.digest + [' '] + e.path)))
  }

  predicate EntryOk(e: Entry, n: nat) {
    && (e.mode == "100644" || e.mode == "100755") && OidOk(e.oid, n)
    && |e.digest| == 64 && IsHex(e.digest) && PathOk(e.path)
  }

  function ParseEntry(line: string, n: nat): (e: Option<Entry>)
    ensures e.Some? ==> EntryOk(e.value, n)
  {
    var fields := SplitMost(line, ' ', 4);
    if |fields| == 5 && IsDecimal(fields[2]) then
      var e := Entry(fields[0], fields[1], Value(fields[2]), fields[3], fields[4]);
      if EntryOk(e, n) then Some(e) else None
    else None
  }

  function Total(entries: seq<Entry>): nat {
    if entries == [] then 0 else Total(entries[..|entries| - 1]) + entries[|entries| - 1].size
  }

  /** One more entry: above the last path, within the limits. */
  predicate Fits(entries: seq<Entry>, e: Entry) {
    && Less(if entries == [] then "" else entries[|entries| - 1].path, e.path)
    && (forall x <- entries :: x.path != e.path)
    && |Split(e.path, '/')| <= MAX_DEPTH && e.size <= MAX_FILE_SIZE
    && |entries| < MAX_ENTRIES && Total(entries) + e.size <= MAX_TOTAL_SIZE
  }

  predicate Acceptable(entries: seq<Entry>) {
    entries == [] ||
    (Acceptable(entries[..|entries| - 1]) && Fits(entries[..|entries| - 1], entries[|entries| - 1]))
  }

  function ParseEntries(lines: seq<string>, n: nat): (es: Option<seq<Entry>>)
    ensures es.Some? ==> |es.value| == |lines| && Acceptable(es.value)
    ensures es.Some? ==> forall i :: 0 <= i < |lines| ==> EntryOk(es.value[i], n)
  {
    if lines == [] then Some([])
    else
      match ParseEntries(lines[..|lines| - 1], n)
      case None => None
      case Some(init) =>
        match ParseEntry(lines[|lines| - 1], n)
        case None => None
        case Some(e) => if Fits(init, e) then assert (init + [e])[..|init|] == init; Some(init + [e]) else None
  }

  /** The value of a header line. */
  function Field(line: string, key: string): Option<string> {
    if key + " " < line then Some(line[|key| + 1..]) else None
  }

  function Fields(keys: seq<string>, lines: seq<string>): (fields: Option<seq<string>>)
    requires |keys| <= |lines|
    ensures fields.Some? ==> |fields.value| == |keys|
  {
    if keys == [] then Some([])
    else
      var k := |keys| - 1;
      match (Fields(keys[..k], lines), Field(lines[k], keys[k]))
      case (Some(init), Some(f)) => Some(init + [f])
      case _ => None
  }

  predicate MetaOk(m: Meta) {
    var n := OidBytes(m.format);
    && (m.format == "sha1" || m.format == "sha256")
    && TagOk(m.tag) && OidOk(m.tagOid, n) && OidOk(m.commitOid, n) && OidOk(m.treeOid, n) && IsDecimal(m.epoch)
  }

  function ParseMeta(lines: seq<string>): (m: Option<Meta>)
    requires |lines| >= 8
    ensures m.Some? ==> MetaOk(m.value)
  {
    match Fields(KEYS, lines[1..])
    case None => None
    case Some(f) =>
      var m := Meta(f[0], f[1], f[2], f[3], f[4], f[5]);
      if MetaOk(m) then Some(m) else None
  }

  function PrintMeta(m: Meta): seq<string> {
    [HEADER, KEYS[0] + " " + m.format, KEYS[1] + " " + m.tag, KEYS[2] + " " + m.tagOid, KEYS[3] + " " + m.commitOid,
     KEYS[4] + " " + m.treeOid, KEYS[5] + " " + m.epoch]
  }

  function PrintEntries(entries: seq<Entry>): seq<string> {
    seq(|entries|, i requires 0 <= i < |entries| => PrintEntry(entries[i]))
  }

  function PrintManifest(m: Meta, entries: seq<Entry>): string {
    PrintLines(PrintMeta(m) + PrintEntries(entries))
  }

  // ------------------------------------------------------------------ parsing

  lemma EntryIsFile(e: Entry, n: nat)
    requires EntryOk(e, n)
    ensures GoodFile(e, n)
  {
    PartsAreFree(e.path, '/');
    var parts := Split(e.path, '/');
    JoinAfterSplit(e.path, '/');
    forall i | 0 <= i < |parts|
      ensures SafeName(parts[i])
    {
      assert '\0' !in e.path;
      if '\0' in parts[i] {
        PartsComeFrom(parts, '/', i, '\0');
      }
    }
  }

  lemma {:induction false} PartsComeFrom(parts: seq<string>, c: char, i: nat, x: char)
    requires i < |parts| && x in parts[i]
    ensures x in Join(parts, c)
  {
    if |parts| > 1 && i > 0 {
      PartsComeFrom(parts[1..], c, i - 1, x);
    }
  }

  /** `_canonical_tree_oid`: do the entries rebuild the tree named in the header? */
  predicate Rebuilds(hashes: Hashes, m: Meta, entries: seq<Entry>)
    requires Widths(hashes) && MetaOk(m) && forall i :: 0 <= i < |entries| ==> GoodFile(entries[i], OidBytes(m.format))
  {
    BuildIsRight(entries, OidBytes(m.format));
    Build(entries).Some? && Oid(hashes(m.format), OidBytes(m.format), Build(entries).value) == m.treeOid
  }

  /** The lines after the header, once split: metadata, entries, at least one entry, the signed tree. */
  function ParseBody(hashes: Hashes, lines: seq<string>): (r: Option<(Meta, seq<Entry>)>)
    requires Widths(hashes) && |lines| >= 8
  {
    match ParseMeta(lines)
    case None => None
    case Some(m) =>
      match ParseEntries(lines[7..], OidBytes(m.format))
      case None => None
      case Some(es) =>
        EntriesAreFiles(es, OidBytes(m.format));
        if Rebuilds(hashes, m, es) then Some((m, es)) else None
  }

  lemma EntriesAreFiles(entries: seq<Entry>, n: nat)
    requires forall i :: 0 <= i < |entries| ==> EntryOk(entries[i], n)
    ensures forall i :: 0 <= i < |entries| ==> GoodFile(entries[i], n)
  {
    hide EntryOk, GoodFile;
    forall i | 0 <= i < |entries|
      ensures GoodFile(entries[i], n)
    {
      EntryIsFile(entries[i], n);
    }
  }

  /** `parse_release_manifest_bytes`; every refusal is `None`. */
  function ParseManifest(hashes: Hashes, raw: string): Option<(Meta, seq<Entry>)>
    requires Widths(hashes)
  {
    if !Encodable(raw) || raw == "" || raw[|raw| - 1] != '\n' then None
    else
      var lines := SplitLines(raw);
      if |lines| < 8 || lines[0] != HEADER then None else ParseBody(hashes, lines)
  }

  /** One step of the loop over the entries. */
  lemma ReadNext(lines: seq<string>, n: nat, i: nat, es: seq<Entry>)
    requires i < |lines| && ParseEntries(lines[..i], n) == Some(es)
    ensures var e := ParseEntry(lines[i], n);
            ParseEntries(lines[..i + 1], n) == if e.Some? && Fits(es, e.value) then Some(es + [e.value]) else None
  {
    hide ParseEntry, Fits;
    assert lines[..i + 1][..i] == lines[..i];
  }

  lemma TotalNext(es: seq<Entry>, e: Entry)
    ensures Total(es + [e]) == Total(es) + e.size
  {
    assert (es + [e])[..|es|] == es;
  }

  function PathsOf(entries: seq<Entry>): set<string> {
    set e | e in entries :: e.path
  }

  lemma PathsNext(es: seq<Entry>, e: Entry)
    ensures PathsOf(es + [e]) == PathsOf(es) + {e.path}
    ensures e.path in PathsOf(es) <==> exists x :: x in es && x.path == e.path
  {
    assert forall x :: x in es + [e] <==> x in es || x == e;
  }

  /** The loop over the manifest's entries. */
  method ReadEntries(lines: seq<string>, n: nat) returns (entries: Option<seq<Entry>>)
    ensures entries == ParseEntries(lines, n)
  {
    hide ParseEntry, ParseEntries, PathsOf, Total, Less, Split, Acceptable;
    var es: seq<Entry> := [];
    var paths: set<string> := {};
    var previous := "";
    var total: nat := 0;
    NothingRead(n);
    assert lines[..0] == [];
    for i := 0 to |lines|
      invariant ParseEntries(lines[..i], n) == Some(es) && total == Total(es) && paths == PathsOf(es)
      invariant previous == if es == [] then "" else es[|es| - 1].path
    {
      ReadNext(lines, n, i, es);
      var parsed := ParseEntry(lines[i], n);
      if parsed.None? {
        StaysUnread(lines, n, i + 1);
        return None;
      }
      var e := parsed.value;
      PathsNext(es, e);
      TotalNext(es, e);
      if !Less(previous, e.path) || e.path in paths || |Split(e.path, '/')| > MAX_DEPTH || e.size > MAX_FILE_SIZE
         || |es| >= MAX_ENTRIES || total + e.size > MAX_TOTAL_SIZE {
        StaysUnread(lines, n, i + 1);
        return None;
      }
      es, paths, previous, total := es + [e], paths + {e.path}, e.path, total + e.size;
    }
    assert lines[..|lines|] == lines;
    return Some(es);
  }

  lemma NothingRead(n: nat)
    ensures ParseEntries([], n) == Some([]) && Total([]) == 0 && PathsOf([]) == {}
  {
  }

  lemma {:induction false} StaysUnread(lines: seq<string>, n: nat, i: nat)
    requires i <= |lines| && ParseEntries(lines[..i], n).None?
    ensures ParseEntries(lines, n).None?
    decreases |lines|
  {
    if i < |lines| {
      assert lines[..|lines| - 1][..i] == lines[..i];
      StaysUnread(lines[..|lines| - 1], n, i);
    } else {
      assert lines[..i] == lines;
    }
  }

  method ParseReleaseManifest(hashes: Hashes, raw: string) returns (result: Option<(Meta, seq<Entry>)>)
    requires Widths(hashes)
    ensures result == ParseManifest(hashes, raw)
  {
    if !Encodable(raw) || raw == "" || raw[|raw| - 1] != '\n' {
      return None;
    }
    var lines := SplitLines(raw);
    if |lines| < 8 || lines[0] != HEADER {
      return None;
    }
    var meta := ParseMeta(lines);
    if meta.None? {
      return None;
    }
    var n := OidBytes(meta.value.format);
    var entries := ReadEntries(lines[7..], n);
    if entries.None? {
      return None;
    }
    EntriesAreFiles(entries.value, n);
    BuildIsRight(entries.value, n);
    var root := RebuildTree(entries.value);
    if root.None? || Oid(hashes(meta.value.format), n, root.value) != meta.value.treeOid {
      return None;
    }
    return Some((meta.value, entries.value));
  }

  // ---------------------------------------------------------------- binding

  /** Path, mode and blob of every listed file. */
  function Files(entries: seq<Entry>): set<(string, string, string)> {
    set e | e in entries :: (e.path, e.mode, e.oid)
  }

  /** Every byte string hashed while checking an accepted manifest. */
  function HashedFor(hashes: Hashes, m: Meta, entries: seq<Entry>): set<string>
    requires Widths(hashes) && MetaOk(m) && forall i :: 0 <= i < |entries| ==> GoodFile(entries[i], OidBytes(m.format))
  {
    BuildIsRight(entries, OidBytes(m.format));
    if Build(entries).Some? then Hashed(hashes(m.format), OidBytes(m.format), Build(entries).value) else {}
  }

  lemma ListedDecidesFiles(a: seq<Entry>, b: seq<Entry>)
    requires Listed(a) <= Listed(b)
    ensures Files(a) <= Files(b)
  {
    forall e | e in a
      ensures (e.path, e.mode, e.oid) in Files(b)
    {
      var l := Leaf(Split(e.path, '/'), Blob(e.mode, e.oid));
      assert l in Listed(b);
      var x :| x in b && l == Leaf(Split(x.path, '/'), Blob(x.mode, x.oid));
      JoinAfterSplit(e.path, '/');
      JoinAfterSplit(x.path, '/');
    }
  }

  /** The files of an accepted manifest, one per path. */
  lemma {:induction false} PathsAreUnique(entries: seq<Entry>)
    requires Acceptable(entries)
    ensures forall i, j :: 0 <= i < j < |entries| ==> entries[i].path != entries[j].path
  {
    if entries != [] {
      var init := entries[..|entries| - 1];
      PathsAreUnique(init);
      assert forall i :: 0 <= i < |init| ==> init[i] == entries[i] && init[i] in init;
    }
  }

  /**
   Any two accepted manifests that name the same tree list exactly the same files: same paths, modes and
   blobs, one file per path, through nested directories and both sort orders.  The only other possibility
   is a collision between two strings that were hashed while checking them.
   */
  lemma ManifestBinding(hashes: Hashes, raw: string, raw': string, m: Meta, es: seq<Entry>, m': Meta, es': seq<Entry>)
    requires Widths(hashes)
    requires ParseManifest(hashes, raw) == Some((m, es)) && ParseManifest(hashes, raw') == Some((m', es'))
    requires m.format == m'.format && m.treeOid == m'.treeOid
    ensures MetaOk(m) && MetaOk(m')
    ensures forall i :: 0 <= i < |es| ==> GoodFile(es[i], OidBytes(m.format))
    ensures forall i :: 0 <= i < |es'| ==> GoodFile(es'[i], OidBytes(m'.format))
    ensures forall i, j :: 0 <= i < j < |es| ==> es[i].path != es[j].path
    ensures Files(es) == Files(es') || Clash(hashes(m.format), HashedFor(hashes, m, es), HashedFor(hashes, m', es'))
  {
    hide ParseManifest, MetaOk, Good, GoodFile, Listed, Full, Leaves, Raw, Hashed, Acceptable, Files, Clash, Build;
    var h, n := hashes(m.format), OidBytes(m.format);
    Accepted(hashes, raw, m, es);
    Accepted(hashes, raw', m', es');
    WidthOf(hashes, m);
    PathsAreUnique(es);
    BuildIsRight(es, n);
    BuildIsRight(es', n);
    var a, b := Build(es).value, Build(es').value;
    Binding(h, n, a, b);
    if Leaves(a) == Leaves(b) {
      ListedDecidesFiles(es, es');
      ListedDecidesFiles(es', es);
    }
  }

  lemma WidthOf(hashes: Hashes, m: Meta)
    requires Widths(hashes) && MetaOk(m)
    ensures Digests(hashes(m.format), OidBytes(m.format))
  {
  }

  lemma Accepted(hashes: Hashes, raw: string, m: Meta, es: seq<Entry>)
    requires Widths(hashes) && ParseManifest(hashes, raw) == Some((m, es))
    ensures MetaOk(m) && Acceptable(es) && es != []
    ensures forall i :: 0 <= i < |es| ==> GoodFile(es[i], OidBytes(m.format))
    ensures Rebuilds(hashes, m, es)
  {
    hide EntryOk, Acceptable, Rebuilds, GoodFile, SplitLines, Encodable, ParseMeta, ParseEntries;
    EntriesAreFiles(es, OidBytes(m.format));
  }

  // ------------------------------------------------------------- round trip

  lemma EntryComesBack(e: Entry, n: nat)
    requires EntryOk(e, n)
    ensures ParseEntry(PrintEntry(e), n) == Some(e)
  {
    hide Find, IsDecimal, SplitMost, PathOk;
    var f3 := e.digest + [' '] + e.path;
    var f2 := Dec(e.size) + [' '] + f3;
    var f1 := e.oid + [' '] + f2;
    NoSpaceInHex(e.oid);
    NoSpaceInHex(e.digest);
    NoSpaceInDec(e.size);
    SplitMostStep(e.mode, ' ', f1, 4);
    SplitMostStep(e.oid, ' ', f2, 3);
    SplitMostStep(Dec(e.size), ' ', f3, 2);
    SplitMostStep(e.digest, ' ', e.path, 1);
    LastPart(e.path, ' ');
    ValueOfDec(e.size);
    assert SplitMost(PrintEntry(e), ' ', 4) == [e.mode, e.oid, Dec(e.size), e.digest, e.path];
  }

  lemma LastPart(s: string, c: char)
    ensures SplitMost(s, c, 0) == [s]
  {
  }

  lemma NoSpaceInHex(s: string)
    requires IsHex(s)
    ensures ' ' !in s && Encodable(s) && OneLine(s)
  {
    assert forall i :: 0 <= i < |s| ==> IsHexDigit(s[i]);
  }

  lemma NoSpaceInDec(n: nat)
    ensures IsDecimal(Dec(n)) && ' ' !in Dec(n) && Encodable(Dec(n)) && OneLine(Dec(n))
  {
    var s := Dec(n);
    assert forall i :: 0 <= i < |s| ==> IsDigit(s[i]);
  }

  /** A line that prints and splits back as one line. */
  predicate Clean(s: string) {
    Encodable(s) && OneLine(s)
  }

  lemma CleanTogether(a: string, b: string)
    requires Clean(a) && Clean(b)
    ensures Clean(a + b)
  {
  }

  lemma EntryIsClean(e: Entry, n: nat)
    requires EntryOk(e, n)
    ensures Clean(PrintEntry(e))
  {
    hide IsHex, Clean, PathOk, IsDecimal;
    SpacesAreClean();
    PathIsClean(e.path);
    HexIsClean(e.oid);
    HexIsClean(e.digest);
    DecIsClean(e.size);
    CleanTogether(e.digest, [' ']);
    CleanTogether(e.digest + [' '], e.path);
    var f3 := e.digest + [' '] + e.path;
    CleanTogether(Dec(e.size), [' ']);
    CleanTogether(Dec(e.size) + [' '], f3);
    var f2 := Dec(e.size) + [' '] + f3;
    CleanTogether(e.oid, [' ']);
    CleanTogether(e.oid + [' '], f2);
    var f1 := e.oid + [' '] + f2;
    CleanTogether(e.mode, [' ']);
    CleanTogether(e.mode + [' '], f1);
  }

  lemma SpacesAreClean()
    ensures Clean([' ']) && Clean("100644") && Clean("100755")
  {
  }

  lemma PathIsClean(s: string)
    requires PathOk(s)
    ensures Clean(s)
  {
    assert forall i :: 0 <= i < |s| ==> PathChar(s[i]);
  }

  lemma HexIsClean(s: string)
    requires IsHex(s)
    ensures Clean(s)
  {
    NoSpaceInHex(s);
  }

  lemma DecIsClean(n: nat)
    ensures Clean(Dec(n))
  {
    NoSpaceInDec(n);
  }

  lemma TagIsClean(s: string)
    requires TagOk(s)
    ensures Clean(s)
  {
  }

  lemma DecimalIsClean(s: string)
    requires IsDecimal(s)
    ensures Clean(s)
  {
    assert forall i :: 0 <= i < |s| ==> IsDigit(s[i]);
  }

  lemma HeaderIsClean()
    ensures Clean(HEADER)
  {
  }

  lemma FormatsAreClean()
    ensures Clean("sha1") && Clean("sha256") && Clean(" ")
  {
  }

  lemma KeyIsClean(k: nat)
    requires k < 6
    ensures Clean(KEYS[k])
  {
    if k < 2 {
      assert Clean("object-format") && Clean("tag-name");
    } else if k < 4 {
      assert Clean("tag-oid") && Clean("commit-oid");
    } else {
      assert Clean("tree-oid") && Clean("epoch");
    }
  }

  lemma FieldIsClean(k: nat, value: string)
    requires k < 6 && Clean(value)
    ensures Clean(KEYS[k] + " " + value)
  {
    hide Clean;
    FormatsAreClean();
    KeyIsClean(k);
    CleanTogether(KEYS[k], " ");
    CleanTogether(KEYS[k] + " ", value);
  }

  lemma MetaIsClean(m: Meta)
    requires MetaOk(m)
    ensures forall i :: 0 <= i < |PrintMeta(m)| ==> Clean(PrintMeta(m)[i])
  {
    hide Clean, IsHex, TagOk, IsDecimal;
    HeaderIsClean();
    FormatsAreClean();
    TagIsClean(m.tag);
    HexIsClean(m.tagOid);
    HexIsClean(m.commitOid);
    HexIsClean(m.treeOid);
    DecimalIsClean(m.epoch);
    FieldIsClean(0, m.format);
    FieldIsClean(1, m.tag);
    FieldIsClean(2, m.tagOid);
    FieldIsClean(3, m.commitOid);
    FieldIsClean(4, m.treeOid);
    FieldIsClean(5, m.epoch);
  }

  lemma {:induction false} CleanLinesComeBack(lines: seq<string>)
    requires forall i :: 0 <= i < |lines| ==> Clean(lines[i])
    ensures SplitLines(PrintLines(lines)) == lines && Encodable(PrintLines(lines))
    ensures lines != [] ==> PrintLines(lines) != "" && PrintLines(lines)[|PrintLines(lines)| - 1] == '\n'
  {
    LinesComeBack(lines);
    PrintIsEncodable(lines);
  }

  lemma {:induction false} PrintIsEncodable(lines: seq<string>)
    requires forall i :: 0 <= i < |lines| ==> Clean(lines[i])
    ensures Encodable(PrintLines(lines))
    ensures lines != [] ==> PrintLines(lines) != "" && PrintLines(lines)[|PrintLines(lines)| - 1] == '\n'
  {
    if lines != [] {
      assert Clean(lines[0]);
      PrintIsEncodable(lines[1..]);
    }
  }

  lemma {:induction false} FieldsAre(keys: seq<string>, lines: seq<string>, values: seq<string>)
    requires |values| == |keys| <= |lines|
    requires forall k :: 0 <= k < |keys| ==> Field(lines[k], keys[k]) == Some(values[k])
    ensures Fields(keys, lines) == Some(values)
  {
    if keys != [] {
      var k := |keys| - 1;
      FieldsAre(keys[..k], lines, values[..k]);
      assert values == values[..k] + [values[k]];
    }
  }

  lemma FieldOf(key: string, value: string)
    requires value != ""
    ensures Field(key + " " + value, key) == Some(value)
  {
    assert (key + " " + value)[|key| + 1..] == value;
  }

  lemma MetaComesBack(m: Meta, lines: seq<string>)
    requires MetaOk(m) && |lines| >= 8 && lines[..7] == PrintMeta(m)
    ensures ParseMeta(lines) == Some(m)
  {
    hide Field, Fields;
    var values := [m.format, m.tag, m.tagOid, m.commitOid, m.treeOid, m.epoch];
    FieldOf(KEYS[0], m.format);
    FieldOf(KEYS[1], m.tag);
    FieldOf(KEYS[2], m.tagOid);
    FieldOf(KEYS[3], m.commitOid);
    FieldOf(KEYS[4], m.treeOid);
    FieldOf(KEYS[5], m.epoch);
    forall k | 0 <= k < 6
      ensures Field(lines[1..][k], KEYS[k]) == Some(values[k])
    {
      assert lines[1..][k] == lines[..7][k + 1];
    }
    FieldsAre(KEYS, lines[1..], values);
  }

  lemma {:induction false} EntriesComeBack(es: seq<Entry>, n: nat)
    requires forall i :: 0 <= i < |es| ==> EntryOk(es[i], n)
    ensures ParseEntries(PrintEntries(es), n) == if Acceptable(es) then Some(es) else None
  {
    hide EntryOk, Fits, ParseEntry, PrintEntry;
    if es != [] {
      var init, e := es[..|es| - 1], es[|es| - 1];
      EntriesComeBack(init, n);
      EntryComesBack(e, n);
      assert PrintEntries(es)[..|es| - 1] == PrintEntries(init);
      assert es == init + [e];
    }
  }

  /**
   Printing and parsing: for all well-formed metadata and entries, the printed manifest comes back exactly
   as it went in when the entries are sorted, within the limits and rebuild the named tree; otherwise it is
   refused.
   */
  lemma RoundTrip(hashes: Hashes, m: Meta, es: seq<Entry>)
    requires Widths(hashes) && MetaOk(m) && es != []
    requires forall i :: 0 <= i < |es| ==> EntryOk(es[i], OidBytes(m.format))
    ensures forall i :: 0 <= i < |es| ==> GoodFile(es[i], OidBytes(m.format))
    ensures ParseManifest(hashes, PrintManifest(m, es))
         == if Acceptable(es) && Rebuilds(hashes, m, es) then Some((m, es)) else None
  {
    hide Clean, EntryOk, PrintMeta, PrintEntries, Rebuilds, Acceptable, MetaOk, PrintLines, SplitLines, Encodable, Widths, ParseBody;
    var lines := PrintMeta(m) + PrintEntries(es);
    LinesAreClean(m, es, lines);
    LinesOfParts(m, es, lines);
    CleanLinesComeBack(lines);
    BodyComesBack(hashes, m, es, lines);
  }

  lemma LinesAreClean(m: Meta, es: seq<Entry>, lines: seq<string>)
    requires MetaOk(m) && lines == PrintMeta(m) + PrintEntries(es)
    requires forall i :: 0 <= i < |es| ==> EntryOk(es[i], OidBytes(m.format))
    ensures forall i :: 0 <= i < |lines| ==> Clean(lines[i])
  {
    hide Clean, EntryOk, PrintEntry, PrintMeta, MetaOk;
    LinesOfParts(m, es, lines);
    forall i | 0 <= i < |lines|
      ensures Clean(lines[i])
    {
      if i < 7 {
        MetaIsClean(m);
        assert lines[i] == lines[..7][i];
      } else {
        EntryIsClean(es[i - 7], OidBytes(m.format));
        assert lines[i] == lines[7..][i - 7];
      }
    }
  }

  lemma LinesOfParts(m: Meta, es: seq<Entry>, lines: seq<string>)
    requires lines == PrintMeta(m) + PrintEntries(es)
    ensures |lines| == 7 + |es| && lines[..7] == PrintMeta(m) && lines[7..] == PrintEntries(es) && lines[0] == HEADER
  {
  }

  lemma BodyComesBack(hashes: Hashes, m: Meta, es: seq<Entry>, lines: seq<string>)
    requires Widths(hashes) && MetaOk(m) && es != [] && lines == PrintMeta(m) + PrintEntries(es)
    requires forall i :: 0 <= i < |es| ==> EntryOk(es[i], OidBytes(m.format))
    ensures forall i :: 0 <= i < |es| ==> GoodFile(es[i], OidBytes(m.format))
    ensures ParseBody(hashes, lines) == if Acceptable(es) && Rebuilds(hashes, m, es) then Some((m, es)) else None
  {
    hide EntryOk, PrintEntry, Rebuilds, Acceptable, ParseEntries, ParseMeta, MetaOk, GoodFile, Widths, PrintMeta, PrintEntries;
    LinesOfParts(m, es, lines);
    EntriesAreFiles(es, OidBytes(m.format));
    MetaComesBack(m, lines);
    EntriesComeBack(es, OidBytes(m.format));
  }

  // ------------------------------------------------------------------- format

  /** The ASCII letters and digits, by their codes. */
  predicate LetterOrDigit(c: char) {
    65 <= c as int <= 90 || 97 <= c as int <= 122 || 48 <= c as int <= 57
  }

  /** The characters of tags and of paths. */
  lemma CharactersExactly(s: string, c: char)
    ensures PathChar(c) <==> LetterOrDigit(c) || c in {'.', '_', '+', '@', '/', '-'}
    ensures TagOk(s) <==> 1 <= |s| <= 255 && LetterOrDigit(s[0])
                          && forall i :: 0 <= i < |s| ==> LetterOrDigit(s[i]) || s[i] in {'.', '_', '/', '+', '~', '-'}
  {
  }

  lemma OneMoreLine(line: string, lines: seq<string>)
    ensures PrintLines([line] + lines) == line + "\n" + PrintLines(lines)
  {
    assert ([line] + lines)[1..] == lines;
  }

  /** What is printed: the version of the format, six named values, then the entries. */
  lemma ManifestText(m: Meta, es: seq<Entry>)
    ensures PrintManifest(m, es)
         == "OPSWARDEN-RELEASE-MANIFEST-V2" + "\n" + ("object-format" + " " + m.format + "\n" + ("tag-name" + " " + m.tag + "\n"
            + ("tag-oid" + " " + m.tagOid + "\n" + ("commit-oid" + " " + m.commitOid + "\n"
            + ("tree-oid" + " " + m.treeOid + "\n" + ("epoch" + " " + m.epoch + "\n" + PrintLines(PrintEntries(es))))))))
  {
    var lines := PrintMeta(m);
    hide PrintEntries, PrintLines;
    var k6 := [lines[6]] + PrintEntries(es);
    var k5 := [lines[5]] + k6;
    var k4 := [lines[4]] + k5;
    var k3 := [lines[3]] + k4;
    var k2 := [lines[2]] + k3;
    var k1 := [lines[1]] + k2;
    assert lines + PrintEntries(es) == [lines[0]] + k1;
    OneMoreLine(lines[0], k1);
    OneMoreLine(lines[1], k2);
    OneMoreLine(lines[2], k3);
    OneMoreLine(lines[3], k4);
    OneMoreLine(lines[4], k5);
    OneMoreLine(lines[5], k6);
    OneMoreLine(lines[6], PrintEntries(es));
  }
}
