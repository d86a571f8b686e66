/**
 What survives a crash of the backup service (internal/backup/service.go): the `backup_runs` rows and
 the backup directory, and what both keep at every instant.
 */
module BackupDisk {
  import opened Wrappers

  type Content = seq<bv8>

  const MAX_SNAPSHOT_BYTES: nat := 134_217_728
  const CHUNK: nat := 1_048_576

  /** "SQLite format 3" and a NUL byte. */
  const MAGIC: Content := [83, 81, 76, 105, 116, 101, 32, 102, 111, 114, 109, 97, 116, 32, 51, 0]

  /** SHA-256 in hexadecimal, and SQLite's integrity check. */
  datatype Tools = Tools(digest: Content -> string, sound: Content -> bool)

  /** Names the service gives to files; both spell out the start time and the run's identifier. */
  datatype Name = Partial(started: int, id: string) | Final(started: int, id: string)

  function Twin(n: Name): Name {
    match n
    case Partial(started, id) => Final(started, id)
    case Final(started, id) => Partial(started, id)
  }

  datatype Status = Running | Succeeded | Failed

  datatype Verification = Unknown | Passed | Rejected | Retired

  datatype Row = Row(started: int, status: Status, retained: bool, destination: Option<Name>, checksum: string,
                     size: nat, completedAt: int, verification: Verification, errorCode: string)

  /** Names point to inodes, so two names can share one file; `next` numbers the next new file. */
  datatype Disk = Disk(rows: map<string, Row>, dir: map<Name, nat>, data: map<nat, Content>, next: nat)

  /** Every name leads to a file. */
  predicate WellFormed(d: Disk) {
    forall n <- d.dir :: d.dir[n] in d.data && d.dir[n] < d.next
  }

  function ContentOf(d: Disk, n: Name): Content
    requires WellFormed(d) && n in d.dir
  {
    d.data[d.dir[n]]
  }

  function LinkCount(d: Disk, n: Name): nat
    requires n in d.dir
  {
    |set m | m in d.dir && d.dir[m] == d.dir[n]|
  }

  // ---------------------------------------------------------------- effects

  function CreateFile(d: Disk, n: Name): Disk {
    d.(dir := d.dir[n := d.next], data := d.data[d.next := []], next := d.next + 1)
  }

  function WriteFile(d: Disk, n: Name, c: Content): Disk
    requires n in d.dir
  {
    d.(data := d.data[d.dir[n] := c])
  }

  function LinkFile(d: Disk, n: Name, m: Name): Disk
    requires n in d.dir
  {
    d.(dir := d.dir[m := d.dir[n]])
  }

  function RemoveName(d: Disk, n: Name): Disk {
    d.(dir := d.dir - {n})
  }

  function PutRow(d: Disk, id: string, row: Row): Disk {
    d.(rows := d.rows[id := row])
  }

  // -------------------------------------------------------------- invariant

  predicate Readable(t: Tools, c: Content) {
    0 < |c| <= MAX_SNAPSHOT_BYTES && t.sound(c)
  }

  /** `verifyRelative` with no expected checksum would accept the file. */
  predicate Verifiable(t: Tools, d: Disk, n: Name)
    requires WellFormed(d)
  {
    n in d.dir && LinkCount(d, n) == 1 && Readable(t, ContentOf(d, n))
  }

  /** The file recorded by a row is there, alone under its name, with the recorded checksum and size. */
  predicate Intact(t: Tools, d: Disk, row: Row)
    requires WellFormed(d)
  {
    && row.destination.Some?
    && Verifiable(t, d, row.destination.value)
    && t.digest(ContentOf(d, row.destination.value)) == row.checksum
    && |ContentOf(d, row.destination.value)| == row.size
  }

  ghost predicate RowInv(t: Tools, d: Disk, id: string)
    requires WellFormed(d) && id in d.rows
  {
    var row := d.rows[id];
    match row.status
    case Running =>
      // Nothing unverified is ever published under the final name.
      Final(row.started, id) in d.dir ==> Readable(t, ContentOf(d, Final(row.started, id)))
    case Succeeded =>
      && row.destination.Some? && row.destination.value.Final? && row.destination.value.id == id
      && row.size > 0
      && (row.retained <==> row.verification != Retired)
      && (row.retained || row.destination.value in d.dir ==> Intact(t, d, row))
    case Failed =>
      !row.retained
  }

  /** Only a run's two names ever share a file. */
  predicate TwinsOnly(d: Disk) {
    forall m, n :: m in d.dir && n in d.dir && d.dir[m] == d.dir[n] ==> m == n || m == Twin(n)
  }

  ghost predicate Inv(t: Tools, d: Disk) {
    && WellFormed(d)
    && TwinsOnly(d)
    && forall id <- d.rows :: RowInv(t, d, id)
  }

  predicate Shares(d: Disk, n: Name) {
    n in d.dir && Twin(n) in d.dir && d.dir[Twin(n)] == d.dir[n]
  }

  lemma LinksAreTwins(d: Disk, n: Name)
    requires TwinsOnly(d) && n in d.dir
    ensures LinkCount(d, n) == if Shares(d, n) then 2 else 1
  {
    assert n != Twin(n) && Twin(Twin(n)) == n;
    var links := set m | m in d.dir && d.dir[m] == d.dir[n];
    assert links == if Shares(d, n) then {n, Twin(n)} else {n};
  }

  // ----------------------------------------------------- one effect at a time

  /** How a row may change: a finished run stays finished, and what a success recorded stays recorded. */
  predicate Follows(a: Row, b: Row) {
    && b.started == a.started
    && match a.status
       case Running => true
       case Failed => b == a
       case Succeeded =>
         && b.status == Succeeded
         && b.destination == a.destination && b.checksum == a.checksum && b.size == a.size
         && b.completedAt == a.completedAt
  }

  /** One effect: the directory moves or the rows move, never both, and no row is ever deleted. */
  predicate Effect(d: Disk, e: Disk) {
    || e.rows == d.rows
    || (e == d.(rows := e.rows) && forall id <- d.rows :: id in e.rows && Follows(d.rows[id], e.rows[id]))
  }

  /** A history in which every instant keeps the invariant and every step is one effect. */
  ghost predicate Sound(t: Tools, h: seq<Disk>) {
    && (forall i :: 0 <= i < |h| ==> Inv(t, h[i]))
    && (forall i :: 0 < i < |h| ==> Effect(h[i - 1], h[i]))
  }

  /** What a success recorded is never rewritten, whatever happens later. */
  lemma {:induction false} RecordsAreForGood(t: Tools, h: seq<Disk>, i: nat, j: nat, id: string)
    requires Sound(t, h) && i <= j < |h| && id in h[i].rows
    ensures id in h[j].rows && Follows(h[i].rows[id], h[j].rows[id])
    decreases j
  {
    if i < j {
      RecordsAreForGood(t, h, i, j - 1, id);
      assert Effect(h[j - 1], h[j]);
    }
  }

  /**
   In every history, a file recorded by a success is unlinked only while its row says retired, and while
   the row says retained the file is there with the recorded checksum and size.
   */
  lemma RetainedFilesAreNeverRemoved(t: Tools, h: seq<Disk>, i: nat, id: string)
    requires Sound(t, h) && i + 1 < |h| && id in h[i].rows && h[i].rows[id].status == Succeeded
    ensures h[i].rows[id].retained ==> Intact(t, h[i], h[i].rows[id])
    ensures h[i].rows[id].destination.value in h[i].dir && h[i].rows[id].destination.value !in h[i + 1].dir
        ==> !h[i].rows[id].retained && h[i].rows[id].verification == Retired
    ensures h[i].rows[id].retained && id in h[i + 1].rows && h[i + 1].rows[id].verification == Retired
        ==> h[i].rows[id].destination.value in h[i + 1].dir
  {
    assert Effect(h[i], h[i + 1]);
    assert RowInv(t, h[i], id);
    assert Inv(t, h[i + 1]);
    if id in h[i + 1].rows {
      assert RowInv(t, h[i + 1], id);
    }
  }

  // ------------------------------------------- how the effects keep the rows

  /** The names and rows of other runs are as they were. */
  ghost predicate SameElsewhere(d: Disk, e: Disk, id: string) {
    && (forall n: Name :: n.id != id ==> (n in e.dir <==> n in d.dir))
    && (forall n: Name :: n in d.dir && n in e.dir && n.id != id ==>
          d.dir[n] == e.dir[n] && d.dir[n] in d.data && e.dir[n] in e.data && d.data[d.dir[n]] == e.data[e.dir[n]])
    && (forall o: string :: o != id ==> (o in e.rows <==> o in d.rows))
    && (forall o: string :: o in d.rows && o in e.rows && o != id ==> d.rows[o] == e.rows[o])
  }

  /** All of the disk that does not belong to run `id`: rows, names and what the names lead to. */
  ghost function Elsewhere(d: Disk, id: string): (map<string, Row>, map<Name, (nat, Option<Content>)>) {
    (d.rows - {id},
     map n | n in d.dir && n.id != id :: (d.dir[n], if d.dir[n] in d.data then Some(d.data[d.dir[n]]) else None))
  }

  lemma SameElsewhereAgrees(d: Disk, e: Disk, id: string)
    requires SameElsewhere(d, e, id)
    ensures Elsewhere(d, id) == Elsewhere(e, id)
  {
    assert d.rows - {id} == e.rows - {id};
    assert Elsewhere(d, id).1 == Elsewhere(e, id).1;
  }

  lemma SameElsewhereKeepsRow(t: Tools, d: Disk, e: Disk, id: string, o: string)
    requires WellFormed(d) && WellFormed(e) && TwinsOnly(d) && TwinsOnly(e) && SameElsewhere(d, e, id)
    requires o != id && o in d.rows && RowInv(t, d, o)
    ensures o in e.rows && RowInv(t, e, o)
  {
    var row := d.rows[o];
    if row.status == Succeeded {
      var n := row.destination.value;
      assert n in e.dir <==> n in d.dir;
      if n in d.dir {
        LinksAreTwins(d, n);
        LinksAreTwins(e, n);
        assert Twin(n).id != id;
      }
    }
  }

  /** An effect confined to run `id` keeps the invariant if it keeps the directory and that run's row. */
  lemma LocalEffectKeepsInv(t: Tools, d: Disk, e: Disk, id: string)
    requires Inv(t, d) && WellFormed(e) && TwinsOnly(e) && SameElsewhere(d, e, id)
    requires id in e.rows ==> RowInv(t, e, id)
    ensures Inv(t, e)
  {
    hide RowInv, Elsewhere;
    forall o | o in e.rows
      ensures RowInv(t, e, o)
    {
      if o != id {
        SameElsewhereKeepsRow(t, d, e, id, o);
      }
    }
  }

  /** No row that still says retained records the file called `n`. */
  predicate Removable(d: Disk, n: Name) {
    !(n.id in d.rows && d.rows[n.id].status == Succeeded && d.rows[n.id].retained && d.rows[n.id].destination == Some(n))
  }

  lemma PartialIsRemovable(t: Tools, d: Disk, n: Name)
    requires Inv(t, d) && n.Partial?
    ensures Removable(d, n)
  {
    if n.id in d.rows {
      assert RowInv(t, d, n.id);
    }
  }

  lemma CreateKeepsInv(t: Tools, d: Disk, n: Name)
    requires Inv(t, d) && n !in d.dir && n.Partial?
    ensures Inv(t, CreateFile(d, n))
    ensures Elsewhere(d, n.id) == Elsewhere(CreateFile(d, n), n.id)
  {
    hide Elsewhere;
    var e := CreateFile(d, n);
    if n.id in e.rows && e.rows[n.id].status == Succeeded {
      assert RowInv(t, d, n.id);
      var f := e.rows[n.id].destination.value;
      if f in d.dir {
        LinksAreTwins(d, f);
        LinksAreTwins(e, f);
      }
    }
    LocalEffectKeepsInv(t, d, e, n.id);
    SameElsewhereAgrees(d, e, n.id);
  }

  lemma WriteKeepsInv(t: Tools, d: Disk, n: Name, c: Content)
    requires Inv(t, d) && n in d.dir && n.Partial? && !Shares(d, n)
    ensures Inv(t, WriteFile(d, n, c))
    ensures Elsewhere(d, n.id) == Elsewhere(WriteFile(d, n, c), n.id)
  {
    hide Elsewhere;
    var e := WriteFile(d, n, c);
    forall m | m in d.dir && m != n
      ensures d.dir[m] != d.dir[n]
    {
    }
    if n.id in e.rows && e.rows[n.id].status == Succeeded {
      assert RowInv(t, d, n.id);
      var f := e.rows[n.id].destination.value;
      if f in d.dir {
        LinksAreTwins(d, f);
        LinksAreTwins(e, f);
      }
    }
    LocalEffectKeepsInv(t, d, e, n.id);
    SameElsewhereAgrees(d, e, n.id);
  }

  lemma LinkKeepsInv(t: Tools, d: Disk, n: Name)
    requires Inv(t, d) && n in d.dir && n.Partial? && Twin(n) !in d.dir
    requires Readable(t, ContentOf(d, n))
    requires n.id in d.rows && d.rows[n.id].status != Succeeded
    ensures Inv(t, LinkFile(d, n, Twin(n)))
    ensures Elsewhere(d, n.id) == Elsewhere(LinkFile(d, n, Twin(n)), n.id)
  {
    hide Elsewhere;
    var e := LinkFile(d, n, Twin(n));
    assert RowInv(t, d, n.id);
    assert TwinsOnly(e) by {
      forall a, b | a in e.dir && b in e.dir && e.dir[a] == e.dir[b]
        ensures a == b || a == Twin(b)
      {
        var a', b' := if a == Twin(n) then n else a, if b == Twin(n) then n else b;
        assert a' in d.dir && b' in d.dir && d.dir[a'] == d.dir[b'];
      }
    }
    LocalEffectKeepsInv(t, d, e, n.id);
    SameElsewhereAgrees(d, e, n.id);
  }

  lemma RemoveKeepsInv(t: Tools, d: Disk, n: Name)
    requires Inv(t, d) && n in d.dir && Removable(d, n)
    ensures Inv(t, RemoveName(d, n))
    ensures Elsewhere(d, n.id) == Elsewhere(RemoveName(d, n), n.id)
  {
    hide Elsewhere;
    var e := RemoveName(d, n);
    if n.id in e.rows {
      assert RowInv(t, d, n.id);
      if e.rows[n.id].status == Succeeded {
        var f := e.rows[n.id].destination.value;
        if f in e.dir {
          LinksAreTwins(d, f);
          LinksAreTwins(e, f);
        }
      }
    }
    LocalEffectKeepsInv(t, d, e, n.id);
    SameElsewhereAgrees(d, e, n.id);
  }

  lemma PutRowKeepsInv(t: Tools, d: Disk, id: string, row: Row)
    requires Inv(t, d)
    requires RowInv(t, PutRow(d, id, row), id)
    ensures Inv(t, PutRow(d, id, row))
    ensures Elsewhere(d, id) == Elsewhere(PutRow(d, id, row), id)
  {
    hide Elsewhere;
    LocalEffectKeepsInv(t, d, PutRow(d, id, row), id);
    SameElsewhereAgrees(d, PutRow(d, id, row), id);
  }
}
