/**
 The backup service (internal/backup/service.go) as code that acts on a disk one effect at a time.
 `history` records the disk after every effect, so a statement about the whole history is a statement
 about every point where the process may crash.
 */
module Backup {
  import opened Wrappers
  import opened BackupDisk
  import R = Retention

  /** The database image a run copies: what two pragmas and the serializer report. */
  datatype Snapshot = Snapshot(pageCount: int, pageSize: int, bytes: Content)

  datatype Verdict = Verified(checksum: string, size: nat) | Invalid | Cancelled

  function StartRow(started: int): Row {
    Row(started, Running, true, None, "", 0, 0, Unknown, "")
  }

  function SuccessRow(row: Row, n: Name, checksum: string, size: nat, completed: int): Row {
    row.(status := Succeeded, destination := Some(n), checksum := checksum, size := size, completedAt := completed,
         errorCode := "", retained := true, verification := Passed)
  }

  function FailureRow(row: Row, completed: int, code: string): Row {
    row.(status := Failed, completedAt := completed, errorCode := code, retained := false, verification := Rejected)
  }

  /** A backup has no write-ahead log, so its header says rollback journal. */
  function Normalised(c: Content): (r: Content)
    requires |c| >= 100
    ensures |r| == |c| && r[18] == 1 && r[19] == 1 && r[..18] == c[..18] && r[20..] == c[20..]
  {
    c[18 := 1][19 := 1]
  }

  /** A snapshot the service accepts. */
  predicate Copyable(s: Snapshot) {
    && s.pageCount > 0 && s.pageSize > 0 && s.pageCount <= MAX_SNAPSHOT_BYTES / s.pageSize
    && 100 <= |s.bytes| <= MAX_SNAPSHOT_BYTES
    && s.bytes[..16] == MAGIC
  }

  /** The page count times the page size must not exceed the limit; the code divides to avoid an overflow. */
  lemma CopyableExactly(s: Snapshot)
    ensures Copyable(s) <==>
              && s.pageCount > 0 && s.pageSize > 0 && s.pageCount * s.pageSize <= 134_217_728
              && 100 <= |s.bytes| <= 134_217_728 && s.bytes[..16] == MAGIC
  {
    if s.pageSize > 0 {
      QuotientBounds(s.pageCount, s.pageSize, 134_217_728);
    }
  }

  lemma QuotientBounds(n: int, m: int, limit: nat)
    requires m > 0
    ensures n <= limit / m <==> n * m <= limit
  {
    var q := limit / m;
    assert q * m <= limit < (q + 1) * m;
    if n <= q {
      assert n * m <= q * m;
    } else {
      assert n * m >= (q + 1) * m;
    }
  }

  class Service {
    const tools: Tools
    /** No system call and no statement fails, and no context is cancelled. */
    const reliable: bool
    var disk: Disk
    ghost var history: seq<Disk>

    ghost predicate Valid()
      reads this
    {
      history != [] && history[|history| - 1] == disk && Sound(tools, history)
    }

    /** The invariant held at every instant since the old state. */
    twostate predicate Later()
      reads this
    {
      Valid() && old(history) <= history
    }

    // ----------------------------------------------------- effects and faults

    ghost method Remember(e: Disk)
      requires Valid() && Inv(tools, e) && Effect(disk, e)
      modifies this`history
      ensures history == old(history) + [e] && Sound(tools, history)
    {
      hide Inv, Effect;
      history := history + [e];
    }

    method Falters() returns (f: bool)
      ensures reliable ==> !f
    {
      var b: bool := *;
      f := b && !reliable;
    }

    /** Creation fails when the name exists. */
    method Create(n: Name) returns (ok: bool)
      requires Valid() && n.Partial?
      modifies this
      ensures Later()
      ensures !ok ==> disk == old(disk)
      ensures ok ==> n !in old(disk).dir && disk == CreateFile(old(disk), n)
      ensures reliable ==> ok == (n !in old(disk).dir)
      ensures Elsewhere(disk, n.id) == Elsewhere(old(disk), n.id)
    {
      hide Inv, Sound, Elsewhere;
      ValidHasInv();
      var f := Falters();
      ok := !f && n !in disk.dir;
      if ok {
        CreateKeepsInv(tools, disk, n);
        Remember(CreateFile(disk, n));
        disk := CreateFile(disk, n);
      }
    }

    lemma ValidHasInv()
      requires Valid()
      ensures Inv(tools, disk) && WellFormed(disk)
    {
    }

    method Write(n: Name, c: Content)
      requires Valid() && n in disk.dir && n.Partial? && !Shares(disk, n)
      modifies this
      ensures Later() && disk == WriteFile(old(disk), n, c)
      ensures Elsewhere(disk, n.id) == Elsewhere(old(disk), n.id)
    {
      hide Inv, Sound, Elsewhere;
      ValidHasInv();
      WriteKeepsInv(tools, disk, n, c);
      Remember(WriteFile(disk, n, c));
      disk := WriteFile(disk, n, c);
    }

    /** `removeOwnedBackupFile`: refuses a file with an unexpected number of links. */
    method RemoveOwned(n: Name, allowed: set<nat>) returns (ok: bool)
      requires Valid() && Removable(disk, n)
      modifies this
      ensures Later()
      ensures !ok ==> disk == old(disk)
      ensures ok ==> n in old(disk).dir && disk == RemoveName(old(disk), n)
      ensures reliable ==> ok == (n in old(disk).dir && LinkCount(old(disk), n) in allowed)
      ensures Elsewhere(disk, n.id) == Elsewhere(old(disk), n.id)
    {
      hide Inv, Sound, Elsewhere;
      ValidHasInv();
      if n !in disk.dir || LinkCount(disk, n) !in allowed {
        return false;
      }
      var f := Falters();
      ok := !f;
      if ok {
        RemoveKeepsInv(tools, disk, n);
        Remember(RemoveName(disk, n));
        disk := RemoveName(disk, n);
      }
    }

    /** One UPDATE or INSERT; when it reports an error the row may have been written or not. */
    method SetRow(id: string, row: Row) returns (ok: bool)
      requires Valid() && RowInv(tools, PutRow(disk, id, row), id)
      requires id in disk.rows ==> Follows(disk.rows[id], row)
      modifies this
      ensures Later()
      ensures disk == old(disk) || disk == PutRow(old(disk), id, row)
      ensures ok ==> disk == PutRow(old(disk), id, row)
      ensures reliable ==> ok
      ensures Elsewhere(disk, id) == Elsewhere(old(disk), id)
    {
      hide Inv, Sound, RowInv, Elsewhere;
      ValidHasInv();
      var f := Falters();
      ok := !f;
      var written: bool := *;
      if ok || written {
        PutRowKeepsInv(tools, disk, id, row);
        var e := PutRow(disk, id, row);
        assert Effect(disk, e) by {
          forall o | o in disk.rows
            ensures Follows(disk.rows[o], e.rows[o])
          {
          }
        }
        Remember(e);
        disk := e;
      }
    }

    // ------------------------------------------------------------ small steps

    method RecordStart(id: string, started: int) returns (ok: bool)
      requires Valid() && Final(started, id) !in disk.dir
      modifies this
      ensures Later()
      ensures id in old(disk).rows ==> !ok && disk == old(disk)
      ensures disk == old(disk) || disk == PutRow(old(disk), id, Row(started, Running, true, None, "", 0, 0, Unknown, ""))
      ensures ok ==> disk == PutRow(old(disk), id, StartRow(started))
      ensures reliable ==> ok == (id !in old(disk).rows)
      ensures Elsewhere(disk, id) == Elsewhere(old(disk), id)
    {
      if id in disk.rows {
        return false;
      }
      ok := SetRow(id, StartRow(started));
    }

    /** Only a running row can succeed, and only with a file that was verified. */
    method RecordSuccess(id: string, n: Name, checksum: string, size: nat, completed: int) returns (ok: bool)
      requires Valid() && n.Final? && n.id == id
      requires n in disk.dir && Verifiable(tools, disk, n)
      requires checksum == tools.digest(ContentOf(disk, n)) && size == |ContentOf(disk, n)|
      modifies this
      ensures Later()
      ensures disk == old(disk) || (id in old(disk).rows && old(disk).rows[id].status == Running &&
                disk == PutRow(old(disk), id, Row(old(disk).rows[id].started, Succeeded, true, Some(n), checksum, size, completed, Passed, "")))
      ensures ok ==> disk != old(disk)
      ensures reliable ==> ok == (id in old(disk).rows && old(disk).rows[id].status == Running)
      ensures Elsewhere(disk, id) == Elsewhere(old(disk), id)
    {
      if id !in disk.rows || disk.rows[id].status != Running {
        return false;
      }
      ok := SetRow(id, SuccessRow(disk.rows[id], n, checksum, size, completed));
    }

    /** Only a running row can fail. */
    method RecordFailure(id: string, completed: int, code: string) returns (ok: bool)
      requires Valid()
      modifies this
      ensures Later()
      ensures disk == old(disk) || (id in old(disk).rows && old(disk).rows[id].status == Running &&
                disk == PutRow(old(disk), id, old(disk).rows[id].(status := Failed, completedAt := completed, errorCode := code,
                                                                  retained := false, verification := Rejected)))
      ensures ok && id in old(disk).rows && old(disk).rows[id].status == Running ==> disk != old(disk)
      ensures reliable ==> ok
      ensures Elsewhere(disk, id) == Elsewhere(old(disk), id)
    {
      if id !in disk.rows || disk.rows[id].status != Running {
        var f := Falters();
        return !f;
      }
      ok := SetRow(id, FailureRow(disk.rows[id], completed, code));
    }

    /** `verifyRelative`: one link, not empty, not too big, the expected digest, an intact database. */
    method Verify(n: Name, expected: Option<string>) returns (v: Verdict)
      requires Valid()
      ensures v.Verified? ==>
                && Verifiable(tools, disk, n)
                && v.checksum == tools.digest(ContentOf(disk, n)) && v.size == |ContentOf(disk, n)|
                && (expected.Some? ==> v.checksum == expected.value)
      ensures reliable ==> !v.Cancelled?
      ensures reliable && n in disk.dir && LinkCount(disk, n) == 1 && 0 < |ContentOf(disk, n)| <= 134_217_728
              && tools.sound(ContentOf(disk, n)) && (expected == None || expected == Some(tools.digest(ContentOf(disk, n))))
          ==> v.Verified?
    {
      hide Inv, Sound, Elsewhere;
      ValidHasInv();
      var cancelled := Falters();
      if cancelled {
        return Cancelled;
      }
      var f := Falters();
      if f || n !in disk.dir || LinkCount(disk, n) != 1 {
        return Invalid;
      }
      var c := ContentOf(disk, n);
      if |c| == 0 || |c| > MAX_SNAPSHOT_BYTES {
        return Invalid;
      }
      var checksum := tools.digest(c);
      if expected.Some? && expected.value != checksum {
        return Invalid;
      }
      if !tools.sound(c) {
        return Invalid;
      }
      return Verified(checksum, |c|);
    }

    // --------------------------------------------------------------- one run

    /** `onlineCopy`: checks the snapshot, then writes it in pieces of at most a mebibyte. */
    method OnlineCopy(n: Name, s: Snapshot) returns (ok: bool)
      requires Valid() && n in disk.dir && n.Partial? && !Shares(disk, n)
      modifies this
      ensures Later() && n in disk.dir && WellFormed(disk)
      ensures disk == WriteFile(old(disk), n, ContentOf(disk, n))
      ensures ok ==> Copyable(s) && ContentOf(disk, n) == Normalised(s.bytes)
      ensures reliable ==> ok == Copyable(s)
      ensures Elsewhere(disk, n.id) == Elsewhere(old(disk), n.id)
    {
      hide Inv, Sound, Elsewhere;
      ValidHasInv();
      assert disk == WriteFile(disk, n, ContentOf(disk, n)) by {
        assert disk.data == disk.data[disk.dir[n] := ContentOf(disk, n)];
      }
      var f := Falters();
      if f || s.pageCount <= 0 || s.pageSize <= 0 || s.pageCount > MAX_SNAPSHOT_BYTES / s.pageSize {
        return false;
      }
      if |s.bytes| == 0 || |s.bytes| > MAX_SNAPSHOT_BYTES || |s.bytes| < 100 || s.bytes[..16] != MAGIC {
        return false;
      }
      var snapshot := Normalised(s.bytes);
      Write(n, []);
      var offset := 0;
      while offset < |snapshot|
        invariant Later() && 0 <= offset <= |snapshot|
        invariant disk == WriteFile(old(disk), n, snapshot[..offset])
        invariant Elsewhere(disk, n.id) == Elsewhere(old(disk), n.id)
      {
        ValidHasInv();
        f := Falters();
        var end := if offset + CHUNK < |snapshot| then offset + CHUNK else |snapshot|;
        if f {
          // A failing write may still have written something.
          var reached :| offset <= reached <= end;
          Rewritten(old(disk), n, snapshot[..offset], snapshot[..reached]);
          Write(n, snapshot[..reached]);
          ValidHasInv();
          return false;
        }
        Rewritten(old(disk), n, snapshot[..offset], snapshot[..end]);
        Write(n, snapshot[..end]);
        offset := end;
      }
      assert snapshot[..offset] == snapshot;
      ValidHasInv();
      return true;
    }

    lemma Rewritten(d: Disk, n: Name, a: Content, b: Content)
      requires n in d.dir
      ensures WriteFile(WriteFile(d, n, a), n, b) == WriteFile(d, n, b)
    {
      assert d.data[d.dir[n] := a][d.dir[n] := b] == d.data[d.dir[n] := b];
    }

    /** `publishLink`: link(2) never replaces a name; a link that cannot be confirmed is taken back. */
    method PublishLink(n: Name) returns (ok: bool)
      requires Valid() && n in disk.dir && n.Partial? && n.id in disk.rows && disk.rows[n.id].status == Running
      requires Readable(tools, ContentOf(disk, n))
      modifies this
      ensures Later()
      ensures disk == old(disk) || (Twin(n) !in old(disk).dir && disk == LinkFile(old(disk), n, Twin(n)))
      ensures ok ==> disk != old(disk)
      ensures reliable ==> ok == (Twin(n) !in old(disk).dir)
      ensures Elsewhere(disk, n.id) == Elsewhere(old(disk), n.id)
    {
      hide Inv, Sound, Elsewhere;
      ValidHasInv();
      var f := Falters();
      if f || Twin(n) in disk.dir {
        return false;
      }
      LinkKeepsInv(tools, disk, n);
      Remember(LinkFile(disk, n, Twin(n)));
      disk := LinkFile(disk, n, Twin(n));
      var unconfirmed := Falters();
      if unconfirmed {
        assert disk.dir - {Twin(n)} == old(disk).dir;
        var _ := RemoveOwned(Twin(n), {1, 2});
      }
      ok := !unconfirmed;
    }

    /** The names of run `id` are its own two. */
    predicate OwnNames(d: Disk, id: string, started: int) {
      forall n <- d.dir :: n.id == id ==> n == Partial(started, id) || n == Final(started, id)
    }

    /** A backup of `s` finished: the row, the one name left, and what it leads to. */
    predicate Finished(d: Disk, id: string, started: int, completed: int, s: Snapshot) {
      && WellFormed(d) && OwnNames(d, id, started)
      && Copyable(s) && tools.sound(Normalised(s.bytes))
      && Partial(started, id) !in d.dir && Final(started, id) in d.dir
      && ContentOf(d, Final(started, id)) == Normalised(s.bytes)
      && id in d.rows
      && d.rows[id] == Row(started, Succeeded, true, Some(Final(started, id)), tools.digest(Normalised(s.bytes)), |s.bytes|,
                           if completed < started then started else completed, Passed, "")
    }

    /** A run without effect: its row says failed and it left no file under its final name. */
    predicate Abandoned(d: Disk, id: string, started: int) {
      && OwnNames(d, id, started) && Final(started, id) !in d.dir
      && id in d.rows && d.rows[id].status == Failed
    }

    /** A run is over whose row is still running and whose final name is gone. */
    method Fail(id: string, started: int, completed: int, code: string)
      requires Valid() && OwnNames(disk, id, started) && id in disk.rows && disk.rows[id].status == Running
      modifies this
      ensures Later() && disk.dir == old(disk).dir
      ensures reliable && Final(started, id) !in disk.dir ==> Abandoned(disk, id, started)
      ensures Elsewhere(disk, id) == Elsewhere(old(disk), id)
    {
      hide Inv, Sound, Elsewhere;
      var _ := RecordFailure(id, completed, code);
    }

    /** `Run` once the temporary file is reserved; the row is running while this verifies and publishes. */
    method Produce(id: string, started: int, completed: int, s: Snapshot) returns (ok: bool)
      requires Valid() && OwnNames(disk, id, started)
      requires Partial(started, id) in disk.dir && Final(started, id) !in disk.dir
      requires id in disk.rows && disk.rows[id] == StartRow(started)
      modifies this
      ensures Later() && OwnNames(disk, id, started)
      ensures ok ==> WellFormed(disk) && ReadyToLink(disk, id, started, s) && disk.rows == old(disk).rows
      ensures reliable ==> ok == (Copyable(s) && tools.sound(Normalised(s.bytes)))
      ensures reliable && !ok ==> Abandoned(disk, id, started)
      ensures Elsewhere(disk, id) == Elsewhere(old(disk), id)
    {
      hide Inv, Sound, Elsewhere;
      ValidHasInv();
      var temp := Partial(started, id);
      ok := OnlineCopy(temp, s);
      if !ok {
        Fail(id, started, completed, "BACKUP_FAILED");
        return;
      }
      ValidHasInv();
      LinksAreTwins(disk, temp) by { InvHasTwins(disk); }
      var chmodFailed := Falters();
      if chmodFailed {
        Fail(id, started, completed, "FILESYSTEM_ERROR");
        return false;
      }
      var verdict := Verify(temp, None);
      if !verdict.Verified? {
        Fail(id, started, completed, "INVALID_BACKUP");
        return false;
      }
      var syncFailed := Falters();
      if syncFailed {
        Fail(id, started, completed, "FILESYSTEM_ERROR");
        return false;
      }
      return true;
    }

    lemma InvHasTwins(d: Disk)
      requires Inv(tools, d)
      ensures TwinsOnly(d)
    {
    }

    predicate ReadyToLink(d: Disk, id: string, started: int, s: Snapshot)
      requires WellFormed(d)
    {
      && Partial(started, id) in d.dir && Final(started, id) !in d.dir
      && Copyable(s) && tools.sound(Normalised(s.bytes))
      && ContentOf(d, Partial(started, id)) == Normalised(s.bytes)
    }

    /** The second half of `Run`: link, unlink the temporary name, verify again, sync, record. */
    method Publish(id: string, started: int, completed: int, s: Snapshot) returns (ok: bool)
      requires Valid() && OwnNames(disk, id, started)
      requires WellFormed(disk) && ReadyToLink(disk, id, started, s)
      requires id in disk.rows && disk.rows[id] == StartRow(started)
      modifies this
      ensures Later() && OwnNames(disk, id, started)
      ensures ok ==> Finished(disk, id, started, completed, s)
      ensures reliable ==> ok
      ensures Elsewhere(disk, id) == Elsewhere(old(disk), id)
    {
      hide Inv, Sound, Elsewhere;
      var temp, name := Partial(started, id), Final(started, id);
      var bytes := Normalised(s.bytes);
      ok := PublishLink(temp);
      if !ok {
        Fail(id, started, completed, "PUBLISH_ERROR");
        return;
      }
      ValidHasInv();
      LinksAreTwins(disk, temp) by { InvHasTwins(disk); }
      PartialIsRemovable(tools, disk, temp);
      ok := RemoveOwned(temp, {2});
      if !ok {
        var _ := RemoveOwned(name, {2});
        Fail(id, started, completed, "FILESYSTEM_ERROR");
        return;
      }
      ValidHasInv();
      LinksAreTwins(disk, name) by { InvHasTwins(disk); }
      var verdict := Verify(name, Some(tools.digest(bytes)));
      var unsynced := Falters();
      if !verdict.Verified? || verdict.size != |bytes| || unsynced {
        var _ := RemoveOwned(name, {1});
        Fail(id, started, completed, if unsynced then "FILESYSTEM_ERROR" else "INVALID_BACKUP");
        return false;
      }
      var at := if completed < started then started else completed;
      ok := RecordSuccess(id, name, verdict.checksum, verdict.size, at);
    }

    /**
     `Run`.  `id` is the identifier just drawn at random: no file of the directory carries it.  Whatever
     fails, the invariant holds after every effect, other runs are untouched, and success means exactly
     that the snapshot is stored, verified and recorded.
     */
    method Run(id: string, started: int, completed: int, s: Snapshot) returns (ok: bool)
      requires Valid() && forall n <- disk.dir :: n.id != id
      modifies this
      ensures Later() && OwnNames(disk, id, started)
      ensures ok ==> Finished(disk, id, started, completed, s)
      ensures reliable ==>
                (ok <==> && id !in old(disk).rows
                         && s.pageCount > 0 && s.pageSize > 0 && s.pageCount * s.pageSize <= 134_217_728
                         && 100 <= |s.bytes| <= 134_217_728 && s.bytes[..16] == MAGIC && tools.sound(Normalised(s.bytes)))
      ensures reliable && !ok ==> forall n <- disk.dir :: n.id != id
      ensures reliable && !ok && id !in old(disk).rows ==> id in disk.rows && disk.rows[id].status == Failed
      ensures Elsewhere(disk, id) == Elsewhere(old(disk), id)
    {
      hide Inv, Sound, Elsewhere, Copyable;
      CopyableExactly(s);
      var temp := Partial(started, id);
      ok := Create(temp);
      if !ok {
        return;
      }
      ok := RecordStart(id, started);
      if ok {
        ok := Produce(id, started, completed, s);
      }
      if ok {
        ok := Publish(id, started, completed, s);
      }
      if !ok {
        ValidHasInv();
        InvHasTwins(disk);
        PartialIsRemovable(tools, disk, temp);
        if temp in disk.dir {
          LinksAreTwins(disk, temp);
        }
        var _ := RemoveOwned(temp, {1, 2});
      }
    }

    // -------------------------------------------------------- reconciliation

    lemma RunningIsReadable(id: string)
      requires Valid() && id in disk.rows && disk.rows[id].status == Running
      ensures Final(disk.rows[id].started, id) in disk.dir ==> Readable(tools, ContentOf(disk, Final(disk.rows[id].started, id)))
    {
      assert RowInv(tools, disk, id);
    }

    /** One row of `reconcileRunningRows`: its final name decides how it ended. */
    method EndRun(id: string) returns (ok: bool)
      requires Valid() && id in disk.rows && disk.rows[id].status == Running
      modifies this
      ensures Later() && WellFormed(old(disk)) && disk.data == old(disk).data && disk.next == old(disk).next
      ensures disk.dir == old(disk).dir || disk.dir == old(disk).dir - {Partial(old(disk).rows[id].started, id)}
      ensures disk.rows.Keys == old(disk).rows.Keys && forall o <- disk.rows :: o != id ==> disk.rows[o] == old(disk).rows[o]
      ensures ok ==> disk.rows[id].status != Running
      ensures ok && reliable ==> Ended(old(disk), disk, id)
      ensures reliable ==> ok
    {
      hide Inv, Sound, Elsewhere;
      ValidHasInv();
      InvHasTwins(disk);
      RunningIsReadable(id);
      var name, temp := Final(disk.rows[id].started, id), Partial(disk.rows[id].started, id);
      PartialIsRemovable(tools, disk, temp);
      var clock: int := *;
      if temp in disk.dir {
        LinksAreTwins(disk, temp);
      }
      if name in disk.dir {
        if temp in disk.dir {
          ok := RemoveOwned(temp, {1, 2});
          var unsynced := Falters();
          if !ok || unsynced {
            return false;
          }
        }
        ValidHasInv();
        LinksAreTwins(disk, name) by { InvHasTwins(disk); }
        var verdict := Verify(name, None);
        if verdict.Verified? {
          ok := RecordSuccess(id, name, verdict.checksum, verdict.size, clock);
        } else {
          ok := RecordFailure(id, clock, "RECOVERY_VERIFY_FAILED");
        }
        return;
      }
      if temp in disk.dir {
        ok := RemoveOwned(temp, {1});
        if !ok {
          return;
        }
      }
      ok := RecordFailure(id, clock, "INTERRUPTED");
    }

    /** `reconcileRunningRows`: every row still running lost its process. */
    method ReconcileRunning() returns (ok: bool)
      requires Valid()
      modifies this
      ensures Later() && SameFinals(old(disk), disk) && SamePartials(old(disk), disk, RunningRows(old(disk)))
      ensures disk.rows.Keys == old(disk).rows.Keys
      ensures forall id <- disk.rows :: id !in RunningRows(old(disk)) ==> disk.rows[id] == old(disk).rows[id]
      ensures ok ==> RunningRows(disk) == {}
      ensures ok && reliable ==> forall id <- RunningRows(old(disk)) :: Ended(old(disk), disk, id)
      ensures reliable ==> ok
      ensures RunningRows(old(disk)) == {} ==> history == old(history)
    {
      hide Inv, Sound, Elsewhere;
      ValidHasInv();
      ghost var before := disk;
      var todo := RunningRows(disk);
      assert EndedSoFar(reliable, before, disk, todo);
      while todo != {}
        invariant Later() && todo <= RunningRows(before) && EndedSoFar(reliable, before, disk, todo)
        invariant RunningRows(before) == {} ==> history == old(history)
        decreases |todo|
      {
        hide SameFinals, SamePartials, Ended, EndedSoFar;
        var id :| id in todo;
        ghost var middle := disk;
        StillRunning(reliable, before, disk, todo, id);
        ok := EndRun(id);
        OnlyTempRemoved(middle, disk, Partial(middle.rows[id].started, id));
        if !ok {
          EndedUnfinished(reliable, before, middle, disk, todo, id);
          return;
        }
        EndedNext(reliable, before, middle, disk, todo, id);
        todo := todo - {id};
      }
      ok := true;
    }

    /** One row of `reconcileRetiredRows`: a retired row whose file is still there is retained again. */
    method Unretire(id: string) returns (ok: bool)
      requires Valid() && id in HalfRetired(disk)
      modifies this
      ensures Later() && disk.dir == old(disk).dir && disk.data == old(disk).data
      ensures disk.rows.Keys == old(disk).rows.Keys && forall o <- disk.rows :: o != id ==> disk.rows[o] == old(disk).rows[o]
      ensures ok ==> id !in HalfRetired(disk)
      ensures ok ==> IsRestored(reliable, old(disk).rows[id], disk.rows[id])
      ensures reliable ==> ok
    {
      hide Sound, Elsewhere;
      ValidHasInv();
      var row := disk.rows[id];
      assert RowInv(tools, disk, id);
      var verdict := Verify(row.destination.value, Some(row.checksum));
      if verdict.Cancelled? {
        return false;
      }
      var v := if verdict.Verified? && verdict.size == row.size then Passed else Rejected;
      assert RowInv(tools, PutRow(disk, id, Kept(row, v)), id);
      ok := SetRow(id, Kept(row, v));
    }

    /** `reconcileRetiredRows`: retirement that was recorded but whose file is still there did not happen. */
    method ReconcileRetired() returns (ok: bool)
      requires Valid()
      modifies this
      ensures Later() && disk.dir == old(disk).dir && disk.data == old(disk).data
      ensures disk.rows.Keys == old(disk).rows.Keys
      ensures forall id <- disk.rows :: id !in HalfRetired(old(disk)) ==> disk.rows[id] == old(disk).rows[id]
      ensures ok ==> HalfRetired(disk) == {}
      ensures ok ==> forall id <- HalfRetired(old(disk)) :: IsRestored(reliable, old(disk).rows[id], disk.rows[id])
      ensures reliable ==> ok
      ensures HalfRetired(old(disk)) == {} ==> history == old(history)
    {
      hide Inv, Sound, Elsewhere;
      ghost var before := disk;
      var todo := HalfRetired(disk);
      while todo != {}
        invariant Later() && todo <= HalfRetired(before) && UnretiredSoFar(reliable, before, disk, todo)
        invariant HalfRetired(before) == {} ==> history == old(history)
        decreases |todo|
      {
        hide UnretiredSoFar, HalfRetired, IsRestored;
        var id :| id in todo;
        ghost var middle := disk;
        StillHalfRetired(reliable, before, disk, todo, id);
        ok := Unretire(id);
        if !ok {
          UnretiredUnfinished(reliable, before, middle, disk, todo, id);
          return;
        }
        UnretiredNext(reliable, before, middle, disk, todo, id);
        todo := todo - {id};
      }
      ok := true;
    }

    /** One entry of the directory scan: a sound file that no row knows is entered as a success. */
    method AdoptOne(n: Name) returns (ok: bool)
      requires Valid() && n.Final? && n in disk.dir
      modifies this
      ensures Later() && disk.dir == old(disk).dir && disk.data == old(disk).data
      ensures forall o <- old(disk).rows :: o in disk.rows && (old(disk).rows[o].status != Running ==> disk.rows[o] == old(disk).rows[o])
      ensures forall o <- disk.rows :: disk.rows[o].status == Running ==> o in old(disk).rows && old(disk).rows[o].status == Running
      ensures forall o <- disk.rows :: o !in old(disk).rows ==> o == n.id && Adopted(disk.rows[o], n)
      ensures ok && reliable && Verifiable(tools, disk, n) ==> n.id in disk.rows
      ensures reliable && n.id in old(disk).rows && old(disk).rows[n.id].status == Running ==>
                n.id in disk.rows && disk.rows[n.id].status == if Verifiable(tools, old(disk), n) then Succeeded else Failed
      ensures reliable ==> ok
      ensures RunningRows(old(disk)) == {} && (Verifiable(tools, old(disk), n) ==> n.id in old(disk).rows) ==> history == old(history) && disk == old(disk)
    {
      hide Inv, Sound, Elsewhere;
      ValidHasInv();
      ok := true;
      if n.id in disk.rows && disk.rows[n.id].status != Running {
        return;
      }
      assert n.id in disk.rows ==> n.id in RunningRows(disk);
      var verdict := Verify(n, None);
      var clock: int := *;
      if !verdict.Verified? {
        if n.id in disk.rows {
          var _ := RecordFailure(n.id, clock, "RECOVERY_VERIFY_FAILED");
        }
        return;
      }
      if n.id in disk.rows {
        ok := RecordSuccess(n.id, n, verdict.checksum, verdict.size, n.started);
      } else {
        ok := SetRow(n.id, SuccessRow(StartRow(n.started), n, verdict.checksum, verdict.size, n.started));
      }
    }

    /** The directory scan of `reconcileLocked`. */
    method Adopt() returns (ok: bool)
      requires Valid()
      modifies this
      ensures Later() && disk.dir == old(disk).dir && disk.data == old(disk).data
      ensures forall o <- old(disk).rows :: o in disk.rows && (old(disk).rows[o].status != Running ==> disk.rows[o] == old(disk).rows[o])
      ensures forall o <- disk.rows :: disk.rows[o].status == Running ==> o in old(disk).rows && old(disk).rows[o].status == Running
      ensures forall o <- disk.rows :: o !in old(disk).rows ==> IsAdopted(disk, o)
      ensures ok && reliable ==> NoOrphans(tools, disk)
      ensures reliable ==> ok
      ensures RunningRows(old(disk)) == {} && NoOrphans(tools, old(disk)) ==> history == old(history)
    {
      hide Inv, Sound, Elsewhere, Verifiable, Adopted, NoOrphans, IsAdopted, AdoptedSoFar, RunningRows;
      ValidHasInv();
      ghost var before := disk;
      var entries := set n | n in disk.dir && n.Final?;
      var todo := entries;
      ScanStarts(reliable, tools, before, entries - todo);
      while todo != {}
        invariant Later() && todo <= entries && AdoptedSoFar(reliable, tools, before, disk, entries - todo)
        invariant RunningRows(before) == {} && NoOrphans(tools, before) ==> history == old(history) && disk == before
        decreases |todo|
      {
        hide WellFormed;
        var n :| n in todo;
        ghost var middle := disk;
        SameFiles(reliable, tools, before, disk, entries, todo, n);
        if NoOrphans(tools, before) {
          NotAnOrphan(tools, before, n);
        }
        ok := AdoptOne(n);
        ValidHasInv();
        AdoptedNext(reliable && ok, reliable, tools, before, middle, disk, entries - todo, n);
        if !ok {
          ScanEnds(false, tools, before, disk, entries - todo + {n});
          return;
        }
        assert entries - (todo - {n}) == entries - todo + {n};
        todo := todo - {n};
      }
      ScanEnds(reliable, tools, before, disk, entries - todo);
      ok := true;
    }

    /**
     `reconcileLocked`.  Whatever state a crash left: without faults every running row ends as its final
     name says, every half-finished retirement is undone, every sound file gets a row, and nothing else
     changes; a quiet disk is not written at all.
     */
    method Reconcile() returns (ok: bool)
      requires Valid()
      modifies this
      ensures Later() && SameFinals(old(disk), disk) && SamePartials(old(disk), disk, RunningRows(old(disk)))
      ensures ok ==> RunningRows(disk) == {} && HalfRetired(disk) == {}
      ensures reliable ==> ok && Repaired(old(disk), disk) && Quiet(tools, disk)
      ensures Quiet(tools, old(disk)) ==> history == old(history) && disk == old(disk)
    {
      hide Inv, Sound, Elsewhere, HalfRetired, RunningRows, Ended, IsRestored, IsAdopted, Quiet, Repaired, SameFinals, SamePartials;
      ValidHasInv();
      ghost var d0 := disk;
      QuietNow(tools, d0);
      ok := ReconcileRunning();
      if !ok {
        return;
      }
      ValidHasInv();
      ghost var d1 := disk;
      ok := ReconcileRetired();
      ValidHasInv();
      SameFilesAgree(d0, d1, disk);
      if !ok {
        return;
      }
      ghost var d2 := disk;
      ok := Adopt();
      ValidHasInv();
      SameFilesAgree(d0, d2, disk);
      NothingLeft(reliable, d1, d2, disk);
      if reliable {
        InvHasDestinations(tools, d0);
        IsRepaired(d0, d1, d2, disk);
        QuietNow(tools, disk);
      }
    }

    // -------------------------------------------------------------- retention

    /** The first loop of `ApplyRetention`: verify every retained backup and note the verdict. */
    method VerifyAll() returns (runs: seq<R.Run>, partial: bool, done: bool)
      requires Valid()
      modifies this
      ensures Later() && OnlyVerdicts(old(disk), disk)
      ensures forall i :: 0 <= i < |runs| ==> runs[i] in RetainedRuns(old(disk)) && HasPassed(disk, runs[i].id)
      ensures forall i, j :: 0 <= i < j < |runs| ==> runs[i].id != runs[j].id
      ensures done && !partial ==> forall r <- RetainedRuns(old(disk)) :: r in runs
      ensures reliable ==> done && !partial
    {
      hide Inv, Sound, Elsewhere, OnlyVerdicts, IsVerdict, RetainedRuns, HasPassed;
      ghost var before := disk;
      NoVerdictYet(before);
      var todo := set id | id in disk.rows && disk.rows[id].status == Succeeded && disk.rows[id].retained;
      runs, partial, done := [], false, false;
      NotedAtFirst(before, todo);
      while todo != {}
        invariant Later() && OnlyVerdicts(before, disk)
        invariant Waiting(before, disk, todo) && Noted(before, disk, runs, todo, partial)
        invariant reliable ==> !partial
        decreases |todo|
      {
        var id :| id in todo;
        var completedAt := disk.rows[id].completedAt;
        todo := todo - {id};
        ghost var middle := disk;
        var verified, cancelled := VerifyOne(id);
        OneMoreVerdict(before, middle, disk, id);
        NotedOnce(before, middle, disk, runs, todo, partial, id, verified && !cancelled);
        if cancelled {
          return;
        }
        if verified {
          runs := runs + [R.Run(id, completedAt)];
        } else {
          partial := true;
        }
      }
      done := true;
    }

    method VerifyOne(id: string) returns (verified: bool, cancelled: bool)
      requires Valid() && id in disk.rows && disk.rows[id].status == Succeeded && disk.rows[id].retained
      modifies this
      ensures Later() && disk.dir == old(disk).dir && disk.data == old(disk).data && disk.next == old(disk).next
      ensures disk.rows.Keys == old(disk).rows.Keys && forall o <- disk.rows :: o != id ==> disk.rows[o] == old(disk).rows[o]
      ensures IsVerdict(old(disk).rows[id], disk.rows[id])
      ensures verified ==> HasPassed(disk, id)
      ensures reliable ==> verified && !cancelled
    {
      hide Sound, Elsewhere;
      ValidHasInv();
      var row := disk.rows[id];
      assert RowInv(tools, disk, id);
      var verdict := Verify(row.destination.value, Some(row.checksum));
      if verdict.Cancelled? {
        return false, true;
      }
      var v := if verdict.Verified? then Passed else Rejected;
      assert RowInv(tools, PutRow(disk, id, row.(verification := v)), id);
      var ok := SetRow(id, row.(verification := v));
      return ok && verdict.Verified?, false;
    }

    /** One step of the second loop: the row retires before its file goes, and comes back if it does not. */
    method Retire(id: string) returns (ok: bool)
      requires Valid() && id in disk.rows && disk.rows[id].status == Succeeded && disk.rows[id].retained
      modifies this
      ensures Later()
      ensures disk.rows.Keys == old(disk).rows.Keys && forall o <- disk.rows :: o != id ==> disk.rows[o] == old(disk).rows[o]
      ensures disk.dir == old(disk).dir || disk.dir == old(disk).dir - {old(disk).rows[id].destination.value}
      ensures disk.data == old(disk).data && old(disk).rows[id].destination.Some?
      ensures ok ==> IsRetired(old(disk).rows[id], disk.rows[id]) && old(disk).rows[id].destination.value !in disk.dir
      ensures reliable ==> ok
    {
      hide Sound, Elsewhere;
      ValidHasInv();
      var row := disk.rows[id];
      assert RowInv(tools, disk, id);
      var n := row.destination.value;
      var f := Falters();
      if f || LinkCount(disk, n) != 1 {
        return false;
      }
      var retired := row.(retained := false, verification := Retired);
      assert RowInv(tools, PutRow(disk, id, retired), id);
      ok := SetRow(id, retired);
      if !ok {
        return;
      }
      ok := RemoveOwned(n, {1});
      if !ok {
        assert RowInv(tools, PutRow(disk, id, Kept(row, Passed)), id);
        var _ := SetRow(id, Kept(row, Passed));
      }
    }

    /**
     `ApplyRetention`.  Complete means the retained backups are exactly those retention keeps, each of them verified,
     and every other one lost its file.  Whatever fails on the way, a backup that retention keeps stays retained,
     the latest of all among them.
     */
    method ApplyRetention(c: R.Calendar) returns (outcome: Outcome)
      requires Valid()
      modifies this
      ensures Later() && disk.rows.Keys == old(disk).rows.Keys
      ensures R.Kept(RetainedRuns(old(disk)), c) <= RetainedRuns(disk)
      ensures RetainedRuns(old(disk)) != {} ==>
                exists r :: r in RetainedRuns(disk) && forall x <- RetainedRuns(old(disk)) :: x.completedAt <= r.completedAt
      ensures outcome == Complete ==> RetainedRuns(disk) == R.Kept(RetainedRuns(old(disk)), c)
      ensures outcome == Complete ==> forall r <- RetainedRuns(old(disk)) - RetainedRuns(disk) ::
                Gone(old(disk), disk, r.id)
      ensures outcome == Complete ==> forall r <- RetainedRuns(disk) :: HasPassed(disk, r.id)
      ensures forall id <- disk.rows :: !IsRetained(old(disk).rows[id]) ==> disk.rows[id] == old(disk).rows[id]
      ensures reliable ==> outcome == Complete
    {
      hide Inv, Sound, Elsewhere, OnlyVerdicts, R.Kept, PrunedSoFar, HasPassed;
      ghost var before := disk;
      LatestStays(RetainedRuns(before), c);
      var runs, partial, done := VerifyAll();
      VerdictsKeepRuns(before, disk);
      if !done {
        R.KeptIsBounded(RetainedRuns(before), c);
        return Interrupted;
      }
      var keep := R.RetentionSet(runs, c);
      ghost var verified := disk;
      PruneStarts(verified, runs, keep);
      ghost var unverified := partial;
      for i := 0 to |runs|
        invariant Later() && PrunedSoFar(verified, disk, runs, keep, i, partial)
        invariant (reliable ==> !partial) && (unverified ==> partial)
      {
        ghost var middle := disk;
        ghost var sofar := partial;
        if runs[i] !in keep {
          NotYetPruned(verified, disk, runs, keep, i, partial);
          var ok := Retire(runs[i].id);
          partial := partial || !ok;
        }
        PruneNext(verified, middle, disk, runs, keep, i, sofar, partial);
      }
      RunsAreRetained(runs, RetainedRuns(verified), unverified);
      PruneEnds(before, verified, disk, runs, partial, c);
      if !partial {
        KeptHavePassed(before, verified, disk, runs, c);
      }
      var unsynced := Falters();
      outcome := if partial || unsynced then Incomplete else Complete;
    }

    /** `NewService` on the disk a crash left behind. */
    constructor (t: Tools, r: bool, d: Disk)
      requires Inv(t, d)
      ensures Valid() && tools == t && reliable == r && disk == d && history == [d]
    {
      tools, reliable, disk := t, r, d;
      history := [d];
    }

    static method Open(t: Tools, r: bool, d: Disk) returns (s: Service, ok: bool)
      requires Inv(t, d)
      ensures fresh(s) && s.Valid() && s.tools == t && s.reliable == r
      ensures SameFinals(d, s.disk) && SamePartials(d, s.disk, RunningRows(d))
      ensures r ==> ok && Repaired(d, s.disk) && Quiet(t, s.disk)
    {
      s := new Service(t, r, d);
      ok := s.Reconcile();
    }

    /**
     A crash right after the temporary file of a run was created, before its row was inserted, as seen by any
     number of later starts: every one succeeds, finds nothing to do, and the file is still there.
     */
    static method RestartAfterEarlyCrash(t: Tools, started: int, id: string, starts: nat) returns (s: Service)
      ensures s.Valid() && Partial(started, id) in s.disk.dir && s.disk.rows == map[] && Quiet(t, s.disk)
    {
      var empty := Disk(map[], map[], map[], 0);
      s := new Service(t, true, empty);
      var created := s.Create(Partial(started, id));
      for i := 0 to starts
        invariant s.Valid() && s.tools == t && s.reliable
        invariant s.disk == CreateFile(empty, Partial(started, id))
      {
        s.ValidHasInv();
        var ok;
        NothingToRepair(t, s.disk);
        s := new Service(t, true, s.disk);
        ok := s.Reconcile();
      }
      s.ValidHasInv();
      NothingToRepair(t, s.disk);
    }
  }

  lemma NothingToRepair(t: Tools, d: Disk)
    requires WellFormed(d) && d.rows == map[] && forall n <- d.dir :: n.Partial?
    ensures Quiet(t, d)
  {
  }

  function RunningRows(d: Disk): set<string> {
    set id | id in d.rows && d.rows[id].status == Running
  }

  predicate HasPassed(d: Disk, id: string) {
    id in d.rows && d.rows[id].verification == Passed
  }

  /** Rows that say retired while their file is still there. */
  function HalfRetired(d: Disk): set<string> {
    set id | id in d.rows && d.rows[id].status == Succeeded && d.rows[id].verification == Retired
             && d.rows[id].destination.Some? && d.rows[id].destination.value in d.dir
  }

  function Kept(row: Row, v: Verification): Row {
    row.(retained := true, verification := v)
  }

  /** A retired row made retained again, as passed unless a fault kept its file from verifying. */
  predicate IsRestored(reliable: bool, a: Row, b: Row) {
    b == Kept(a, Passed) || (!reliable && b == Kept(a, Rejected))
  }

  /** Files under a final name are neither removed nor touched. */
  ghost predicate SameFinals(d: Disk, e: Disk) {
    && WellFormed(d) && WellFormed(e)
    && (forall n: Name :: n.Final? ==> (n in d.dir <==> n in e.dir))
    && (forall n: Name :: n.Final? && n in d.dir && n in e.dir ==> ContentOf(e, n) == ContentOf(d, n))
  }

  /** Temporary files stay, except those of the runs `ended`. */
  ghost predicate SamePartials(d: Disk, e: Disk, ended: set<string>) {
    && e.dir.Keys <= d.dir.Keys
    && forall n <- d.dir :: n.Partial? && n.id !in ended ==> n in e.dir
  }

  /** A run whose final name existed when the process died succeeded with it; any other run failed. */
  predicate Ended(d: Disk, e: Disk, id: string)
    requires id in d.rows && id in e.rows
  {
    var started := d.rows[id].started;
    && Partial(started, id) !in e.dir
    && if Final(started, id) in d.dir
       then e.rows[id].status == Succeeded && e.rows[id].destination == Some(Final(started, id))
            && e.rows[id].retained && e.rows[id].verification == Passed
       else e.rows[id].status == Failed
  }

  predicate Adopted(row: Row, n: Name) {
    n.Final? && row == Row(n.started, Succeeded, true, Some(n), row.checksum, row.size, n.started, Passed, "")
  }

  ghost predicate IsAdopted(d: Disk, id: string)
    requires id in d.rows
  {
    exists n :: n in d.dir && n.id == id && Adopted(d.rows[id], n)
  }

  /** Every sound file under a final name has a row. */
  predicate NoOrphans(t: Tools, d: Disk)
    requires WellFormed(d)
  {
    forall n <- d.dir :: n.Final? && Verifiable(t, d, n) ==> n.id in d.rows
  }

  // -------------------------------------------------------------- retention

  /** How `ApplyRetention` ends: everything done, something left for later, or cancelled. */
  datatype Outcome = Complete | Incomplete | Interrupted

  predicate IsRetained(row: Row) {
    row.status == Succeeded && row.retained
  }

  function RetainedRuns(d: Disk): set<R.Run> {
    set id | id in d.rows && IsRetained(d.rows[id]) :: R.Run(id, d.rows[id].completedAt)
  }

  predicate IsVerdict(a: Row, b: Row) {
    b == a || (IsRetained(a) && (b == a.(verification := Passed) || b == a.(verification := Rejected)))
  }

  predicate IsRetired(a: Row, b: Row) {
    b.(verification := a.verification) == a.(retained := false) && b.verification == Retired
  }

  /** Only the verification status of retained rows moved. */
  ghost predicate OnlyVerdicts(d: Disk, e: Disk) {
    && e == d.(rows := e.rows) && e.rows.Keys == d.rows.Keys
    && forall id <- d.rows :: IsVerdict(d.rows[id], e.rows[id])
  }

  lemma NoVerdictYet(d: Disk)
    ensures OnlyVerdicts(d, d)
  {
  }

  lemma OneMoreVerdict(before: Disk, middle: Disk, d: Disk, id: string)
    requires OnlyVerdicts(before, middle) && id in before.rows && d.rows.Keys == middle.rows.Keys
    requires d.dir == middle.dir && d.data == middle.data && d.next == middle.next
    requires forall o <- d.rows :: o != id ==> d.rows[o] == middle.rows[o]
    requires IsVerdict(middle.rows[id], d.rows[id])
    ensures OnlyVerdicts(before, d) && d.rows.Keys == before.rows.Keys
  {
  }

  /** Rows whose backup is still to be verified are as they were. */
  ghost predicate Waiting(d: Disk, e: Disk, todo: set<string>) {
    && e.rows.Keys == d.rows.Keys && todo <= d.rows.Keys
    && forall id <- todo :: e.rows[id] == d.rows[id] && IsRetained(d.rows[id])
  }

  /** Backups that passed are listed once each, and all but those still to be verified are if none failed. */
  ghost predicate Noted(d: Disk, e: Disk, runs: seq<R.Run>, todo: set<string>, partial: bool) {
    && (forall i :: 0 <= i < |runs| ==> runs[i] in RetainedRuns(d) && runs[i].id !in todo && HasPassed(e, runs[i].id))
    && (forall i, j :: 0 <= i < j < |runs| ==> runs[i].id != runs[j].id)
    && (!partial ==> forall r <- RetainedRuns(d) :: r.id in todo || r in runs)
  }

  lemma NotedAtFirst(d: Disk, todo: set<string>)
    requires todo == set id | id in d.rows && d.rows[id].status == Succeeded && d.rows[id].retained
    ensures Waiting(d, d, todo) && Noted(d, d, [], todo, false)
  {
  }

  lemma NotedOnce(before: Disk, middle: Disk, d: Disk, runs: seq<R.Run>, todo: set<string>, partial: bool, id: string, verified: bool)
    requires Waiting(before, middle, todo + {id}) && Noted(before, middle, runs, todo + {id}, partial) && id !in todo
    requires d.rows.Keys == middle.rows.Keys && forall o <- d.rows :: o != id ==> d.rows[o] == middle.rows[o]
    requires verified ==> HasPassed(d, id)
    ensures Waiting(before, d, todo)
    ensures verified ==> Noted(before, d, runs + [R.Run(id, before.rows[id].completedAt)], todo, partial)
    ensures Noted(before, d, runs, todo, true)
  {
    if verified && !partial {
      var runs' := runs + [R.Run(id, before.rows[id].completedAt)];
      assert runs'[|runs|] == R.Run(id, before.rows[id].completedAt);
      forall r | r in RetainedRuns(before)
        ensures r.id in todo || r in runs'
      {
        assert r.id == id ==> r == runs'[|runs|];
      }
    }
  }

  lemma VerdictsKeepRuns(d: Disk, e: Disk)
    requires OnlyVerdicts(d, e)
    ensures RetainedRuns(e) == RetainedRuns(d) && e.rows.Keys == d.rows.Keys
    ensures forall id <- e.rows :: !IsRetained(d.rows[id]) ==> e.rows[id] == d.rows[id]
  {
    forall id | id in d.rows
      ensures IsRetained(e.rows[id]) <==> IsRetained(d.rows[id])
      ensures e.rows[id].completedAt == d.rows[id].completedAt
    {
      assert IsVerdict(d.rows[id], e.rows[id]);
    }
    assert RetainedRuns(e) == RetainedRuns(d);
  }

  predicate IsRun(d: Disk, r: R.Run) {
    r.id in d.rows && IsRetained(d.rows[r.id]) && d.rows[r.id].completedAt == r.completedAt
  }

  /** After `i` verified runs: those not selected are retired, all others are as they were. */
  ghost predicate PrunedSoFar(d: Disk, e: Disk, runs: seq<R.Run>, keep: set<R.Run>, i: nat, partial: bool) {
    && e.rows.Keys == d.rows.Keys && i <= |runs|
    && (forall j :: 0 <= j < |runs| ==> IsRun(d, runs[j]))
    && (forall j, k :: 0 <= j < k < |runs| ==> runs[j].id != runs[k].id)
    && (forall id <- d.rows :: e.rows[id] == d.rows[id] || exists j :: 0 <= j < i && runs[j].id == id && runs[j] !in keep)
    && (forall n <- e.dir :: n in d.dir)
    && (!partial ==> forall j :: 0 <= j < i && runs[j] !in keep ==> Gone(d, e, runs[j].id))
  }

  /** The row is retired and the file it records is no longer there. */
  predicate Gone(d: Disk, e: Disk, id: string) {
    && id in d.rows && id in e.rows && IsRetired(d.rows[id], e.rows[id])
    && d.rows[id].destination.Some? && d.rows[id].destination.value !in e.dir
  }

  lemma PruneStarts(d: Disk, runs: seq<R.Run>, keep: set<R.Run>)
    requires forall i :: 0 <= i < |runs| ==> runs[i] in RetainedRuns(d)
    requires forall i, j :: 0 <= i < j < |runs| ==> runs[i].id != runs[j].id
    ensures PrunedSoFar(d, d, runs, keep, 0, false) && PrunedSoFar(d, d, runs, keep, 0, true)
  {
  }

  lemma NotYetPruned(d: Disk, e: Disk, runs: seq<R.Run>, keep: set<R.Run>, i: nat, partial: bool)
    requires PrunedSoFar(d, e, runs, keep, i, partial) && i < |runs|
    ensures runs[i].id in e.rows && e.rows[runs[i].id] == d.rows[runs[i].id] && IsRetained(e.rows[runs[i].id])
  {
  }

  lemma PruneNext(d: Disk, middle: Disk, e: Disk, runs: seq<R.Run>, keep: set<R.Run>, i: nat, sofar: bool, partial: bool)
    requires PrunedSoFar(d, middle, runs, keep, i, sofar) && i < |runs| && (sofar ==> partial)
    requires e.rows.Keys == middle.rows.Keys && (forall n <- e.dir :: n in middle.dir)
    requires if runs[i] in keep then e == middle else
               (forall o <- e.rows :: o != runs[i].id ==> e.rows[o] == middle.rows[o])
               && (!partial ==> Gone(middle, e, runs[i].id))
    ensures PrunedSoFar(d, e, runs, keep, i + 1, partial)
  {
    NotYetPruned(d, middle, runs, keep, i, sofar);
    forall id | id in d.rows && e.rows[id] != d.rows[id]
      ensures exists j :: 0 <= j < i + 1 && runs[j].id == id && runs[j] !in keep
    {
      if id == runs[i].id {
        assert 0 <= i < i + 1 && runs[i].id == id;
      } else {
        assert middle.rows[id] != d.rows[id];
      }
    }
    if !partial {
      forall j | 0 <= j < i + 1 && runs[j] !in keep
        ensures Gone(d, e, runs[j].id)
      {
        if j < i {
          assert Gone(d, middle, runs[j].id);
        }
      }
    }
  }

  /** Among the kept backups is one that no other completed after. */
  lemma LatestStays(runs: set<R.Run>, c: R.Calendar)
    ensures runs != {} ==> exists r :: r in R.Kept(runs, c) && forall x <- runs :: x.completedAt <= r.completedAt
  {
    if runs != {} {
      R.LatestIsKept(runs, c);
      var r :| r in R.Kept(runs, c) && forall x <- runs :: R.Outlasts(r, x);
      assert forall x <- runs :: x.completedAt <= r.completedAt;
    }
  }

  lemma UnchangedUnlessDropped(d: Disk, e: Disk, runs: seq<R.Run>, keep: set<R.Run>, partial: bool, r: R.Run)
    requires PrunedSoFar(d, e, runs, keep, |runs|, partial) && IsRun(d, r)
    ensures (r in runs && r !in keep) || e.rows[r.id] == d.rows[r.id]
    ensures !partial && r in runs && r !in keep ==> Gone(d, e, r.id)
  {
    if e.rows[r.id] != d.rows[r.id] {
      var j :| 0 <= j < |runs| && runs[j].id == r.id && runs[j] !in keep;
      assert IsRun(d, runs[j]) && runs[j] == r;
    }
  }

  /** What became of a run that was retained before. */
  lemma RunAfterwards(before: Disk, d: Disk, e: Disk, runs: seq<R.Run>, all: set<R.Run>, partial: bool, c: R.Calendar, r: R.Run)
    requires PrunedSoFar(d, e, runs, R.Kept(R.SetOf(runs), c), |runs|, partial) && OnlyVerdicts(before, d)
    requires R.SetOf(runs) <= all && (!partial ==> R.SetOf(runs) == all) && r in all && IsRun(d, r)
    ensures r in R.Kept(all, c) ==> r.id in e.rows && e.rows[r.id] == d.rows[r.id]
    ensures !partial && r !in R.Kept(all, c) ==> Gone(before, e, r.id) && !IsRetained(e.rows[r.id])
  {
    var keep := R.Kept(R.SetOf(runs), c);
    R.KeptFromFewer(R.SetOf(runs), all, c);
    PrunedHasSameRows(d, e, runs, keep, partial);
    UnchangedUnlessDropped(d, e, runs, keep, partial, r);
    assert r in runs <==> r in R.SetOf(runs);
    if !partial && r !in R.Kept(all, c) {
      GoneBefore(before, d, e, r.id);
    }
  }

  lemma PruneEnds(before: Disk, d: Disk, e: Disk, runs: seq<R.Run>, partial: bool, c: R.Calendar)
    requires PrunedSoFar(d, e, runs, R.Kept(R.SetOf(runs), c), |runs|, partial)
    requires OnlyVerdicts(before, d) && R.SetOf(runs) <= RetainedRuns(d)
    requires !partial ==> R.SetOf(runs) == RetainedRuns(d)
    ensures e.rows.Keys == before.rows.Keys
    ensures R.Kept(RetainedRuns(before), c) <= RetainedRuns(e)
    ensures !partial ==> RetainedRuns(e) == R.Kept(RetainedRuns(before), c)
    ensures !partial ==> forall r <- RetainedRuns(before) - RetainedRuns(e) :: Gone(before, e, r.id)
    ensures forall id <- e.rows :: !IsRetained(before.rows[id]) ==> e.rows[id] == before.rows[id]
  {
    hide R.Kept, R.SetOf, IsRetired, Gone, PrunedSoFar, OnlyVerdicts;
    var all := RetainedRuns(before);
    VerdictsKeepRuns(before, d);
    PrunedHasSameRows(d, e, runs, R.Kept(R.SetOf(runs), c), partial);
    R.KeptIsBounded(all, c);
    forall r | r in all
      ensures r in R.Kept(all, c) ==> r in RetainedRuns(e)
      ensures !partial && r !in R.Kept(all, c) ==> Gone(before, e, r.id) && r !in RetainedRuns(e)
    {
      assert IsRun(d, r);
      RunAfterwards(before, d, e, runs, all, partial, c, r);
    }
    forall id | id in e.rows && !IsRetained(before.rows[id])
      ensures e.rows[id] == before.rows[id]
    {
      NotDropped(d, e, runs, R.Kept(R.SetOf(runs), c), partial, id);
    }
    forall r | r in RetainedRuns(e)
      ensures !partial ==> r in R.Kept(all, c)
    {
      if !partial && IsRetained(before.rows[r.id]) {
        var q := R.Run(r.id, before.rows[r.id].completedAt);
        assert q in all;
        assert IsRun(d, q);
        RunAfterwards(before, d, e, runs, all, partial, c, q);
      }
    }
  }

  /** If all went well, what is left retained has been verified. */
  lemma KeptHavePassed(before: Disk, d: Disk, e: Disk, runs: seq<R.Run>, c: R.Calendar)
    requires PrunedSoFar(d, e, runs, R.Kept(R.SetOf(runs), c), |runs|, false)
    requires OnlyVerdicts(before, d) && R.SetOf(runs) == RetainedRuns(d)
    requires forall i :: 0 <= i < |runs| ==> HasPassed(d, runs[i].id)
    requires RetainedRuns(e) == R.Kept(RetainedRuns(before), c)
    ensures forall r <- RetainedRuns(e) :: HasPassed(e, r.id)
  {
    hide R.Kept, IsRetired, Gone, PrunedSoFar, OnlyVerdicts;
    VerdictsKeepRuns(before, d);
    R.KeptIsBounded(RetainedRuns(before), c);
    forall r | r in RetainedRuns(e)
      ensures HasPassed(e, r.id)
    {
      assert r in RetainedRuns(d) && r in R.SetOf(runs) && IsRun(d, r);
      RunAfterwards(before, d, e, runs, RetainedRuns(before), false, c, r);
    }
  }

  lemma PrunedHasSameRows(d: Disk, e: Disk, runs: seq<R.Run>, keep: set<R.Run>, partial: bool)
    requires PrunedSoFar(d, e, runs, keep, |runs|, partial)
    ensures e.rows.Keys == d.rows.Keys
  {
  }

  lemma NotDropped(d: Disk, e: Disk, runs: seq<R.Run>, keep: set<R.Run>, partial: bool, id: string)
    requires PrunedSoFar(d, e, runs, keep, |runs|, partial) && id in d.rows && !IsRetained(d.rows[id])
    ensures e.rows[id] == d.rows[id]
  {
    assert forall j :: 0 <= j < |runs| ==> IsRun(d, runs[j]);
  }

  lemma RunsAreRetained(runs: seq<R.Run>, all: set<R.Run>, unverified: bool)
    requires forall i :: 0 <= i < |runs| ==> runs[i] in all
    requires !unverified ==> forall r <- all :: r in runs
    ensures R.SetOf(runs) <= all && (!unverified ==> R.SetOf(runs) == all)
  {
  }

  lemma GoneBefore(before: Disk, d: Disk, e: Disk, id: string)
    requires OnlyVerdicts(before, d) && Gone(d, e, id)
    ensures Gone(before, e, id) && !IsRetained(e.rows[id])
  {
    assert IsVerdict(before.rows[id], d.rows[id]);
  }

  // --------------------------------------------- progress of the three loops

  ghost predicate EndedSoFar(reliable: bool, before: Disk, d: Disk, todo: set<string>) {
    && SameFinals(before, d) && SamePartials(before, d, RunningRows(before))
    && d.rows.Keys == before.rows.Keys
    && (forall id <- d.rows :: id in todo || id !in RunningRows(before) ==> d.rows[id] == before.rows[id])
    && (forall id <- RunningRows(before) - todo :: d.rows[id].status != Running && (reliable ==> Ended(before, d, id)))
  }

  lemma OnlyTempRemoved(d: Disk, e: Disk, temp: Name)
    requires WellFormed(d) && temp.Partial? && e.data == d.data && e.next == d.next && (e.dir == d.dir || e.dir == d.dir - {temp})
    ensures SameFinals(d, e) && SamePartials(d, e, {temp.id})
  {
  }

  lemma SameFilesAgree(d0: Disk, d1: Disk, d2: Disk)
    requires SameFinals(d0, d1) && SamePartials(d0, d1, RunningRows(d0))
    requires WellFormed(d2) && d2.dir == d1.dir && d2.data == d1.data
    ensures SameFinals(d0, d2) && SamePartials(d0, d2, RunningRows(d0))
  {
  }

  lemma StillRunning(reliable: bool, before: Disk, d: Disk, todo: set<string>, id: string)
    requires EndedSoFar(reliable, before, d, todo) && id in todo && todo <= RunningRows(before)
    ensures id in d.rows && d.rows[id].status == Running
  {
  }

  lemma EndedUnfinished(reliable: bool, before: Disk, middle: Disk, d: Disk, todo: set<string>, id: string)
    requires EndedSoFar(reliable, before, middle, todo) && id in todo && todo <= RunningRows(before)
    requires SameFinals(middle, d) && SamePartials(middle, d, {id}) && d.rows.Keys == middle.rows.Keys
    requires forall o <- d.rows :: o != id ==> d.rows[o] == middle.rows[o]
    ensures SameFinals(before, d) && SamePartials(before, d, RunningRows(before)) && d.rows.Keys == before.rows.Keys
    ensures forall o <- d.rows :: o !in RunningRows(before) ==> d.rows[o] == before.rows[o]
  {
  }

  lemma EndedNext(reliable: bool, before: Disk, middle: Disk, d: Disk, todo: set<string>, id: string)
    requires EndedSoFar(reliable, before, middle, todo) && id in todo && todo <= RunningRows(before)
    requires SameFinals(middle, d) && SamePartials(middle, d, {id}) && d.rows.Keys == middle.rows.Keys
    requires forall o <- d.rows :: o != id ==> d.rows[o] == middle.rows[o]
    requires d.rows[id].status != Running && (reliable ==> Ended(middle, d, id))
    ensures EndedSoFar(reliable, before, d, todo - {id})
  {
    EndedUnfinished(reliable, before, middle, d, todo, id);
    hide SameFinals, SamePartials;
    forall o | o in RunningRows(before) - (todo - {id})
      ensures d.rows[o].status != Running && (reliable ==> Ended(before, d, o))
    {
      if reliable {
        FinalsDecide(before, middle, Final(before.rows[o].started, o));
        if o != id {
          PartialsShrink(middle, d, id, Partial(before.rows[o].started, o));
        }
      }
    }
  }

  lemma FinalsDecide(d: Disk, e: Disk, n: Name)
    requires SameFinals(d, e) && n.Final?
    ensures n in d.dir <==> n in e.dir
  {
  }

  lemma PartialsShrink(d: Disk, e: Disk, id: string, n: Name)
    requires SamePartials(d, e, {id})
    ensures n in e.dir ==> n in d.dir
  {
  }

  ghost predicate UnretiredSoFar(reliable: bool, before: Disk, d: Disk, todo: set<string>) {
    && d.dir == before.dir && d.data == before.data && d.rows.Keys == before.rows.Keys
    && (forall id <- d.rows :: id in todo || id !in HalfRetired(before) ==> d.rows[id] == before.rows[id])
    && (forall id <- HalfRetired(before) - todo ::
          id !in HalfRetired(d) && IsRestored(reliable, before.rows[id], d.rows[id]))
  }

  lemma StillHalfRetired(reliable: bool, before: Disk, d: Disk, todo: set<string>, id: string)
    requires UnretiredSoFar(reliable, before, d, todo) && id in todo && todo <= HalfRetired(before)
    ensures id in HalfRetired(d)
  {
  }

  lemma UnretiredUnfinished(reliable: bool, before: Disk, middle: Disk, d: Disk, todo: set<string>, id: string)
    requires UnretiredSoFar(reliable, before, middle, todo) && id in todo && todo <= HalfRetired(before)
    requires d.dir == middle.dir && d.data == middle.data && d.rows.Keys == middle.rows.Keys
    requires forall o <- d.rows :: o != id ==> d.rows[o] == middle.rows[o]
    ensures d.dir == before.dir && d.data == before.data && d.rows.Keys == before.rows.Keys
    ensures forall o <- d.rows :: o !in HalfRetired(before) ==> d.rows[o] == before.rows[o]
  {
  }

  lemma UnretiredNext(reliable: bool, before: Disk, middle: Disk, d: Disk, todo: set<string>, id: string)
    requires UnretiredSoFar(reliable, before, middle, todo) && id in todo && todo <= HalfRetired(before)
    requires d.dir == middle.dir && d.data == middle.data && d.rows.Keys == middle.rows.Keys
    requires forall o <- d.rows :: o != id ==> d.rows[o] == middle.rows[o]
    requires id !in HalfRetired(d) && IsRestored(reliable, middle.rows[id], d.rows[id])
    ensures UnretiredSoFar(reliable, before, d, todo - {id})
  {
  }

  ghost predicate AdoptedSoFar(reliable: bool, t: Tools, before: Disk, d: Disk, done: set<Name>) {
    && WellFormed(d) && d.dir == before.dir && d.data == before.data
    && (forall o <- before.rows :: o in d.rows && (before.rows[o].status != Running ==> d.rows[o] == before.rows[o]))
    && (forall o <- d.rows :: d.rows[o].status == Running ==> o in before.rows && before.rows[o].status == Running)
    && (forall o <- d.rows :: o !in before.rows ==> IsAdopted(d, o))
    && (reliable ==> forall n <- done :: Verifiable(t, d, n) ==> n.id in d.rows)
  }

  lemma ScanStarts(reliable: bool, t: Tools, d: Disk, done: set<Name>)
    requires WellFormed(d) && done == {}
    ensures AdoptedSoFar(reliable, t, d, d, done)
  {
  }

  lemma ScanEnds(reliable: bool, t: Tools, before: Disk, d: Disk, done: set<Name>)
    requires AdoptedSoFar(reliable, t, before, d, done)
    ensures WellFormed(d) && d.dir == before.dir && d.data == before.data
    ensures forall o <- before.rows :: o in d.rows && (before.rows[o].status != Running ==> d.rows[o] == before.rows[o])
    ensures forall o <- d.rows :: d.rows[o].status == Running ==> o in before.rows && before.rows[o].status == Running
    ensures forall o <- d.rows :: o !in before.rows ==> IsAdopted(d, o)
    ensures reliable && (forall n <- d.dir :: n.Final? ==> n in done) ==> NoOrphans(t, d)
  {
  }

  lemma SameFiles(reliable: bool, t: Tools, before: Disk, d: Disk, entries: set<Name>, todo: set<Name>, n: Name)
    requires AdoptedSoFar(reliable, t, before, d, entries - todo) && n in todo && todo <= entries
    requires forall m <- entries :: m in before.dir && m.Final?
    ensures n in d.dir && n.Final?
  {
  }

  lemma NotAnOrphan(t: Tools, d: Disk, n: Name)
    requires WellFormed(d) && NoOrphans(t, d) && n in d.dir && n.Final?
    ensures Verifiable(t, d, n) ==> n.id in d.rows
  {
  }

  lemma AdoptedNext(sure: bool, reliable: bool, t: Tools, before: Disk, middle: Disk, d: Disk, done: set<Name>, n: Name)
    requires AdoptedSoFar(reliable, t, before, middle, done) && n in before.dir
    requires WellFormed(d) && d.dir == middle.dir && d.data == middle.data && (sure ==> reliable)
    requires forall o <- middle.rows :: o in d.rows && (middle.rows[o].status != Running ==> d.rows[o] == middle.rows[o])
    requires forall o <- d.rows :: d.rows[o].status == Running ==> o in middle.rows && middle.rows[o].status == Running
    requires forall o <- d.rows :: o !in middle.rows ==> o == n.id && Adopted(d.rows[o], n)
    requires sure && Verifiable(t, d, n) ==> n.id in d.rows
    ensures AdoptedSoFar(sure, t, before, d, done + {n})
  {
    hide Adopted, Verifiable;
    forall o | o in d.rows && o !in before.rows
      ensures IsAdopted(d, o)
    {
      if o in middle.rows {
        var m :| m in middle.dir && m.id == o && Adopted(middle.rows[o], m);
        AdoptedIsFinished(middle.rows[o], m);
        assert m in d.dir;
      }
    }
    forall m | m in done && Verifiable(t, d, m)
      ensures sure ==> m.id in d.rows
    {
      SameVerifiable(t, middle, d, m);
    }
  }

  lemma SameVerifiable(t: Tools, d: Disk, e: Disk, n: Name)
    requires WellFormed(d) && WellFormed(e) && d.dir == e.dir && d.data == e.data
    ensures Verifiable(t, d, n) <==> Verifiable(t, e, n)
  {
  }

  lemma AdoptedIsFinished(row: Row, n: Name)
    requires Adopted(row, n)
    ensures row.status == Succeeded
  {
  }

  // ------------------------------------------------------- what repair means

  /** Nothing left to reconcile. */
  ghost predicate Quiet(t: Tools, d: Disk)
    requires WellFormed(d)
  {
    RunningRows(d) == {} && HalfRetired(d) == {} && NoOrphans(t, d)
  }

  lemma QuietNow(t: Tools, d: Disk)
    requires WellFormed(d)
    ensures Quiet(t, d) <==> RunningRows(d) == {} && HalfRetired(d) == {} && NoOrphans(t, d)
  {
  }

  /** What reconciliation makes of `d`. */
  ghost predicate Repaired(d: Disk, e: Disk) {
    && (forall id <- d.rows :: id in e.rows)
    && (forall id <- RunningRows(d) :: Ended(d, e, id))
    && (forall id <- HalfRetired(d) :: e.rows[id] == Kept(d.rows[id], Passed))
    && (forall id <- d.rows :: id !in RunningRows(d) && id !in HalfRetired(d) ==> e.rows[id] == d.rows[id])
    && (forall id <- e.rows :: id !in d.rows ==> IsAdopted(e, id))
  }

  /** What the running rows' repair leaves for the next phase. */
  lemma FirstPhase(d0: Disk, d1: Disk)
    requires SameFinals(d0, d1) && d1.rows.Keys == d0.rows.Keys && DestinationsAreFinal(d0)
    requires forall id <- d1.rows :: id !in RunningRows(d0) ==> d1.rows[id] == d0.rows[id]
    requires forall id <- RunningRows(d0) :: Ended(d0, d1, id)
    ensures HalfRetired(d1) == HalfRetired(d0)
  {
    forall id | id in d0.rows
      ensures id in HalfRetired(d1) <==> id in HalfRetired(d0)
    {
      if id in RunningRows(d0) {
        assert Ended(d0, d1, id);
      } else if d0.rows[id].status == Succeeded {
        FinalsDecide(d0, d1, d0.rows[id].destination.value);
      }
    }
  }

  predicate DestinationsAreFinal(d: Disk) {
    forall id <- d.rows :: d.rows[id].status == Succeeded ==> d.rows[id].destination.Some? && d.rows[id].destination.value.Final?
  }

  lemma InvHasDestinations(t: Tools, d: Disk)
    requires Inv(t, d)
    ensures DestinationsAreFinal(d)
  {
    forall id | id in d.rows && d.rows[id].status == Succeeded
      ensures d.rows[id].destination.Some? && d.rows[id].destination.value.Final?
    {
      assert RowInv(t, d, id);
    }
  }

  lemma IsAdoptedIsPassed(d: Disk, id: string)
    requires id in d.rows && IsAdopted(d, id)
    ensures d.rows[id].status == Succeeded && d.rows[id].verification == Passed
  {
  }

  lemma NothingLeft(reliable: bool, d1: Disk, d2: Disk, d3: Disk)
    requires RunningRows(d1) == {} && d2.rows.Keys == d1.rows.Keys && HalfRetired(d2) == {}
    requires forall id <- d2.rows :: id !in HalfRetired(d1) ==> d2.rows[id] == d1.rows[id]
    requires forall id <- HalfRetired(d1) :: IsRestored(reliable, d1.rows[id], d2.rows[id])
    requires d3.dir == d2.dir && forall o <- d2.rows :: o in d3.rows
    requires forall o <- d2.rows :: d2.rows[o].status != Running ==> d3.rows[o] == d2.rows[o]
    requires forall o <- d3.rows :: o !in d2.rows ==> IsAdopted(d3, o)
    ensures forall o <- d2.rows :: d3.rows[o] == d2.rows[o]
    ensures RunningRows(d3) == {} && HalfRetired(d3) == {}
  {
    hide IsAdopted;
    forall o | o in d2.rows
      ensures d3.rows[o] == d2.rows[o] && o !in RunningRows(d3) && o !in HalfRetired(d3)
    {
      assert o !in RunningRows(d1) && o !in HalfRetired(d2);
    }
    forall o | o in d3.rows && o !in d2.rows
      ensures o !in RunningRows(d3) && o !in HalfRetired(d3)
    {
      IsAdoptedIsPassed(d3, o);
    }
  }

  lemma IsRepaired(d0: Disk, d1: Disk, d2: Disk, d3: Disk)
    requires DestinationsAreFinal(d0) && SameFinals(d0, d1) && d1.rows.Keys == d0.rows.Keys
    requires forall id <- d1.rows :: id !in RunningRows(d0) ==> d1.rows[id] == d0.rows[id]
    requires forall id <- RunningRows(d0) :: Ended(d0, d1, id)
    requires d2.dir == d1.dir && d2.rows.Keys == d1.rows.Keys
    requires forall id <- d2.rows :: id !in HalfRetired(d1) ==> d2.rows[id] == d1.rows[id]
    requires forall id <- HalfRetired(d1) :: IsRestored(true, d1.rows[id], d2.rows[id])
    requires d3.dir == d2.dir && forall o <- d2.rows :: o in d3.rows && d3.rows[o] == d2.rows[o]
    requires forall o <- d3.rows :: o !in d2.rows ==> IsAdopted(d3, o)
    ensures Repaired(d0, d3)
  {
    FirstPhase(d0, d1);
    hide SameFinals, IsAdopted, WellFormed, DestinationsAreFinal, Kept;
    forall id | id in RunningRows(d0)
      ensures Ended(d0, d3, id)
    {
      assert Ended(d0, d1, id);
      assert id !in HalfRetired(d1);
    }
  }
}
