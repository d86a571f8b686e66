/**
 The credential service as code that updates its tables statement by statement and rolls a failed
 transaction back.  Each method is proved against the step it stands for.
 */
module CredentialStore {
  import opened Wrappers
  import opened CredentialSpec
  import CredentialRuns

  class Service {
    const p: Policy
    var creds: map<string, Cred>
    var versions: map<(string, nat), Envelope>
    var idem: map<Slot, Stored>
    var log: seq<Event>

    function Tables(): Db
      reads this
    {
      Db(creds, versions, idem, log)
    }

    constructor (p: Policy)
      ensures this.p == p && Tables() == Db(map[], map[], map[], [])
    {
      this.p := p;
      creds, versions, idem, log := map[], map[], map[], [];
    }

    /** What the tables are when a transaction begins, or are set back to when it rolls back. */
    method Load(d: Db)
      modifies this
      ensures Tables() == d
    {
      creds, versions, idem, log := d.creds, d.versions, d.idem, d.log;
    }

    /** The deferred `appendCredentialFailure`, after the rollback. */
    method Finish(before: Db, call: Call, action: Action, outcome: Outcome) returns (settled: Outcome)
      modifies this
      ensures (settled, Tables()) == Settle(before, call, action, (outcome, old(Tables())))
    {
      settled := outcome;
      if outcome.Failed? {
        Load(before);
        if call.failureAuditOk {
          log := log + [Failure(action, outcome.error)];
        } else {
          settled := Failed(AuditUnavailable);
        }
      }
    }

    /** `lookupIdempotency` */
    method LookupIdempotency(slot: Slot, now: int) returns (found: Option<Stored>)
      modifies this
      ensures (found, Tables()) == Lookup(old(Tables()), slot, now)
    {
      if slot !in idem {
        return None;
      }
      if idem[slot].expires <= now {
        idem := idem - {slot};
        return None;
      }
      return Some(idem[slot]);
    }

    method CheckKey(call: Call, endpoint: string, status: nat) returns (check: Check)
      modifies this
      ensures check == CheckIdempotency(old(Tables()), call, endpoint, status)
      ensures check.Fresh? ==> Tables() == check.db
      ensures !check.Fresh? ==> Tables() == old(Tables())
    {
      match call.actor {
        case Human(_) =>
          check := Fresh(Tables());
        case Agent(agent) =>
          var found := LookupIdempotency(Slot(agent, endpoint, call.key), call.now);
          match found {
            case None => check := Fresh(Tables());
            case Some(stored) =>
              if stored.request != call.request {
                check := Refuse(IdempotencyConflict);
              } else if stored.status != status {
                check := Refuse(Internal);
              } else {
                check := Replay(stored);
              }
          }
      }
    }

    /** The audit event and the idempotency record at the end of a transaction. */
    method LogAndRemember(call: Call, endpoint: string, action: Action, id: string, version: nat, status: nat) returns (outcome: Outcome)
      modifies this
      ensures (outcome, Tables()) == Close(old(Tables()), call, endpoint, action, id, version, status)
    {
      if !call.auditOk {
        return Failed(AuditUnavailable);
      }
      log := log + [Success(action, id, version)];
      if call.actor.Agent? {
        idem := idem[Slot(call.actor.agent, endpoint, call.key) := Stored(call.request, id, version, status, call.now + DAY)];
      }
      return Committed(id, version, status);
    }

    method CreateAt(call: Call, c: CreateInput) returns (outcome: Outcome)
      modifies this
      ensures (outcome, Tables()) == Settle(old(Tables()), call, Creating, CreateTx(p, old(Tables()), call, c))
    {
      var before := Tables();
      outcome := CreateInTx(call, c);
      outcome := Finish(before, call, Creating, outcome);
    }

    method CreateInTx(call: Call, c: CreateInput) returns (outcome: Outcome)
      modifies this
      ensures outcome == CreateTx(p, old(Tables()), call, c).0
      ensures !outcome.Failed? ==> Tables() == CreateTx(p, old(Tables()), call, c).1
    {
      if call.rejected.Some? {
        return Failed(call.rejected.value);
      }
      var payload := p.canonical(c.kind, c.payload);
      if payload.None? {
        return Failed(InvalidInput);
      }
      var verdict := p.deny(call.actor, Creating, c.space, "", c.tags);
      if verdict.Some? {
        return Failed(verdict.value);
      }
      var check := CheckKey(call, CREATE, 201);
      match check {
        case Refuse(error) => return Failed(error);
        case Replay(stored) => return Answer(p, Tables(), call, stored, Creating);
        case Fresh(_) =>
      }
      if !call.spaceActive {
        return Failed(NotFound);
      }
      if c.assets != {} && call.links.Some? {
        return Failed(call.links.value);
      }
      if c.id in creds || (c.id, 1) in versions {
        return Failed(Internal);
      }
      creds := creds[c.id := Cred(c.space, c.name, c.kind, 1, c.tags, c.assets, None)];
      versions := versions[(c.id, 1) := Sealed(Context(c.id, c.space, 1, c.kind), payload.value)];
      outcome := LogAndRemember(call, CREATE, Creating, c.id, 1, 201);
    }

    /** `recordByID`: the row and its version, then, in another query, the tags; others may write in between. */
    method LookUp(id: string, labelled: Db) returns (record: Option<Record>)
      modifies this
      ensures record == ReadRecord(old(Tables()), labelled, id) && Tables() == labelled
    {
      if id !in creds || (id, creds[id].version) !in versions {
        Load(labelled);
        return None;
      }
      var row, sealed := creds[id], versions[(id, creds[id].version)];
      Load(labelled);
      var tags: Tags := map[];
      if id in creds {
        tags := creds[id].tags;
      }
      return Some(Record(row.(tags := tags), sealed));
    }

    /** The checks at the beginning of `UpdateAt`. */
    method AdmitUpdate(record: Option<Record>, call: Call, u: UpdateInput) returns (refused: Option<Error>)
      ensures refused == Admit(p, record, call, u)
    {
      if u.expected == 0 {
        return Some(VersionConflict);
      }
      if u.id == "" || (u.name.None? && u.tags.None? && u.assets.None? && u.payload.None?) {
        return Some(InvalidInput);
      }
      if call.rejected.Some? {
        return call.rejected;
      }
      if record.None? {
        return Some(NotFound);
      }
      return p.deny(call.actor, Updating, record.value.cred.space, u.id, record.value.cred.tags);
    }

    /** What `UpdateAt` does with the row it read: edit, authorize again and encrypt. */
    method PrepareUpdate(record: Option<Record>, call: Call, u: UpdateInput) returns (prepared: Prepared)
      requires Admit(p, record, call, u) == None
      ensures prepared == Prepare(p, record, call, u)
    {
      var c := record.value.cred;
      if c.deleted.Some? {
        return Stop(NotFound);
      }
      if c.version != u.expected {
        return Stop(VersionConflict);
      }
      if u.invalid.Some? {
        return Stop(u.invalid.value);
      }
      var next := c.(version := c.version + 1);
      if u.name.Some? {
        next := next.(name := u.name.value);
      }
      if u.tags.Some? {
        next := next.(tags := u.tags.value);
      }
      if u.assets.Some? {
        next := next.(assets := u.assets.value);
      }
      var verdict := p.deny(call.actor, Updating, c.space, u.id, next.tags);
      if verdict.Some? {
        return Stop(verdict.value);
      }
      var plaintext: Option<string>;
      if u.payload.Some? {
        plaintext := p.canonical(c.kind, u.payload.value);
      } else {
        plaintext := OpenRecord(record.value, u.id);
      }
      if plaintext.None? {
        return Stop(if u.payload.Some? then InvalidInput else Internal);
      }
      return Ready(c, next, Sealed(Context(u.id, c.space, next.version, c.kind), plaintext.value));
    }

    method UpdateInTx(call: Call, u: UpdateInput, prepared: Prepared) returns (outcome: Outcome)
      modifies this
      ensures outcome == UpdateTx(p, old(Tables()), call, u, prepared).0
      ensures !outcome.Failed? ==> Tables() == UpdateTx(p, old(Tables()), call, u, prepared).1
    {
      hide CheckIdempotency, Close, Answer;
      if prepared.Stop? {
        return Failed(prepared.error);
      }
      var next := prepared.next;
      var check := CheckKey(call, UpdateEndpoint(u.id), 200);
      CredentialRuns.CheckKeepsRows(old(Tables()), call, UpdateEndpoint(u.id), 200);
      match check {
        case Refuse(error) => return Failed(error);
        case Replay(stored) => return Answer(p, Tables(), call, stored, Updating);
        case Fresh(_) =>
      }
      if u.assets.Some? && call.links.Some? {
        return Failed(call.links.value);
      }
      if u.id !in creds || creds[u.id].version != u.expected || creds[u.id].deleted.Some? {
        return Failed(VersionConflict);
      }
      if (u.id, next.version) in versions {
        return Failed(Internal);
      }
      creds := creds[u.id := creds[u.id].(name := next.name, version := next.version)];
      versions := versions[(u.id, next.version) := prepared.sealed];
      if u.tags.Some? {
        creds := creds[u.id := creds[u.id].(tags := next.tags)];
      }
      if u.assets.Some? {
        creds := creds[u.id := creds[u.id].(assets := next.assets)];
      }
      assert creds == check.db.creds[u.id := creds[u.id]];
      outcome := LogAndRemember(call, UpdateEndpoint(u.id), Updating, u.id, next.version, 200);
    }

    /** The transaction in which an agent's repeated update is recognised. */
    method Probe(call: Call, u: UpdateInput) returns (outcome: Outcome)
      modifies this
      ensures outcome == ProbeTx(p, old(Tables()), call, u).0
      ensures !outcome.Failed? ==> Tables() == ProbeTx(p, old(Tables()), call, u).1
    {
      var check := CheckKey(call, UpdateEndpoint(u.id), 200);
      match check {
        case Refuse(error) => return Failed(error);
        case Replay(stored) => return Answer(p, Tables(), call, stored, Updating);
        case Fresh(_) => return Pending;
      }
    }

    /**
     `UpdateAt`.  The row is read from the tables as they are; `labelled`, `probed` and `last` are what other
     requests have made of them by the time the tags are read and the probe and the last transaction begin.
     */
    method UpdateAt(call: Call, u: UpdateInput, labelled: Db, probed: Db, last: Db) returns (outcome: Outcome)
      modifies this
      ensures (outcome, Tables()) == UpdateCall(p, old(Tables()), labelled, probed, last, call, u)
    {
      hide ProbeTx, UpdateTx, Prepare, Admit, ReadRecord;
      var record := LookUp(u.id, labelled);
      var refused := AdmitUpdate(record, call, u);
      if refused.Some? {
        outcome := Finish(labelled, call, Updating, Failed(refused.value));
        return;
      }
      var prepared := PrepareUpdate(record, call, u);
      if call.actor.Agent? {
        Load(probed);
        outcome := Probe(call, u);
        if !outcome.Pending? {
          outcome := Finish(probed, call, Updating, outcome);
          return;
        }
      }
      Load(last);
      outcome := UpdateInTx(call, u, prepared);
      outcome := Finish(last, call, Updating, outcome);
    }

    method DeleteAt(call: Call, id: string, expected: nat) returns (outcome: Outcome)
      modifies this
      ensures (outcome, Tables()) == Settle(old(Tables()), call, Deleting, DeleteTx(p, old(Tables()), call, id, expected))
    {
      var before := Tables();
      outcome := DeleteInTx(call, id, expected);
      outcome := Finish(before, call, Deleting, outcome);
    }

    method DeleteInTx(call: Call, id: string, expected: nat) returns (outcome: Outcome)
      modifies this
      ensures outcome == DeleteTx(p, old(Tables()), call, id, expected).0
      ensures !outcome.Failed? ==> Tables() == DeleteTx(p, old(Tables()), call, id, expected).1
    {
      if expected == 0 {
        return Failed(VersionConflict);
      }
      if id == "" {
        return Failed(NotFound);
      }
      if call.rejected.Some? {
        return Failed(call.rejected.value);
      }
      if id !in creds {
        return Failed(NotFound);
      }
      var c := creds[id];
      var verdict := p.deny(call.actor, Deleting, c.space, id, c.tags);
      if verdict.Some? {
        return Failed(verdict.value);
      }
      var check := CheckKey(call, DeleteEndpoint(id), 204);
      match check {
        case Refuse(error) => return Failed(error);
        case Replay(stored) => return Replayed(stored.id, stored.version, stored.status);
        case Fresh(_) =>
      }
      if c.deleted.Some? {
        return Failed(NotFound);
      }
      if c.version != expected {
        return Failed(VersionConflict);
      }
      creds := creds[id := c.(deleted := Some(call.now))];
      outcome := LogAndRemember(call, DeleteEndpoint(id), Deleting, id, expected, 204);
    }

    method RestoreAt(call: Call, id: string, expected: nat) returns (outcome: Outcome)
      modifies this
      ensures (outcome, Tables()) == Settle(old(Tables()), call, Restoring, RestoreTx(p, old(Tables()), call, id, expected))
    {
      var before := Tables();
      outcome := RestoreInTx(call, id, expected);
      outcome := Finish(before, call, Restoring, outcome);
    }

    method RestoreInTx(call: Call, id: string, expected: nat) returns (outcome: Outcome)
      modifies this
      ensures outcome == RestoreTx(p, old(Tables()), call, id, expected).0
      ensures !outcome.Failed? ==> Tables() == RestoreTx(p, old(Tables()), call, id, expected).1
    {
      if id == "" {
        return Failed(NotFound);
      }
      if expected == 0 {
        return Failed(VersionConflict);
      }
      if call.rejected.Some? {
        return Failed(call.rejected.value);
      }
      if id !in creds || creds[id].deleted.None? {
        return Failed(NotFound);
      }
      var c := creds[id];
      var verdict := p.deny(call.actor, Restoring, c.space, id, c.tags);
      if verdict.Some? {
        return Failed(verdict.value);
      }
      if c.version != expected {
        return Failed(VersionConflict);
      }
      creds := creds[id := c.(deleted := None)];
      if !call.auditOk {
        return Failed(AuditUnavailable);
      }
      log := log + [Success(Restoring, id, expected)];
      return Committed(id, expected, 200);
    }

    method PurgeAt(call: Call, space: string, id: string, expected: nat) returns (outcome: Outcome)
      modifies this
      ensures (outcome, Tables()) == Settle(old(Tables()), call, Purging, PurgeTx(p, old(Tables()), call, space, id, expected))
    {
      var before := Tables();
      outcome := PurgeInTx(call, space, id, expected);
      outcome := Finish(before, call, Purging, outcome);
    }

    method PurgeInTx(call: Call, space: string, id: string, expected: nat) returns (outcome: Outcome)
      modifies this
      ensures outcome == PurgeTx(p, old(Tables()), call, space, id, expected).0
      ensures !outcome.Failed? ==> Tables() == PurgeTx(p, old(Tables()), call, space, id, expected).1
    {
      if space == "" || id == "" {
        return Failed(NotFound);
      }
      if expected == 0 {
        return Failed(VersionConflict);
      }
      if call.rejected.Some? {
        return Failed(call.rejected.value);
      }
      if id !in creds || creds[id].space != space {
        return Failed(NotFound);
      }
      var c := creds[id];
      var verdict := p.deny(call.actor, Purging, c.space, id, c.tags);
      if verdict.Some? {
        return Failed(verdict.value);
      }
      if c.deleted.None? {
        return Failed(NotFound);
      }
      if c.version != expected {
        return Failed(VersionConflict);
      }
      if !call.auditOk {
        return Failed(AuditUnavailable);
      }
      log := log + [Success(Purging, id, expected)];
      versions := map k | k in versions && k.0 != id :: versions[k];
      creds := creds - {id};
      return Committed(id, expected, 204);
    }

    /**
     `GetAt`: find the row, then its tags, authorize and decrypt; then log the read, and hand the payload out.
     `labelled` and `last` are what other requests have made of the tables by the time of the second and of the last
     of these.
     */
    method GetAt(call: Call, id: string, labelled: Db, last: Db) returns (payload: Option<string>, outcome: Outcome)
      modifies this
      ensures var found := Look(p, ReadRecord(old(Tables()), labelled, id), call, id);
              && payload == GetTx(last, call, id, found).0
              && (outcome, Tables()) == Settle(last, call, Reading, GetTx(last, call, id, found).1)
    {
      hide ReadRecord;
      var record := LookUp(id, labelled);
      var found := Decrypt(record, call, id);
      Load(last);
      payload := None;
      if found.Refused? {
        outcome := Failed(found.error);
      } else if !call.auditOk {
        outcome := Failed(AuditUnavailable);
      } else {
        log := log + [Success(Reading, id, found.version)];
        payload, outcome := Some(found.plaintext), Replayed(id, found.version, 200);
      }
      outcome := Finish(last, call, Reading, outcome);
    }

    method Decrypt(record: Option<Record>, call: Call, id: string) returns (found: Found)
      ensures found == Look(p, record, call, id)
    {
      if id == "" || record.None? || record.value.cred.deleted.Some? {
        return Refused(NotFound);
      }
      var c := record.value.cred;
      var verdict := p.deny(call.actor, Reading, c.space, id, c.tags);
      if verdict.Some? {
        return Refused(verdict.value);
      }
      var plaintext := OpenRecord(record.value, id);
      if plaintext.None? {
        return Refused(Internal);
      }
      return Found(c.version, plaintext.value);
    }
  }
}
