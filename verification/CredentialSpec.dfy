/**
 The credential store (internal/credentials/service.go, internal/credentials/repository.go): its tables
 and what each request does to them.  A transaction is one step, because the writer has one connection
 (internal/storage/db.go:50).  A read or an update is several: it looks its credential up, authorizes and decrypts
 outside any transaction, and what it found is old by the time its transaction runs.
 */
module CredentialSpec {
  import opened Wrappers
  import opened Timestamps

  type Tags = map<string, string>

  datatype Actor = Human(user: string) | Agent(agent: string)

  datatype Action = Creating | Reading | Updating | Deleting | Restoring | Purging

  datatype Error = NotFound | Denied | InvalidInput | VersionConflict | IdempotencyConflict | AuditUnavailable | Internal

  datatype Cred = Cred(space: string, name: string, kind: string, version: nat, tags: Tags, assets: set<string>,
                       deleted: Option<int>)

  /** What a ciphertext is bound to. */
  datatype Context = Context(id: string, space: string, version: nat, kind: string)

  /** Ideal authenticated encryption: a sealed payload opens only in the context it was sealed for. */
  datatype Envelope = Sealed(context: Context, plaintext: string)

  function Open(c: Context, e: Envelope): Option<string> {
    if e.context == c then Some(e.plaintext) else None
  }

  /** One idempotency key of one agent at one endpoint, and the result stored under it. */
  datatype Slot = Slot(agent: string, endpoint: string, key: string)

  datatype Stored = Stored(request: string, id: string, version: nat, status: nat, expires: int)

  datatype Event = Success(action: Action, id: string, version: nat) | Failure(action: Action, error: Error)

  datatype Db = Db(creds: map<string, Cred>, versions: map<(string, nat), Envelope>, idem: map<Slot, Stored>,
                   log: seq<Event>)

  const DAY: int := 86_400_000_000_000

  /**
   `authorize` as a fixed predicate, the payload's canonical form for its type, and the printed form of date and
   time of day.
   */
  datatype Policy = Policy(deny: (Actor, Action, string, string, Tags) -> Option<Error>,
                           canonical: (string, string) -> Option<string>, seconds: int -> string)

  /**
   The circumstances of one request: who, under which key, the fingerprint of its body, its clock, the
   verdict of input validation, whether the Space is active and the asset links allowed when its
   transaction runs, and whether its success or failure event can be appended.
   */
  datatype Call = Call(actor: Actor, key: string, request: string, now: int, rejected: Option<Error>,
                       spaceActive: bool, links: Option<Error>, auditOk: bool, failureAuditOk: bool)

  datatype CreateInput = CreateInput(id: string, space: string, name: string, kind: string, tags: Tags,
                                     assets: set<string>, payload: string)

  /** `invalid` is the verdict on the new name, tags and links, which are looked at late. */
  datatype UpdateInput = UpdateInput(id: string, expected: nat, name: Option<string>, tags: Option<Tags>,
                                     assets: Option<set<string>>, payload: Option<string>, invalid: Option<Error>)

  /** `Committed` and `Replayed` look the same to the caller; `Pending` means no answer yet. */
  datatype Outcome = Committed(id: string, version: nat, status: nat) | Replayed(id: string, version: nat, status: nat)
                   | Failed(error: Error) | Pending

  // ------------------------------------------------------------- idempotency

  /** `lookupIdempotency`: an expired record is deleted and not found. */
  function Lookup(db: Db, slot: Slot, now: int): (Option<Stored>, Db) {
    if slot !in db.idem then (None, db)
    else if db.idem[slot].expires <= now then (None, db.(idem := db.idem - {slot}))
    else (Some(db.idem[slot]), db)
  }

  datatype Check = Fresh(db: Db) | Replay(stored: Stored) | Refuse(error: Error)

  /** `checkIdempotency` */
  function CheckIdempotency(db: Db, call: Call, endpoint: string, status: nat): Check {
    match call.actor
    case Human(_) => Fresh(db)
    case Agent(agent) =>
      var (found, db') := Lookup(db, Slot(agent, endpoint, call.key), call.now);
      match found
      case None => Fresh(db')
      case Some(stored) =>
        if stored.request != call.request then Refuse(IdempotencyConflict)
        else if stored.status != status then Refuse(Internal)
        else Replay(stored)
  }

  /** `authorizeReplayTx`, then the stored result. */
  function Answer(p: Policy, db: Db, call: Call, stored: Stored, action: Action): Outcome {
    if stored.id !in db.creds || db.creds[stored.id].deleted.Some? then Failed(NotFound)
    else
      match p.deny(call.actor, action, db.creds[stored.id].space, stored.id, db.creds[stored.id].tags)
      case Some(error) => Failed(error)
      case None => Replayed(stored.id, stored.version, stored.status)
  }

  /** The success event and the idempotency record that close a mutating transaction. */
  function Close(db: Db, call: Call, endpoint: string, action: Action, id: string, version: nat, status: nat): (Outcome, Db) {
    if !call.auditOk then (Failed(AuditUnavailable), db)
    else
      var idem := match call.actor
                  case Human(_) => db.idem
                  case Agent(agent) =>
                    db.idem[Slot(agent, endpoint, call.key) := Stored(call.request, id, version, status, call.now + DAY)];
      (Committed(id, version, status), db.(log := db.log + [Success(action, id, version)], idem := idem))
  }

  /** A failed transaction leaves nothing behind; then the failure is logged, or reported as unlogged. */
  function Settle(before: Db, call: Call, action: Action, result: (Outcome, Db)): (Outcome, Db) {
    match result.0
    case Failed(error) =>
      if call.failureAuditOk then (result.0, before.(log := before.log + [Failure(action, error)]))
      else (Failed(AuditUnavailable), before)
    case _ => result
  }

  // -------------------------------------------------------------- operations

  const CREATE := "credential.create"

  function UpdateEndpoint(id: string): string {
    "credential.update/" + id
  }

  function DeleteEndpoint(id: string): string {
    "credential.delete/" + id
  }

  /** `CreateAt` */
  function CreateTx(p: Policy, db: Db, call: Call, c: CreateInput): (Outcome, Db) {
    match (call.rejected, p.canonical(c.kind, c.payload), p.deny(call.actor, Creating, c.space, "", c.tags)) {
      case (Some(error), _, _) => (Failed(error), db)
      case (_, None, _) => (Failed(InvalidInput), db)
      case (_, _, Some(error)) => (Failed(error), db)
      case (None, Some(payload), None) =>
        match CheckIdempotency(db, call, CREATE, 201) {
          case Refuse(error) => (Failed(error), db)
          case Replay(stored) => (Answer(p, db, call, stored, Creating), db)
          case Fresh(db1) =>
            if !call.spaceActive then (Failed(NotFound), db)
            else if c.assets != {} && call.links.Some? then (Failed(call.links.value), db)
            else if c.id in db.creds || (c.id, 1) in db.versions then (Failed(Internal), db)
            else
              var cred := Cred(c.space, c.name, c.kind, 1, c.tags, c.assets, None);
              var db2 := db1.(creds := db1.creds[c.id := cred],
                              versions := db1.versions[(c.id, 1) := Sealed(Context(c.id, c.space, 1, c.kind), payload)]);
              Close(db2, call, CREATE, Creating, c.id, 1, 201)
        }
    }
  }

  /** `recordByID`: a row with its current version, and the tags another query finds a moment later. */
  datatype Record = Record(cred: Cred, sealed: Envelope)

  function ReadRecord(read: Db, labelled: Db, id: string): Option<Record> {
    if id !in read.creds || (id, read.creds[id].version) !in read.versions then None
    else
      var tags := if id in labelled.creds then labelled.creds[id].tags else map[];
      Some(Record(read.creds[id].(tags := tags), read.versions[(id, read.creds[id].version)]))
  }

  function OpenRecord(r: Record, id: string): Option<string> {
    Open(Context(id, r.cred.space, r.cred.version, r.cred.kind), r.sealed)
  }

  /** What an update prepares before its transaction: the row it read, the row and the payload it will write. */
  datatype Prepared = Ready(read: Cred, next: Cred, sealed: Envelope) | Stop(error: Error)

  function Edited(c: Cred, u: UpdateInput): Cred {
    c.(version := c.version + 1,
       name := if u.name.Some? then u.name.value else c.name,
       tags := if u.tags.Some? then u.tags.value else c.tags,
       assets := if u.assets.Some? then u.assets.value else c.assets)
  }

  /** What `UpdateAt` checks first of all, on what it read. */
  function Admit(p: Policy, record: Option<Record>, call: Call, u: UpdateInput): Option<Error> {
    if u.expected == 0 then Some(VersionConflict)
    else if u.id == "" || (u.name.None? && u.tags.None? && u.assets.None? && u.payload.None?) then Some(InvalidInput)
    else if call.rejected.Some? then call.rejected
    else if record.None? then Some(NotFound)
    else p.deny(call.actor, Updating, record.value.cred.space, u.id, record.value.cred.tags)
  }

  /** All that `UpdateAt` does outside its last transaction, on what it read. */
  function Prepare(p: Policy, record: Option<Record>, call: Call, u: UpdateInput): Prepared {
    match Admit(p, record, call, u)
    case Some(error) => Stop(error)
    case None =>
      var c := record.value.cred;
      var next := Edited(c, u);
      var verdict := p.deny(call.actor, Updating, c.space, u.id, next.tags);
      if c.deleted.Some? then Stop(NotFound)
      else if c.version != u.expected then Stop(VersionConflict)
      else if u.invalid.Some? then Stop(u.invalid.value)
      else if verdict.Some? then Stop(verdict.value)
      else
        match if u.payload.Some? then p.canonical(c.kind, u.payload.value) else OpenRecord(record.value, u.id)
        case None => Stop(if u.payload.Some? then InvalidInput else Internal)
        case Some(plaintext) => Ready(c, next, Sealed(Context(u.id, c.space, next.version, c.kind), plaintext))
  }

  /** The first transaction of `UpdateAt`: an agent's repeated request is answered before any work is done. */
  function ProbeTx(p: Policy, db: Db, call: Call, u: UpdateInput): (Outcome, Db) {
    match CheckIdempotency(db, call, UpdateEndpoint(u.id), 200)
    case Refuse(error) => (Failed(error), db)
    case Replay(stored) => (Answer(p, db, call, stored, Updating), db)
    case Fresh(db1) => (Pending, db1)
  }

  /** The transaction of `UpdateAt`, on the state in which it runs. */
  function UpdateTx(p: Policy, db: Db, call: Call, u: UpdateInput, prepared: Prepared): (Outcome, Db) {
    match prepared {
      case Stop(error) => (Failed(error), db)
      case Ready(read, next, envelope) =>
        match CheckIdempotency(db, call, UpdateEndpoint(u.id), 200) {
          case Refuse(error) => (Failed(error), db)
          case Replay(stored) => (Answer(p, db, call, stored, Updating), db)
          case Fresh(db1) =>
            if u.assets.Some? && call.links.Some? then (Failed(call.links.value), db)
            else if u.id !in db.creds || db.creds[u.id].version != u.expected || db.creds[u.id].deleted.Some? then
              (Failed(VersionConflict), db)
            else if (u.id, next.version) in db.versions then (Failed(Internal), db)
            else
              var row := db.creds[u.id].(name := next.name, version := next.version);
              var row1 := if u.tags.Some? then row.(tags := next.tags) else row;
              var row2 := if u.assets.Some? then row1.(assets := next.assets) else row1;
              var db2 := db1.(creds := db1.creds[u.id := row2], versions := db1.versions[(u.id, next.version) := envelope]);
              Close(db2, call, UpdateEndpoint(u.id), Updating, u.id, next.version, 200)
        }
    }
  }

  /**
   `UpdateAt` as a whole: it finds the row in `read` and its tags in `labelled`, looks an agent's repeated request
   up in `probed`, and its transaction runs on `last`.
   */
  function UpdateCall(p: Policy, read: Db, labelled: Db, probed: Db, last: Db, call: Call, u: UpdateInput): (Outcome, Db) {
    var record := ReadRecord(read, labelled, u.id);
    match Admit(p, record, call, u)
    case Some(error) => Settle(labelled, call, Updating, (Failed(error), labelled))
    case None =>
      if call.actor.Agent? && !ProbeTx(p, probed, call, u).0.Pending? then
        Settle(probed, call, Updating, ProbeTx(p, probed, call, u))
      else Settle(last, call, Updating, UpdateTx(p, last, call, u, Prepare(p, record, call, u)))
  }

  /** `DeleteAt`; its replay reports success even though the credential is deleted by then. */
  function DeleteTx(p: Policy, db: Db, call: Call, id: string, expected: nat): (Outcome, Db) {
    if expected == 0 then (Failed(VersionConflict), db)
    else if id == "" then (Failed(NotFound), db)
    else if call.rejected.Some? then (Failed(call.rejected.value), db)
    else if id !in db.creds then (Failed(NotFound), db)
    else
      var c := db.creds[id];
      match p.deny(call.actor, Deleting, c.space, id, c.tags) {
        case Some(error) => (Failed(error), db)
        case None =>
          match CheckIdempotency(db, call, DeleteEndpoint(id), 204) {
            case Refuse(error) => (Failed(error), db)
            case Replay(stored) => (Replayed(stored.id, stored.version, stored.status), db)
            case Fresh(db1) =>
              if c.deleted.Some? then (Failed(NotFound), db)
              else if c.version != expected then (Failed(VersionConflict), db)
              else Close(db1.(creds := db1.creds[id := c.(deleted := Some(call.now))]), call, DeleteEndpoint(id), Deleting, id, expected, 204)
          }
      }
  }

  /** `Restore`; it keeps no idempotency record. */
  function RestoreTx(p: Policy, db: Db, call: Call, id: string, expected: nat): (Outcome, Db) {
    if id == "" then (Failed(NotFound), db)
    else if expected == 0 then (Failed(VersionConflict), db)
    else if call.rejected.Some? then (Failed(call.rejected.value), db)
    else if id !in db.creds || db.creds[id].deleted.None? then (Failed(NotFound), db)
    else
      var c := db.creds[id];
      match p.deny(call.actor, Restoring, c.space, id, c.tags)
      case Some(error) => (Failed(error), db)
      case None =>
        if c.version != expected then (Failed(VersionConflict), db)
        else if !call.auditOk then (Failed(AuditUnavailable), db)
        else (Committed(id, expected, 200),
              db.(creds := db.creds[id := c.(deleted := None)], log := db.log + [Success(Restoring, id, expected)]))
  }

  /** `Purge`; the version rows go with the credential. */
  function PurgeTx(p: Policy, db: Db, call: Call, space: string, id: string, expected: nat): (Outcome, Db) {
    if space == "" || id == "" then (Failed(NotFound), db)
    else if expected == 0 then (Failed(VersionConflict), db)
    else if call.rejected.Some? then (Failed(call.rejected.value), db)
    else if id !in db.creds || db.creds[id].space != space then (Failed(NotFound), db)
    else
      var c := db.creds[id];
      match p.deny(call.actor, Purging, c.space, id, c.tags)
      case Some(error) => (Failed(error), db)
      case None =>
        if c.deleted.None? then (Failed(NotFound), db)
        else if c.version != expected then (Failed(VersionConflict), db)
        else if !call.auditOk then (Failed(AuditUnavailable), db)
        else (Committed(id, expected, 204), Without(db, id).(log := db.log + [Success(Purging, id, expected)]))
  }

  function Without(db: Db, id: string): Db {
    db.(creds := db.creds - {id}, versions := map k | k in db.versions && k.0 != id :: db.versions[k])
  }

  /** What a read finds: the version and the plaintext it decrypted, or why there is none. */
  datatype Found = Found(version: nat, plaintext: string) | Refused(error: Error)

  /** The first part of `GetAt`, outside any transaction. */
  function Look(p: Policy, record: Option<Record>, call: Call, id: string): Found {
    if id == "" || record.None? || record.value.cred.deleted.Some? then Refused(NotFound)
    else
      match p.deny(call.actor, Reading, record.value.cred.space, id, record.value.cred.tags)
      case Some(error) => Refused(error)
      case None =>
        match OpenRecord(record.value, id)
        case None => Refused(Internal)
        case Some(plaintext) => Found(record.value.cred.version, plaintext)
  }

  /** The transaction of `GetAt`: the payload leaves only after its read event is in the log. */
  function GetTx(db: Db, call: Call, id: string, found: Found): (Option<string>, (Outcome, Db)) {
    match found
    case Refused(error) => (None, (Failed(error), db))
    case Found(version, plaintext) =>
      if !call.auditOk then (None, (Failed(AuditUnavailable), db))
      else (Some(plaintext), (Replayed(id, version, 200), db.(log := db.log + [Success(Reading, id, version)])))
  }

  // -------------------------------------------------------------- maintenance

  /** Is a record gone after a cleanup at `now`?  The two instants are compared as text. */
  predicate Expires(p: Policy, stored: Stored, now: int) {
    TextAtMost(p.seconds, stored.expires, now)
  }

  /** `cleanupExpiredState`, as far as this store is concerned. */
  function CleanUp(p: Policy, db: Db, now: int): Db {
    db.(idem := map slot | slot in db.idem && !Expires(p, db.idem[slot], now) :: db.idem[slot])
  }

  /** One row of `PurgeExpiredMaintenance` or `PurgeExpired`, which purge every credential deleted long enough ago. */
  function Reaped(p: Policy, db: Db, id: string, cutoff: int): (Outcome, Db) {
    if id in db.creds && db.creds[id].deleted.Some? && TextAtMost(p.seconds, db.creds[id].deleted.value, cutoff) then
      (Committed(id, db.creds[id].version, 204), Without(db, id).(log := db.log + [Success(Purging, id, db.creds[id].version)]))
    else (Pending, db)
  }

  // -------------------------------------------------------------------- runs

  /**
   A step of a run.  `Probe` is the first, separate idempotency transaction of an update by an agent; `Update` is
   its last transaction, and `Get` the only one of a read, prepared on a row that was current `at` an earlier point
   and tags that were current at `labels`.  `Relink` is the asset service changing the links of a credential;
   `Cleanup` and `Reap` are the maintenance service, which reaps its rows one after another.
   */
  datatype Step =
    | Create(call: Call, c: CreateInput)
    | Probe(call: Call, u: UpdateInput)
    | Update(call: Call, u: UpdateInput, at: nat, labels: nat)
    | Delete(call: Call, id: string, expected: nat)
    | Restore(call: Call, id: string, expected: nat)
    | Purge(call: Call, space: string, id: string, expected: nat)
    | Get(call: Call, id: string, at: nat, labels: nat)
    | Relink(id: string, assets: set<string>)
    | Cleanup(now: int)
    | Reap(id: string, cutoff: int)

  /** The steps that are requests, not maintenance or another service. */
  predicate IsRequest(s: Step) {
    !s.Relink? && !s.Cleanup? && !s.Reap?
  }

  /** The reads of a step lie in the past, row before tags. */
  predicate ReadsPast(h: seq<Db>, s: Step) {
    s.Update? || s.Get? ==> s.at <= s.labels < |h|
  }

  /** A step can be taken if its new identifier was never drawn before and its reads lie in the past. */
  ghost predicate Possible(h: seq<Db>, s: Step) {
    && (s.Create? ==> forall i :: 0 <= i < |h| ==> s.c.id !in h[i].creds)
    && ReadsPast(h, s)
  }

  /** What an update read before its transaction. */
  function Preparation(p: Policy, h: seq<Db>, s: Step): Prepared
    requires s.Update? && ReadsPast(h, s)
  {
    Prepare(p, ReadRecord(h[s.at], h[s.labels], s.u.id), s.call, s.u)
  }

  /** What a read found before its transaction. */
  function Discovery(p: Policy, h: seq<Db>, s: Step): Found
    requires s.Get? && ReadsPast(h, s)
  {
    Look(p, ReadRecord(h[s.at], h[s.labels], s.id), s.call, s.id)
  }

  function Act(p: Policy, h: seq<Db>, s: Step): (Outcome, Db)
    requires h != [] && ReadsPast(h, s)
  {
    var db := h[|h| - 1];
    match s
    case Create(call, c) => Settle(db, call, Creating, CreateTx(p, db, call, c))
    case Probe(call, u) => Settle(db, call, Updating, ProbeTx(p, db, call, u))
    case Update(call, u, _, _) => Settle(db, call, Updating, UpdateTx(p, db, call, u, Preparation(p, h, s)))
    case Delete(call, id, expected) => Settle(db, call, Deleting, DeleteTx(p, db, call, id, expected))
    case Restore(call, id, expected) => Settle(db, call, Restoring, RestoreTx(p, db, call, id, expected))
    case Purge(call, space, id, expected) => Settle(db, call, Purging, PurgeTx(p, db, call, space, id, expected))
    case Get(call, id, _, _) => Settle(db, call, Reading, GetTx(db, call, id, Discovery(p, h, s)).1)
    case Relink(id, assets) =>
      (Pending, if id in db.creds then db.(creds := db.creds[id := db.creds[id].(assets := assets)]) else db)
    case Cleanup(now) => (Pending, CleanUp(p, db, now))
    case Reap(id, cutoff) => Reaped(p, db, id, cutoff)
  }

  /** The plaintext a step hands out. */
  function Payload(p: Policy, h: seq<Db>, s: Step): Option<string>
    requires h != [] && ReadsPast(h, s)
  {
    if s.Get? then GetTx(h[|h| - 1], s.call, s.id, Discovery(p, h, s)).0 else None
  }

  /** `h` is a run of `steps` from its first state. */
  ghost predicate IsRun(p: Policy, h: seq<Db>, steps: seq<Step>) {
    && |h| == |steps| + 1
    && forall i :: 0 <= i < |steps| ==> Possible(h[..i + 1], steps[i]) && h[i + 1] == Act(p, h[..i + 1], steps[i]).1
  }
}
