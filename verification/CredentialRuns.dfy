/** What holds over every run of the credential store, however its requests interleave. */
module CredentialRuns {
  import opened Wrappers
  import opened CredentialSpec

  // --------------------------------------------------------------- invariant

  /** The stored versions of every credential are exactly 1 to its current version, each sealed for its place. */
  ghost predicate DbInv(d: Db) {
    && (forall id <- d.creds :: d.creds[id].version >= 1)
    && (forall k <- d.versions :: k.0 in d.creds && 1 <= k.1 <= d.creds[k.0].version
          && d.versions[k].context == Context(k.0, d.creds[k.0].space, k.1, d.creds[k.0].kind))
    && (forall id <- d.creds, v: nat :: 1 <= v <= d.creds[id].version ==> (id, v) in d.versions)
  }

  /** How a credential may change: versions only grow, written versions are immutable, Space and type too. */
  ghost predicate Ages(d: Db, e: Db, id: string)
    requires id in d.creds && id in e.creds
  {
    && d.creds[id].version <= e.creds[id].version
    && e.creds[id].space == d.creds[id].space && e.creds[id].kind == d.creds[id].kind
    && (e.creds[id].version == d.creds[id].version ==>
          e.creds[id].name == d.creds[id].name && e.creds[id].tags == d.creds[id].tags)
    && (forall v: nat :: (id, v) in d.versions ==> (id, v) in e.versions && e.versions[(id, v)] == d.versions[(id, v)])
  }

  ghost predicate Moves(d: Db, e: Db) {
    forall id :: id in d.creds && id in e.creds ==> Ages(d, e, id)
  }

  /** A credential that is gone stays gone. */
  ghost predicate NoRevival(h: seq<Db>) {
    forall i, j, id :: 0 <= i < j < |h| && id in h[i].creds && id in h[j].creds ==>
      forall k :: i <= k <= j ==> id in h[k].creds
  }

  ghost predicate Sound(h: seq<Db>) {
    && (forall i :: 0 <= i < |h| ==> DbInv(h[i]))
    && (forall i :: 0 < i < |h| ==> Moves(h[i - 1], h[i]))
    && NoRevival(h)
  }

  lemma {:induction false} AgesOver(h: seq<Db>, i: nat, j: nat, id: string)
    requires Sound(h) && i <= j < |h| && id in h[i].creds && id in h[j].creds
    ensures Ages(h[i], h[j], id)
    decreases j
  {
    if i < j {
      assert id in h[j - 1].creds;
      AgesOver(h, i, j - 1, id);
      assert Moves(h[j - 1], h[j]);
    }
  }

  // ---------------------------------------------------------- small effects

  predicate SameRows(d: Db, e: Db) {
    e.creds == d.creds && e.versions == d.versions
  }

  lemma CheckKeepsRows(db: Db, call: Call, endpoint: string, status: nat)
    ensures var check := CheckIdempotency(db, call, endpoint, status);
            check.Fresh? ==> SameRows(db, check.db) && check.db.log == db.log
  {
  }

  lemma CloseKeepsRows(db: Db, call: Call, endpoint: string, action: Action, id: string, version: nat, status: nat)
    ensures var (outcome, e) := Close(db, call, endpoint, action, id, version, status);
            && SameRows(db, e)
            && (outcome == Committed(id, version, status) || outcome == Failed(AuditUnavailable))
            && e.log == if outcome.Committed? then db.log + [Success(action, id, version)] else db.log
  {
  }

  lemma AnswerCommitsNothing(p: Policy, db: Db, call: Call, stored: Stored, action: Action)
    ensures !Answer(p, db, call, stored, action).Committed? && !Answer(p, db, call, stored, action).Pending?
  {
  }

  /** A committed creation adds one credential at version 1; anything else changes no row. */
  lemma CreateEffect(p: Policy, d: Db, call: Call, c: CreateInput)
    ensures var (outcome, e) := CreateTx(p, d, call, c);
            if outcome.Committed? then
              && outcome == Committed(c.id, 1, 201) && c.id !in d.creds && p.canonical(c.kind, c.payload).Some?
              && e.creds == d.creds[c.id := Cred(c.space, c.name, c.kind, 1, c.tags, c.assets, None)]
              && e.versions == d.versions[(c.id, 1) := Sealed(Context(c.id, c.space, 1, c.kind), p.canonical(c.kind, c.payload).value)]
              && e.log == d.log + [Success(Creating, c.id, 1)]
            else outcome.Failed? || (outcome.Replayed? && e == d)
  {
    hide CheckIdempotency, Close, Answer;
    var check := CheckIdempotency(d, call, CREATE, 201);
    CheckKeepsRows(d, call, CREATE, 201);
    if check.Replay? {
      AnswerCommitsNothing(p, d, call, check.stored, Creating);
    }
    if check.Fresh? && p.canonical(c.kind, c.payload).Some? {
      var cred := Cred(c.space, c.name, c.kind, 1, c.tags, c.assets, None);
      var sealed := Sealed(Context(c.id, c.space, 1, c.kind), p.canonical(c.kind, c.payload).value);
      CloseKeepsRows(check.db.(creds := check.db.creds[c.id := cred], versions := check.db.versions[(c.id, 1) := sealed]),
                     call, CREATE, Creating, c.id, 1, 201);
    }
  }

  /** A committed update writes one row and one version; anything else changes no row. */
  lemma UpdateEffect(p: Policy, d: Db, call: Call, u: UpdateInput, prepared: Prepared)
    ensures var (outcome, e) := UpdateTx(p, d, call, u, prepared);
            if outcome.Committed? then
              && prepared.Ready? && u.id in d.creds && d.creds[u.id].version == u.expected && d.creds[u.id].deleted == None
              && outcome == Committed(u.id, prepared.next.version, 200)
              && e.creds == d.creds[u.id := Written(d.creds[u.id], u, prepared.next)]
              && e.versions == d.versions[(u.id, prepared.next.version) := prepared.sealed]
              && e.log == d.log + [Success(Updating, u.id, prepared.next.version)]
            else outcome.Failed? || (outcome.Replayed? && e == d)
  {
    hide CheckIdempotency, Close, Answer;
    var check := CheckIdempotency(d, call, UpdateEndpoint(u.id), 200);
    CheckKeepsRows(d, call, UpdateEndpoint(u.id), 200);
    if check.Replay? {
      AnswerCommitsNothing(p, d, call, check.stored, Updating);
    }
    if check.Fresh? && prepared.Ready? && u.id in d.creds {
      var v := prepared.next.version;
      CloseKeepsRows(check.db.(creds := check.db.creds[u.id := Written(d.creds[u.id], u, prepared.next)],
                               versions := check.db.versions[(u.id, v) := prepared.sealed]),
                     call, UpdateEndpoint(u.id), Updating, u.id, v, 200);
    }
  }

  /** The columns an update statement writes. */
  function Written(c: Cred, u: UpdateInput, next: Cred): Cred {
    c.(name := next.name, version := next.version, tags := if u.tags.Some? then next.tags else c.tags,
       assets := if u.assets.Some? then next.assets else c.assets)
  }

  lemma SettleEffect(before: Db, call: Call, action: Action, result: (Outcome, Db))
    ensures var (outcome, e) := Settle(before, call, action, result);
            if result.0.Failed? then
              outcome.Failed? && SameRows(before, e) && e.idem == before.idem
              && (e.log == before.log || e.log == before.log + [Failure(action, result.0.error)])
            else (outcome, e) == result
  {
  }

  // ---------------------------------------------------- update is atomic

  /** The plaintext of a stored version. */
  function Plaintext(d: Db, id: string, v: nat): string
    requires (id, v) in d.versions
  {
    d.versions[(id, v)].plaintext
  }

  /** An update as one indivisible step: what the state must allow, and what it becomes. */
  ghost predicate MayUpdate(p: Policy, d: Db, call: Call, u: UpdateInput) {
    && u.id in d.creds && d.creds[u.id].version == u.expected && d.creds[u.id].deleted == None
    && (u.id, u.expected) in d.versions
    && p.deny(call.actor, Updating, d.creds[u.id].space, u.id, d.creds[u.id].tags) == None
    && (u.tags.Some? ==> p.deny(call.actor, Updating, d.creds[u.id].space, u.id, u.tags.value) == None)
    && (u.payload.Some? ==> p.canonical(d.creds[u.id].kind, u.payload.value).Some?)
  }

  function AtomicUpdate(p: Policy, d: Db, u: UpdateInput): (map<string, Cred>, map<(string, nat), Envelope>)
    requires u.id in d.creds && (u.id, u.expected) in d.versions
    requires u.payload.Some? ==> p.canonical(d.creds[u.id].kind, u.payload.value).Some?
  {
    var c := d.creds[u.id];
    var plaintext := if u.payload.Some? then p.canonical(c.kind, u.payload.value).value else Plaintext(d, u.id, u.expected);
    (d.creds[u.id := Cred(c.space, if u.name.Some? then u.name.value else c.name, c.kind, c.version + 1,
                          if u.tags.Some? then u.tags.value else c.tags, if u.assets.Some? then u.assets.value else c.assets,
                          c.deleted)],
     d.versions[(u.id, u.expected + 1) := Sealed(Context(u.id, c.space, u.expected + 1, c.kind), plaintext)])
  }

  /**
   However many requests commit between the read of an update and its transaction: if the update commits,
   it does exactly what one atomic update of the state at that moment does, and that state allowed it.
   */
  lemma UpdateIsAtomic(p: Policy, h: seq<Db>, s: Step)
    requires Sound(h) && s.Update? && ReadsPast(h, s) && Act(p, h, s).0.Committed?
    ensures var d, u, (outcome, e) := h[|h| - 1], s.u, Act(p, h, s);
            && MayUpdate(p, d, s.call, u)
            && outcome == Committed(u.id, u.expected + 1, 200)
            && (e.creds, e.versions) == AtomicUpdate(p, d, u)
            && e.log == d.log + [Success(Updating, u.id, u.expected + 1)]
  {
    hide Prepare, UpdateTx, Settle, Moves, NoRevival;
    var d, u, record := h[|h| - 1], s.u, ReadRecord(h[s.at], h[s.labels], s.u.id);
    var prepared := Preparation(p, h, s);
    SettleEffect(d, s.call, Updating, UpdateTx(p, d, s.call, u, prepared));
    UpdateEffect(p, d, s.call, u, prepared);
    ReadyMeans(p, record, s.call, u);
    ReadStaysCurrent(h, s.at, s.labels, u.id);
    assert DbInv(d);
    hide Sound;
    ReadyIsCurrent(p, d, record.value, s.call, u);
  }

  /** The record is the present row, but for its links and its deletion mark, and the present version. */
  ghost predicate IsCurrent(d: Db, id: string, r: Record) {
    && id in d.creds && r.cred == d.creds[id].(assets := r.cred.assets, deleted := r.cred.deleted)
    && (id, r.cred.version) in d.versions && r.sealed == d.versions[(id, r.cred.version)]
  }

  /** A row and tags read earlier are still current if the version has not moved since. */
  lemma ReadStaysCurrent(h: seq<Db>, at: nat, labels: nat, id: string)
    requires Sound(h) && at <= labels < |h| && ReadRecord(h[at], h[labels], id).Some?
    requires id in h[|h| - 1].creds && h[|h| - 1].creds[id].version == ReadRecord(h[at], h[labels], id).value.cred.version
    ensures IsCurrent(h[|h| - 1], id, ReadRecord(h[at], h[labels], id).value)
  {
    assert id in h[labels].creds;
    hide Sound;
    AgesOver(h, at, labels, id);
    AgesOver(h, labels, |h| - 1, id);
    AgesOver(h, at, |h| - 1, id);
    SameVersionSameRow(h[at], h[labels], h[|h| - 1], id);
  }

  lemma SameVersionSameRow(a: Db, b: Db, d: Db, id: string)
    requires id in a.creds && id in b.creds && id in d.creds && Ages(a, b, id) && Ages(b, d, id) && Ages(a, d, id)
    requires d.creds[id].version == a.creds[id].version && (id, a.creds[id].version) in a.versions
    ensures IsCurrent(d, id, ReadRecord(a, b, id).value)
  {
  }

  /** What was prepared on a current record is what an atomic update of the present state writes, and that may be done. */
  lemma ReadyIsCurrent(p: Policy, d: Db, r: Record, call: Call, u: UpdateInput)
    requires DbInv(d) && IsCurrent(d, u.id, r) && Prepare(p, Some(r), call, u).Ready? && d.creds[u.id].deleted == None
    ensures MayUpdate(p, d, call, u)
    ensures var prepared := Prepare(p, Some(r), call, u);
            && prepared.next.version == u.expected + 1
            && Written(d.creds[u.id], u, prepared.next) == Edited(d.creds[u.id], u)
            && (d.creds[u.id := Edited(d.creds[u.id], u)], d.versions[(u.id, u.expected + 1) := prepared.sealed]) == AtomicUpdate(p, d, u)
  {
    hide Prepare;
    ReadyMeans(p, Some(r), call, u);
  }

  /** What makes a preparation succeed. */
  lemma ReadyMeans(p: Policy, record: Option<Record>, call: Call, u: UpdateInput)
    ensures Prepare(p, record, call, u).Ready? ==>
              && record.Some?
              && var r, prepared := record.value, Prepare(p, record, call, u);
                 && r.cred.version == u.expected && prepared.next == Edited(r.cred, u)
                 && p.deny(call.actor, Updating, r.cred.space, u.id, r.cred.tags) == None
                 && p.deny(call.actor, Updating, r.cred.space, u.id, Edited(r.cred, u).tags) == None
                 && var plaintext := if u.payload.Some? then p.canonical(r.cred.kind, u.payload.value) else OpenRecord(r, u.id);
                    plaintext.Some? && prepared.sealed == Sealed(Context(u.id, r.cred.space, u.expected + 1, r.cred.kind), plaintext.value)
  {
  }

  /** What a read of the present state finds is ready to be written exactly when an atomic update is allowed. */
  lemma PreparedExactly(p: Policy, d: Db, call: Call, u: UpdateInput)
    requires DbInv(d)
    ensures Prepare(p, ReadRecord(d, d, u.id), call, u).Ready?
            <==> u.expected > 0 && u.id != "" && (u.name.Some? || u.tags.Some? || u.assets.Some? || u.payload.Some?)
                 && call.rejected == None && u.invalid == None && MayUpdate(p, d, call, u)
    ensures Prepare(p, ReadRecord(d, d, u.id), call, u).Ready? ==>
              var prepared := Prepare(p, ReadRecord(d, d, u.id), call, u);
              (d.creds[u.id := Written(d.creds[u.id], u, prepared.next)], d.versions[(u.id, prepared.next.version) := prepared.sealed])
              == AtomicUpdate(p, d, u)
  {
    if u.id in d.creds {
      assert (u.id, d.creds[u.id].version) in d.versions;
      assert d.creds[u.id].(tags := d.creds[u.id].tags) == d.creds[u.id];
    }
  }
  // ------------------------------------------------------ every step keeps it

  /** What a step may do to the tables of credentials and versions. */
  ghost predicate Steps(d: Db, e: Db, fresh': string) {
    && DbInv(e) && Moves(d, e)
    && forall id <- e.creds :: id in d.creds || id == fresh'
  }

  lemma SameTables(d: Db, e: Db, fresh': string)
    requires DbInv(d) && e.creds == d.creds && e.versions == d.versions
    ensures Steps(d, e, fresh')
  {
  }

  lemma CreateSteps(p: Policy, d: Db, call: Call, c: CreateInput)
    requires DbInv(d) && c.id !in d.creds
    ensures var e := Settle(d, call, Creating, CreateTx(p, d, call, c)).1;
            Steps(d, e, c.id)
  {
    hide CreateTx, Settle, Steps, DbInv;
    CreateEffect(p, d, call, c);
    SettleEffect(d, call, Creating, CreateTx(p, d, call, c));
    var (outcome, e) := CreateTx(p, d, call, c);
    if outcome.Committed? {
      FirstVersion(d, e, c.id);
    } else {
      SameTables(d, Settle(d, call, Creating, (outcome, e)).1, c.id);
    }
  }

  lemma FirstVersion(d: Db, e: Db, id: string)
    requires DbInv(d) && id !in d.creds && id in e.creds && (id, 1) in e.versions
    requires e.creds == d.creds[id := e.creds[id]] && e.versions == d.versions[(id, 1) := e.versions[(id, 1)]]
    requires e.creds[id].version == 1 && e.versions[(id, 1)].context == Context(id, e.creds[id].space, 1, e.creds[id].kind)
    ensures Steps(d, e, id)
  {
    assert forall k <- d.versions :: k.0 != id;
    assert Moves(d, e) by {
      hide DbInv;
    }
    forall o, v: nat | o in e.creds && 1 <= v <= e.creds[o].version
      ensures (o, v) in e.versions
    {
      assert if o == id then v == 1 else (o, v) in d.versions;
    }
    hide Moves;
  }

  lemma UpdateSteps(p: Policy, h: seq<Db>, s: Step)
    requires Sound(h) && s.Update? && ReadsPast(h, s)
    ensures Steps(h[|h| - 1], Act(p, h, s).1, s.u.id)
  {
    var d := h[|h| - 1];
    var (outcome, e) := Act(p, h, s);
    assert DbInv(d);
    hide Sound;
    if outcome.Committed? {
      UpdateIsAtomic(p, h, s);
      OneMoreVersion(p, d, e, s.u);
    } else {
      NotCommittedUpdate(p, h, s);
      SameTables(d, e, s.u.id);
    }
  }

  lemma OneMoreVersion(p: Policy, d: Db, e: Db, u: UpdateInput)
    requires DbInv(d) && u.id in d.creds && d.creds[u.id].version == u.expected && (u.id, u.expected) in d.versions
    requires u.payload.Some? ==> p.canonical(d.creds[u.id].kind, u.payload.value).Some?
    requires (e.creds, e.versions) == AtomicUpdate(p, d, u)
    ensures Steps(d, e, u.id)
  {
    var k := (u.id, u.expected + 1);
    assert k !in d.versions;
    forall id | id in e.creds && id != u.id
      ensures Ages(d, e, id)
    {
    }
    assert Ages(d, e, u.id);
    forall id, v: nat | id in e.creds && 1 <= v <= e.creds[id].version
      ensures (id, v) in e.versions
    {
      assert (id, v) == k || (id in d.creds && 1 <= v <= d.creds[id].version);
    }
  }

  lemma NotCommittedUpdate(p: Policy, h: seq<Db>, s: Step)
    requires h != [] && s.Update? && ReadsPast(h, s) && !Act(p, h, s).0.Committed?
    ensures SameRows(h[|h| - 1], Act(p, h, s).1)
  {
    var d, prepared := h[|h| - 1], Preparation(p, h, s);
    SettleEffect(d, s.call, Updating, UpdateTx(p, d, s.call, s.u, prepared));
    UpdateEffect(p, d, s.call, s.u, prepared);
    hide UpdateTx, Prepare, Settle;
  }

  lemma RemovalSteps(d: Db, id: string, fresh': string)
    requires DbInv(d)
    ensures Steps(d, Without(d, id), fresh')
  {
    var e := Without(d, id);
    forall o, v: nat | o in e.creds && 1 <= v <= e.creds[o].version
      ensures (o, v) in e.versions
    {
      assert (o, v) in d.versions;
    }
  }

  lemma MarkSteps(d: Db, e: Db, fresh': string)
    requires DbInv(d) && Marked(d, e)
    ensures Steps(d, e, fresh') && forall id <- e.creds :: id in d.creds
  {
  }

  /** Only the deletion mark and the asset links of rows moved. */
  predicate Marked(d: Db, e: Db) {
    && e.versions == d.versions && e.creds.Keys == d.creds.Keys
    && forall id <- d.creds :: e.creds[id] == d.creds[id].(deleted := e.creds[id].deleted, assets := e.creds[id].assets)
  }

  lemma SettledMarks(d: Db, call: Call, action: Action, result: (Outcome, Db))
    requires result.0.Failed? || Marked(d, result.1)
    ensures Marked(d, Settle(d, call, action, result).1)
  {
    SettleEffect(d, call, action, result);
    hide Settle;
  }

  /** A committed deletion marks exactly one undeleted row of the expected version. */
  lemma DeleteEffect(p: Policy, d: Db, call: Call, id: string, expected: nat)
    ensures var (outcome, e) := DeleteTx(p, d, call, id, expected);
            if outcome.Committed? then
              && outcome == Committed(id, expected, 204) && 0 < expected
              && id in d.creds && d.creds[id].version == expected && d.creds[id].deleted == None
              && p.deny(call.actor, Deleting, d.creds[id].space, id, d.creds[id].tags) == None
              && e.creds == d.creds[id := d.creds[id].(deleted := Some(call.now))] && e.versions == d.versions
              && e.log == d.log + [Success(Deleting, id, expected)]
            else outcome.Failed? || (outcome.Replayed? && e == d)
  {
    hide CheckIdempotency, Close;
    var check := CheckIdempotency(d, call, DeleteEndpoint(id), 204);
    CheckKeepsRows(d, call, DeleteEndpoint(id), 204);
    if check.Fresh? && id in d.creds {
      var marked := d.creds[id].(deleted := Some(call.now));
      CloseKeepsRows(check.db.(creds := check.db.creds[id := marked]), call, DeleteEndpoint(id), Deleting, id, expected, 204);
    }
  }

  /** A committed restoration takes the mark off exactly one deleted row of the expected version. */
  lemma RestoreEffect(p: Policy, d: Db, call: Call, id: string, expected: nat)
    ensures var (outcome, e) := RestoreTx(p, d, call, id, expected);
            if outcome.Committed? then
              && outcome == Committed(id, expected, 200) && 0 < expected
              && id in d.creds && d.creds[id].version == expected && d.creds[id].deleted.Some?
              && p.deny(call.actor, Restoring, d.creds[id].space, id, d.creds[id].tags) == None
              && e == d.(creds := d.creds[id := d.creds[id].(deleted := None)], log := d.log + [Success(Restoring, id, expected)])
            else outcome.Failed?
  {
  }

  /** Deleting and restoring undo each other, but for the idempotency record and the two events. */
  lemma RestoreUndoesDelete(p: Policy, d: Db, call: Call, call': Call, id: string, expected: nat)
    requires DeleteTx(p, d, call, id, expected).0.Committed?
    ensures var e := DeleteTx(p, d, call, id, expected).1;
            RestoreTx(p, e, call', id, expected).0.Committed? ==> SameRows(d, RestoreTx(p, e, call', id, expected).1)
  {
    DeleteEffect(p, d, call, id, expected);
    RestoreEffect(p, DeleteTx(p, d, call, id, expected).1, call', id, expected);
    hide DeleteTx, RestoreTx;
    var row := d.creds[id];
    assert row.(deleted := Some(call.now)).(deleted := None) == row;
    assert d.creds[id := row.(deleted := Some(call.now))][id := row] == d.creds;
  }

  lemma DeleteMarks(p: Policy, d: Db, call: Call, id: string, expected: nat)
    ensures DeleteTx(p, d, call, id, expected).0.Failed? || Marked(d, DeleteTx(p, d, call, id, expected).1)
  {
    DeleteEffect(p, d, call, id, expected);
    hide DeleteTx;
  }

  lemma RestoreMarks(p: Policy, d: Db, call: Call, id: string, expected: nat)
    ensures RestoreTx(p, d, call, id, expected).0.Failed? || Marked(d, RestoreTx(p, d, call, id, expected).1)
  {
    RestoreEffect(p, d, call, id, expected);
    hide RestoreTx;
  }

  lemma GetMarks(d: Db, call: Call, id: string, found: Found)
    ensures GetTx(d, call, id, found).1.0.Failed? || Marked(d, GetTx(d, call, id, found).1.1)
  {
  }

  lemma ProbeMarks(p: Policy, d: Db, call: Call, u: UpdateInput)
    ensures ProbeTx(p, d, call, u).0.Failed? || Marked(d, ProbeTx(p, d, call, u).1)
  {
    hide CheckIdempotency, Answer;
    CheckKeepsRows(d, call, UpdateEndpoint(u.id), 200);
  }

  /** A committed purge removes exactly one deleted credential of the expected version, with all its versions. */
  lemma PurgeEffect(p: Policy, d: Db, call: Call, space: string, id: string, expected: nat)
    ensures var (outcome, e) := PurgeTx(p, d, call, space, id, expected);
            if outcome.Committed? then
              && outcome == Committed(id, expected, 204) && 0 < expected
              && id in d.creds && d.creds[id].space == space && d.creds[id].version == expected && d.creds[id].deleted.Some?
              && p.deny(call.actor, Purging, space, id, d.creds[id].tags) == None
              && SameRows(Without(d, id), e)
              && (forall k <- d.versions :: k in e.versions <==> k.0 != id) && id !in e.creds
              && e.log == d.log + [Success(Purging, id, expected)]
            else outcome.Failed?
  {
  }

  /** Every call of `UpdateAt` is one step of a run, or a probe that let it pass and one more step. */
  lemma UpdateCallIsSteps(p: Policy, h: seq<Db>, call: Call, u: UpdateInput, i: nat, j: nat, k: nat)
    requires i <= j <= k < |h|
    ensures var r := UpdateCall(p, h[i], h[j], h[k], h[|h| - 1], call, u);
            || r == Act(p, h[..j + 1], Update(call, u, i, j))
            || r == Act(p, h[..k + 1], Probe(call, u))
            || ((call.actor.Human? || Act(p, h[..k + 1], Probe(call, u)).0.Pending?) && r == Act(p, h, Update(call, u, i, j)))
  {
    hide Prepare, UpdateTx, ProbeTx, Settle;
    AdmittedIsPrepared(p, ReadRecord(h[i], h[j], u.id), call, u);
    SettledPending(h[k], call, ProbeTx(p, h[k], call, u));
    StoppedUpdate(p, h[j], call, u);
  }

  lemma AdmittedIsPrepared(p: Policy, record: Option<Record>, call: Call, u: UpdateInput)
    ensures Admit(p, record, call, u).Some? ==> Prepare(p, record, call, u) == Stop(Admit(p, record, call, u).value)
  {
  }

  lemma SettledPending(d: Db, call: Call, result: (Outcome, Db))
    ensures result.0.Pending? <==> Settle(d, call, Updating, result).0.Pending?
  {
  }

  lemma StoppedUpdate(p: Policy, d: Db, call: Call, u: UpdateInput)
    ensures forall error :: UpdateTx(p, d, call, u, Stop(error)) == (Failed(error), d)
  {
  }

  lemma OtherSteps(p: Policy, h: seq<Db>, s: Step)
    requires h != [] && ReadsPast(h, s) && DbInv(h[|h| - 1]) && !s.Create? && !s.Update?
    ensures Steps(h[|h| - 1], Act(p, h, s).1, "") && forall id <- Act(p, h, s).1.creds :: id in h[|h| - 1].creds
  {
    hide DeleteTx, RestoreTx, PurgeTx, GetTx, Look, ProbeTx, Settle, Without, DbInv, Moves, Steps, CleanUp, Reaped;
    var d, e := h[|h| - 1], Act(p, h, s).1;
    match s {
      case Purge(call, space, id, expected) =>
        PurgeSteps(p, d, call, space, id, expected);
        return;
      case Reap(id, cutoff) =>
        ReapSteps(p, d, id, cutoff);
        return;
      case Delete(call, id, expected) =>
        DeleteMarks(p, d, call, id, expected);
        SettledMarks(d, call, Deleting, DeleteTx(p, d, call, id, expected));
      case Restore(call, id, expected) =>
        RestoreMarks(p, d, call, id, expected);
        SettledMarks(d, call, Restoring, RestoreTx(p, d, call, id, expected));
      case Get(call, id, _, _) =>
        GetMarks(d, call, id, Discovery(p, h, s));
        SettledMarks(d, call, Reading, GetTx(d, call, id, Discovery(p, h, s)).1);
      case Probe(call, u) =>
        ProbeMarks(p, d, call, u);
        SettledMarks(d, call, Updating, ProbeTx(p, d, call, u));
      case Relink(_, _) =>
      case Cleanup(now) =>
        CleanUpKeepsRows(p, d, now);
    }
    assert Marked(d, e);
    MarkSteps(d, e, "");
  }

  lemma CleanUpKeepsRows(p: Policy, d: Db, now: int)
    ensures SameRows(d, CleanUp(p, d, now)) && CleanUp(p, d, now).log == d.log
  {
  }

  lemma ReapSteps(p: Policy, d: Db, id: string, cutoff: int)
    requires DbInv(d)
    ensures Steps(d, Reaped(p, d, id, cutoff).1, "") && forall o <- Reaped(p, d, id, cutoff).1.creds :: o in d.creds
  {
    hide DbInv, Moves;
    RemovalSteps(d, id, "");
    SameTables(d, d, "");
    if Reaped(p, d, id, cutoff).0.Committed? {
      SameAfter(d, Without(d, id), Reaped(p, d, id, cutoff).1, "");
    }
  }

  lemma PurgeSteps(p: Policy, d: Db, call: Call, space: string, id: string, expected: nat)
    requires DbInv(d)
    ensures var e := Settle(d, call, Purging, PurgeTx(p, d, call, space, id, expected)).1;
            Steps(d, e, "") && forall o <- e.creds :: o in d.creds
  {
    PurgeEffect(p, d, call, space, id, expected);
    var result := PurgeTx(p, d, call, space, id, expected);
    SettleEffect(d, call, Purging, result);
    hide PurgeTx, Settle, DbInv, Moves;
    if result.0.Failed? {
      SameTables(d, Settle(d, call, Purging, result).1, "");
    } else {
      RemovalSteps(d, id, "");
      SameAfter(d, Without(d, id), result.1, "");
    }
  }

  lemma SameAfter(d: Db, e: Db, e': Db, fresh': string)
    requires Steps(d, e, fresh') && SameRows(e, e')
    ensures Steps(d, e', fresh')
  {
  }

  /** Every step takes a sound history to a sound history. */
  lemma StepKeepsSound(p: Policy, h: seq<Db>, s: Step)
    requires h != [] && Sound(h) && Possible(h, s)
    ensures Sound(h + [Act(p, h, s).1])
  {
    var d, e := h[|h| - 1], Act(p, h, s).1;
    assert DbInv(d);
    hide Sound, DbInv, Moves, CreateTx, UpdateTx, Prepare, Settle;
    match s {
      case Create(call, c) =>
        CreateSteps(p, d, call, c);
        KeepsFromSteps(h, e, c.id);
      case Update(_, u, _, _) =>
        UpdateSteps(p, h, s);
        UpdateNeedsRow(p, h, s);
        KeepsFromSteps(h, e, u.id);
      case _ =>
        OtherSteps(p, h, s);
        KeepsFromSteps(h, e, "");
    }
  }

  lemma UpdateNeedsRow(p: Policy, h: seq<Db>, s: Step)
    requires h != [] && s.Update? && ReadsPast(h, s)
    ensures forall id <- Act(p, h, s).1.creds :: id in h[|h| - 1].creds
  {
    var d, prepared := h[|h| - 1], Preparation(p, h, s);
    SettleEffect(d, s.call, Updating, UpdateTx(p, d, s.call, s.u, prepared));
    UpdateEffect(p, d, s.call, s.u, prepared);
    hide UpdateTx, Prepare, Settle;
  }

  lemma KeepsFromSteps(h: seq<Db>, e: Db, fresh': string)
    requires h != [] && Sound(h) && DbInv(e) && Moves(h[|h| - 1], e)
    requires forall id <- e.creds :: id in h[|h| - 1].creds || forall i :: 0 <= i < |h| ==> id !in h[i].creds
    ensures Sound(h + [e])
  {
    hide DbInv, Moves;
    var g := h + [e];
    forall i, j, id | 0 <= i < j < |g| && id in g[i].creds && id in g[j].creds
      ensures forall k :: i <= k <= j ==> id in g[k].creds
    {
      if j == |h| {
        assert id in h[|h| - 1].creds;
      }
    }
  }

  // ------------------------------------------------------------------- runs

  /** Over every run: stored versions are exactly 1 to the current one, immutable, and never decrease. */
  lemma {:induction false} RunIsSound(p: Policy, h: seq<Db>, steps: seq<Step>)
    requires IsRun(p, h, steps) && DbInv(h[0])
    ensures Sound(h)
    decreases |steps|
  {
    if steps == [] {
      hide DbInv;
    } else {
      var n := |steps| - 1;
      RunPrefix(p, h, steps, n);
      RunIsSound(p, h[..n + 1], steps[..n]);
      assert h == h[..n + 1] + [h[n + 1]];
      hide DbInv, Sound, Act, Possible;
      StepKeepsSound(p, h[..n + 1], steps[n]);
    }
  }

  lemma RunPrefix(p: Policy, h: seq<Db>, steps: seq<Step>, n: nat)
    requires IsRun(p, h, steps) && n <= |steps|
    ensures IsRun(p, h[..n + 1], steps[..n])
  {
    hide Act;
    var g := h[..n + 1];
    forall i | 0 <= i < n
      ensures Possible(g[..i + 1], steps[..n][i]) && g[i + 1] == Act(p, g[..i + 1], steps[..n][i]).1
    {
      assert g[..i + 1] == h[..i + 1];
    }
  }

  lemma SoundPrefix(h: seq<Db>, n: nat)
    requires Sound(h) && n <= |h|
    ensures Sound(h[..n])
  {
    hide DbInv, Moves;
  }

  ghost predicate CommitsUpdate(p: Policy, h: seq<Db>, steps: seq<Step>, i: nat, id: string, expected: nat)
    requires IsRun(p, h, steps)
  {
    && i < |steps| && steps[i].Update? && steps[i].u.id == id && steps[i].u.expected == expected
    && Act(p, h[..i + 1], steps[i]).0.Committed?
  }

  /** Two updates that expect the same version of the same credential never both commit. */
  lemma OneCommitPerVersion(p: Policy, h: seq<Db>, steps: seq<Step>, i: nat, j: nat, id: string, expected: nat)
    requires IsRun(p, h, steps) && DbInv(h[0]) && i < j
    ensures !(CommitsUpdate(p, h, steps, i, id, expected) && CommitsUpdate(p, h, steps, j, id, expected))
  {
    if CommitsUpdate(p, h, steps, i, id, expected) && CommitsUpdate(p, h, steps, j, id, expected) {
      CommittedUpdateMoves(p, h, steps, i, id, expected);
      CommittedUpdateMoves(p, h, steps, j, id, expected);
      RunIsSound(p, h, steps);
      AgesOver(h, i + 1, j, id);
    }
  }

  /** A committed update takes the credential from the expected version to the next. */
  lemma CommittedUpdateMoves(p: Policy, h: seq<Db>, steps: seq<Step>, i: nat, id: string, expected: nat)
    requires IsRun(p, h, steps) && DbInv(h[0]) && CommitsUpdate(p, h, steps, i, id, expected)
    ensures id in h[i].creds && h[i].creds[id].version == expected
    ensures id in h[i + 1].creds && h[i + 1].creds[id].version == expected + 1
    ensures (id, expected) in h[i].versions && (id, expected + 1) in h[i + 1].versions
    ensures Plaintext(h[i + 1], id, expected + 1)
         == if steps[i].u.payload.Some? && p.canonical(h[i].creds[id].kind, steps[i].u.payload.value).Some?
            then p.canonical(h[i].creds[id].kind, steps[i].u.payload.value).value
            else Plaintext(h[i], id, expected)
  {
    RunIsSound(p, h, steps);
    SoundPrefix(h, i + 1);
    var g := h[..i + 1];
    hide Sound, DbInv, Act;
    UpdateIsAtomic(p, g, steps[i]);
    assert g[|g| - 1] == h[i];
  }

  /** A version, once written, reads the same for as long as its credential exists. */
  lemma VersionsAreForever(p: Policy, h: seq<Db>, steps: seq<Step>, i: nat, j: nat, id: string, v: nat)
    requires IsRun(p, h, steps) && DbInv(h[0]) && i <= j < |h|
    requires id in h[i].creds && id in h[j].creds && 1 <= v <= h[i].creds[id].version
    ensures (id, v) in h[i].versions && (id, v) in h[j].versions
    ensures Plaintext(h[j], id, v) == Plaintext(h[i], id, v)
    ensures forall w: nat :: (id, w) in h[j].versions <==> 1 <= w <= h[j].creds[id].version
  {
    RunIsSound(p, h, steps);
    AgesOver(h, i, j, id);
    assert DbInv(h[i]) && DbInv(h[j]);
  }

  // ------------------------------------------------------------------- audit

  predicate IsMutation(e: Event) {
    e.Success? && e.action != Reading
  }

  /** The mutations a log reports. */
  function Mutations(log: seq<Event>): nat {
    if log == [] then 0 else Mutations(log[..|log| - 1]) + if IsMutation(log[|log| - 1]) then 1 else 0
  }

  /** Rows written by a request; the asset service changing links is not one. */
  predicate RowsChange(d: Db, e: Db, id: string) {
    (id in d.creds) != (id in e.creds) || (id in d.creds && e.creds[id] != d.creds[id])
  }

  /** One success per change: what a transaction that did not fail does to rows and log. */
  ghost predicate Audited(d: Db, outcome: Outcome, e: Db) {
    if outcome.Committed? then
      && RowsChange(d, e, outcome.id) && (forall id :: id != outcome.id ==> !RowsChange(d, e, id))
      && (exists action :: action != Reading && e.log == d.log + [Success(action, outcome.id, outcome.version)])
    else SameRows(d, e) && Mutations(e.log) == Mutations(d.log)
  }

  lemma LogsOne(d: Db, e: Event)
    ensures Mutations(d.log + [e]) == Mutations(d.log) + if IsMutation(e) then 1 else 0
  {
    assert (d.log + [e])[..|d.log|] == d.log;
  }

  lemma SettledAudited(d: Db, call: Call, action: Action, result: (Outcome, Db))
    requires result.0.Failed? || Audited(d, result.0, result.1)
    ensures Audited(d, Settle(d, call, action, result).0, Settle(d, call, action, result).1)
  {
    SettleEffect(d, call, action, result);
    if result.0.Failed? {
      LogsOne(d, Failure(action, result.0.error));
    }
    hide Settle, Mutations;
  }

  lemma CreateAudited(p: Policy, d: Db, call: Call, c: CreateInput)
    ensures CreateTx(p, d, call, c).0.Failed? || Audited(d, CreateTx(p, d, call, c).0, CreateTx(p, d, call, c).1)
  {
    CreateEffect(p, d, call, c);
    hide CreateTx, Mutations;
  }

  lemma UpdateAudited(p: Policy, h: seq<Db>, s: Step)
    requires s.Update? && ReadsPast(h, s) && Sound(h)
    ensures Audited(h[|h| - 1], Act(p, h, s).0, Act(p, h, s).1)
  {
    hide UpdateTx, Prepare, Mutations, Sound, Settle, Audited;
    var d, prepared := h[|h| - 1], Preparation(p, h, s);
    var result := UpdateTx(p, d, s.call, s.u, prepared);
    UpdateEffect(p, d, s.call, s.u, prepared);
    SettleEffect(d, s.call, Updating, result);
    if result.0.Committed? {
      UpdateIsAtomic(p, h, s);
      CommittedIsAudited(p, d, s.u, result.1);
    } else if result.0.Replayed? {
      NothingIsAudited(d, result.0, result.1);
    }
    SettledAudited(d, s.call, Updating, result);
  }

  lemma CommittedIsAudited(p: Policy, d: Db, u: UpdateInput, e: Db)
    requires u.id in d.creds && d.creds[u.id].version == u.expected && (u.id, u.expected) in d.versions
    requires u.payload.Some? ==> p.canonical(d.creds[u.id].kind, u.payload.value).Some?
    requires (e.creds, e.versions) == AtomicUpdate(p, d, u)
    requires e.log == d.log + [Success(Updating, u.id, u.expected + 1)]
    ensures Audited(d, Committed(u.id, u.expected + 1, 200), e)
  {
    hide Mutations;
  }

  lemma NothingIsAudited(d: Db, outcome: Outcome, e: Db)
    requires !outcome.Committed? && e == d
    ensures Audited(d, outcome, e)
  {
  }

  lemma DeleteAudited(p: Policy, d: Db, call: Call, id: string, expected: nat)
    ensures DeleteTx(p, d, call, id, expected).0.Failed? ||
            Audited(d, DeleteTx(p, d, call, id, expected).0, DeleteTx(p, d, call, id, expected).1)
  {
    hide CheckIdempotency, Close, Mutations;
    var check := CheckIdempotency(d, call, DeleteEndpoint(id), 204);
    CheckKeepsRows(d, call, DeleteEndpoint(id), 204);
    if check.Fresh? && id in d.creds {
      var marked := d.creds[id].(deleted := Some(call.now));
      CloseKeepsRows(check.db.(creds := check.db.creds[id := marked]), call, DeleteEndpoint(id), Deleting, id, expected, 204);
    }
  }

  lemma RestoreAudited(p: Policy, d: Db, call: Call, id: string, expected: nat)
    ensures RestoreTx(p, d, call, id, expected).0.Failed? ||
            Audited(d, RestoreTx(p, d, call, id, expected).0, RestoreTx(p, d, call, id, expected).1)
  {
    hide Mutations;
  }

  lemma PurgeAudited(p: Policy, d: Db, call: Call, space: string, id: string, expected: nat)
    ensures PurgeTx(p, d, call, space, id, expected).0.Failed? ||
            Audited(d, PurgeTx(p, d, call, space, id, expected).0, PurgeTx(p, d, call, space, id, expected).1)
  {
    hide Mutations;
  }

  lemma GetAudited(d: Db, call: Call, id: string, found: Found)
    ensures GetTx(d, call, id, found).1.0.Failed? || Audited(d, GetTx(d, call, id, found).1.0, GetTx(d, call, id, found).1.1)
  {
    hide Mutations;
    if found.Found? {
      LogsOne(d, Success(Reading, id, found.version));
    }
  }

  lemma ReapAudited(p: Policy, d: Db, id: string, cutoff: int)
    ensures Audited(d, Reaped(p, d, id, cutoff).0, Reaped(p, d, id, cutoff).1)
  {
    hide Mutations;
  }

  lemma ProbeAudited(p: Policy, d: Db, call: Call, u: UpdateInput)
    ensures ProbeTx(p, d, call, u).0.Failed? || Audited(d, ProbeTx(p, d, call, u).0, ProbeTx(p, d, call, u).1)
  {
    var check := CheckIdempotency(d, call, UpdateEndpoint(u.id), 200);
    CheckKeepsRows(d, call, UpdateEndpoint(u.id), 200);
    if check.Replay? {
      AnswerCommitsNothing(p, d, call, check.stored, Updating);
    }
    hide CheckIdempotency, Answer, Mutations;
  }

  /**
   A request, or a row reaped, either commits, changes exactly the rows of the credential it names and logs exactly
   one success for it in the same transaction, or it changes no row and logs no mutation.
   */
  lemma StepIsAudited(p: Policy, h: seq<Db>, s: Step)
    requires h != [] && Possible(h, s) && Sound(h) && !s.Relink?
    ensures Audited(h[|h| - 1], Act(p, h, s).0, Act(p, h, s).1)
  {
    hide Audited, Sound, CreateTx, UpdateTx, DeleteTx, RestoreTx, PurgeTx, GetTx, Look, ProbeTx, Prepare, Settle, CleanUp, Reaped;
    var d := h[|h| - 1];
    match s {
      case Create(call, c) =>
        CreateAudited(p, d, call, c);
        SettledAudited(d, call, Creating, CreateTx(p, d, call, c));
      case Update(_, _, _, _) =>
        UpdateAudited(p, h, s);
      case Delete(call, id, expected) =>
        DeleteAudited(p, d, call, id, expected);
        SettledAudited(d, call, Deleting, DeleteTx(p, d, call, id, expected));
      case Restore(call, id, expected) =>
        RestoreAudited(p, d, call, id, expected);
        SettledAudited(d, call, Restoring, RestoreTx(p, d, call, id, expected));
      case Purge(call, space, id, expected) =>
        PurgeAudited(p, d, call, space, id, expected);
        SettledAudited(d, call, Purging, PurgeTx(p, d, call, space, id, expected));
      case Get(call, id, _, _) =>
        GetAudited(d, call, id, Discovery(p, h, s));
        SettledAudited(d, call, Reading, GetTx(d, call, id, Discovery(p, h, s)).1);
      case Cleanup(now) =>
        CleanUpIsAudited(p, d, now);
      case Reap(id, cutoff) =>
        ReapAudited(p, d, id, cutoff);
      case Probe(call, u) =>
        ProbeAudited(p, d, call, u);
        SettledAudited(d, call, Updating, ProbeTx(p, d, call, u));
    }
  }

  lemma CleanUpIsAudited(p: Policy, d: Db, now: int)
    ensures Audited(d, Pending, CleanUp(p, d, now))
  {
    CleanUpKeepsRows(p, d, now);
    hide Mutations;
  }

  /** How many of the first `n` steps committed. */
  ghost function Commits(p: Policy, h: seq<Db>, steps: seq<Step>, n: nat): nat
    requires IsRun(p, h, steps) && n <= |steps|
  {
    if n == 0 then 0
    else Commits(p, h, steps, n - 1) + if Act(p, h[..n], steps[n - 1]).0.Committed? then 1 else 0
  }

  /** Conservation: over every run, the success events for mutations are exactly the committed mutations. */
  lemma {:induction false} AuditConservesMutations(p: Policy, h: seq<Db>, steps: seq<Step>, n: nat)
    requires IsRun(p, h, steps) && DbInv(h[0]) && n <= |steps|
    ensures Mutations(h[n].log) == Mutations(h[0].log) + Commits(p, h, steps, n)
    decreases n
  {
    if n > 0 {
      AuditConservesMutations(p, h, steps, n - 1);
      RunIsSound(p, h, steps);
      SoundPrefix(h, n);
      var g, s := h[..n], steps[n - 1];
      assert h[..(n - 1) + 1] == g && g[|g| - 1] == h[n - 1];
      assert Possible(g, s) && h[n] == Act(p, g, s).1;
      hide Act, Sound, DbInv, IsRun, Possible;
      OneStepCounts(p, g, s);
    }
  }

  lemma OneStepCounts(p: Policy, h: seq<Db>, s: Step)
    requires h != [] && Possible(h, s) && Sound(h)
    ensures Mutations(Act(p, h, s).1.log) == Mutations(h[|h| - 1].log) + if Act(p, h, s).0.Committed? then 1 else 0
  {
    if !s.Relink? {
      StepIsAudited(p, h, s);
      hide Act, Sound, Possible;
      var d, outcome, e := h[|h| - 1], Act(p, h, s).0, Act(p, h, s).1;
      if outcome.Committed? {
        var action :| action != Reading && e.log == d.log + [Success(action, outcome.id, outcome.version)];
        LogsOne(d, Success(action, outcome.id, outcome.version));
      }
    }
  }
}
