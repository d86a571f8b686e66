/**
 When each request of the credential store succeeds, told by the tables, the policy and the circumstances of the call
 alone; what a refused caller is told; and that nothing commits which the policy did not permit.
 */
module CredentialOutcomes {
  import opened Wrappers
  import opened CredentialSpec
  import opened CredentialRuns
  import opened CredentialReplay
  import opened Timestamps

  /** The stored result that an agent's repeated request is answered from: one that has not expired by its own clock. */
  function LiveRecord(d: Db, call: Call, endpoint: string): Option<Stored> {
    match AgentSlot(call, endpoint)
    case None => None
    case Some(slot) => if slot in d.idem && call.now < d.idem[slot].expires then Some(d.idem[slot]) else None
  }

  /** The arguments are valid and the actor may create this credential in this Space. */
  ghost predicate MayCreate(p: Policy, call: Call, c: CreateInput) {
    && call.rejected == None && p.canonical(c.kind, c.payload).Some?
    && p.deny(call.actor, Creating, c.space, "", c.tags) == None
  }

  /** There is a credential with this version, deleted or not as said, on which the actor may do this. */
  ghost predicate MayTouch(p: Policy, d: Db, call: Call, action: Action, id: string, expected: nat, deleted: bool) {
    && id != "" && expected > 0 && call.rejected == None
    && id in d.creds && d.creds[id].version == expected && d.creds[id].deleted.Some? == deleted
    && p.deny(call.actor, action, d.creds[id].space, id, d.creds[id].tags) == None
  }

  /** The request is a repetition with the same body. */
  predicate Repeats(call: Call, stored: Stored, status: nat) {
    stored.request == call.request && stored.status == status
  }

  /**
   A creation with nothing stored under its key commits exactly when the actor may create it, the Space is active, its
   links are allowed, its identifier is new and its event can be logged.  With a stored result it is answered exactly
   when the body is the same, the actor may create it and may still create what was created.
   */
  lemma CreationExactly(p: Policy, d: Db, call: Call, c: CreateInput)
    ensures var outcome := CreateTx(p, d, call, c).0;
            match LiveRecord(d, call, CREATE)
            case None =>
              && (outcome.Committed? <==>
                    && MayCreate(p, call, c) && call.spaceActive && (c.assets != {} ==> call.links == None)
                    && c.id !in d.creds && (c.id, 1) !in d.versions && call.auditOk)
              && !outcome.Replayed?
            case Some(stored) =>
              && (outcome == Replayed(stored.id, stored.version, stored.status) <==>
                    MayCreate(p, call, c) && Repeats(call, stored, 201) && Answerable(p, d, call, stored.id, Creating))
              && !outcome.Committed?
  {
  }

  lemma DeletionExactly(p: Policy, d: Db, call: Call, id: string, expected: nat)
    ensures var outcome := DeleteTx(p, d, call, id, expected).0;
            match LiveRecord(d, call, DeleteEndpoint(id))
            case None =>
              (outcome.Committed? <==> MayTouch(p, d, call, Deleting, id, expected, false) && call.auditOk) && !outcome.Replayed?
            case Some(stored) =>
              && (outcome == Replayed(stored.id, stored.version, stored.status) <==>
                    && id != "" && expected > 0 && call.rejected == None && id in d.creds
                    && p.deny(call.actor, Deleting, d.creds[id].space, id, d.creds[id].tags) == None
                    && Repeats(call, stored, 204))
              && !outcome.Committed?
  {
  }

  lemma RestorationExactly(p: Policy, d: Db, call: Call, id: string, expected: nat)
    ensures RestoreTx(p, d, call, id, expected).0.Committed?
            <==> MayTouch(p, d, call, Restoring, id, expected, true) && call.auditOk
  {
  }

  lemma PurgeExactly(p: Policy, d: Db, call: Call, space: string, id: string, expected: nat)
    ensures PurgeTx(p, d, call, space, id, expected).0.Committed?
            <==> space != "" && MayTouch(p, d, call, Purging, id, expected, true) && d.creds[id].space == space && call.auditOk
  {
  }

  /** An update that asks for something. */
  predicate Asks(u: UpdateInput) {
    u.expected > 0 && u.id != "" && (u.name.Some? || u.tags.Some? || u.assets.Some? || u.payload.Some?)
  }

  /** What an update found before its transaction can be written if it was well formed and found the expected version. */
  ghost predicate FoundExpected(p: Policy, h: seq<Db>, s: Step)
    requires s.Update? && ReadsPast(h, s)
  {
    var u, read := s.u, h[s.at];
    && Asks(u) && s.call.rejected == None && u.invalid == None
    && u.id in read.creds && read.creds[u.id].version == u.expected && read.creds[u.id].deleted == None
  }

  /** What was read is still current, so the preparation succeeds if the present state allows the update. */
  lemma {:induction false} PreparedIfAllowed(p: Policy, h: seq<Db>, s: Step)
    requires Sound(h) && h != [] && s.Update? && ReadsPast(h, s)
    requires FoundExpected(p, h, s) && MayUpdate(p, h[|h| - 1], s.call, s.u)
    ensures Preparation(p, h, s).Ready? && Preparation(p, h, s).next.version == s.u.expected + 1
  {
    var d, u, read := h[|h| - 1], s.u, h[s.at];
    assert DbInv(read) && DbInv(d);
    assert (u.id, u.expected) in read.versions;
    hide Sound;
    ReadStaysCurrent(h, s.at, s.labels, u.id);
    CurrentIsReady(p, d, ReadRecord(read, h[s.labels], u.id).value, s.call, u);
  }

  lemma CurrentIsReady(p: Policy, d: Db, r: Record, call: Call, u: UpdateInput)
    requires DbInv(d) && IsCurrent(d, u.id, r) && r.cred.deleted == None && MayUpdate(p, d, call, u)
    requires Asks(u) && call.rejected == None && u.invalid == None
    ensures Prepare(p, Some(r), call, u).Ready? && Prepare(p, Some(r), call, u).next.version == u.expected + 1
  {
  }

  lemma ReadyFound(p: Policy, h: seq<Db>, s: Step)
    requires s.Update? && ReadsPast(h, s) && Preparation(p, h, s).Ready?
    ensures FoundExpected(p, h, s)
  {
  }

  /** The transaction of a prepared update with nothing stored under its key. */
  lemma UpdateCommits(p: Policy, d: Db, call: Call, u: UpdateInput, prepared: Prepared)
    requires LiveRecord(d, call, UpdateEndpoint(u.id)) == None
    ensures UpdateTx(p, d, call, u, prepared).0.Committed? <==>
              && prepared.Ready? && (u.assets.Some? ==> call.links == None) && call.auditOk
              && u.id in d.creds && d.creds[u.id].version == u.expected && d.creds[u.id].deleted == None
              && (u.id, prepared.next.version) !in d.versions
  {
    hide UpdateEndpoint;
  }

  /**
   An update with nothing stored under its key, prepared on what it read at `s.at` and `s.labels`, commits exactly when
   it is well formed, it read the expected version undeleted, and the present state allows it as one atomic update.
   */
  lemma {:induction false} UpdateExactly(p: Policy, h: seq<Db>, s: Step)
    requires Sound(h) && h != [] && s.Update? && ReadsPast(h, s)
    requires LiveRecord(h[|h| - 1], s.call, UpdateEndpoint(s.u.id)) == None
    ensures Act(p, h, s).0.Committed? <==>
              && FoundExpected(p, h, s) && MayUpdate(p, h[|h| - 1], s.call, s.u)
              && (s.u.assets.Some? ==> s.call.links == None) && s.call.auditOk
  {
    var d, u := h[|h| - 1], s.u;
    var prepared := Preparation(p, h, s);
    assert DbInv(d);
    hide Sound, UpdateTx, Prepare, LiveRecord, Settle;
    SettleEffect(d, s.call, Updating, UpdateTx(p, d, s.call, u, prepared));
    UpdateCommits(p, d, s.call, u, prepared);
    if Act(p, h, s).0.Committed? {
      UpdateIsAtomic(p, h, s);
      ReadyFound(p, h, s);
    } else if FoundExpected(p, h, s) && MayUpdate(p, d, s.call, u) {
      PreparedIfAllowed(p, h, s);
    }
  }

  // ---------------------------------------------------------- every request

  /** The endpoint whose stored result would answer this request. */
  function EndpointOf(s: Step): Option<string> {
    match s
    case Create(_, _) => Some(CREATE)
    case Update(_, u, _, _) => Some(UpdateEndpoint(u.id))
    case Delete(_, id, _) => Some(DeleteEndpoint(id))
    case _ => None
  }

  predicate IsFresh(d: Db, s: Step)
    requires IsRequest(s)
  {
    EndpointOf(s).Some? ==> LiveRecord(d, s.call, EndpointOf(s).value) == None
  }

  /** The policy permits what the request does, on the credential as it is when the request commits. */
  ghost predicate Permitted(p: Policy, d: Db, s: Step) {
    match s
    case Create(call, c) => p.deny(call.actor, Creating, c.space, "", c.tags) == None
    case Update(call, u, _, _) =>
      && u.id in d.creds
      && p.deny(call.actor, Updating, d.creds[u.id].space, u.id, d.creds[u.id].tags) == None
      && (u.tags.Some? ==> p.deny(call.actor, Updating, d.creds[u.id].space, u.id, u.tags.value) == None)
    case Delete(call, id, _) => id in d.creds && p.deny(call.actor, Deleting, d.creds[id].space, id, d.creds[id].tags) == None
    case Restore(call, id, _) => id in d.creds && p.deny(call.actor, Restoring, d.creds[id].space, id, d.creds[id].tags) == None
    case Purge(call, _, id, _) => id in d.creds && p.deny(call.actor, Purging, d.creds[id].space, id, d.creds[id].tags) == None
    case _ => false
  }

  /** Everything else a request needs to commit. */
  ghost predicate Applicable(p: Policy, h: seq<Db>, s: Step)
    requires h != [] && IsRequest(s) && ReadsPast(h, s)
  {
    var d := h[|h| - 1];
    && s.call.rejected == None && s.call.auditOk
    && match s
       case Create(call, c) => p.canonical(c.kind, c.payload).Some? && call.spaceActive && (c.assets != {} ==> call.links == None)
       case Update(call, u, _, _) =>
         && FoundExpected(p, h, s) && (u.assets.Some? ==> call.links == None)
         && u.id in d.creds && d.creds[u.id].version == u.expected && d.creds[u.id].deleted == None
         && (u.payload.Some? ==> p.canonical(d.creds[u.id].kind, u.payload.value).Some?)
       case Delete(_, id, expected) =>
         id != "" && expected > 0 && id in d.creds && d.creds[id].version == expected && d.creds[id].deleted == None
       case Restore(_, id, expected) =>
         id != "" && expected > 0 && id in d.creds && d.creds[id].version == expected && d.creds[id].deleted.Some?
       case Purge(_, space, id, expected) =>
         id != "" && space != "" && expected > 0 && id in d.creds && d.creds[id].space == space
         && d.creds[id].version == expected && d.creds[id].deleted.Some?
       case _ => false
  }

  /**
   In every state a run can reach, a request that is not a repetition commits exactly when the policy permits it on the
   credential as it is then, its arguments are good, it expects the present version, and its event can be logged.
   */
  lemma {:induction false} CommitsExactly(p: Policy, h: seq<Db>, s: Step)
    requires h != [] && Sound(h) && Possible(h, s) && IsRequest(s) && IsFresh(h[|h| - 1], s)
    ensures Act(p, h, s).0.Committed? <==> Permitted(p, h[|h| - 1], s) && Applicable(p, h, s)
  {
    var d := h[|h| - 1];
    assert DbInv(d);
    hide Sound, CreateTx, UpdateTx, DeleteTx, RestoreTx, PurgeTx, ProbeTx, GetTx, Settle, Prepare, LiveRecord, Look;
    match s {
      case Create(call, c) =>
        CreationExactly(p, d, call, c);
        SettleEffect(d, call, Creating, CreateTx(p, d, call, c));
      case Update(_, u, _, _) =>
        UpdateExactly(p, h, s);
      case Delete(call, id, expected) =>
        DeletionExactly(p, d, call, id, expected);
        SettleEffect(d, call, Deleting, DeleteTx(p, d, call, id, expected));
      case Restore(call, id, expected) =>
        RestorationExactly(p, d, call, id, expected);
        SettleEffect(d, call, Restoring, RestoreTx(p, d, call, id, expected));
      case Purge(call, space, id, expected) =>
        PurgeExactly(p, d, call, space, id, expected);
        SettleEffect(d, call, Purging, PurgeTx(p, d, call, space, id, expected));
      case Probe(call, u) =>
        ProbeNeverCommits(p, d, call, u);
        SettleEffect(d, call, Updating, ProbeTx(p, d, call, u));
      case Get(call, id, _, _) =>
        ReadNeverCommits(d, call, id, Discovery(p, h, s));
        SettleEffect(d, call, Reading, GetTx(d, call, id, Discovery(p, h, s)).1);
    }
  }

  /** The probe of an update lets it pass if nothing is stored, answers a repetition, and tells of another body. */
  lemma ProbeExactly(p: Policy, d: Db, call: Call, u: UpdateInput)
    ensures var outcome := ProbeTx(p, d, call, u).0;
            match LiveRecord(d, call, UpdateEndpoint(u.id))
            case None => outcome == Pending
            case Some(stored) =>
              && (outcome == Replayed(stored.id, stored.version, stored.status)
                  <==> Repeats(call, stored, 200) && Answerable(p, d, call, stored.id, Updating))
              && (stored.request != call.request ==> outcome == Failed(IdempotencyConflict))
              && !outcome.Pending?
  {
  }

  /** A read is answered with the version it found, exactly if its event can be logged; else it fails for that or for its own reason. */
  lemma ReadIsAnswered(p: Policy, h: seq<Db>, s: Step)
    requires h != [] && s.Get? && ReadsPast(h, s)
    ensures var (outcome, found) := (Act(p, h, s).0, Discovery(p, h, s));
            && (outcome.Replayed? <==> found.Found? && s.call.auditOk)
            && (outcome.Replayed? ==> outcome == Replayed(s.id, found.version, 200) && Payload(p, h, s) == Some(found.plaintext))
            && (!outcome.Replayed? ==>
                  Payload(p, h, s) == None
                  && outcome == Failed(if found.Refused? && s.call.failureAuditOk then found.error else AuditUnavailable))
  {
    hide Look, ReadRecord;
  }

  lemma ProbeNeverCommits(p: Policy, d: Db, call: Call, u: UpdateInput)
    ensures !ProbeTx(p, d, call, u).0.Committed?
  {
  }

  lemma ReadNeverCommits(d: Db, call: Call, id: string, found: Found)
    ensures !GetTx(d, call, id, found).1.0.Committed?
  {
  }

  /** A request that finds a live record under its key does not commit. */
  lemma {:induction false} RepetitionNeverCommits(p: Policy, h: seq<Db>, s: Step)
    requires h != [] && Possible(h, s) && IsRequest(s) && !IsFresh(h[|h| - 1], s)
    ensures !Act(p, h, s).0.Committed?
  {
    var slot := AgentSlot(s.call, EndpointOf(s).value).value;
    hide Act, StepKept;
    StepKeepsSlot(p, h, s, slot);
    assert Uses(s, slot);
    LiveIsKept(p, h[|h| - 1], s, slot, Act(p, h, s).0, Act(p, h, s).1);
  }

  lemma LiveIsKept(p: Policy, d: Db, s: Step, slot: Slot, outcome: Outcome, e: Db)
    requires StepKept(p, d, s, slot, outcome, e) && Uses(s, slot)
    requires RecordOf(d, slot).Some? && RecordOf(d, slot).value.expires > s.call.now
    ensures !outcome.Committed?
  {
  }

  /** Over every run: no request ever commits what the policy does not permit on the state it commits to. */
  lemma {:induction false} NothingUnpermitted(p: Policy, h: seq<Db>, steps: seq<Step>, i: nat)
    requires IsRun(p, h, steps) && DbInv(h[0]) && i < |steps| && IsRequest(steps[i])
    requires Act(p, h[..i + 1], steps[i]).0.Committed?
    ensures Permitted(p, h[i], steps[i])
  {
    RunIsSound(p, h, steps);
    SoundPrefix(h, i + 1);
    var g := h[..i + 1];
    assert g[|g| - 1] == h[i] && Possible(g, steps[i]);
    hide Act, Sound, DbInv, Permitted, IsRun, Possible;
    if IsFresh(h[i], steps[i]) {
      CommitsExactly(p, g, steps[i]);
    } else {
      RepetitionNeverCommits(p, g, steps[i]);
    }
  }

  // -------------------------------------------------------- what is answered

  function ActionOf(s: Step): Action
    requires IsRequest(s)
  {
    match s
    case Create(_, _) => Creating
    case Delete(_, _, _) => Deleting
    case Restore(_, _, _) => Restoring
    case Purge(_, _, _, _) => Purging
    case Get(_, _, _, _) => Reading
    case _ => Updating
  }

  /** Every request that fails is logged as a failure with the error it answers, unless that event cannot be logged; and it leaves nothing else. */
  lemma {:induction false} FailuresAreLogged(p: Policy, h: seq<Db>, s: Step)
    requires h != [] && ReadsPast(h, s) && IsRequest(s) && Act(p, h, s).0.Failed?
    ensures var d, (outcome, e) := h[|h| - 1], Act(p, h, s);
            if s.call.failureAuditOk then e == d.(log := d.log + [Failure(ActionOf(s), outcome.error)])
            else e == d && outcome.error == AuditUnavailable
  {
    hide CreateTx, UpdateTx, DeleteTx, RestoreTx, PurgeTx, ProbeTx, GetTx, Prepare, Look;
  }

  /** Two requests share an idempotency record only if they are of one agent, under one key, and do the same to the same credential. */
  lemma {:induction false} SlotsAreApart(s: Step, t: Step)
    requires SlotOf(s).Some? && SlotOf(s) == SlotOf(t)
    ensures s.call.actor == t.call.actor && s.call.key == t.call.key && s.Create? == t.Create? && s.Delete? == t.Delete?
    ensures s.Delete? ==> s.id == t.id
    ensures s.Update? || s.Probe? ==> (t.Update? || t.Probe?) && s.u.id == t.u.id
  {
    var a, b := SlotOf(s).value.endpoint, SlotOf(t).value.endpoint;
    assert CREATE[11] == 'c' && |CREATE| == 17;
    assert forall id: string :: UpdateEndpoint(id)[11] == 'u' && UpdateEndpoint(id)[18..] == id;
    assert forall id: string :: DeleteEndpoint(id)[11] == 'd' && DeleteEndpoint(id)[18..] == id;
    assert a[11] == b[11];
  }

  /** Whoever is denied is told so, whatever the credential's version is and whether or not it is deleted. */
  lemma DeniedIsTold(p: Policy, d: Db, call: Call, action: Action, id: string, expected: nat, error: Error)
    requires id != "" && expected > 0 && call.rejected == None && id in d.creds
    requires p.deny(call.actor, action, d.creds[id].space, id, d.creds[id].tags) == Some(error)
    ensures action == Deleting ==> DeleteTx(p, d, call, id, expected).0 == Failed(error)
    ensures action == Restoring && d.creds[id].deleted.Some? ==> RestoreTx(p, d, call, id, expected).0 == Failed(error)
    ensures action == Purging && d.creds[id].space != "" ==> PurgeTx(p, d, call, d.creds[id].space, id, expected).0 == Failed(error)
  {
  }

  /** A write that expects another version than the present one is told of the conflict, and nothing else is wrong with it. */
  lemma StaleIsAConflict(p: Policy, d: Db, call: Call, action: Action, id: string, expected: nat)
    requires expected > 0 && id in d.creds && d.creds[id].version != expected
    requires MayTouch(p, d, call, action, id, d.creds[id].version, action != Deleting)
    requires LiveRecord(d, call, DeleteEndpoint(id)) == None
    ensures action == Deleting ==> DeleteTx(p, d, call, id, expected).0 == Failed(VersionConflict)
    ensures action == Restoring ==> RestoreTx(p, d, call, id, expected).0 == Failed(VersionConflict)
    ensures action == Purging && d.creds[id].space != "" ==> PurgeTx(p, d, call, d.creds[id].space, id, expected).0 == Failed(VersionConflict)
  {
  }

  /**
   The maintenance service purges exactly deleted credentials, and only if the mark is not after the cutoff, or less
   than a second after it, at an instant of which the cutoff is the beginning.
   */
  lemma ReapedExactly(p: Policy, lo: int, hi: int, d: Db, id: string, cutoff: int)
    requires IsCalendar(p.seconds, lo, hi) && Within(lo, hi, cutoff)
    requires id in d.creds && d.creds[id].deleted.Some? ==> Within(lo, hi, d.creds[id].deleted.value)
    ensures id in Reaped(p, d, id, cutoff).1.creds || id !in d.creds
            <==> !(id in d.creds && d.creds[id].deleted.Some?
                   && var deleted := d.creds[id].deleted.value;
                      (deleted <= cutoff && !CutOff(deleted, cutoff)) || CutOff(cutoff, deleted))
  {
    if id in d.creds && d.creds[id].deleted.Some? {
      TextAtMostExactly(p.seconds, lo, hi, d.creds[id].deleted.value, cutoff);
    }
  }
}
