/**
 Idempotency keys of agents: exactly-once writes until the stored result is gone.  A request under the key removes
 it when its own clock is past the expiry; the maintenance service removes it when the expiry is at most its clock as
 text, which can be early.
 */
module CredentialReplay {
  import opened Wrappers
  import opened Timestamps
  import opened CredentialSpec
  import opened CredentialRuns
  import opened CredentialReads

  /** The idempotency slot a step consults: only agents' creations, updates and deletions have one. */
  function SlotOf(s: Step): Option<Slot> {
    match s
    case Create(call, _) => AgentSlot(call, CREATE)
    case Probe(call, u) => AgentSlot(call, UpdateEndpoint(u.id))
    case Update(call, u, _, _) => AgentSlot(call, UpdateEndpoint(u.id))
    case Delete(call, id, _) => AgentSlot(call, DeleteEndpoint(id))
    case _ => None
  }

  function AgentSlot(call: Call, endpoint: string): Option<Slot> {
    if call.actor.Agent? then Some(Slot(call.actor.agent, endpoint, call.key)) else None
  }

  predicate Uses(s: Step, slot: Slot) {
    IsRequest(s) && SlotOf(s) == Some(slot)
  }

  /** The record of a slot, if there is one. */
  function RecordOf(d: Db, slot: Slot): Option<Stored> {
    if slot in d.idem then Some(d.idem[slot]) else None
  }

  // --------------------------------------------------------- what steps store

  lemma CheckTouchesOneSlot(db: Db, call: Call, endpoint: string, status: nat, slot: Slot)
    ensures var check := CheckIdempotency(db, call, endpoint, status);
            && (check.Fresh? && AgentSlot(call, endpoint) != Some(slot) ==> RecordOf(check.db, slot) == RecordOf(db, slot))
            && (AgentSlot(call, endpoint) == Some(slot) && slot in db.idem && db.idem[slot].expires > call.now ==>
                  if db.idem[slot].request == call.request && db.idem[slot].status == status
                  then check == Replay(db.idem[slot]) else check.Refuse?)
  {
  }

  lemma CloseTouchesOneSlot(db: Db, call: Call, endpoint: string, action: Action, id: string, version: nat, status: nat, slot: Slot)
    ensures var (outcome, e) := Close(db, call, endpoint, action, id, version, status);
            outcome.Committed? ==>
              RecordOf(e, slot) == if AgentSlot(call, endpoint) == Some(slot)
                                   then Some(Stored(call.request, id, version, status, call.now + DAY)) else RecordOf(db, slot)
  {
  }

  lemma AnswerIsStored(p: Policy, db: Db, call: Call, stored: Stored, action: Action)
    ensures var outcome := Answer(p, db, call, stored, action);
            outcome.Failed? || outcome == Replayed(stored.id, stored.version, stored.status)
  {
  }

  /** What a transaction that did not fail does to one slot, by whether it consults it. */
  ghost predicate SlotKept(d: Db, call: Call, slot: Slot, used: bool, outcome: Outcome, e: Db) {
    && (!used ==> RecordOf(e, slot) == RecordOf(d, slot))
    && (used && outcome.Committed? ==>
          RecordOf(e, slot) == Some(Stored(call.request, outcome.id, outcome.version, outcome.status, call.now + DAY)))
    && (used && RecordOf(d, slot).Some? && RecordOf(d, slot).value.expires > call.now ==>
          var stored := RecordOf(d, slot).value;
          outcome == Replayed(stored.id, stored.version, stored.status) && stored.request == call.request && e == d)
  }

  lemma CreateSlot(p: Policy, d: Db, call: Call, c: CreateInput, slot: Slot)
    ensures var (outcome, e) := CreateTx(p, d, call, c);
            outcome.Failed? || SlotKept(d, call, slot, AgentSlot(call, CREATE) == Some(slot), outcome, e)
  {
    hide CheckIdempotency, Close, Answer, AgentSlot;
    var check := CheckIdempotency(d, call, CREATE, 201);
    CheckTouchesOneSlot(d, call, CREATE, 201, slot);
    if check.Replay? {
      AnswerIsStored(p, d, call, check.stored, Creating);
      ReplayIsLive(d, call, CREATE, 201, slot);
    }
    if check.Fresh? && p.canonical(c.kind, c.payload).Some? {
      var cred := Cred(c.space, c.name, c.kind, 1, c.tags, c.assets, None);
      var sealed := Sealed(Context(c.id, c.space, 1, c.kind), p.canonical(c.kind, c.payload).value);
      var db := check.db.(creds := check.db.creds[c.id := cred], versions := check.db.versions[(c.id, 1) := sealed]);
      CloseTouchesOneSlot(db, call, CREATE, Creating, c.id, 1, 201, slot);
      CloseKeepsRows(db, call, CREATE, Creating, c.id, 1, 201);
    }
  }

  lemma ReplayIsLive(db: Db, call: Call, endpoint: string, status: nat, slot: Slot)
    requires CheckIdempotency(db, call, endpoint, status).Replay?
    ensures AgentSlot(call, endpoint) == Some(slot) ==>
              RecordOf(db, slot) == Some(CheckIdempotency(db, call, endpoint, status).stored)
              && RecordOf(db, slot).value.request == call.request
  {
  }

  lemma UpdateSlot(p: Policy, d: Db, call: Call, u: UpdateInput, prepared: Prepared, slot: Slot)
    ensures var (outcome, e) := UpdateTx(p, d, call, u, prepared);
            outcome.Failed? || SlotKept(d, call, slot, AgentSlot(call, UpdateEndpoint(u.id)) == Some(slot), outcome, e)
  {
    hide CheckIdempotency, Close, Answer, AgentSlot;
    var endpoint := UpdateEndpoint(u.id);
    var check := CheckIdempotency(d, call, endpoint, 200);
    CheckTouchesOneSlot(d, call, endpoint, 200, slot);
    if check.Replay? {
      AnswerIsStored(p, d, call, check.stored, Updating);
      ReplayIsLive(d, call, endpoint, 200, slot);
    }
    if check.Fresh? && prepared.Ready? && u.id in d.creds {
      var v := prepared.next.version;
      var db := check.db.(creds := check.db.creds[u.id := Written(d.creds[u.id], u, prepared.next)],
                          versions := check.db.versions[(u.id, v) := prepared.sealed]);
      CheckKeepsRows(d, call, endpoint, 200);
      CloseTouchesOneSlot(db, call, endpoint, Updating, u.id, v, 200, slot);
      CloseKeepsRows(db, call, endpoint, Updating, u.id, v, 200);
    }
  }

  lemma ProbeSlot(p: Policy, d: Db, call: Call, u: UpdateInput, slot: Slot)
    ensures var (outcome, e) := ProbeTx(p, d, call, u);
            outcome.Failed? || SlotKept(d, call, slot, AgentSlot(call, UpdateEndpoint(u.id)) == Some(slot), outcome, e)
  {
    hide CheckIdempotency, Answer, AgentSlot;
    var endpoint := UpdateEndpoint(u.id);
    var check := CheckIdempotency(d, call, endpoint, 200);
    CheckTouchesOneSlot(d, call, endpoint, 200, slot);
    if check.Replay? {
      AnswerIsStored(p, d, call, check.stored, Updating);
      ReplayIsLive(d, call, endpoint, 200, slot);
    }
  }

  lemma DeleteSlot(p: Policy, d: Db, call: Call, id: string, expected: nat, slot: Slot)
    ensures var (outcome, e) := DeleteTx(p, d, call, id, expected);
            outcome.Failed? || SlotKept(d, call, slot, AgentSlot(call, DeleteEndpoint(id)) == Some(slot), outcome, e)
  {
    hide CheckIdempotency, Close, AgentSlot;
    var endpoint := DeleteEndpoint(id);
    var check := CheckIdempotency(d, call, endpoint, 204);
    CheckTouchesOneSlot(d, call, endpoint, 204, slot);
    if check.Replay? {
      ReplayIsLive(d, call, endpoint, 204, slot);
    }
    if check.Fresh? && id in d.creds {
      var db := check.db.(creds := check.db.creds[id := d.creds[id].(deleted := Some(call.now))]);
      CheckKeepsRows(d, call, endpoint, 204);
      CloseTouchesOneSlot(db, call, endpoint, Deleting, id, expected, 204, slot);
      CloseKeepsRows(db, call, endpoint, Deleting, id, expected, 204);
    }
  }

  /** A cleanup that removes this record. */
  predicate Sweeps(p: Policy, s: Step, stored: Stored) {
    s.Cleanup? && Expires(p, stored, s.now)
  }

  /** What a whole step does to one slot. */
  ghost predicate StepKept(p: Policy, d: Db, s: Step, slot: Slot, outcome: Outcome, e: Db) {
    && (!Uses(s, slot) ==>
          RecordOf(e, slot) == if RecordOf(d, slot).Some? && Sweeps(p, s, RecordOf(d, slot).value) then None else RecordOf(d, slot))
    && (Uses(s, slot) && outcome.Committed? ==>
          RecordOf(e, slot) == Some(Stored(s.call.request, outcome.id, outcome.version, outcome.status, s.call.now + DAY)))
    && (Uses(s, slot) && RecordOf(d, slot).Some? && RecordOf(d, slot).value.expires > s.call.now ==>
          var stored := RecordOf(d, slot).value;
          && SameRows(d, e) && e.idem == d.idem
          && (outcome.Failed? || (outcome == Replayed(stored.id, stored.version, stored.status) && stored.request == s.call.request)))
  }

  lemma SettledSlot(p: Policy, d: Db, s: Step, slot: Slot, action: Action, result: (Outcome, Db))
    requires IsRequest(s)
    requires result.0.Failed? || SlotKept(d, s.call, slot, Uses(s, slot), result.0, result.1)
    ensures StepKept(p, d, s, slot, Settle(d, s.call, action, result).0, Settle(d, s.call, action, result).1)
  {
    SettleEffect(d, s.call, action, result);
    hide Settle;
  }

  /**
   A request that finds a live record under its key either returns the stored result for the same body or
   fails; it changes no row and no record.  A request that commits stores its result.  Nothing else touches the
   record but a cleanup, which removes it exactly when its expiry is at most the cleanup's clock as text.
   */
  lemma StepKeepsSlot(p: Policy, h: seq<Db>, s: Step, slot: Slot)
    requires h != [] && Possible(h, s)
    ensures StepKept(p, h[|h| - 1], s, slot, Act(p, h, s).0, Act(p, h, s).1)
  {
    hide StepKept, SlotKept, CreateTx, UpdateTx, DeleteTx, RestoreTx, PurgeTx, GetTx, Look, ProbeTx, Prepare, Settle, AgentSlot;
    var d := h[|h| - 1];
    match s {
      case Create(call, c) =>
        CreateSlot(p, d, call, c, slot);
        SettledSlot(p, d, s, slot, Creating, CreateTx(p, d, call, c));
      case Probe(call, u) =>
        ProbeSlot(p, d, call, u, slot);
        SettledSlot(p, d, s, slot, Updating, ProbeTx(p, d, call, u));
      case Update(call, u, _, _) =>
        UpdateSlot(p, d, call, u, Preparation(p, h, s), slot);
        SettledSlot(p, d, s, slot, Updating, UpdateTx(p, d, call, u, Preparation(p, h, s)));
      case Delete(call, id, expected) =>
        DeleteSlot(p, d, call, id, expected, slot);
        SettledSlot(p, d, s, slot, Deleting, DeleteTx(p, d, call, id, expected));
      case Cleanup(now) =>
        CleanupSlot(p, h, s, slot);
      case _ =>
        NoSlot(p, h, s, slot);
    }
  }

  lemma CleanupSlot(p: Policy, h: seq<Db>, s: Step, slot: Slot)
    requires h != [] && s.Cleanup?
    ensures StepKept(p, h[|h| - 1], s, slot, Act(p, h, s).0, Act(p, h, s).1)
  {
    hide TextAtMost;
  }

  lemma NoSlot(p: Policy, h: seq<Db>, s: Step, slot: Slot)
    requires h != [] && ReadsPast(h, s) && (s.Restore? || s.Purge? || s.Get? || s.Relink? || s.Reap?)
    ensures StepKept(p, h[|h| - 1], s, slot, Act(p, h, s).0, Act(p, h, s).1)
  {
    assert Act(p, h, s).1.idem == h[|h| - 1].idem;
  }

  // ----------------------------------------------------------- exactly once

  /** Step `i` of the run is a write under `slot` that committed. */
  ghost predicate CommitsUnder(p: Policy, h: seq<Db>, steps: seq<Step>, i: nat, slot: Slot)
    requires IsRun(p, h, steps)
  {
    i < |steps| && Uses(steps[i], slot) && Act(p, h[..i + 1], steps[i]).0.Committed?
  }

  /** The step ends a record that expires at `expires`: a request under its key with that clock, or a cleanup. */
  predicate Ends(p: Policy, s: Step, slot: Slot, expires: int) {
    (Uses(s, slot) && s.call.now >= expires) || (s.Cleanup? && TextAtMost(p.seconds, expires, s.now))
  }

  /** No step strictly between `i` and `j` ended the record that step `i` stored. */
  ghost predicate NotEnded(p: Policy, steps: seq<Step>, i: nat, j: nat, slot: Slot)
    requires i < |steps| && Uses(steps[i], slot)
  {
    forall k :: i < k < j && k < |steps| ==> !Ends(p, steps[k], slot, steps[i].call.now + DAY)
  }

  lemma StepAt(p: Policy, h: seq<Db>, steps: seq<Step>, k: nat, slot: Slot)
    requires IsRun(p, h, steps) && k < |steps|
    ensures StepKept(p, h[k], steps[k], slot, Act(p, h[..k + 1], steps[k]).0, h[k + 1])
  {
    var g := h[..k + 1];
    assert g[|g| - 1] == h[k] && Possible(g, steps[k]) && h[k + 1] == Act(p, g, steps[k]).1;
    hide Act, StepKept;
    StepKeepsSlot(p, g, steps[k], slot);
  }

  lemma RecordStays(p: Policy, h: seq<Db>, steps: seq<Step>, i: nat, j: nat, slot: Slot)
    requires IsRun(p, h, steps) && CommitsUnder(p, h, steps, i, slot) && i < j < |h| && NotEnded(p, steps, i, j, slot)
    ensures var outcome := Act(p, h[..i + 1], steps[i]).0;
            RecordOf(h[j], slot) == Some(Stored(steps[i].call.request, outcome.id, outcome.version, outcome.status,
                                                steps[i].call.now + DAY))
  {
    StepAt(p, h, steps, i, slot);
    hide Act, Uses, IsRun, Ends;
    RecordKept(p, h, steps, i + 1, j, slot);
  }

  /** A record stays as it is while no step ends it. */
  lemma {:induction false} RecordKept(p: Policy, h: seq<Db>, steps: seq<Step>, i: nat, j: nat, slot: Slot)
    requires IsRun(p, h, steps) && i <= j < |h| && RecordOf(h[i], slot).Some?
    requires forall k :: i <= k < j ==> !Ends(p, steps[k], slot, RecordOf(h[i], slot).value.expires)
    ensures RecordOf(h[j], slot) == RecordOf(h[i], slot)
    decreases j
  {
    if i < j {
      assert |h| == |steps| + 1;
      RecordKept(p, h, steps, i, j - 1, slot);
      StepAt(p, h, steps, j - 1, slot);
      hide Act, IsRun, StepKept, RecordOf, Uses, Ends;
      LiveRecordStays(p, h[j - 1], steps[j - 1], slot, Act(p, h[..j], steps[j - 1]).0, h[j]);
    }
  }

  lemma LiveRecordStays(p: Policy, d: Db, s: Step, slot: Slot, outcome: Outcome, e: Db)
    requires StepKept(p, d, s, slot, outcome, e) && RecordOf(d, slot).Some?
    requires !Ends(p, s, slot, RecordOf(d, slot).value.expires)
    ensures RecordOf(e, slot) == RecordOf(d, slot)
  {
    hide TextAtMost;
  }

  /**
   Until something ends a stored result, every request under the same agent, endpoint and key changes nothing: it
   gets the stored result if its body is the same, and an error otherwise.
   */
  lemma RepeatsAreReplays(p: Policy, h: seq<Db>, steps: seq<Step>, i: nat, j: nat, slot: Slot)
    requires IsRun(p, h, steps) && CommitsUnder(p, h, steps, i, slot) && i < j < |steps| && Uses(steps[j], slot)
    requires NotEnded(p, steps, i, j + 1, slot)
    ensures var first, again := Act(p, h[..i + 1], steps[i]).0, Act(p, h[..j + 1], steps[j]).0;
            && SameRows(h[j], h[j + 1]) && h[j + 1].idem == h[j].idem
            && (again.Failed? || (again == Replayed(first.id, first.version, first.status)
                                  && steps[j].call.request == steps[i].call.request))
  {
    assert NotEnded(p, steps, i, j, slot);
    RecordStays(p, h, steps, i, j, slot);
    StepAt(p, h, steps, j, slot);
    assert !Ends(p, steps[j], slot, steps[i].call.now + DAY);
    hide Act, Possible, TextAtMost;
  }

  /**
   At most one write commits under one agent, endpoint and key, unless meanwhile, up to the second write itself, a
   request under it carried a clock at least a day past the first, or a cleanup read its expiry as passed.
   */
  lemma OneCommitPerKey(p: Policy, h: seq<Db>, steps: seq<Step>, i: nat, j: nat, slot: Slot)
    requires IsRun(p, h, steps) && i < j && CommitsUnder(p, h, steps, i, slot) && CommitsUnder(p, h, steps, j, slot)
    ensures exists k :: i < k <= j && Ends(p, steps[k], slot, steps[i].call.now + DAY)
  {
    if NotEnded(p, steps, i, j + 1, slot) {
      RepeatsAreReplays(p, h, steps, i, j, slot);
    }
  }

  /**
   A step that ends a record by its clock: at or past the expiry, or a cleanup less than a second before it, in the
   same second, at an instant that is the expiry with its last digits cut off.
   */
  ghost predicate EndsByClock(s: Step, slot: Slot, expires: int) {
    || (Uses(s, slot) && s.call.now >= expires)
    || (s.Cleanup? && (s.now >= expires || (expires - SECOND < s.now && CutOff(s.now, expires))))
  }

  /**
   The same in terms of clocks, for instants in four-digit years: the record lasts a day, or up to a second less
   if a cleanup comes at the wrong instant.
   */
  lemma OneCommitPerDay(p: Policy, lo: int, hi: int, h: seq<Db>, steps: seq<Step>, i: nat, j: nat, slot: Slot)
    requires IsRun(p, h, steps) && i < j && CommitsUnder(p, h, steps, i, slot) && CommitsUnder(p, h, steps, j, slot)
    requires IsCalendar(p.seconds, lo, hi) && Within(lo, hi, steps[i].call.now + DAY)
    requires forall s <- steps :: s.Cleanup? ==> Within(lo, hi, s.now)
    ensures exists k :: i < k <= j && EndsByClock(steps[k], slot, steps[i].call.now + DAY)
  {
    hide Act, TextAtMost, IsCalendar, CutOff, EndsByClock, Ends, Within, IsRun;
    OneCommitPerKey(p, h, steps, i, j, slot);
    SomeStepEndsByClock(p, lo, hi, steps, i, j, slot, steps[i].call.now + DAY);
  }

  lemma SomeStepEndsByClock(p: Policy, lo: int, hi: int, steps: seq<Step>, i: nat, j: nat, slot: Slot, expires: int)
    requires j < |steps| && exists k :: i < k <= j && Ends(p, steps[k], slot, expires)
    requires IsCalendar(p.seconds, lo, hi) && Within(lo, hi, expires)
    requires forall s <- steps :: s.Cleanup? ==> Within(lo, hi, s.now)
    ensures exists k :: i < k <= j && EndsByClock(steps[k], slot, expires)
  {
    hide TextAtMost, IsCalendar, CutOff, Uses, EndsByClock, Ends, Within;
    var k :| i < k <= j && Ends(p, steps[k], slot, expires);
    assert steps[k] in steps;
    TextEndsByClock(p, lo, hi, steps[k], slot, expires);
  }

  lemma TextEndsByClock(p: Policy, lo: int, hi: int, s: Step, slot: Slot, expires: int)
    requires Ends(p, s, slot, expires) && IsCalendar(p.seconds, lo, hi) && Within(lo, hi, expires)
    requires s.Cleanup? ==> Within(lo, hi, s.now)
    ensures EndsByClock(s, slot, expires)
  {
    hide TextAtMost, IsCalendar;
    if s.Cleanup? {
      TextAtMostExactly(p.seconds, lo, hi, expires, s.now);
    }
  }

  /**
   Under a live record, a repeated request with the same body is answered with the stored result, even when
   the credential has moved on: an update whose expected version is no longer current is recognised by the
   probe before versions are compared.
   */
  lemma RepeatedUpdateIsAnswered(p: Policy, read: Db, labelled: Db, probed: Db, last: Db, call: Call, u: UpdateInput)
    requires call.actor.Agent? && Admit(p, ReadRecord(read, labelled, u.id), call, u) == None
    requires var slot := Slot(call.actor.agent, UpdateEndpoint(u.id), call.key);
             && slot in probed.idem && probed.idem[slot].expires > call.now
             && probed.idem[slot].request == call.request && probed.idem[slot].status == 200
             && Answerable(p, probed, call, probed.idem[slot].id, Updating)
    ensures var stored := probed.idem[Slot(call.actor.agent, UpdateEndpoint(u.id), call.key)];
            UpdateCall(p, read, labelled, probed, last, call, u) == (Replayed(stored.id, stored.version, 200), probed)
  {
  }

  /** The credential of a stored result is still there and the actor may still act on it. */
  predicate Answerable(p: Policy, d: Db, call: Call, id: string, action: Action) {
    id in d.creds && d.creds[id].deleted == None && p.deny(call.actor, action, d.creds[id].space, id, d.creds[id].tags) == None
  }

  // ------------------------------------------------------------ used twice

  function AgentCall(now: int): Call {
    Call(Agent("a"), "key", "body", now, None, true, None, true, true)
  }

  const SLOT: Slot := Slot("a", CREATE, "key")

  function AgentCreation(id: string, now: int): Step {
    Create(AgentCall(now), CreateInput(id, "s", "name", "login", map[], {}, "secret"))
  }

  /** With nothing live under its key, an agent's creation commits and is remembered for a day. */
  lemma {:induction false} FreshCreation(p: Policy, h: seq<Db>, id: string, now: int)
    requires p == Permissive(p.seconds) && h != [] && DbInv(h[|h| - 1]) && id !in h[|h| - 1].creds
    requires RecordOf(h[|h| - 1], SLOT).Some? ==> RecordOf(h[|h| - 1], SLOT).value.expires <= now
    ensures Uses(AgentCreation(id, now), SLOT)
    ensures var (outcome, e) := Act(p, h, AgentCreation(id, now));
            && outcome == Committed(id, 1, 201)
            && RecordOf(e, SLOT) == Some(Stored("body", id, 1, 201, now + DAY)) && e.creds.Keys == h[|h| - 1].creds.Keys + {id}
  {
  }

  /** A cleanup that reads the expiry as passed lets the same key write again, whatever the time. */
  lemma {:induction false} CleanupForgets(p: Policy, t0: int, t1: int, t2: int) returns (h: seq<Db>, steps: seq<Step>)
    requires p == Permissive(p.seconds) && TextAtMost(p.seconds, t0 + DAY, t1)
    ensures IsRun(p, h, steps) && steps == [AgentCreation("c", t0), Cleanup(t1), AgentCreation("d", t2)]
    ensures CommitsUnder(p, h, steps, 0, SLOT) && CommitsUnder(p, h, steps, 2, SLOT)
  {
    var s0, s1, s2 := AgentCreation("c", t0), Cleanup(t1), AgentCreation("d", t2);
    var h0: seq<Db> := [EMPTY_DB];
    hide Permissive, CreateTx, TextAtMost, Sound;
    FreshCreation(p, h0, "c", t0);
    var h1 := h0 + [Act(p, h0, s0).1];
    OneMoreStep(p, h0, [], s0);
    RunIsSound(p, h1, [] + [s0]);
    var h2 := h1 + [Act(p, h1, s1).1];
    OneMoreStep(p, h1, [] + [s0], s1);
    RunIsSound(p, h2, [] + [s0] + [s1]);
    assert h2[2].creds == h1[1].creds && RecordOf(h2[2], SLOT) == None;
    assert DbInv(h2[2]) by {
      SoundMeans(h2, 2);
    }
    hide Act, DbInv;
    FreshCreation(p, h2, "d", t2);
    OneMoreStep(p, h2, [] + [s0] + [s1], s2);
    h, steps := h2 + [Act(p, h2, s2).1], [] + [s0] + [s1] + [s2];
    assert h[..1] == h0 && h[..3] == h2;
  }

  lemma SoundMeans(h: seq<Db>, i: nat)
    requires Sound(h) && i < |h|
    ensures DbInv(h[i])
  {
  }

  /**
   An agent writes at half past a second; a day later, on the full second of the expiry, a cleanup takes the result
   away half a second early; and a request that carries a clock still before the expiry writes again.
   */
  lemma {:induction false} CleanupReopensKey(p: Policy, lo: int, hi: int, s: int) returns (h: seq<Db>, steps: seq<Step>)
    requires p == Permissive(p.seconds) && IsCalendar(p.seconds, lo, hi) && lo <= s + 86_400 < hi
    ensures IsRun(p, h, steps) && |steps| == 3 && CommitsUnder(p, h, steps, 0, SLOT) && CommitsUnder(p, h, steps, 2, SLOT)
    ensures steps[0] == AgentCreation("c", s * SECOND + SECOND / 2)
    ensures steps[1] == Cleanup((s + 86_400) * SECOND) && steps[1].now < steps[0].call.now + DAY
    ensures steps[2] == AgentCreation("d", (s + 86_400) * SECOND + SECOND / 5) && steps[2].call.now < steps[0].call.now + DAY
  {
    hide IsCalendar, TextAtMost, CutOff, Permissive, IsRun, Act;
    var t0, t1 := s * SECOND + SECOND / 2, (s + 86_400) * SECOND;
    assert t0 + DAY == t1 + SECOND / 2;
    WholeSecondIsCut(s + 86_400, SECOND / 2);
    TextAtMostExactly(p.seconds, lo, hi, t0 + DAY, t1);
    h, steps := CleanupForgets(p, t0, t1, t1 + SECOND / 5);
  }

  /** A day later, by the clock of the request, the same key writes again. */
  lemma {:induction false} ExpiryReopensKey(p: Policy, now: int) returns (h: seq<Db>, steps: seq<Step>)
    requires p == Permissive(p.seconds)
    ensures IsRun(p, h, steps) && |steps| == 2 && CommitsUnder(p, h, steps, 0, SLOT) && CommitsUnder(p, h, steps, 1, SLOT)
    ensures steps[0].call.now == now && steps[1].call.now == now + DAY && steps[1].call.request == steps[0].call.request
  {
    var s0, s1 := AgentCreation("c", now), AgentCreation("d", now + DAY);
    var h0: seq<Db> := [EMPTY_DB];
    hide Permissive, CreateTx, Act, Sound;
    FreshCreation(p, h0, "c", now);
    var h1 := h0 + [Act(p, h0, s0).1];
    OneMoreStep(p, h0, [], s0);
    RunIsSound(p, h1, [] + [s0]);
    SoundMeans(h1, 1);
    hide DbInv;
    FreshCreation(p, h1, "d", now + DAY);
    OneMoreStep(p, h1, [] + [s0], s1);
    h, steps := h1 + [Act(p, h1, s1).1], [] + [s0] + [s1];
    assert h[..1] == h0 && h[..2] == h1;
  }
}
