/**
 Reading a credential: the row is looked up and decrypted first and the event logged later, so by the time the
 plaintext leaves, the credential may have moved on or be gone.  What still holds of it, over every run.
 */
module CredentialReads {
  import opened Wrappers
  import opened CredentialSpec
  import opened CredentialRuns

  // -------------------------------------------------------- the log only grows

  lemma SettledGrows(d: Db, call: Call, action: Action, result: (Outcome, Db))
    requires result.0.Failed? || d.log <= result.1.log
    ensures d.log <= Settle(d, call, action, result).1.log
  {
    SettleEffect(d, call, action, result);
    hide Settle;
  }

  lemma ProbeGrows(p: Policy, d: Db, call: Call, u: UpdateInput)
    ensures ProbeTx(p, d, call, u).1.log == d.log
  {
    hide CheckIdempotency;
    CheckKeepsRows(d, call, UpdateEndpoint(u.id), 200);
  }

  lemma StepGrows(p: Policy, h: seq<Db>, s: Step)
    requires h != [] && ReadsPast(h, s)
    ensures h[|h| - 1].log <= Act(p, h, s).1.log
  {
    hide CreateTx, UpdateTx, DeleteTx, RestoreTx, PurgeTx, Look, ProbeTx, Prepare, Settle;
    var d := h[|h| - 1];
    match s {
      case Create(call, c) =>
        CreateEffect(p, d, call, c);
        SettledGrows(d, call, Creating, CreateTx(p, d, call, c));
      case Update(call, u, _, _) =>
        UpdateEffect(p, d, call, u, Preparation(p, h, s));
        SettledGrows(d, call, Updating, UpdateTx(p, d, call, u, Preparation(p, h, s)));
      case Delete(call, id, expected) =>
        DeleteEffect(p, d, call, id, expected);
        SettledGrows(d, call, Deleting, DeleteTx(p, d, call, id, expected));
      case Restore(call, id, expected) =>
        RestoreEffect(p, d, call, id, expected);
        SettledGrows(d, call, Restoring, RestoreTx(p, d, call, id, expected));
      case Purge(call, space, id, expected) =>
        PurgeEffect(p, d, call, space, id, expected);
        SettledGrows(d, call, Purging, PurgeTx(p, d, call, space, id, expected));
      case Get(call, id, _, _) =>
        SettledGrows(d, call, Reading, GetTx(d, call, id, Discovery(p, h, s)).1);
      case Probe(call, u) =>
        ProbeGrows(p, d, call, u);
        SettledGrows(d, call, Updating, ProbeTx(p, d, call, u));
      case _ =>
    }
  }

  lemma {:induction false} LogGrows(p: Policy, h: seq<Db>, steps: seq<Step>, i: nat, j: nat)
    requires IsRun(p, h, steps) && i <= j < |h|
    ensures h[i].log <= h[j].log
    decreases j
  {
    if i < j {
      LogGrows(p, h, steps, i, j - 1);
      assert h[..(j - 1) + 1][|h[..(j - 1) + 1]| - 1] == h[j - 1];
      StepGrows(p, h[..(j - 1) + 1], steps[j - 1]);
      hide Act;
      assert h[j] == Act(p, h[..(j - 1) + 1], steps[j - 1]).1;
    }
  }

  // ----------------------------------------------------------- what a read gets

  /** The tags a read authorizes by: none any more if the credential was purged in between. */
  function LabelsAt(d: Db, id: string): Tags {
    if id in d.creds then d.creds[id].tags else map[]
  }

  /**
   A read hands out a plaintext exactly when its look at the row found an undeleted credential that the actor may
   read under the tags found next, and its event could be logged; it is the payload of the version found.
   */
  lemma PayloadExactly(p: Policy, h: seq<Db>, s: Step)
    requires h != [] && s.Get? && ReadsPast(h, s) && DbInv(h[s.at])
    ensures Payload(p, h, s).Some? <==>
              && s.id != "" && s.id in h[s.at].creds && h[s.at].creds[s.id].deleted == None
              && p.deny(s.call.actor, Reading, h[s.at].creds[s.id].space, s.id, LabelsAt(h[s.labels], s.id)) == None
              && s.call.auditOk
    ensures Payload(p, h, s).Some? ==>
              var v := h[s.at].creds[s.id].version;
              && (s.id, v) in h[s.at].versions && Payload(p, h, s) == Some(Plaintext(h[s.at], s.id, v))
              && Act(p, h, s) == (Replayed(s.id, v, 200), h[|h| - 1].(log := h[|h| - 1].log + [Success(Reading, s.id, v)]))
  {
    if s.id in h[s.at].creds {
      assert (s.id, h[s.at].creds[s.id].version) in h[s.at].versions;
    }
  }

  /**
   Over every run, of every plaintext handed out: the actor was allowed to read the credential, undeleted when it
   was looked up; it is the payload of the version that was current then, and stays that version's text for as long
   as the credential exists; and its read event is in the log before it leaves, and in every later one.
   */
  lemma ReadsAreAudited(p: Policy, h: seq<Db>, steps: seq<Step>, i: nat)
    requires IsRun(p, h, steps) && DbInv(h[0]) && i < |steps| && Payload(p, h[..i + 1], steps[i]).Some?
    ensures steps[i].Get? && steps[i].at <= steps[i].labels <= i
    ensures var s, read := steps[i], h[steps[i].at];
            && s.id in read.creds && read.creds[s.id].deleted == None && s.call.auditOk
            && p.deny(s.call.actor, Reading, read.creds[s.id].space, s.id, LabelsAt(h[s.labels], s.id)) == None
            && var v, text := read.creds[s.id].version, Payload(p, h[..i + 1], s).value;
               && (s.id, v) in read.versions && text == Plaintext(read, s.id, v)
               && (forall j :: s.at <= j < |h| && s.id in h[j].creds ==>
                     (s.id, v) in h[j].versions && Plaintext(h[j], s.id, v) == text)
               && h[i + 1].log == h[i].log + [Success(Reading, s.id, v)]
               && (forall j :: i < j < |h| ==> h[i + 1].log <= h[j].log)
  {
    var g, s := h[..i + 1], steps[i];
    assert ReadsPast(g, s) && g[|g| - 1] == h[i] && h[i + 1] == Act(p, g, s).1;
    RunIsSound(p, h, steps);
    assert g[s.at] == h[s.at] && g[s.labels] == h[s.labels] && DbInv(h[s.at]);
    hide Act, Payload, DbInv, Sound, Possible;
    PayloadExactly(p, g, s);
    var v := h[s.at].creds[s.id].version;
    forall j | s.at <= j < |h| && s.id in h[j].creds
      ensures (s.id, v) in h[j].versions && Plaintext(h[j], s.id, v) == Plaintext(h[s.at], s.id, v)
    {
      VersionIsPositive(h[s.at], s.id);
      VersionsAreForever(p, h, steps, s.at, j, s.id, v);
    }
    forall j | i < j < |h|
      ensures h[i + 1].log <= h[j].log
    {
      LogGrows(p, h, steps, i + 1, j);
    }
  }

  lemma VersionIsPositive(d: Db, id: string)
    requires DbInv(d) && id in d.creds
    ensures d.creds[id].version >= 1
  {
  }

  // --------------------------------------------------------- overtaken reads

  /** Everything is allowed and every payload is canonical. */
  function Permissive(seconds: int -> string): Policy {
    Policy((actor, action, space, id, tags) => None, (kind, payload) => Some(payload), seconds)
  }

  function HumanCall(now: int): Call {
    Call(Human("u"), "", "", now, None, true, None, true, true)
  }

  const EMPTY_DB: Db := Db(map[], map[], map[], [])

  function FirstInput(payload: string): CreateInput {
    CreateInput("c", "s", "name", "login", map[], {}, payload)
  }

  lemma {:induction false} OneMoreStep(p: Policy, h: seq<Db>, steps: seq<Step>, s: Step)
    requires IsRun(p, h, steps) && Possible(h, s)
    ensures IsRun(p, h + [Act(p, h, s).1], steps + [s])
  {
    hide Act;
    var g, all := h + [Act(p, h, s).1], steps + [s];
    forall i | 0 <= i < |all|
      ensures Possible(g[..i + 1], all[i]) && g[i + 1] == Act(p, g[..i + 1], all[i]).1
    {
      if i < |steps| {
        assert g[..i + 1] == h[..i + 1];
      } else {
        assert g[..i + 1] == h;
      }
    }
  }

  /** The state a first creation leaves. */
  function Created(payload: string): Db {
    Db(map["c" := Cred("s", "name", "login", 1, map[], {}, None)],
       map[("c", 1) := Sealed(Context("c", "s", 1, "login"), payload)], map[], [Success(Creating, "c", 1)])
  }

  lemma {:induction false} FirstStep(p: Policy, payload: string, now: int)
    requires p == Permissive(p.seconds)
    ensures var s := Create(HumanCall(now), FirstInput(payload));
            && Act(p, [EMPTY_DB], s).1 == Created(payload)
            && IsRun(p, [EMPTY_DB, Created(payload)], [s])
  {
    assert map[]["c" := Cred("s", "name", "login", 1, map[], {}, None)] == Created(payload).creds;
    var s := Create(HumanCall(now), FirstInput(payload));
    assert [EMPTY_DB][..1] == [EMPTY_DB] && [EMPTY_DB, Created(payload)][..1] == [EMPTY_DB];
  }

  /** A read that an update overtakes returns the old payload when the new version is already stored. */
  lemma {:induction false} UpdateOvertakesRead(p: Policy, old': string, new': string) returns (h: seq<Db>, steps: seq<Step>)
    requires p == Permissive(p.seconds)
    ensures IsRun(p, h, steps) && DbInv(h[0]) && |steps| == 3
    ensures ReadsPast(h[..3], steps[2]) && Payload(p, h[..3], steps[2]) == Some(old')
    ensures "c" in h[2].creds && h[2].creds["c"].version == 2 && ("c", 2) in h[2].versions && Plaintext(h[2], "c", 2) == new'
  {
    var d1 := Created(old');
    var h1, s0 := [EMPTY_DB, d1], Create(HumanCall(0), FirstInput(old'));
    FirstStep(p, old', 0);
    var u := UpdateInput("c", 1, None, None, None, Some(new'), None);
    var s1, s2 := Update(HumanCall(1), u, 1, 1), Get(HumanCall(2), "c", 1, 1);
    var d2 := Act(p, h1, s1).1;
    assert Preparation(p, h1, s1).Ready?;
    assert "c" in d2.creds && d2.creds["c"].version == 2 && ("c", 2) in d2.versions && Plaintext(d2, "c", 2) == new';
    OneMoreStep(p, h1, [s0], s1);
    var h2 := h1 + [d2];
    assert Payload(p, h2, s2) == Some(old');
    hide Act, Payload;
    OneMoreStep(p, h2, [s0] + [s1], s2);
    h, steps := h2 + [Act(p, h2, s2).1], [s0] + [s1] + [s2];
    assert h[..3] == h2;
  }

  /** A read that a deletion and a purge overtake returns the payload of a credential that is gone. */
  lemma {:induction false} PurgeOvertakesRead(p: Policy, old': string) returns (h: seq<Db>, steps: seq<Step>)
    requires p == Permissive(p.seconds)
    ensures IsRun(p, h, steps) && DbInv(h[0]) && |steps| == 4
    ensures ReadsPast(h[..4], steps[3]) && Payload(p, h[..4], steps[3]) == Some(old')
    ensures "c" in h[1].creds && h[2].creds.Keys == {"c"} && h[2].creds["c"].deleted.Some? && "c" !in h[3].creds
  {
    var d1 := Created(old');
    var h1, s0 := [EMPTY_DB, d1], Create(HumanCall(0), FirstInput(old'));
    FirstStep(p, old', 0);
    var s1, s2, s3 := Delete(HumanCall(1), "c", 1), Purge(HumanCall(2), "s", "c", 1), Get(HumanCall(3), "c", 1, 1);
    var d2 := Act(p, h1, s1).1;
    assert d2.creds.Keys == {"c"} && d2.creds["c"].deleted == Some(1) && d2.creds["c"].version == 1;
    var h2 := h1 + [d2];
    var d3 := Act(p, h2, s2).1;
    assert "c" !in d3.creds;
    var h3 := h2 + [d3];
    assert Payload(p, h3, s3) == Some(old');
    hide Act, Payload;
    OneMoreStep(p, h1, [s0], s1);
    OneMoreStep(p, h2, [s0] + [s1], s2);
    OneMoreStep(p, h3, [s0] + [s1] + [s2], s3);
    h, steps := h3 + [Act(p, h3, s3).1], [s0] + [s1] + [s2] + [s3];
    assert h[..4] == h3;
  }
}
