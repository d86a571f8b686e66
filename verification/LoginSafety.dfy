/** Single use and no resurrection, over every run of LoginRuns. */
module LoginSafety {
  import opened Wrappers
  import opened LoginSpec
  import opened LoginRuns

  // -------------------------------------------------------------------- TOTP

  /** The user and the counter a step accepts, if it accepts a TOTP code. */
  function Accepted(x: Crypto, d: State, s: Step): Option<(string, int)> {
    match s
    case Finish(id, ByTotp(code), now, token) =>
      if LogsIn(x, d, s) then AcceptedCode(x, d, d.taken[id].user, code, now) else None
    case Reverify(token, code, now, auditOk) =>
      if ReverifyTx(x, d, token, code, now, auditOk).Some? then AcceptedCode(x, d, d.sessions[token].user, code, now) else None
    case _ => None
  }

  function AcceptedCode(x: Crypto, d: State, user: string, code: string, now: int): Option<(string, int)> {
    if user !in d.totp then None
    else
      match Matching(x, d.totp[user].secret, code, Counter(UnixSeconds(now)))
      case None => None
      case Some(c) => Some((user, c))
  }

  lemma ConsumedCounter(x: Crypto, d: State, user: string, code: string, now: int)
    requires ConsumeTotp(x, d, user, code, now).Some?
    ensures var accepted, e := AcceptedCode(x, d, user, code, now), ConsumeTotp(x, d, user, code, now).value;
            && accepted.Some? && accepted.value.0 == user && user in d.totp
            && (d.totp[user].last.Some? ==> d.totp[user].last.value < accepted.value.1)
            && e.totp == d.totp[user := d.totp[user].(last := Some(accepted.value.1))]
  {
  }

  /** An accepted counter lies above every earlier one and becomes the last one. */
  lemma {:induction false} AcceptedIsLast(x: Crypto, h: seq<State>, s: Step)
    requires h != [] && Possible(h, s) && Accepted(x, h[|h| - 1], s).Some?
    ensures var d, e, a := h[|h| - 1], Act(x, h, s), Accepted(x, h[|h| - 1], s).value;
            && a.0 in d.totp && a.0 in e.totp && e.totp[a.0].last == Some(a.1)
            && (d.totp[a.0].last.Some? ==> d.totp[a.0].last.value < a.1)
  {
    var d := h[|h| - 1];
    hide ConsumeTotp, AcceptedCode;
    match s {
      case Finish(id, ByTotp(code), now, token) =>
        var e := d.(taken := d.taken - {id});
        ConsumedCounter(x, e, d.taken[id].user, code, now);
        SameCode(x, d, e, d.taken[id].user, code, now);
      case Reverify(token, code, now, _) =>
        ConsumedCounter(x, d, d.sessions[token].user, code, now);
    }
  }

  lemma {:induction false} SameCode(x: Crypto, d: State, e: State, user: string, code: string, now: int)
    requires e.totp == d.totp
    ensures AcceptedCode(x, e, user, code, now) == AcceptedCode(x, d, user, code, now)
  {
  }

  /**
   Across logins and re-verifications, the counters accepted for one user strictly increase: no code of any
   time step is accepted twice.
   */
  lemma {:induction false} CountersIncrease(x: Crypto, h: seq<State>, steps: seq<Step>, i: nat, j: nat)
    requires IsRun(x, h, steps) && Start(h[0]) && i < j < |steps|
    requires Accepted(x, h[i], steps[i]).Some? && Accepted(x, h[j], steps[j]).Some?
    requires Accepted(x, h[i], steps[i]).value.0 == Accepted(x, h[j], steps[j]).value.0
    ensures Accepted(x, h[i], steps[i]).value.1 < Accepted(x, h[j], steps[j]).value.1
  {
    assert |h| == |steps| + 1;
    hide Accepted, Act, Sound, Start, Possible, IsRun;
    AcceptedAt(x, h, steps, i);
    AcceptedAt(x, h, steps, j);
    RunIsSound(x, h, steps);
    MovesOver(h, i + 1, j);
  }

  lemma {:induction false} AcceptedAt(x: Crypto, h: seq<State>, steps: seq<Step>, i: nat)
    requires IsRun(x, h, steps) && i < |steps| && Accepted(x, h[i], steps[i]).Some?
    ensures var d, e, a := h[i], h[i + 1], Accepted(x, h[i], steps[i]).value;
            && a.0 in d.totp && a.0 in e.totp && e.totp[a.0].last == Some(a.1)
            && (d.totp[a.0].last.Some? ==> d.totp[a.0].last.value < a.1)
  {
    assert Possible(h[..i + 1], steps[i]) && h[i + 1] == Act(x, h[..i + 1], steps[i]) && h[..i + 1][i] == h[i];
    hide Accepted, Act, Possible, IsRun;
    AcceptedIsLast(x, h[..i + 1], steps[i]);
  }

  // ---------------------------------------------------------- recovery codes

  predicate UsesCode(x: Crypto, d: State, s: Step, user: string, codeHash: string) {
    LogsIn(x, d, s) && s.second == ByRecovery(codeHash) && d.taken[s.id].user == user
  }

  lemma {:induction false} CodeIsSpent(x: Crypto, h: seq<State>, s: Step, user: string, codeHash: string)
    requires h != [] && Possible(h, s) && UsesCode(x, h[|h| - 1], s, user, codeHash)
    ensures var d, e := h[|h| - 1], Act(x, h, s);
            && (user, codeHash) in d.codes && d.codes[(user, codeHash)] == None
            && (user, codeHash) in e.codes && e.codes[(user, codeHash)].Some?
  {
  }

  /** A recovery code logs in at most once. */
  lemma {:induction false} RecoveryCodesWorkOnce(x: Crypto, h: seq<State>, steps: seq<Step>, i: nat, j: nat, user: string, codeHash: string)
    requires IsRun(x, h, steps) && Start(h[0]) && i < j < |steps|
    ensures !(UsesCode(x, h[i], steps[i], user, codeHash) && UsesCode(x, h[j], steps[j], user, codeHash))
  {
    assert |h| == |steps| + 1;
    hide UsesCode, Act, Sound, Start, Possible, IsRun;
    if UsesCode(x, h[i], steps[i], user, codeHash) && UsesCode(x, h[j], steps[j], user, codeHash) {
      CodeIsSpentAt(x, h, steps, i, user, codeHash);
      CodeIsSpentAt(x, h, steps, j, user, codeHash);
      RunIsSound(x, h, steps);
      MovesOver(h, i + 1, j);
    }
  }

  lemma {:induction false} CodeIsSpentAt(x: Crypto, h: seq<State>, steps: seq<Step>, i: nat, user: string, codeHash: string)
    requires IsRun(x, h, steps) && i < |steps| && UsesCode(x, h[i], steps[i], user, codeHash)
    ensures (user, codeHash) in h[i].codes && h[i].codes[(user, codeHash)] == None
    ensures (user, codeHash) in h[i + 1].codes && h[i + 1].codes[(user, codeHash)].Some?
  {
    assert Possible(h[..i + 1], steps[i]) && h[i + 1] == Act(x, h[..i + 1], steps[i]) && h[..i + 1][i] == h[i];
    hide UsesCode, Act, Possible, IsRun;
    CodeIsSpent(x, h[..i + 1], steps[i], user, codeHash);
  }

  // -------------------------------------------------------------- challenges

  /** A challenge that is pending now and was pending before is the same one and never went away. */
  lemma {:induction false} PendingOver(x: Crypto, h: seq<State>, steps: seq<Step>, i: nat, j: nat, id: string)
    requires IsRun(x, h, steps) && Start(h[0]) && i <= j < |h| && id in Pending(h[i]) && id in Pending(h[j])
    ensures Pending(h[j])[id] == Pending(h[i])[id]
    ensures forall k :: i <= k <= j ==> id in Pending(h[k])
    decreases j
  {
    if i < j {
      OneStepBack(x, h, steps, i, j - 1, id);
      hide Act, Possible, Start, IsRun, Pending;
      PendingOver(x, h, steps, i, j - 1, id);
    }
  }

  lemma {:induction false} OneStepBack(x: Crypto, h: seq<State>, steps: seq<Step>, i: nat, j: nat, id: string)
    requires IsRun(x, h, steps) && Start(h[0]) && i <= j < |steps| && id in Pending(h[i]) && id in Pending(h[j + 1])
    ensures id in Pending(h[j]) && Pending(h[j + 1])[id] == Pending(h[j])[id]
  {
    var g, s := h[..j + 1], steps[j];
    assert Possible(g, s) && h[j + 1] == Act(x, g, s) && g[|g| - 1] == h[j] && g[i] == h[i];
    RunIsSound(x, h, steps);
    assert Apart(h[j]) && IdleIsBounded(h[j]);
    hide Act, Sound, Start, Apart, IdleIsBounded, IsRun, Pending;
    NotNew(g, s, i, id);
    hide Possible;
    NewPending(x, g, s);
  }

  lemma {:induction false} NotNew(h: seq<State>, s: Step, i: nat, id: string)
    requires h != [] && Possible(h, s) && i < |h| && id in Pending(h[i])
    ensures !(s.Begin? && s.id == id)
  {
    hide Pending;
  }

  /** A challenge logs in at most once, whatever second factor is tried. */
  lemma {:induction false} ChallengesWorkOnce(x: Crypto, h: seq<State>, steps: seq<Step>, i: nat, j: nat)
    requires IsRun(x, h, steps) && Start(h[0]) && i < j < |steps| && LogsIn(x, h[i], steps[i]) && LogsIn(x, h[j], steps[j])
    ensures steps[i].id != steps[j].id
  {
    if steps[i].id == steps[j].id {
      TakenIsGone(x, h, steps, i);
      PendingOver(x, h, steps, i, j, steps[i].id);
    }
  }

  /** A challenge is good for one attempt: whether or not it logs in, it is gone, and a failed attempt changes nothing else. */
  lemma {:induction false} OneAttemptPerChallenge(x: Crypto, h: seq<State>, steps: seq<Step>, i: nat, j: nat)
    requires IsRun(x, h, steps) && Start(h[0]) && i < j < |h| && i < |steps| && steps[i].Finish? && steps[i].id in h[i].taken
    ensures steps[i].id !in Pending(h[j])
    ensures !LogsIn(x, h[i], steps[i]) ==> h[i + 1] == h[i].(taken := h[i].taken - {steps[i].id})
  {
    AttemptedIsGone(x, h, steps, i);
    if steps[i].id in Pending(h[j]) {
      PendingOver(x, h, steps, i, j, steps[i].id);
    }
  }

  lemma {:induction false} AttemptedIsGone(x: Crypto, h: seq<State>, steps: seq<Step>, i: nat)
    requires IsRun(x, h, steps) && Start(h[0]) && i < |steps| && steps[i].Finish? && steps[i].id in h[i].taken
    ensures steps[i].id in Pending(h[i]) && steps[i].id !in Pending(h[i + 1])
    ensures !LogsIn(x, h[i], steps[i]) ==> h[i + 1] == h[i].(taken := h[i].taken - {steps[i].id})
  {
    assert h[..i + 1][i] == h[i] && h[i + 1] == Act(x, h[..i + 1], steps[i]);
    RunIsSound(x, h, steps);
    assert Apart(h[i]);
    hide Sound, Start;
    var d, id := h[i], steps[i].id;
    LoginUsers(x, d.(taken := d.taken - {id}), d.taken[id], steps[i].second, steps[i].now, steps[i].token);
    hide LoginTx;
  }

  lemma {:induction false} TakenIsGone(x: Crypto, h: seq<State>, steps: seq<Step>, i: nat)
    requires IsRun(x, h, steps) && Start(h[0]) && i < |steps| && LogsIn(x, h[i], steps[i])
    ensures steps[i].id in Pending(h[i]) && steps[i].id !in Pending(h[i + 1])
  {
    assert h[..i + 1][i] == h[i] && h[i + 1] == Act(x, h[..i + 1], steps[i]);
    RunIsSound(x, h, steps);
    assert Apart(h[i]);
    hide Sound, Start;
    var d, id := h[i], steps[i].id;
    LoginUsers(x, d.(taken := d.taken - {id}), d.taken[id], steps[i].second, steps[i].now, steps[i].token);
  }

  // ------------------------------------------------------- stale first factors

  /** The challenge that `Begin` stored. */
  lemma {:induction false} BegunChallenge(x: Crypto, h: seq<State>, steps: seq<Step>, b: nat)
    requires IsRun(x, h, steps) && b < |steps| && steps[b].Begin? && steps[b].id in Pending(h[b + 1])
    ensures steps[b].at <= b && steps[b].id !in Pending(h[b])
    ensures var s, c := steps[b], Pending(h[b + 1])[steps[b].id];
            && c.user == s.user && s.user in h[s.at].users && !h[s.at].users[s.user].deleted
            && c.hash == h[s.at].users[s.user].hash && x.valid(c.hash, s.password)
  {
    var g := h[..b + 1];
    assert g[b] == h[b] && h[b + 1] == Act(x, g, steps[b]) && Possible(g, steps[b]);
    assert forall i :: 0 <= i <= b ==> g[i] == h[i];
    assert steps[b].id !in Pending(g[b]);
  }

  /**
   Every session created by a challenge: the password was verified against a hash that has been the user's
   hash ever since it was read, through every reset and upgrade up to the login itself.
   */
  lemma {:induction false} NoStaleFirstFactor(x: Crypto, h: seq<State>, steps: seq<Step>, b: nat, f: nat)
    requires IsRun(x, h, steps) && Start(h[0]) && b < f < |steps| && steps[b].Begin?
    requires LogsIn(x, h[f], steps[f]) && steps[f].id == steps[b].id && steps[b].id in Pending(h[b + 1])
    ensures steps[b].at <= b
    ensures var s := steps[b];
            && s.user in h[s.at].users && x.valid(h[s.at].users[s.user].hash, s.password)
            && forall k :: s.at <= k <= f ==> HashOf(h[k], s.user) == Some(h[s.at].users[s.user].hash)
  {
    var s := steps[b];
    BegunChallenge(x, h, steps, b);
    TakenIsGone(x, h, steps, f);
    PendingOver(x, h, steps, b + 1, f, s.id);
    LoginChecksHash(x, h, steps, f);
    RunIsSound(x, h, steps);
    hide Act, IsRun, Pending, LogsIn, Start, UpgradesAreNew;
    assert HashOf(h[s.at], s.user) == HashOf(h[f], s.user);
    forall k | s.at <= k <= f
      ensures HashOf(h[k], s.user) == HashOf(h[s.at], s.user)
    {
    }
  }

  lemma {:induction false} LoginChecksHash(x: Crypto, h: seq<State>, steps: seq<Step>, f: nat)
    requires IsRun(x, h, steps) && Start(h[0]) && f < |steps| && LogsIn(x, h[f], steps[f])
    ensures steps[f].id in Pending(h[f])
    ensures var c := Pending(h[f])[steps[f].id];
            c.user in h[f].users && !h[f].users[c.user].deleted && h[f].users[c.user].hash == c.hash
            && steps[f].token in h[f + 1].sessions && h[f + 1].sessions[steps[f].token].user == c.user
  {
    assert h[..f + 1][f] == h[f] && h[f + 1] == Act(x, h[..f + 1], steps[f]);
    RunIsSound(x, h, steps);
    assert Apart(h[f]);
    hide Sound, Start;
    var d, id := h[f], steps[f].id;
    LoginUsers(x, d.(taken := d.taken - {id}), d.taken[id], steps[f].second, steps[f].now, steps[f].token);
  }

  /** After a password reset, only challenges whose user row was read after it can log in. */
  lemma {:induction false} ResetInvalidatesChallenges(x: Crypto, h: seq<State>, steps: seq<Step>, b: nat, f: nat, i: nat)
    requires IsRun(x, h, steps) && Start(h[0]) && b < f < |steps| && steps[b].Begin? && i < f
    requires LogsIn(x, h[f], steps[f]) && steps[f].id == steps[b].id && steps[b].id in Pending(h[b + 1])
    requires steps[i].Reset? && steps[i].user == steps[b].user && ResetTx(h[i], steps[i].user, steps[i].hash, steps[i].now).Some?
    ensures steps[b].at > i
  {
    NoStaleFirstFactor(x, h, steps, b, f);
    var g := h[..i + 1];
    assert g[i] == h[i] && h[i + 1] == Act(x, g, steps[i]) && Possible(g, steps[i]);
    hide Pending, LogsIn;
    assert HashOf(h[i + 1], steps[i].user) == Some(steps[i].hash);
    forall k | 0 <= k <= i
      ensures HashOf(h[k], steps[i].user) != Some(steps[i].hash)
    {
      assert g[k] == h[k];
    }
  }

  // ---------------------------------------------------------------- sessions

  /** A session that exists now and existed before is the same one, only older. */
  lemma {:induction false} SessionOver(x: Crypto, h: seq<State>, steps: seq<Step>, i: nat, j: nat, token: string)
    requires IsRun(x, h, steps) && Start(h[0]) && i <= j < |h| && token in h[i].sessions && token in h[j].sessions
    ensures SessionMoves(h[i].sessions[token], h[j].sessions[token])
    decreases j
  {
    if i < j {
      var g, s := h[..j], steps[j - 1];
      assert h[..(j - 1) + 1] == g && Possible(g, s) && h[j] == Act(x, g, s) && g[|g| - 1] == h[j - 1];
      assert g[i] == h[i];
      TokenWasThere(x, g, s, i, token);
      hide Act, Possible;
      SessionOver(x, h, steps, i, j - 1, token);
      RunIsSound(x, h, steps);
      assert Moves(h[j - 1], h[(j - 1) + 1]);
    }
  }

  lemma {:induction false} TokenWasThere(x: Crypto, h: seq<State>, s: Step, i: nat, token: string)
    requires h != [] && Possible(h, s) && i < |h| && token in h[i].sessions && token in Act(x, h, s).sessions
    ensures token in h[|h| - 1].sessions
  {
    var d := h[|h| - 1];
    match s {
      case Finish(id, second, now, t) =>
        if id in d.taken {
          OneNewSession(x, d.(taken := d.taken - {id}), d.taken[id], second, now, t, token);
        }
        hide LoginTx;
      case Reverify(t, code, now, _) =>
        if t in d.sessions {
          ConsumeTotpMoves(x, d, d.sessions[t].user, code, now);
        }
        hide ConsumeTotp;
      case _ =>
    }
  }

  lemma OneNewSession(x: Crypto, d: State, c: Challenge, second: Second, now: int, t: string, token: string)
    ensures var r := LoginTx(x, d, c, second, now, t);
            r.Some? && token in r.value.sessions ==> token in d.sessions || token == t
  {
  }

  /** A revoked session never works again, and no session works past its absolute expiry. */
  lemma {:induction false} RevocationIsPermanent(x: Crypto, h: seq<State>, steps: seq<Step>, i: nat, j: nat, token: string, now: int)
    requires IsRun(x, h, steps) && Start(h[0]) && i <= j < |h| && token in h[i].sessions
    ensures h[i].sessions[token].revoked.Some? || h[i].sessions[token].expires <= now ==> ResolveTx(h[j], token, now) == None
    ensures token in h[j].sessions ==> h[j].sessions[token].idle <= h[i].sessions[token].expires
  {
    RunIsSound(x, h, steps);
    assert IdleIsBounded(h[j]);
    if token in h[j].sessions {
      hide Act, Possible, Sound, Start;
      SessionOver(x, h, steps, i, j, token);
    }
  }

  /** A reset revokes every session the user has. */
  lemma {:induction false} ResetRevokesSessions(d: State, user: string, hash: string, now: int, token: string)
    requires ResetTx(d, user, hash, now).Some? && token in d.sessions && d.sessions[token].user == user
    ensures var e := ResetTx(d, user, hash, now).value;
            token in e.sessions && e.sessions[token].revoked.Some? && e.sessions.Keys == d.sessions.Keys
  {
  }

  /** After a password reset, no session that the user had then ever works again. */
  lemma {:induction false} ResetEndsSessions(x: Crypto, h: seq<State>, steps: seq<Step>, i: nat, j: nat, token: string, now: int)
    requires IsRun(x, h, steps) && Start(h[0]) && i < j < |h|
    requires steps[i].Reset? && ResetTx(h[i], steps[i].user, steps[i].hash, steps[i].now).Some?
    requires token in h[i].sessions && h[i].sessions[token].user == steps[i].user
    ensures ResolveTx(h[j], token, now) == None
  {
    assert h[i + 1] == Act(x, h[..i + 1], steps[i]);
    ResetRevokesSessions(h[i], steps[i].user, steps[i].hash, steps[i].now, token);
    hide Act, ResolveTx;
    RevocationIsPermanent(x, h, steps, i + 1, j, token, now);
  }

  /** Logging out succeeds on a session that is there, if audited only while it is live and its event can be logged. */
  lemma {:induction false} LogoutExactly(d: State, token: string, now: int, audited: bool, auditOk: bool)
    ensures var done := LogoutTx(d, token, now, audited, auditOk);
            && (done.Some? <==> !audited || (auditOk && token in d.sessions && d.sessions[token].revoked == None
                                             && now < d.sessions[token].expires && now < d.sessions[token].idle))
            && (done.Some? ==>
                  && done.value == d.(sessions := done.value.sessions) && done.value.sessions.Keys == d.sessions.Keys
                  && (forall t <- d.sessions :: t != token ==> done.value.sessions[t] == d.sessions[t])
                  && (token in d.sessions ==> done.value.sessions[token].revoked.Some?))
  {
  }

  /** After a logout that succeeded, the session never works again. */
  lemma {:induction false} LogoutEndsSession(x: Crypto, h: seq<State>, steps: seq<Step>, i: nat, j: nat, now: int)
    requires IsRun(x, h, steps) && Start(h[0]) && i < j < |h| && steps[i].Logout? && steps[i].token in h[i].sessions
    requires LogoutTx(h[i], steps[i].token, steps[i].now, steps[i].audited, steps[i].auditOk).Some?
    ensures ResolveTx(h[j], steps[i].token, now) == None
  {
    var s := steps[i];
    assert h[i + 1] == Act(x, h[..i + 1], s);
    LogoutExactly(h[i], s.token, s.now, s.audited, s.auditOk);
    hide Act, ResolveTx, LogoutTx;
    RevocationIsPermanent(x, h, steps, i + 1, j, s.token, now);
  }

  /** After the revocation of a user's sessions none that the user had then ever works again, and no other is touched. */
  lemma {:induction false} RevocationEndsSessions(x: Crypto, h: seq<State>, steps: seq<Step>, i: nat, j: nat, token: string, now: int)
    requires IsRun(x, h, steps) && Start(h[0]) && i < j < |h| && steps[i].RevokeUser? && token in h[i].sessions
    ensures token in h[i + 1].sessions
    ensures if h[i].sessions[token].user == steps[i].user then ResolveTx(h[j], token, now) == None
            else h[i + 1].sessions[token] == h[i].sessions[token]
  {
    assert h[i + 1] == Act(x, h[..i + 1], steps[i]);
    if h[i].sessions[token].user == steps[i].user {
      assert h[i + 1].sessions[token].revoked.Some?;
      hide Act, ResolveTx;
      RevocationIsPermanent(x, h, steps, i + 1, j, token, now);
    }
  }

  // ------------------------------------------------- when a call succeeds

  /** A code is good if some counter of the window that shows it lies above the last one used. */
  ghost predicate GoodCode(x: Crypto, t: Totp, code: string, now: int) {
    exists c :: Matches(x, t.secret, code, Counter(UnixSeconds(now)), c) && (t.last.Some? ==> t.last.value < c)
  }

  ghost predicate GoodSecond(x: Crypto, d: State, user: string, second: Second, now: int)
    requires user in d.totp
  {
    match second
    case ByTotp(code) => GoodCode(x, d.totp[user], code, now)
    case ByRecovery(codeHash) => (user, codeHash) in d.codes && d.codes[(user, codeHash)] == None
  }

  /** A code is accepted exactly when it is good, and the greatest counter that shows it is used up. */
  lemma {:induction false} CodeIsAcceptedIfGood(x: Crypto, d: State, user: string, code: string, now: int)
    ensures ConsumeTotp(x, d, user, code, now).Some? <==> user in d.totp && GoodCode(x, d.totp[user], code, now)
    ensures ConsumeTotp(x, d, user, code, now).Some? ==>
              var last := ConsumeTotp(x, d, user, code, now).value.totp[user].last;
              last.Some? && Matches(x, d.totp[user].secret, code, Counter(UnixSeconds(now)), last.value)
              && !GoodCode(x, ConsumeTotp(x, d, user, code, now).value.totp[user], code, now)
  {
    if user in d.totp {
      var t := d.totp[user];
      var found := Matching(x, t.secret, code, Counter(UnixSeconds(now)));
      if GoodCode(x, t, code, now) {
        var c :| Matches(x, t.secret, code, Counter(UnixSeconds(now)), c) && (t.last.Some? ==> t.last.value < c);
        assert c <= found.value;
      }
    }
  }

  /**
   A challenge logs in exactly when it has not expired, the user is active under the hash it was verified
   against and has a TOTP secret, and the second factor is good; the session is new, ends after a day and
   idles for eight hours, and nobody else's is touched.
   */
  lemma {:induction false} LoginSucceedsExactly(x: Crypto, d: State, c: Challenge, second: Second, now: int, token: string)
    requires token !in d.sessions
    ensures LoginTx(x, d, c, second, now, token).Some? <==>
              && now < c.expires && c.user in d.users && !d.users[c.user].deleted && d.users[c.user].hash == c.hash
              && c.user in d.totp && GoodSecond(x, d, c.user, second, now)
    ensures LoginTx(x, d, c, second, now, token).Some? ==>
              var e := LoginTx(x, d, c, second, now, token).value;
              && e.sessions == d.sessions[token := Session(c.user, now, now + 86_400 * SECOND, now + 28_800 * SECOND, None,
                                                           if second.ByTotp? then Some(now) else None)]
              && e.users == d.users[c.user := User(if c.upgraded.Some? then c.upgraded.value else c.hash, false)]
  {
    if second.ByTotp? {
      CodeIsAcceptedIfGood(x, d, c.user, second.code, now);
    }
    hide GoodCode, Matching;
    if c.user in d.users {
      assert d.users == d.users[c.user := d.users[c.user]];
    }
  }

  /** A session resolves exactly when it is neither revoked nor past either expiry, and then it idles anew. */
  lemma {:induction false} SessionResolvesExactly(d: State, token: string, now: int, later: int)
    requires now <= later
    ensures ResolveTx(d, token, now).Some? <==>
              token in d.sessions && d.sessions[token].revoked == None && now < d.sessions[token].expires && now < d.sessions[token].idle
    ensures ResolveTx(d, token, now).Some? ==>
              (ResolveTx(ResolveTx(d, token, now).value, token, later).Some?
               <==> later < d.sessions[token].expires && later < now + 28_800 * SECOND)
  {
  }

  /** A challenge is stored exactly for an active user whose password is right; it lives five minutes. */
  lemma {:induction false} FirstFactorExactly(x: Crypto, row: User, user: string, password: string, hash: string, now: int)
    ensures var c := NewChallenge(x, row, user, password, hash, now);
            && (c.Some? <==> !row.deleted && x.valid(row.hash, password))
            && (c.Some? ==> c.value.user == user && c.value.hash == row.hash && c.value.expires == now + 300 * SECOND
                            && (c.value.upgraded.Some? <==> !x.current(row.hash)) && (c.value.upgraded.Some? ==> c.value.upgraded.value == hash))
  {
  }

  /**
   Re-verification succeeds exactly on a live session with a good code whose event can be logged; it marks the session
   as verified now, lets it idle anew, and uses the code up.
   */
  lemma {:induction false} ReverifiesExactly(x: Crypto, d: State, token: string, code: string, now: int, auditOk: bool)
    ensures var done := ReverifyTx(x, d, token, code, now, auditOk);
            && (done.Some? <==>
                  && auditOk && token in d.sessions && d.sessions[token].revoked == None
                  && now < d.sessions[token].expires && now < d.sessions[token].idle
                  && d.sessions[token].user in d.totp && GoodCode(x, d.totp[d.sessions[token].user], code, now))
            && (done.Some? ==>
                  && token in done.value.sessions && done.value.sessions[token].recent == Some(now)
                  && done.value.sessions[token].idle == (if now + 28_800 * SECOND > d.sessions[token].expires then d.sessions[token].expires
                                                           else now + 28_800 * SECOND)
                  && (forall t <- d.sessions :: t != token ==> t in done.value.sessions && done.value.sessions[t] == d.sessions[t])
                  && d.sessions[token].user in done.value.totp
                  && !GoodCode(x, done.value.totp[d.sessions[token].user], code, now))
  {
    if token in d.sessions {
      CodeIsAcceptedIfGood(x, d, d.sessions[token].user, code, now);
    }
    hide ConsumeTotp, GoodCode;
  }

  // --------------------------------------------------------- a whole login

  /** Nothing at step `s` removes the challenge `id` of `user` from memory. */
  predicate LeavesChallenge(s: Step, id: string, user: string, expires: int) {
    match s
    case Begin(other, _, _, _, now, _) => now < expires
    case Take(other) => other != id
    case DropChallenges(other) => other != user
    case _ => true
  }

  /** A challenge waits until it is taken, its user's challenges are dropped, or a later login finds it expired. */
  lemma {:induction false} ChallengeWaits(x: Crypto, h: seq<State>, steps: seq<Step>, i: nat, j: nat, id: string)
    requires IsRun(x, h, steps) && i <= j < |h| && id in h[i].challenges
    requires forall k :: i <= k < j ==> LeavesChallenge(steps[k], id, h[i].challenges[id].user, h[i].challenges[id].expires)
    ensures id in h[j].challenges && h[j].challenges[id] == h[i].challenges[id]
    decreases j
  {
    if i < j {
      ChallengeWaits(x, h, steps, i, j - 1, id);
      var g := h[..j];
      assert h[..(j - 1) + 1] == g && Possible(g, steps[j - 1]) && h[j] == Act(x, g, steps[j - 1]) && g[|g| - 1] == h[j - 1];
      ChallengeIsLeft(x, g, steps[j - 1], id);
    }
  }

  lemma ChallengeIsLeft(x: Crypto, h: seq<State>, s: Step, id: string)
    requires h != [] && Possible(h, s) && id in h[|h| - 1].challenges
    requires LeavesChallenge(s, id, h[|h| - 1].challenges[id].user, h[|h| - 1].challenges[id].expires)
    ensures id in Act(x, h, s).challenges && Act(x, h, s).challenges[id] == h[|h| - 1].challenges[id]
  {
    var d := h[|h| - 1];
    match s {
      case Begin(other, _, _, _, _, _) =>
        assert id in Pending(d);
        assert other != id;
      case Finish(other, second, now, token) =>
        if other in d.taken {
          LoginUsers(x, d.(taken := d.taken - {other}), d.taken[other], second, now, token);
        }
        hide LoginTx;
      case Reverify(token, code, now, _) =>
        if token in d.sessions {
          ConsumeTotpMoves(x, d, d.sessions[token].user, code, now);
        }
        hide ConsumeTotp;
      case _ =>
    }
  }

  /**
   A login begun with the right password goes through exactly when, as its transaction runs, five minutes have not
   passed, the user is active under the hash that was read at the beginning, and the second factor is good; whatever
   other logins, resets and revocations come in between.
   */
  lemma {:induction false} LoginExactly(x: Crypto, h: seq<State>, steps: seq<Step>, b: nat, f: nat)
    requires IsRun(x, h, steps) && Start(h[0]) && b < f < |steps| && steps[b].Begin? && steps[f].Finish?
    requires steps[f].id == steps[b].id && steps[b].id in Pending(h[b + 1]) && steps[f].id in h[f].taken
    ensures steps[b].at <= b && steps[b].user in h[steps[b].at].users
    ensures var d, user := h[f], steps[b].user;
            LogsIn(x, d, steps[f]) <==>
              && steps[f].now < steps[b].now + 300 * SECOND
              && HashOf(d, user) == Some(h[steps[b].at].users[user].hash) && !d.users[user].deleted
              && user in d.totp && GoodSecond(x, d, user, steps[f].second, steps[f].now)
  {
    var s, d := steps[b], h[f];
    BegunChallenge(x, h, steps, b);
    BegunExpires(x, h, steps, b);
    assert s.id in Pending(d);
    PendingOver(x, h, steps, b + 1, f, s.id);
    assert Possible(h[..f + 1], steps[f]) && h[..f + 1][f] == d;
    RunIsSound(x, h, steps);
    assert Apart(d);
    var c := d.taken[s.id];
    assert c == Pending(h[b + 1])[s.id];
    hide Act, IsRun, Sound, Start, LoginTx;
    LoginSucceedsExactly(x, d.(taken := d.taken - {s.id}), c, steps[f].second, steps[f].now, steps[f].token);
  }

  lemma {:induction false} BegunExpires(x: Crypto, h: seq<State>, steps: seq<Step>, b: nat)
    requires IsRun(x, h, steps) && b < |steps| && steps[b].Begin? && steps[b].id in Pending(h[b + 1])
    ensures Pending(h[b + 1])[steps[b].id].expires == steps[b].now + 300 * SECOND
  {
    var g := h[..b + 1];
    assert g[b] == h[b] && h[b + 1] == Act(x, g, steps[b]) && Possible(g, steps[b]);
    assert forall i :: 0 <= i <= b ==> g[i] == h[i];
    assert steps[b].id !in Pending(g[b]);
  }

  /** A counter is tried exactly if its half minute began less than a minute ago or begins within one period. */
  lemma WindowExactly(x: Crypto, secret: string, code: string, now: int, c: int)
    requires now >= 0
    ensures Matches(x, secret, code, Counter(UnixSeconds(now)), c)
            <==> 0 <= c && x.code(secret, c) == code && 30 * (c - 1) * SECOND <= now < 30 * (c + 2) * SECOND
  {
    var u := UnixSeconds(now);
    assert u / 30 - 1 <= c <= u / 30 + 1 <==> 30 * (c - 1) <= u < 30 * (c + 2);
  }

  /** A reset succeeds exactly for a user who is there; it sets the hash, revokes that user's sessions and touches no one else. */
  lemma {:induction false} ResetExactly(d: State, user: string, hash: string, now: int)
    ensures ResetTx(d, user, hash, now).Some? <==> user in d.users && !d.users[user].deleted
    ensures ResetTx(d, user, hash, now).Some? ==>
              var e := ResetTx(d, user, hash, now).value;
              && e == d.(users := e.users, sessions := e.sessions) && e.users == d.users[user := User(hash, false)]
              && e.sessions.Keys == d.sessions.Keys
              && forall t <- d.sessions :: if d.sessions[t].user == user then e.sessions[t].revoked.Some?
                                           else e.sessions[t] == d.sessions[t]
  {
  }

  /** Dropping a user's challenges leaves none of them in memory, and all others. */
  lemma {:induction false} ChallengesAreDropped(x: Crypto, h: seq<State>, s: Step)
    requires h != [] && s.DropChallenges?
    ensures var d, e := h[|h| - 1], Act(x, h, s);
            && e == d.(challenges := e.challenges)
            && forall id :: id in e.challenges <==> id in d.challenges && d.challenges[id].user != s.user
  {
  }

  /** Whoever was deleted never logs in again. */
  lemma {:induction false} DeletedStaysOut(x: Crypto, h: seq<State>, steps: seq<Step>, i: nat, f: nat)
    requires IsRun(x, h, steps) && Start(h[0]) && i < f < |steps| && steps[i].DeleteUser? && steps[i].user in h[i].users
    requires steps[f].Finish? && steps[f].id in h[f].taken && h[f].taken[steps[f].id].user == steps[i].user
    ensures !LogsIn(x, h[f], steps[f])
  {
    DeletionIsMarked(x, h, steps, i);
    RunIsSound(x, h, steps);
    assert |h| == |steps| + 1;
    if LogsIn(x, h[f], steps[f]) {
      LoginChecksHash(x, h, steps, f);
      hide IsRun, Sound, Start, LogsIn;
      DeletedOver(h, i + 1, f, steps[i].user);
    }
  }

  lemma {:induction false} DeletionIsMarked(x: Crypto, h: seq<State>, steps: seq<Step>, i: nat)
    requires IsRun(x, h, steps) && i < |steps| && steps[i].DeleteUser? && steps[i].user in h[i].users
    ensures steps[i].user in h[i + 1].users && h[i + 1].users[steps[i].user].deleted
  {
    assert h[i + 1] == Act(x, h[..i + 1], steps[i]);
  }

  lemma {:induction false} DeletedOver(h: seq<State>, i: nat, j: nat, user: string)
    requires Sound(h) && i <= j < |h| && user in h[i].users && h[i].users[user].deleted
    ensures user in h[j].users && h[j].users[user].deleted
    decreases j
  {
    if i < j {
      DeletedOver(h, i, j - 1, user);
      assert Moves(h[j - 1], h[(j - 1) + 1]);
    }
  }
}
