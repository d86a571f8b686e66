/** What holds over every interleaving of logins, re-verifications, logouts, resets and revocations. */
module LoginRuns {
  import opened Wrappers
  import opened LoginSpec

  // ------------------------------------------------------- what one step keeps

  /** Accepted counters only grow, used codes stay used, sessions keep their owner and never un-revoke. */
  ghost predicate Moves(d: State, e: State) {
    && (forall u <- d.totp :: u in e.totp && e.totp[u].secret == d.totp[u].secret
          && (d.totp[u].last.Some? ==> e.totp[u].last.Some? && d.totp[u].last.value <= e.totp[u].last.value))
    && (forall c <- d.codes :: c in e.codes && (d.codes[c].Some? ==> e.codes[c] == d.codes[c]))
    && (forall u <- d.users :: u in e.users && (d.users[u].deleted ==> e.users[u].deleted))
    && (forall t :: t in d.sessions && t in e.sessions ==> SessionMoves(d.sessions[t], e.sessions[t]))
    && (forall id <- Pending(e) :: id in Pending(d) ==> Pending(e)[id] == Pending(d)[id])
  }

  predicate SessionMoves(a: Session, b: Session) {
    && b.user == a.user && b.created == a.created && b.expires == a.expires
    && (a.revoked.Some? ==> b.revoked == a.revoked)
  }

  /** No session outlives its absolute expiry by staying busy. */
  ghost predicate IdleIsBounded(d: State) {
    forall t <- d.sessions :: d.sessions[t].idle <= d.sessions[t].expires
  }

  /** Challenges in memory and taken challenges are different ones. */
  ghost predicate Apart(d: State) {
    d.challenges.Keys !! d.taken.Keys
  }

  lemma ConsumeTotpMoves(x: Crypto, d: State, user: string, code: string, now: int)
    ensures var r := ConsumeTotp(x, d, user, code, now);
            r.Some? ==> Moves(d, r.value) && r.value == d.(totp := r.value.totp)
  {
  }

  lemma ConsumeRecoveryMoves(d: State, user: string, codeHash: string, now: int)
    ensures var r := ConsumeRecovery(d, user, codeHash, now);
            r.Some? ==> Moves(d, r.value) && r.value == d.(codes := r.value.codes)
  {
  }

  lemma LoginMoves(x: Crypto, d: State, c: Challenge, second: Second, now: int, token: string)
    requires Apart(d) && IdleIsBounded(d)
    ensures var r := LoginTx(x, d, c, second, now, token);
            r.Some? ==> Moves(d, r.value) && IdleIsBounded(r.value) && r.value.challenges == d.challenges && r.value.taken == d.taken
  {
    match second {
      case ByTotp(code) => ConsumeTotpMoves(x, d, c.user, code, now);
      case ByRecovery(codeHash) => ConsumeRecoveryMoves(d, c.user, codeHash, now);
    }
    hide ConsumeTotp, ConsumeRecovery;
  }

  lemma RevokeAllMoves(d: State, user: string, now: int)
    requires IdleIsBounded(d)
    ensures var e := d.(sessions := RevokeAll(d.sessions, user, now));
            Moves(d, e) && IdleIsBounded(e)
  {
  }

  lemma {:induction false} ChallengeSteps(x: Crypto, h: seq<State>, s: Step)
    requires h != [] && Possible(h, s) && Apart(h[|h| - 1]) && (s.Begin? || s.Take? || s.DropChallenges?)
    ensures var d, e := h[|h| - 1], Act(x, h, s);
            Apart(e) && e == d.(challenges := e.challenges, taken := e.taken)
            && forall id <- Pending(e) :: id in Pending(d) ==> Pending(e)[id] == Pending(d)[id]
  {
  }

  lemma {:induction false} SameTablesMove(d: State, e: State)
    requires e == d.(challenges := e.challenges, taken := e.taken) && IdleIsBounded(d)
    requires forall id <- Pending(e) :: id in Pending(d) ==> Pending(e)[id] == Pending(d)[id]
    ensures Moves(d, e) && IdleIsBounded(e)
  {
  }

  lemma {:induction false} SessionSteps(d: State, sessions: map<string, Session>)
    requires IdleIsBounded(d) && forall t <- sessions :: sessions[t].idle <= sessions[t].expires
    requires forall t <- sessions :: t in d.sessions ==> SessionMoves(d.sessions[t], sessions[t])
    ensures Moves(d, d.(sessions := sessions)) && IdleIsBounded(d.(sessions := sessions))
  {
  }

  lemma {:induction false} QuietSteps(x: Crypto, h: seq<State>, s: Step)
    requires h != [] && Apart(h[|h| - 1]) && IdleIsBounded(h[|h| - 1])
    requires s.Resolve? || s.Logout? || s.Sweep? || s.DeleteUser?
    ensures Moves(h[|h| - 1], Act(x, h, s)) && Apart(Act(x, h, s)) && IdleIsBounded(Act(x, h, s))
  {
    var d, e := h[|h| - 1], Act(x, h, s);
    if s.DeleteUser? {
      hide Pending;
    } else {
      hide Moves, Pending;
      assert e == d.(sessions := e.sessions);
      SessionSteps(d, e.sessions);
    }
  }

  lemma {:induction false} TableSteps(x: Crypto, h: seq<State>, s: Step)
    requires h != [] && Apart(h[|h| - 1]) && IdleIsBounded(h[|h| - 1])
    requires s.Reset? || s.RevokeUser? || s.Reverify?
    ensures Moves(h[|h| - 1], Act(x, h, s)) && Apart(Act(x, h, s)) && IdleIsBounded(Act(x, h, s))
  {
    var d := h[|h| - 1];
    SameTablesMove(d, d);
    if s.Reverify? {
      ReverifyMoves(x, d, s.token, s.code, s.now, s.auditOk);
    } else {
      RevokeAllMoves(d, s.user, s.now);
    }
    hide ReverifyTx, RevokeAll, Pending;
  }

  lemma {:induction false} StepMoves(x: Crypto, h: seq<State>, s: Step)
    requires h != [] && Possible(h, s) && Apart(h[|h| - 1]) && IdleIsBounded(h[|h| - 1])
    ensures Moves(h[|h| - 1], Act(x, h, s)) && Apart(Act(x, h, s)) && IdleIsBounded(Act(x, h, s))
  {
    hide Act, Moves, Pending, Apart, IdleIsBounded;
    if s.Finish? {
      FinishMoves(x, h, s);
    } else if s.Begin? || s.Take? || s.DropChallenges? {
      ChallengeSteps(x, h, s);
      SameTablesMove(h[|h| - 1], Act(x, h, s));
    } else if s.Reset? || s.RevokeUser? || s.Reverify? {
      TableSteps(x, h, s);
    } else {
      QuietSteps(x, h, s);
    }
  }

  lemma {:induction false} FinishMoves(x: Crypto, h: seq<State>, s: Step)
    requires h != [] && s.Finish? && Apart(h[|h| - 1]) && IdleIsBounded(h[|h| - 1])
    ensures Moves(h[|h| - 1], Act(x, h, s)) && Apart(Act(x, h, s)) && IdleIsBounded(Act(x, h, s))
  {
    var d := h[|h| - 1];
    if s.id in d.taken {
      var e := d.(taken := d.taken - {s.id});
      LoginMoves(x, e, d.taken[s.id], s.second, s.now, s.token);
      hide LoginTx;
    } else {
      SameTablesMove(d, d);
    }
  }

  lemma {:induction false} ReverifyMoves(x: Crypto, d: State, token: string, code: string, now: int, auditOk: bool)
    requires IdleIsBounded(d)
    ensures var r := ReverifyTx(x, d, token, code, now, auditOk);
            r.Some? ==> Moves(d, r.value) && IdleIsBounded(r.value) && r.value.challenges == d.challenges && r.value.taken == d.taken
  {
    if token in d.sessions {
      ConsumeTotpMoves(x, d, d.sessions[token].user, code, now);
    }
    hide ConsumeTotp;
  }

  // --------------------------------------------------------- password hashes

  function HashOf(d: State, user: string): Option<string> {
    if user in d.users then Some(d.users[user].hash) else None
  }

  /** No state so far has this hash for the user. */
  ghost predicate Unseen(h: seq<State>, user: string, hash: string) {
    forall i :: 0 <= i < |h| ==> HashOf(h[i], user) != Some(hash)
  }

  /** A password hash that was replaced never comes back. */
  ghost predicate HashesNeverReturn(h: seq<State>) {
    forall i, j, k, u :: 0 <= i <= j <= k < |h| && HashOf(h[i], u).Some? && HashOf(h[i], u) == HashOf(h[k], u) ==>
      HashOf(h[j], u) == HashOf(h[i], u)
  }

  /** The re-hashes that wait in challenges were never in use, and each waits in one challenge only. */
  ghost predicate UpgradesAreNew(h: seq<State>)
    requires h != []
  {
    var pending := Pending(h[|h| - 1]);
    && (forall id <- pending :: pending[id].upgraded.Some? ==> Unseen(h, pending[id].user, pending[id].upgraded.value))
    && (forall id, o :: id in pending && o in pending && id != o && pending[id].upgraded.Some? ==> pending[o].upgraded != pending[id].upgraded)
  }

  /** A step that changes a user's hash installs one never seen, and no challenge that remains waits with it. */
  lemma HashStep(x: Crypto, h: seq<State>, s: Step, u: string)
    requires h != [] && Possible(h, s) && UpgradesAreNew(h) && Apart(h[|h| - 1])
    ensures var d, e := h[|h| - 1], Act(x, h, s);
            && (u in e.users <==> u in d.users)
            && (u in d.users && e.users[u].hash != d.users[u].hash ==>
                  Unseen(h, u, e.users[u].hash) && forall id <- Pending(e) :: Pending(e)[id].upgraded != Some(e.users[u].hash))
  {
    var d := h[|h| - 1];
    match s {
      case Finish(id, second, now, token) =>
        if id in d.taken {
          var e := d.(taken := d.taken - {id});
          LoginUsers(x, e, d.taken[id], second, now, token);
          assert Pending(d)[id] == d.taken[id];
          hide LoginTx, Unseen;
          forall o | o in Pending(e)
            ensures o in Pending(d) && o != id && Pending(e)[o] == Pending(d)[o]
          {
          }
        }
      case Reset(user, hash, now) =>
        NewHashIsUnseen(h, user, hash);
        hide RevokeAll, NewHash, Unseen;
      case _ =>
        OtherUsers(x, h, s, u);
    }
  }

  lemma NewHashIsUnseen(h: seq<State>, user: string, hash: string)
    requires h != [] && NewHash(h, user, hash)
    ensures Unseen(h, user, hash)
    ensures var pending := Pending(h[|h| - 1]);
            forall id <- pending :: pending[id].upgraded != Some(hash)
  {
  }

  lemma LoginUsers(x: Crypto, d: State, c: Challenge, second: Second, now: int, token: string)
    ensures var r := LoginTx(x, d, c, second, now, token);
            r.Some? ==>
              && r.value.challenges == d.challenges && r.value.taken == d.taken
              && c.user in d.users && d.users[c.user].hash == c.hash && !d.users[c.user].deleted
              && r.value.users == (if c.upgraded.Some? then d.users[c.user := d.users[c.user].(hash := c.upgraded.value)] else d.users)
              && token in r.value.sessions && r.value.sessions[token].user == c.user
              && r.value.sessions[token].created == now && r.value.sessions[token].revoked == None
  {
    match second {
      case ByTotp(code) => ConsumeTotpMoves(x, d, c.user, code, now);
      case ByRecovery(codeHash) => ConsumeRecoveryMoves(d, c.user, codeHash, now);
    }
    hide ConsumeTotp, ConsumeRecovery;
  }

  lemma OtherUsers(x: Crypto, h: seq<State>, s: Step, u: string)
    requires h != [] && (s.Begin? ==> s.at < |h|) && !s.Finish? && !s.Reset?
    ensures var d, e := h[|h| - 1], Act(x, h, s);
            (u in e.users <==> u in d.users) && (u in d.users ==> e.users[u].hash == d.users[u].hash)
  {
    if s.Reverify? && s.token in h[|h| - 1].sessions {
      ConsumeTotpMoves(x, h[|h| - 1], h[|h| - 1].sessions[s.token].user, s.code, s.now);
    }
    hide ConsumeTotp;
  }

  lemma {:induction false} HashesStayNew(x: Crypto, h: seq<State>, s: Step)
    requires h != [] && Possible(h, s) && HashesNeverReturn(h) && UpgradesAreNew(h) && Apart(h[|h| - 1]) && IdleIsBounded(h[|h| - 1])
    ensures HashesNeverReturn(h + [Act(x, h, s)])
  {
    var e := Act(x, h, s);
    var g := h + [e];
    forall u
      ensures u in e.users <==> u in h[|h| - 1].users
      ensures u in e.users && e.users[u].hash != h[|h| - 1].users[u].hash ==> Unseen(h, u, e.users[u].hash)
    {
      HashStep(x, h, s, u);
    }
    hide Act, Possible, UpgradesAreNew, HashesNeverReturn, Unseen;
    assert forall u :: HashOf(e, u) == HashOf(h[|h| - 1], u) || (HashOf(e, u).Some? && Unseen(h, u, HashOf(e, u).value));
    NeverReturnNext(h, e);
  }

  lemma {:induction false} NeverReturnNext(h: seq<State>, e: State)
    requires h != [] && HashesNeverReturn(h)
    requires forall u :: HashOf(e, u) == HashOf(h[|h| - 1], u) || (HashOf(e, u).Some? && Unseen(h, u, HashOf(e, u).value))
    ensures HashesNeverReturn(h + [e])
  {
    hide HashOf;
    var g, last := h + [e], |h| - 1;
    forall i, j, k, u | 0 <= i <= j <= k < |g| && HashOf(g[i], u).Some? && HashOf(g[i], u) == HashOf(g[k], u)
      ensures HashOf(g[j], u) == HashOf(g[i], u)
    {
      if k == |h| && j < |h| {
        assert HashOf(h[i], u) == HashOf(h[last], u);
      }
    }
  }

  lemma {:induction false} UpgradesStayNew(x: Crypto, h: seq<State>, s: Step)
    requires h != [] && Possible(h, s) && UpgradesAreNew(h) && Apart(h[|h| - 1]) && IdleIsBounded(h[|h| - 1])
    ensures UpgradesAreNew(h + [Act(x, h, s)])
  {
    var d, e := h[|h| - 1], Act(x, h, s);
    var g := h + [e];
    NewPending(x, h, s);
    forall u
      ensures u in e.users ==> u in d.users
      ensures u in e.users && e.users[u].hash != d.users[u].hash ==>
                forall id <- Pending(e) :: Pending(e)[id].upgraded != Some(e.users[u].hash)
    {
      HashStep(x, h, s, u);
    }
    hide Act, IdleIsBounded;
    forall id | id in Pending(e) && Pending(e)[id].upgraded.Some?
      ensures Unseen(g, Pending(e)[id].user, Pending(e)[id].upgraded.value)
    {
      if id in Pending(d) {
        assert Unseen(h, Pending(d)[id].user, Pending(d)[id].upgraded.value);
      }
    }
  }

  /** Challenges keep their content; only `Begin` adds one, with a hash nothing has seen. */
  lemma NewPending(x: Crypto, h: seq<State>, s: Step)
    requires h != [] && Possible(h, s) && Apart(h[|h| - 1]) && IdleIsBounded(h[|h| - 1])
    ensures var d, e := h[|h| - 1], Act(x, h, s);
            && (forall id <- Pending(e) :: id in Pending(d) ==> Pending(e)[id] == Pending(d)[id])
            && (forall id <- Pending(e) :: id !in Pending(d) ==>
                  s.Begin? && id == s.id && Pending(e)[id].user == s.user
                  && (Pending(e)[id].upgraded == None || Pending(e)[id].upgraded == Some(s.hash)))
  {
    StepMoves(x, h, s);
    var d := h[|h| - 1];
    match s {
      case Finish(id, second, now, token) =>
        if id in d.taken {
          LoginUsers(x, d.(taken := d.taken - {id}), d.taken[id], second, now, token);
        }
        hide LoginTx;
      case Reverify(token, code, now, auditOk) =>
        if token in d.sessions {
          ConsumeTotpMoves(x, d, d.sessions[token].user, code, now);
        }
        hide ConsumeTotp;
      case _ =>
    }
  }

  // ------------------------------------------------------------------- runs

  ghost predicate Sound(h: seq<State>) {
    && h != []
    && (forall i :: 0 <= i < |h| ==> Apart(h[i]) && IdleIsBounded(h[i]))
    && (forall i :: 0 <= i < |h| - 1 ==> Moves(h[i], h[i + 1]))
    && HashesNeverReturn(h) && UpgradesAreNew(h)
  }

  /** A state to start from: nothing is pending. */
  ghost predicate Start(d: State) {
    Pending(d) == map[] && IdleIsBounded(d)
  }

  lemma {:induction false} RunPrefix(x: Crypto, h: seq<State>, steps: seq<Step>, n: nat)
    requires IsRun(x, h, steps) && n <= |steps|
    ensures IsRun(x, h[..n + 1], steps[..n])
  {
    hide Act;
    var g := h[..n + 1];
    forall i | 0 <= i < n
      ensures Possible(g[..i + 1], steps[..n][i]) && g[i + 1] == Act(x, g[..i + 1], steps[..n][i])
    {
      assert g[..i + 1] == h[..i + 1];
    }
  }

  /** Every run from a state with nothing pending is sound. */
  lemma {:induction false} RunIsSound(x: Crypto, h: seq<State>, steps: seq<Step>)
    requires IsRun(x, h, steps) && Start(h[0])
    ensures Sound(h)
    decreases |steps|
  {
    if steps == [] {
      assert h == [h[0]];
      StartIsSound(h[0]);
    } else {
      var n := |steps| - 1;
      RunPrefix(x, h, steps, n);
      var g := h[..n + 1];
      RunIsSound(x, g, steps[..n]);
      assert h == g + [h[n + 1]] && Possible(g, steps[n]) && h[n + 1] == Act(x, g, steps[n]);
      hide Act, Possible, Moves, Apart, IdleIsBounded, HashesNeverReturn, UpgradesAreNew;
      StepMoves(x, g, steps[n]);
      HashesStayNew(x, g, steps[n]);
      UpgradesStayNew(x, g, steps[n]);
    }
  }

  lemma StartIsSound(d: State)
    requires Start(d)
    ensures Sound([d])
  {
    assert d.challenges.Keys <= Pending(d).Keys && d.taken.Keys <= Pending(d).Keys;
  }

  lemma SoundPrefix(h: seq<State>, n: nat, x: Crypto, steps: seq<Step>)
    requires IsRun(x, h, steps) && Start(h[0]) && n <= |steps|
    ensures Sound(h[..n + 1]) && IsRun(x, h[..n + 1], steps[..n])
  {
    RunPrefix(x, h, steps, n);
    RunIsSound(x, h[..n + 1], steps[..n]);
  }

  lemma {:induction false} MovesOver(h: seq<State>, i: nat, j: nat)
    requires Sound(h) && i <= j < |h|
    ensures forall u <- h[i].totp :: u in h[j].totp && h[j].totp[u].secret == h[i].totp[u].secret
              && (h[i].totp[u].last.Some? ==> h[j].totp[u].last.Some? && h[i].totp[u].last.value <= h[j].totp[u].last.value)
    ensures forall c <- h[i].codes :: c in h[j].codes && (h[i].codes[c].Some? ==> h[j].codes[c] == h[i].codes[c])
    decreases j
  {
    if i < j {
      MovesOver(h, i, j - 1);
      assert Moves(h[j - 1], h[(j - 1) + 1]);
    }
  }
}
