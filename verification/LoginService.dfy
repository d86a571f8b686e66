/** The identity service as code that updates its tables and its challenge map in place. */
module LoginService {
  import opened Wrappers
  import opened LoginSpec

  class Service {
    const x: Crypto
    var users: map<string, User>
    var totp: map<string, Totp>
    var codes: map<(string, string), Option<int>>
    var sessions: map<string, Session>
    var challenges: map<string, Challenge>
    ghost var taken: map<string, Challenge>

    ghost function Current(): State
      reads this
    {
      State(users, totp, codes, sessions, challenges, taken)
    }

    constructor (x: Crypto)
      ensures this.x == x && Current() == State(map[], map[], map[], map[], map[], map[])
    {
      this.x := x;
      users, totp, codes, sessions, challenges, taken := map[], map[], map[], map[], map[], map[];
    }

    /** `removeExpiredChallengesLocked` */
    method RemoveExpiredChallenges(now: int)
      modifies this`challenges
      ensures challenges == Unexpired(old(challenges), now)
    {
      var todo := challenges.Keys;
      while todo != {}
        invariant todo <= challenges.Keys <= old(challenges).Keys
        invariant forall id <- challenges :: challenges[id] == old(challenges)[id]
        invariant forall id <- old(challenges) :: id in challenges <==> id in todo || now < old(challenges)[id].expires
        decreases |todo|
      {
        var id :| id in todo;
        todo := todo - {id};
        if now >= challenges[id].expires {
          challenges := challenges - {id};
        }
      }
    }

    /** `BeginLogin` once the user row has been read; reading and hashing take place outside any lock. */
    method BeginLogin(id: string, row: Option<User>, user: string, password: string, hash: string, now: int) returns (ok: bool)
      modifies this`challenges
      ensures ok == (row.Some? && NewChallenge(x, row.value, user, password, hash, now).Some?)
      ensures !ok ==> challenges == old(challenges)
      ensures ok ==> challenges == Unexpired(old(challenges), now)[id := NewChallenge(x, row.value, user, password, hash, now).value]
    {
      if row.None? || row.value.deleted || !x.valid(row.value.hash, password) {
        return false;
      }
      var upgraded: Option<string> := None;
      if !x.current(row.value.hash) {
        upgraded := Some(hash);
      }
      RemoveExpiredChallenges(now);
      challenges := challenges[id := Challenge(user, now + CHALLENGE_LIFETIME, row.value.hash, upgraded)];
      return true;
    }

    /** `consumeChallenge`: whoever asks first gets it, and it is gone. */
    method ConsumeChallenge(id: string) returns (c: Option<Challenge>)
      modifies this`challenges, this`taken
      ensures c == if id in old(challenges) then Some(old(challenges)[id]) else None
      ensures challenges == old(challenges) - {id}
      ensures taken == if c.Some? then old(taken)[id := c.value] else old(taken)
    {
      if id !in challenges {
        return None;
      }
      c := Some(challenges[id]);
      challenges := challenges - {id};
      taken := taken[id := c.value];
    }

    /** `verifyAndConsumeTOTP` and the guarded UPDATE of `consumeTOTPCounter`. */
    method VerifyAndConsumeTotp(user: string, code: string, now: int) returns (ok: bool)
      modifies this`totp
      ensures ok == ConsumeTotp(x, old(Current()), user, code, now).Some?
      ensures Current() == Committed(old(Current()), ConsumeTotp(x, old(Current()), user, code, now))
    {
      if user !in totp {
        return false;
      }
      var row := totp[user];
      var found := MatchingTotpCounter(x, row.secret, code, UnixSeconds(now));
      if found.None? {
        return false;
      }
      if row.last.Some? && found.value <= row.last.value {
        return false;
      }
      totp := totp[user := row.(last := Some(found.value))];
      return true;
    }

    method ConsumeRecoveryCode(user: string, codeHash: string, now: int) returns (ok: bool)
      modifies this`codes
      ensures ok == ConsumeRecovery(old(Current()), user, codeHash, now).Some?
      ensures Current() == Committed(old(Current()), ConsumeRecovery(old(Current()), user, codeHash, now))
    {
      if (user, codeHash) !in codes || codes[(user, codeHash)].Some? {
        return false;
      }
      codes := codes[(user, codeHash) := Some(now)];
      return true;
    }

    /** `CompleteLogin` after the challenge was consumed: one transaction, rolled back when a check fails. */
    method CompleteLogin(c: Challenge, second: Second, now: int, token: string) returns (ok: bool)
      modifies this`users, this`totp, this`codes, this`sessions
      ensures ok == LoginTx(x, old(Current()), c, second, now, token).Some?
      ensures Current() == Committed(old(Current()), LoginTx(x, old(Current()), c, second, now, token))
    {
      hide ConsumeTotp, ConsumeRecovery;
      if now >= c.expires {
        return false;
      }
      if c.user !in users || users[c.user].deleted {
        return false;
      }
      if users[c.user].hash != c.hash {
        return false;
      }
      if c.user !in totp {
        return false;
      }
      var totpBefore, codesBefore := totp, codes;
      match second {
        case ByTotp(code) => ok := VerifyAndConsumeTotp(c.user, code, now);
        case ByRecovery(codeHash) => ok := ConsumeRecoveryCode(c.user, codeHash, now);
      }
      if !ok {
        return false;
      }
      if token in sessions {
        totp, codes := totpBefore, codesBefore;
        return false;
      }
      if c.upgraded.Some? {
        users := users[c.user := users[c.user].(hash := c.upgraded.value)];
      }
      var recent: Option<int> := None;
      if second.ByTotp? {
        recent := Some(now);
      }
      sessions := sessions[token := Session(c.user, now, now + ABSOLUTE_LIFETIME, now + IDLE_LIFETIME, None, recent)];
      return true;
    }

    method ResolveSession(token: string, now: int) returns (ok: bool)
      modifies this`sessions
      ensures ok == ResolveTx(old(Current()), token, now).Some?
      ensures Current() == Committed(old(Current()), ResolveTx(old(Current()), token, now))
    {
      if token !in sessions || sessions[token].revoked.Some? {
        return false;
      }
      var s := sessions[token];
      if now >= s.expires || now >= s.idle {
        return false;
      }
      var nextIdle := now + IDLE_LIFETIME;
      if nextIdle > s.expires {
        nextIdle := s.expires;
      }
      sessions := sessions[token := s.(idle := nextIdle)];
      return true;
    }

    method VerifyRecentTotp(token: string, code: string, now: int, auditOk: bool) returns (ok: bool)
      modifies this`totp, this`sessions
      ensures ok == ReverifyTx(x, old(Current()), token, code, now, auditOk).Some?
      ensures Current() == Committed(old(Current()), ReverifyTx(x, old(Current()), token, code, now, auditOk))
    {
      hide ConsumeTotp;
      if token !in sessions || !Live(sessions[token], now) {
        return false;
      }
      var before := totp;
      ok := VerifyAndConsumeTotp(sessions[token].user, code, now);
      if !ok {
        return;
      }
      Reverified(old(Current()), code, now, token);
      if !auditOk {
        totp := before;
        return false;
      }
      sessions := sessions[token := sessions[token].(recent := Some(now), idle := NextIdle(sessions[token], now))];
    }

    lemma Reverified(d: State, code: string, now: int, token: string)
      requires token in d.sessions
      ensures var r := ConsumeTotp(x, d, d.sessions[token].user, code, now);
              r.Some? ==> r.value == d.(totp := r.value.totp)
    {
    }

    method LogOut(token: string, now: int, audited: bool, auditOk: bool) returns (ok: bool)
      modifies this`sessions
      ensures ok == LogoutTx(old(Current()), token, now, audited, auditOk).Some?
      ensures Current() == Committed(old(Current()), LogoutTx(old(Current()), token, now, audited, auditOk))
    {
      if token !in sessions {
        return !audited;
      }
      if audited && (!Live(sessions[token], now) || !auditOk) {
        return false;
      }
      sessions := sessions[token := Revoke(sessions[token], now)];
      return true;
    }

    /** `ResetPassword`: the transaction first, then the user's challenges in memory. */
    method ResetPassword(user: string, hash: string, now: int) returns (ok: bool)
      modifies this`users, this`sessions, this`challenges
      ensures ok == ResetTx(old(Current()), user, hash, now).Some?
      ensures Current() == Committed(old(Current()), ResetTx(old(Current()), user, hash, now)).(challenges := challenges)
      ensures !ok ==> challenges == old(challenges)
      ensures ok ==> challenges == map id | id in old(challenges) && old(challenges)[id].user != user :: old(challenges)[id]
    {
      if user !in users || users[user].deleted {
        return false;
      }
      users := users[user := users[user].(hash := hash)];
      sessions := RevokeAll(sessions, user, now);
      var todo := challenges.Keys;
      while todo != {}
        modifies this`challenges
        invariant todo <= challenges.Keys <= old(challenges).Keys
        invariant forall id <- challenges :: challenges[id] == old(challenges)[id]
        invariant forall id <- old(challenges) :: id in challenges <==> id in todo || old(challenges)[id].user != user
        decreases |todo|
      {
        var id :| id in todo;
        todo := todo - {id};
        if challenges[id].user == user {
          challenges := challenges - {id};
        }
      }
      return true;
    }
  }
}
