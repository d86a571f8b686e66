/**
 Logging in (internal/identity/service.go, internal/identity/repository.go): users, TOTP counters, recovery
 codes and sessions in the database, login challenges in memory, and what each request does to them.
 */
module LoginSpec {
  import opened Wrappers

  const SECOND: int := 1_000_000_000
  const CHALLENGE_LIFETIME: int := 300 * SECOND
  const IDLE_LIFETIME: int := 28_800 * SECOND
  const ABSOLUTE_LIFETIME: int := 86_400 * SECOND

  datatype User = User(hash: string, deleted: bool)

  datatype Totp = Totp(secret: string, last: Option<int>)

  datatype Session = Session(user: string, created: int, expires: int, idle: int, revoked: Option<int>, recent: Option<int>)

  /** A first factor that was verified against `hash`, and the re-hash of the password if its form is old. */
  datatype Challenge = Challenge(user: string, expires: int, hash: string, upgraded: Option<string>)

  /** `taken` holds challenges already removed from memory whose transaction has not run yet. */
  datatype State = State(users: map<string, User>, totp: map<string, Totp>, codes: map<(string, string), Option<int>>,
                         sessions: map<string, Session>, challenges: map<string, Challenge>, taken: map<string, Challenge>)

  /** Password verification, whether a hash has the current form, and the code of a secret at a counter. */
  datatype Crypto = Crypto(valid: (string, string) -> bool, current: string -> bool, code: (string, int) -> string)

  datatype Second = ByTotp(code: string) | ByRecovery(codeHash: string)

  // -------------------------------------------------------------------- TOTP

  /** Go's division of Unix seconds by the period, which truncates toward zero. */
  function Counter(unix: int): int {
    if unix >= 0 then unix / 30 else -((-unix) / 30)
  }

  predicate Matches(x: Crypto, secret: string, code: string, current: int, c: int) {
    current - 1 <= c <= current + 1 && 0 <= c && x.code(secret, c) == code
  }

  /** `matchingTOTPCounter`: the latest counter of the window that shows this code. */
  function Matching(x: Crypto, secret: string, code: string, current: int): (found: Option<int>)
    ensures found.Some? ==> Matches(x, secret, code, current, found.value)
    ensures forall c :: Matches(x, secret, code, current, c) ==> found.Some? && c <= found.value
  {
    if Matches(x, secret, code, current, current + 1) then Some(current + 1)
    else if Matches(x, secret, code, current, current) then Some(current)
    else if Matches(x, secret, code, current, current - 1) then Some(current - 1)
    else None
  }

  method MatchingTotpCounter(x: Crypto, secret: string, code: string, unix: int) returns (found: Option<int>)
    ensures found == Matching(x, secret, code, Counter(unix))
  {
    var current := Counter(unix);
    var offset := -1;
    found := None;
    while offset <= 1
      invariant -1 <= offset <= 2
      invariant found.Some? ==> Matches(x, secret, code, current, found.value) && found.value < current + offset
      invariant forall c :: Matches(x, secret, code, current, c) && c < current + offset ==> found.Some? && c <= found.value
      decreases 2 - offset
    {
      var counter := current + offset;
      if counter >= 0 && x.code(secret, counter) == code {
        if found.None? || counter > found.value {
          found := Some(counter);
        }
      }
      offset := offset + 1;
    }
  }

  /** `verifyAndConsumeTOTP`: a counter is accepted only above the last one used. */
  function ConsumeTotp(x: Crypto, d: State, user: string, code: string, now: int): Option<State> {
    if user !in d.totp then None
    else
      match Matching(x, d.totp[user].secret, code, Counter(UnixSeconds(now)))
      case None => None
      case Some(c) =>
        if d.totp[user].last.Some? && c <= d.totp[user].last.value then None
        else Some(d.(totp := d.totp[user := d.totp[user].(last := Some(c))]))
  }

  /** Whole seconds since the epoch, rounded down. */
  function UnixSeconds(now: int): int {
    now / SECOND
  }

  function ConsumeRecovery(d: State, user: string, codeHash: string, now: int): Option<State> {
    if (user, codeHash) in d.codes && d.codes[(user, codeHash)] == None
    then Some(d.(codes := d.codes[(user, codeHash) := Some(now)])) else None
  }

  // ------------------------------------------------------------------- login

  /** `BeginLogin`, on the user row it read earlier: the challenge it stores. */
  function NewChallenge(x: Crypto, row: User, user: string, password: string, fresh': string, now: int): Option<Challenge> {
    if row.deleted || !x.valid(row.hash, password) then None
    else Some(Challenge(user, now + CHALLENGE_LIFETIME, row.hash, if x.current(row.hash) then None else Some(fresh')))
  }

  /** Expired challenges are swept whenever one is stored. */
  function Unexpired(challenges: map<string, Challenge>, now: int): map<string, Challenge> {
    map id | id in challenges && now < challenges[id].expires :: challenges[id]
  }

  /** The transaction of `CompleteLogin`; `None` rolls it back. */
  function LoginTx(x: Crypto, d: State, c: Challenge, second: Second, now: int, token: string): Option<State> {
    if now >= c.expires || c.user !in d.users || d.users[c.user].deleted || d.users[c.user].hash != c.hash || c.user !in d.totp then None
    else
      var verified := match second
                      case ByTotp(code) => ConsumeTotp(x, d, c.user, code, now)
                      case ByRecovery(codeHash) => ConsumeRecovery(d, c.user, codeHash, now);
      match verified
      case None => None
      case Some(d1) =>
        if token in d1.sessions then None
        else
          var users := if c.upgraded.Some? then d1.users[c.user := d1.users[c.user].(hash := c.upgraded.value)] else d1.users;
          var session := Session(c.user, now, now + ABSOLUTE_LIFETIME, now + IDLE_LIFETIME, None,
                                 if second.ByTotp? then Some(now) else None);
          Some(d1.(users := users, sessions := d1.sessions[token := session]))
  }

  // ---------------------------------------------------------------- sessions

  predicate Live(s: Session, now: int) {
    s.revoked == None && now < s.expires && now < s.idle
  }

  function NextIdle(s: Session, now: int): int {
    if now + IDLE_LIFETIME > s.expires then s.expires else now + IDLE_LIFETIME
  }

  /** `resolveSession` */
  function ResolveTx(d: State, token: string, now: int): Option<State> {
    if token in d.sessions && Live(d.sessions[token], now)
    then Some(d.(sessions := d.sessions[token := d.sessions[token].(idle := NextIdle(d.sessions[token], now))])) else None
  }

  /** `verifyRecentTOTP`; with `auditOk` false the audit event cannot be appended and all is rolled back. */
  function ReverifyTx(x: Crypto, d: State, token: string, code: string, now: int, auditOk: bool): Option<State> {
    if token !in d.sessions || !Live(d.sessions[token], now) then None
    else
      match ConsumeTotp(x, d, d.sessions[token].user, code, now)
      case None => None
      case Some(d1) =>
        if !auditOk then None
        else
          var s := d1.sessions[token];
          Some(d1.(sessions := d1.sessions[token := s.(recent := Some(now), idle := NextIdle(s, now))]))
  }

  function Revoke(s: Session, now: int): Session {
    s.(revoked := if s.revoked.Some? then s.revoked else Some(now))
  }

  /** `Logout`, and with an audit event `LogoutAudited`, which refuses dead sessions. */
  function LogoutTx(d: State, token: string, now: int, audited: bool, auditOk: bool): Option<State> {
    if token !in d.sessions then if audited then None else Some(d)
    else if audited && (!Live(d.sessions[token], now) || !auditOk) then None
    else Some(d.(sessions := d.sessions[token := Revoke(d.sessions[token], now)]))
  }

  /** `revokeUserSessionsTx` */
  function RevokeAll(sessions: map<string, Session>, user: string, now: int): map<string, Session> {
    map t | t in sessions :: if sessions[t].user == user then Revoke(sessions[t], now) else sessions[t]
  }

  /** `resetPassword` */
  function ResetTx(d: State, user: string, hash: string, now: int): Option<State> {
    if user !in d.users || d.users[user].deleted then None
    else Some(d.(users := d.users[user := d.users[user].(hash := hash)], sessions := RevokeAll(d.sessions, user, now)))
  }

  // -------------------------------------------------------------------- runs

  /**
   Steps of a run.  `Begin` reads the user `at` an earlier point; `Take` removes a challenge from memory and
   `Finish` runs its transaction later.
   */
  datatype Step =
    | Begin(id: string, user: string, password: string, hash: string, now: int, at: nat)
    | Take(id: string)
    | Finish(id: string, second: Second, now: int, token: string)
    | Reset(user: string, hash: string, now: int)
    | DropChallenges(user: string)
    | Resolve(token: string, now: int)
    | Reverify(token: string, code: string, now: int, auditOk: bool)
    | Logout(token: string, now: int, audited: bool, auditOk: bool)
    | RevokeUser(user: string, now: int)
    | DeleteUser(user: string)
    | Sweep(token: string)

  function Committed(d: State, result: Option<State>): State {
    if result.Some? then result.value else d
  }

  function Act(x: Crypto, h: seq<State>, s: Step): State
    requires h != [] && (s.Begin? ==> s.at < |h|)
  {
    var d := h[|h| - 1];
    match s
    case Begin(id, user, password, hash, now, at) =>
      if user !in h[at].users then d
      else
        (match NewChallenge(x, h[at].users[user], user, password, hash, now)
         case None => d
         case Some(c) => d.(challenges := Unexpired(d.challenges, now)[id := c]))
    case Take(id) =>
      if id !in d.challenges then d
      else d.(challenges := d.challenges - {id}, taken := d.taken[id := d.challenges[id]])
    case Finish(id, second, now, token) =>
      if id !in d.taken then d
      else
        var e := d.(taken := d.taken - {id});
        Committed(e, LoginTx(x, e, d.taken[id], second, now, token))
    case Reset(user, hash, now) => Committed(d, ResetTx(d, user, hash, now))
    case DropChallenges(user) => d.(challenges := map id | id in d.challenges && d.challenges[id].user != user :: d.challenges[id])
    case Resolve(token, now) => Committed(d, ResolveTx(d, token, now))
    case Reverify(token, code, now, auditOk) => Committed(d, ReverifyTx(x, d, token, code, now, auditOk))
    case Logout(token, now, audited, auditOk) => Committed(d, LogoutTx(d, token, now, audited, auditOk))
    case RevokeUser(user, now) => d.(sessions := RevokeAll(d.sessions, user, now))
    case DeleteUser(user) => if user in d.users then d.(users := d.users[user := d.users[user].(deleted := true)]) else d
    case Sweep(token) => d.(sessions := d.sessions - {token})
  }

  /** The step logs a user in. */
  predicate LogsIn(x: Crypto, d: State, s: Step) {
    s.Finish? && s.id in d.taken && LoginTx(x, d.(taken := d.taken - {s.id}), d.taken[s.id], s.second, s.now, s.token).Some?
  }

  /** Challenges that exist, in memory or taken. */
  function Pending(d: State): map<string, Challenge> {
    d.challenges + d.taken
  }

  /**
   Identifiers, tokens and password salts are drawn at random: a new one was never seen before, neither in
   use nor waiting to be used.
   */
  ghost predicate Possible(h: seq<State>, s: Step) {
    match s
    case Begin(id, user, _, hash, _, at) => at < |h| && NewId(h, id) && NewHash(h, user, hash)
    case Finish(_, _, _, token) => forall i :: 0 <= i < |h| ==> token !in h[i].sessions
    case Reset(user, hash, _) => NewHash(h, user, hash)
    case _ => true
  }

  ghost predicate NewId(h: seq<State>, id: string) {
    forall i :: 0 <= i < |h| ==> id !in Pending(h[i])
  }

  ghost predicate NewHash(h: seq<State>, user: string, hash: string) {
    forall i :: 0 <= i < |h| ==>
      && (user in h[i].users ==> h[i].users[user].hash != hash)
      && (forall id <- Pending(h[i]) :: Pending(h[i])[id].upgraded != Some(hash))
  }

  ghost predicate IsRun(x: Crypto, h: seq<State>, steps: seq<Step>) {
    && |h| == |steps| + 1
    && forall i :: 0 <= i < |steps| ==> Possible(h[..i + 1], steps[i]) && h[i + 1] == Act(x, h[..i + 1], steps[i])
  }
}
