/**
 RetryAfter counted from the moment of the call.  A call that reaches the limiter less than a second behind its
 clock takes effect when the clock says, so its waits start later than the caller thinks.
 */
module LimiterSkew {
  import opened Wrappers
  import opened LimiterSpec
  import opened LimiterInvariant
  import opened LimiterStaging
  import opened LimiterEffects
  import opened LimiterRuns
  import opened LimiterRetry
  import opened LimiterQueries

  // ------------------------------------------------------------- the clocks

  lemma ClocksWereRead(states: States, requests: seq<Request>, now: Time)
    requires forall r <- requests :: r.operation in states
    requires ReadClocks(states, requests, now).Clocks?
    ensures forall r <- requests :: ReadClock(states[r.operation], now).At?
  {
    if requests != [] {
      var init, last := requests[..|requests| - 1], requests[|requests| - 1];
      assert requests == init + [last];
      ClocksWereRead(states, init, now);
      if last.operation in ReadClocks(states, init, now).times {
        var r :| r in init && r.operation == last.operation;
      }
    }
  }

  lemma ClocksCanBeRead(states: States, requests: seq<Request>, now: Time)
    requires forall r <- requests :: r.operation in states && ReadClock(states[r.operation], now).At?
    ensures ReadClocks(states, requests, now).Clocks?
  {
    if requests != [] {
      ClocksCanBeRead(states, requests[..|requests| - 1], now);
    }
  }

  /** A denied call can be repeated at any time from its own moment on: the clock it left is no further ahead. */
  lemma RepetitionIsRead(cfg: Config, states: States, requests: seq<Request>, now: Time, times: map<Operation, Time>, later: Time)
    returns (times': map<Operation, Time>)
    requires InProgress(cfg, states, requests, now, times)
    requires Reserve(cfg, states, requests, now).1.Denied? && now <= later
    ensures Repeated(cfg, states, Reserve(cfg, states, requests, now).0, requests, now, times, later, times')
  {
    hide KeyInv, Load, StageAll, Rotate, StateInv, Level, Reserve, Unique;
    var after := Reserve(cfg, states, requests, now).0;
    ClocksWereRead(states, Unique(requests), now);
    forall r | r in Unique(requests)
      ensures r.operation in after && ReadClock(after[r.operation], later).At?
    {
      DeniedState(cfg, states, requests, now, times, r.operation);
      EffectiveTimes(cfg, states, requests, now, times, r.operation);
    }
    ClocksCanBeRead(after, Unique(requests), later);
    times' := RepeatedCall(cfg, states, requests, now, times, later);
  }

  // ------------------------------------------------------------ reservations

  /**
   A repeated reservation is granted exactly when every bucket it charges holds its charge by then; the denied
   call took nothing, so that is the level the bucket had before it, grown since.
   */
  lemma RepetitionGrantedExactly(cfg: Config, states: States, requests: seq<Request>, now: Time, times: map<Operation, Time>, later: Time)
    returns (times': map<Operation, Time>)
    requires InProgress(cfg, states, requests, now, times)
    requires Reserve(cfg, states, requests, now).1.Denied? && now <= later
    ensures Repeated(cfg, states, Reserve(cfg, states, requests, now).0, requests, now, times, later, times')
    ensures var after := Reserve(cfg, states, requests, now).0;
            Reserve(cfg, after, requests, later).1.Granted?
            <==> forall op, key :: op in times && Charge(cfg, after, requests, times', op, key) > 0
                   ==> Level(cfg.rules[op], states[op], key, Later(times[op], later)) >= Charge(cfg, after, requests, times', op, key) as real
  {
    times' := RepetitionIsRead(cfg, states, requests, now, times, later);
    hide KeyInv, Load, StageAll, Rotate, StateInv, Level, Reserve, Unique, ReadClocks, Charge;
    var after := Reserve(cfg, states, requests, now).0;
    GrantedWhenAllCanPay(cfg, after, requests, later, times');
    forall op, key | op in times
      ensures Level(cfg.rules[op], after[op], key, times'[op]) == Level(cfg.rules[op], states[op], key, Later(times[op], later))
    {
      DeniedState(cfg, states, requests, now, times, op);
    }
  }

  /** The bucket of `s` is charged and short, and its own wait is over at `t`. */
  ghost predicate WaitIsOver(cfg: Config, states: States, times: map<Operation, Time>, op: Operation, s: string, t: Time)
    requires op in times && op in states && op in cfg.rules && cfg.rules[op].refill > 0.0
  {
    times[op] + cfg.rules[op].Wait(1.0 - Level(cfg.rules[op], states[op], Own(s), times[op])) <= t
  }

  lemma WaitsArePositive(cfg: Config, states: States, times: map<Operation, Time>, op: Operation, s: string)
    requires op in times && op in states && op in cfg.rules && cfg.rules[op].refill > 0.0
    requires Level(cfg.rules[op], states[op], Own(s), times[op]) < 1.0
    ensures !WaitIsOver(cfg, states, times, op, s, times[op])
  {
    WaitIsTight(cfg.rules[op], 1.0 - Level(cfg.rules[op], states[op], Own(s), times[op]), 0);
  }

  ghost predicate IsWaiting(cfg: Config, states: States, requests: seq<Request>, times: map<Operation, Time>, op: Operation, s: string)
    requires times.Keys <= states.Keys <= cfg.rules.Keys && Configured(cfg)
  {
    op in times && Charge(cfg, states, requests, times, op, Own(s)) > 0 && Level(cfg.rules[op], states[op], Own(s), times[op]) < 1.0
  }

  /** One bucket of its own: it pays the repetition exactly when it was not short or its wait is over. */
  lemma OwnBucketPaysAgain(cfg: Config, states: States, after: States, requests: seq<Request>, now: Time,
                           times: map<Operation, Time>, later: Time, times': map<Operation, Time>, op: Operation, s: string)
    requires Repeated(cfg, states, after, requests, now, times, later, times') && op in times
    requires Charge(cfg, states, requests, times, op, Own(s)) > 0
    ensures cfg.rules[op].refill > 0.0
    ensures if Level(cfg.rules[op], states[op], Own(s), times[op]) < 1.0 && !WaitIsOver(cfg, states, times, op, s, times'[op])
            then Charge(cfg, after, requests, times', op, Own(s)) == 1 && Level(cfg.rules[op], after[op], Own(s), times'[op]) < 1.0
            else Level(cfg.rules[op], after[op], Own(s), times'[op]) >= 1.0
  {
    hide ReadClocks, Acceptable, KeyInv, Load, StageAll, Rotate, Find, Reserve, Charge, Unique, Level, StateInv;
    var key := Own(s);
    DeniedState(cfg, states, requests, now, times, op);
    EffectiveTimes(cfg, states, requests, now, times, op);
    assert Level(cfg.rules[op], after[op], key, times'[op]) == Level(cfg.rules[op], states[op], key, times'[op]);
    if Level(cfg.rules[op], states[op], key, times[op]) >= 1.0 {
      LevelNeverFalls(cfg.mode, cfg.rules[op], states[op], key, times[op], times'[op]);
    } else {
      LevelAfterWaiting(cfg.mode, cfg.rules[op], states[op], key, times[op], times'[op], 1);
      if !WaitIsOver(cfg, states, times, op, s, times'[op]) {
        ShortBucketStaysShort(cfg, states, after, requests, now, times, later, times', op, key);
      }
    }
  }

  /** Without shared charges the repetition charges buckets that were charged, or that are full. */
  lemma ChargedAgain(cfg: Config, states: States, after: States, requests: seq<Request>, now: Time,
                     times: map<Operation, Time>, later: Time, times': map<Operation, Time>, op: Operation, key: Key)
    requires Repeated(cfg, states, after, requests, now, times, later, times') && op in times
    requires Charge(cfg, states, requests, times, op, Shared) == 0
    requires Charge(cfg, after, requests, times', op, key) > 0
    ensures key.Own? && Charge(cfg, after, requests, times', op, key) == 1
    ensures Charge(cfg, states, requests, times, op, key) > 0 || Level(cfg.rules[op], after[op], key, times'[op]) >= 1.0
  {
    hide ReadClocks, Acceptable, KeyInv, Load, StageAll, Rotate, Find, Reserve, Charge, Unique, Level;
    SharedChargeShrinks(cfg, states, after, requests, now, times, later, times', op);
    OwnCharge(cfg, after, requests, later, times', op, key.subject);
    OwnCharge(cfg, states, requests, now, times, op, key.subject);
    if Charge(cfg, states, requests, times, op, key) == 0 {
      DeniedState(cfg, states, requests, now, times, op);
      EffectiveTimes(cfg, states, requests, now, times, op);
      RotationKeepsLevels(cfg.mode, cfg.rules[op], states[op], times[op], key, times'[op]);
      MissingBucketIsFull(cfg.rules[op], Rotate(cfg.mode, cfg.rules[op], states[op], times[op]), key, times'[op]);
    }
  }

  lemma RepeatedTooEarly(cfg: Config, states: States, after: States, requests: seq<Request>, now: Time,
                         times: map<Operation, Time>, later: Time, times': map<Operation, Time>, op: Operation, s: string)
    requires Repeated(cfg, states, after, requests, now, times, later, times') && Configured(cfg) && times.Keys <= states.Keys <= cfg.rules.Keys
    requires IsWaiting(cfg, states, requests, times, op, s) && !WaitIsOver(cfg, states, times, op, s, later)
    ensures Reserve(cfg, after, requests, later).1.Denied?
  {
    hide KeyInv, Load, StageAll, Rotate, StateInv, Charge, Level, Unique, Find, Reserve, ReadClocks;
    WaitsArePositive(cfg, states, times, op, s);
    OwnBucketPaysAgain(cfg, states, after, requests, now, times, later, times', op, s);
    GrantedWhenAllCanPay(cfg, after, requests, later, times');
  }

  lemma RepeatedInTime(cfg: Config, states: States, after: States, requests: seq<Request>, now: Time,
                       times: map<Operation, Time>, later: Time, times': map<Operation, Time>)
    requires Repeated(cfg, states, after, requests, now, times, later, times') && Configured(cfg) && times.Keys <= states.Keys <= cfg.rules.Keys
    requires forall op <- times :: Charge(cfg, states, requests, times, op, Shared) == 0
    requires forall op, s :: IsWaiting(cfg, states, requests, times, op, s) ==> WaitIsOver(cfg, states, times, op, s, later)
    ensures Reserve(cfg, after, requests, later).1.Granted?
  {
    hide KeyInv, Load, StageAll, Rotate, StateInv, Charge, Level, Unique, Find, Reserve, ReadClocks;
    forall op, key | op in times' && Charge(cfg, after, requests, times', op, key) > 0
      ensures Level(cfg.rules[op], after[op], key, times'[op]) >= Charge(cfg, after, requests, times', op, key) as real
    {
      ChargedAgain(cfg, states, after, requests, now, times, later, times', op, key);
      if Charge(cfg, states, requests, times, op, key) > 0 {
        OwnBucketPaysAgain(cfg, states, after, requests, now, times, later, times', op, key.subject);
        assert Level(cfg.rules[op], states[op], key, times[op]) < 1.0 ==> IsWaiting(cfg, states, requests, times, op, key.subject);
      }
    }
    GrantedWhenAllCanPay(cfg, after, requests, later, times');
  }

  /**
   Measured from the call, over any number of operations.  A caller that waits RetryAfter from the moment it
   called is served exactly when, for every bucket that was short, that bucket's wait, counted from when its
   operation took the call to happen, is over.
   */
  lemma RetryAfterFromTheCall(cfg: Config, states: States, requests: seq<Request>, now: Time, times: map<Operation, Time>)
    requires InProgress(cfg, states, requests, now, times)
    requires Reserve(cfg, states, requests, now).1.Denied?
    requires forall op <- times :: Charge(cfg, states, requests, times, op, Shared) == 0
    ensures Reserve(cfg, states, requests, now).1.retryAfter > 0
    ensures Reserve(cfg, Reserve(cfg, states, requests, now).0, requests, now + Reserve(cfg, states, requests, now).1.retryAfter).1.Granted?
            <==> forall op, s :: IsWaiting(cfg, states, requests, times, op, s)
                   ==> WaitIsOver(cfg, states, times, op, s, now + Reserve(cfg, states, requests, now).1.retryAfter)
  {
    hide KeyInv, Load, StageAll, Rotate, StateInv, Charge, Level, Unique, Find, Reserve, ReadClocks, WaitIsOver;
    ShortageIsPositive(cfg, states, requests, now, times);
    var after, later := Reserve(cfg, states, requests, now).0, now + Reserve(cfg, states, requests, now).1.retryAfter;
    var times' := RepetitionIsRead(cfg, states, requests, now, times, later);
    if forall op, s :: IsWaiting(cfg, states, requests, times, op, s) ==> WaitIsOver(cfg, states, times, op, s, later) {
      RepeatedInTime(cfg, states, after, requests, now, times, later, times');
    } else {
      var op, s :| IsWaiting(cfg, states, requests, times, op, s) && !WaitIsOver(cfg, states, times, op, s, later);
      RepeatedTooEarly(cfg, states, after, requests, now, times, later, times', op, s);
    }
  }

  /** No clock ahead of the call, so nothing is waited for twice: RetryAfter is enough, shared charges included. */
  lemma PunctualRetryIsGranted(cfg: Config, states: States, requests: seq<Request>, now: Time, times: map<Operation, Time>)
    requires InProgress(cfg, states, requests, now, times)
    requires Reserve(cfg, states, requests, now).1.Denied?
    requires forall op <- times :: Charge(cfg, states, requests, times, op, Shared) <= cfg.rules[op].capacity
    requires forall op <- times :: states[op].lastNow <= now
    ensures Reserve(cfg, states, requests, now).1.retryAfter > 0
    ensures Reserve(cfg, Reserve(cfg, states, requests, now).0, requests, now + Reserve(cfg, states, requests, now).1.retryAfter).1.Granted?
  {
    hide KeyInv, Load, StageAll, Rotate, StateInv, Charge, Level, Unique, Find, Reserve, ReadClocks;
    ShortageIsPositive(cfg, states, requests, now, times);
    RetryAfterIsHonest(cfg, states, requests, now, times, now + Reserve(cfg, states, requests, now).1.retryAfter);
  }

  /** With one operation and no shared charge, RetryAfter from the call is enough exactly when the clock was not ahead. */
  lemma OneOperationFromTheCall(cfg: Config, states: States, requests: seq<Request>, now: Time, times: map<Operation, Time>, op: Operation)
    requires InProgress(cfg, states, requests, now, times) && times.Keys == {op}
    requires Reserve(cfg, states, requests, now).1.Denied?
    requires Charge(cfg, states, requests, times, op, Shared) == 0
    ensures Reserve(cfg, states, requests, now).1.retryAfter > 0
    ensures Reserve(cfg, Reserve(cfg, states, requests, now).0, requests, now + Reserve(cfg, states, requests, now).1.retryAfter).1.Granted?
            <==> states[op].lastNow <= now
  {
    hide KeyInv, Load, StageAll, Rotate, StateInv, Charge, Level, Unique, Find, Reserve, ReadClocks;
    ShortageIsPositive(cfg, states, requests, now, times);
    assert op in times;
    if states[op].lastNow <= now {
      PunctualRetryIsGranted(cfg, states, requests, now, times);
    } else {
      RetryAfterIsTight(cfg, states, requests, now, times, now + Reserve(cfg, states, requests, now).1.retryAfter);
    }
  }

  /** A reservation that charges a bucket more than it can ever hold is denied, in every state and at every instant. */
  lemma OverchargeIsDenied(cfg: Config, states: States, requests: seq<Request>, now: Time, times: map<Operation, Time>, op: Operation, key: Key)
    requires InProgress(cfg, states, requests, now, times) && op in times
    requires Charge(cfg, states, requests, times, op, key) > cfg.rules[op].capacity
    ensures Reserve(cfg, states, requests, now).1.Denied?
  {
    hide KeyInv, Load, StageAll, Rotate, StateInv, Charge, Level, Unique, Find, Reserve, ReadClocks;
    EffectiveTimes(cfg, states, requests, now, times, op);
    LevelNeverFalls(cfg.mode, cfg.rules[op], states[op], key, times[op], times[op]);
    GrantedWhenAllCanPay(cfg, states, requests, now, times);
  }

  // ----------------------------------------------------------------- queries

  /**
   A denied Allow or Check, repeated RetryAfter past the moment of the call, is allowed exactly when the clock was
   not ahead of the call, or the shared bucket was asked and the subject finds a place of its own by then.
   */
  lemma QueryRetryFromTheCall(mode: Mode, rule: Rule, st: OpState, subject: string, now: Time, consume: bool)
    requires rule.Recovers() && StateInv(mode, rule, st) && now > 0 && ReadClock(st, now).At?
    requires !Ask(mode, rule, st, subject, now, consume).1.allowed
    ensures Ask(mode, rule, st, subject, now, consume).1.retryAfter > 0
    ensures var (after, decision) := Ask(mode, rule, st, subject, now, consume);
            Ask(mode, rule, after, subject, now + decision.retryAfter, consume).1.allowed
            <==> st.lastNow <= now
                 || (QueryKey(mode, rule, st, subject, now).Shared? && QueryKey(mode, rule, after, subject, now + decision.retryAfter).Own?)
  {
    hide Ask, StateInv, Level, Rotate, Find, FindCurrent, SameLevels, QueryKey, ReadClock, EffectiveNow;
    DeniedWait(mode, rule, st, subject, now, consume);
    DeniedQuery(mode, rule, st, subject, now, consume);
    RepeatedQuery(mode, rule, st, Ask(mode, rule, st, subject, now, consume).0, subject, now,
                  now + Ask(mode, rule, st, subject, now, consume).1.retryAfter, consume, QueryKey(mode, rule, st, subject, now));
  }

  lemma DeniedWait(mode: Mode, rule: Rule, st: OpState, subject: string, now: Time, consume: bool)
    requires rule.Recovers() && StateInv(mode, rule, st) && now > 0 && ReadClock(st, now).At?
    requires !Ask(mode, rule, st, subject, now, consume).1.allowed
    ensures var key, (after, decision) := QueryKey(mode, rule, st, subject, now), Ask(mode, rule, st, subject, now, consume);
            && decision.retryAfter == rule.Wait(1.0 - Level(rule, st, key, after.lastNow)) > 0
            && (key.Own? ==> key.subject == subject)
  {
    OwnKey(mode, rule, st, subject, now);
    hide Ask, StateInv, Level, QueryKey;
    AllowedIfTokenLeft(mode, rule, st, subject, now, consume);
    WaitIsTight(rule, 1.0 - Level(rule, st, QueryKey(mode, rule, st, subject, now), EffectiveNow(st, now)), 0);
  }

  lemma RepeatedQuery(mode: Mode, rule: Rule, st: OpState, after: OpState, subject: string, now: Time, later: Time, consume: bool, key: Key)
    requires rule.Recovers() && StateInv(mode, rule, st) && StateInv(mode, rule, after) && SameLevels(rule, st, after)
    requires 0 < now < later && ReadClock(st, now).At? && st.lastNow <= after.lastNow == EffectiveNow(st, now)
    requires Level(rule, st, key, after.lastNow) < 1.0 && later == now + rule.Wait(1.0 - Level(rule, st, key, after.lastNow))
    requires FindCurrent(after, key).Some? && (key.Own? ==> key.subject == subject) && (key.Shared? ==> Find(after, Own(subject)).None?)
    ensures Ask(mode, rule, after, subject, later, consume).1.allowed
            <==> st.lastNow <= now || (key.Shared? && QueryKey(mode, rule, after, subject, later).Own?)
  {
    var at, at', key' := after.lastNow, EffectiveNow(after, later), QueryKey(mode, rule, after, subject, later);
    assert ReadClock(after, later).At?;
    AllowedIfTokenLeft(mode, rule, after, subject, later, consume);
    hide Ask, StateInv, Level, Rotate, Find;
    assert Level(rule, after, key', at') == Level(rule, st, key', at');
    LevelAfterWaiting(mode, rule, st, key, at, at', 1);
    if key.Own? {
      KeyIsRead(mode, rule, after, subject, later);
    } else if key'.Own? {
      assert key' == Own(subject);
      MissingBucketIsFull(rule, after, key', at');
    }
  }

  lemma OwnKey(mode: Mode, rule: Rule, st: OpState, subject: string, now: Time)
    requires rule.ttl > 0
    ensures QueryKey(mode, rule, st, subject, now).Own? ==> QueryKey(mode, rule, st, subject, now).subject == subject
  {
  }

  lemma KeyIsRead(mode: Mode, rule: Rule, st: OpState, subject: string, later: Time)
    requires rule.Recovers() && StateInv(mode, rule, st) && FindCurrent(st, Own(subject)).Some?
    ensures QueryKey(mode, rule, st, subject, later) == Own(subject)
  {
    OwnerStaysOwner(mode, rule, st, subject, EffectiveNow(st, later));
  }

  /**
   A token a second, one at most.  A call half a second behind the clock is told to come back in a second;
   a second after it was made that is still half a second too early.
   */
  lemma {:induction false} SkewedRetryIsTooEarly(subject: string, op: Operation)
    requires subject != ""
    ensures var rules := map[op := Rule(1, 1.0, SECOND)];
            var cfg := Config(rules, Bounded(1));
            Configured(cfg)
            && Answers(cfg, Start(cfg), [Query(subject, op, 10 * SECOND, true), Query(subject, op, 9 * SECOND + SECOND / 2, true),
                                         Query(subject, op, 10 * SECOND + SECOND / 2, true)])
               == [ALLOWED, Decision(false, SECOND), Decision(false, SECOND / 2)]
  {
    var rule := Rule(1, 1.0, SECOND);
    var cfg := Config(map[op := rule], Bounded(1));
    var t := 10 * SECOND;
    var a, b, c := Query(subject, op, t, true), Query(subject, op, t - SECOND / 2, true), Query(subject, op, t + SECOND / 2, true);
    var used := OpState(map[subject := Bucket(0.0, t)], map[], None, None, t, t, 0);
    UsedUp(rule, subject, t);
    hide Ask;
    var w := World(map[op := used], []);
    assert Start(cfg).states[op := used] == w.states && w.states[op := used] == w.states;
    assert Step(cfg, Start(cfg), a) == (w, ALLOWED);
    assert Step(cfg, w, b) == (w, Decision(false, SECOND));
    assert Step(cfg, w, c).1 == Decision(false, SECOND / 2);
    ThreeAnswers(cfg, Start(cfg), w, w, a, b, c);
  }

  lemma ThreeAnswers(cfg: Config, w: World, w1: World, w2: World, a: Event, b: Event, c: Event)
    requires Configured(cfg) && w.states.Keys == cfg.rules.Keys && w1.states.Keys == cfg.rules.Keys
    requires Step(cfg, w, a).0 == w1 && Step(cfg, w1, b).0 == w2
    ensures Answers(cfg, w, [a, b, c]) == [Step(cfg, w, a).1, Step(cfg, w1, b).1, Step(cfg, w2, c).1]
  {
    hide Step;
    assert [a, b, c][1..] == [b, c] && [b, c][1..] == [c] && [c][1..] == [];
    assert Answers(cfg, w2, [c]) == [Step(cfg, w2, c).1];
    assert Answers(cfg, w1, [b, c]) == [Step(cfg, w1, b).1] + Answers(cfg, w2, [c]);
  }

  lemma UsedUp(rule: Rule, subject: string, t: Time)
    requires rule == Rule(1, 1.0, SECOND) && t > SECOND
    ensures var used := OpState(map[subject := Bucket(0.0, t)], map[], None, None, t, t, 0);
            && Ask(Bounded(1), rule, EMPTY, subject, t, true) == (used, ALLOWED)
            && Ask(Bounded(1), rule, used, subject, t - SECOND / 2, true) == (used, Decision(false, SECOND))
            && Ask(Bounded(1), rule, used, subject, t + SECOND / 2, true).1 == Decision(false, SECOND / 2)
  {
    var used := OpState(map[subject := Bucket(0.0, t)], map[], None, None, t, t, 0);
    assert rule.Gain(0) == 0.0 && rule.Wait(1.0) == SECOND && rule.Gain(SECOND / 2) == 0.5 && rule.Wait(0.5) == SECOND / 2;
    assert used.buckets[subject := Bucket(0.0, t)] == used.buckets;
    assert Rotate(Bounded(1), rule, used, t) == used;
    assert Route(Bounded(1), used, subject, 0) == (used, Own(subject));
  }
}
