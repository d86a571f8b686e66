/**
 RetryAfter is honest and tight: the denied call succeeds once that long has passed, whatever
 rotates or is rerouted meanwhile, and no earlier when only own buckets are involved.
 */
module LimiterRetry {
  import opened Wrappers
  import opened LimiterSpec
  import opened LimiterInvariant
  import opened LimiterStaging
  import opened LimiterEffects
  import opened LimiterRuns
  import opened LimiterRoom

  /** Waiting from `t0` to `t1` covers a shortage exactly when it lasts at least `Wait`. */
  lemma LevelAfterWaiting(mode: Mode, rule: Rule, st: OpState, key: Key, t0: Time, t1: Time, need: nat)
    requires rule.Recovers() && StateInv(mode, rule, st) && st.lastNow <= t0 <= t1
    requires need <= rule.capacity && Level(rule, st, key, t0) < need as real
    ensures Level(rule, st, key, t1) >= need as real <==> t1 >= t0 + rule.Wait(need as real - Level(rule, st, key, t0))
  {
    assert KeyInv(rule, st, key);
    var b := Find(st, key).value;
    var level := Settled(rule, b, t0);
    SettlingIsUnobservable(rule, b, t0, t1);
    WaitIsTight(rule, need as real - level, Sub(t1, t0));
    WaitIsTight(rule, need as real - level, t1 - t0);
    GainMonotone(rule, 0, Sub(t1, t0));
    GainMonotone(rule, rule.ttl, MAX_DURATION);
    GainMonotone(rule, MAX_DURATION, Later(MAX_DURATION, t1 - t0));
  }

  lemma LevelNeverFalls(mode: Mode, rule: Rule, st: OpState, key: Key, t0: Time, t1: Time)
    requires rule.Recovers() && StateInv(mode, rule, st) && st.lastNow <= t0 <= t1
    ensures 0.0 <= Level(rule, st, key, t0) <= Level(rule, st, key, t1) <= rule.capacity as real
  {
    assert KeyInv(rule, st, key);
    if Find(st, key).Some? {
      var b := Find(st, key).value;
      GainMonotone(rule, 0, Sub(t0, b.last));
      GainMonotone(rule, Sub(t0, b.last), Sub(t1, b.last));
    }
  }

  /** The requested subjects of one operation. */
  function Requested(requests: seq<Request>, op: Operation): set<string> {
    set r | r in requests && r.operation == op :: r.subject
  }

  /** The shared bucket is charged for the subjects that overflow the places, in play now or asking now. */
  lemma SharedLoad(max: nat, rule: Rule, st: OpState, requests: seq<Request>, op: Operation)
    requires StateInv(Bounded(max), rule, st) && Distinct(requests)
    ensures var n := |Known(st) + Requested(requests, op)|;
            Load(Bounded(max), st, requests, op, Shared) == if n <= max then 0 else n - max
  {
    hide KeyInv, Load, Newcomers, NewOwners;
    KnownIsCounted(Bounded(max), rule, st);
    NewcomersAreAbsent(st, requests, op);
    SurplusIsShared(max, st, requests, op);
    RequestedSplits(st, requests, op);
  }

  lemma RequestedSplits(st: OpState, requests: seq<Request>, op: Operation)
    ensures |Known(st) + Requested(requests, op)| == |Known(st)| + |AbsentSubjects(st, requests, op)|
  {
    assert Known(st) + Requested(requests, op) == Known(st) + AbsentSubjects(st, requests, op);
    assert Known(st) !! AbsentSubjects(st, requests, op);
  }

  /** Losing buckets can only take load off the shared one. */
  lemma SharedLoadShrinks(max: nat, rule: Rule, was: OpState, now: OpState, requests: seq<Request>, op: Operation)
    requires StateInv(Bounded(max), rule, was) && StateInv(Bounded(max), rule, now) && Distinct(requests)
    requires Known(now) <= Known(was)
    ensures Load(Bounded(max), now, requests, op, Shared) <= Load(Bounded(max), was, requests, op, Shared)
  {
    SharedLoad(max, rule, was, requests, op);
    SharedLoad(max, rule, now, requests, op);
    SubsetCardinality(Known(now) + Requested(requests, op), Known(was) + Requested(requests, op));
  }

  // ----------------------------------------------------------- the retry

  /** A call that was denied for lack of tokens, and what it left behind. */
  ghost predicate DeniedForTokens(cfg: Config, states: States, requests: seq<Request>, now: Time, times: map<Operation, Time>, wait: int) {
    && InProgress(cfg, states, requests, now, times)
    && Reserve(cfg, states, requests, now).1 == Denied(wait)
  }

  /** The item staged for a bucket that the requests charge. */
  lemma FindStaged(cfg: Config, states: States, requests: seq<Request>, now: Time, times: map<Operation, Time>,
                   op: Operation, key: Key) returns (i: Staged)
    requires InProgress(cfg, states, requests, now, times) && op in times
    requires Load(cfg.mode, RotateAll(cfg, states, times)[op], Unique(requests), op, key) > 0
    ensures forall q <- Unique(requests) :: q.operation in times
    ensures i in StagingOf(cfg, states, requests, times).items && i.operation == op && i.key == key
    ensures i.tokens == Level(cfg.rules[op], states[op], key, times[op])
    ensures i.spend == Load(cfg.mode, RotateAll(cfg, states, times)[op], Unique(requests), op, key)
  {
    hide Unique, ReadClocks, Acceptable, StateInv, StageAll, Level, Load, Rotate;
    UnstagedHasNoLoad(cfg, states, requests, now, times, op, key);
    var items := StagingOf(cfg, states, requests, times).items;
    var n :| 0 <= n < |items| && items[n].operation == op && items[n].key == key;
    i := items[n];
    PriceBefore(cfg, states, requests, now, times, i);
  }

  ghost predicate IsShort(cfg: Config, item: Staged, wait: int) {
    && item.operation in cfg.rules && cfg.rules[item.operation].refill > 0.0
    && item.tokens < item.spend as real
    && ItemWait(cfg.rules, item) == wait
  }

  /** The outcome is decided by the longest wait of a staged item. */
  lemma OutcomeIsLongestWait(cfg: Config, states: States, requests: seq<Request>, now: Time, times: map<Operation, Time>)
    requires InProgress(cfg, states, requests, now, times)
    ensures forall q <- Unique(requests) :: q.operation in times
    ensures var outcome, items := Reserve(cfg, states, requests, now).1, StagingOf(cfg, states, requests, times).items;
            && (forall i <- items :: i.operation in times)
            && (outcome.Granted? <==> forall i <- items :: i.tokens >= i.spend as real)
            && (outcome.Denied? ==>
                  && (exists i :: i in items && IsShort(cfg, i, outcome.retryAfter))
                  && (forall i <- items :: ItemWait(cfg.rules, i) <= outcome.retryAfter))
  {
    hide Unique, ReadClocks, Acceptable, StateInv, StageAll, Level, Load, Rotate, Reserve, RotateAll;
    ReserveUnfolds(cfg, states, requests, now, times);
    var items := StagingOf(cfg, states, requests, times).items;
    LongestWaitIsMax(cfg.rules, items);
    if LongestWait(cfg.rules, items) > 0 {
      var short :| short in items && ItemWait(cfg.rules, short) == LongestWait(cfg.rules, items);
      assert IsShort(cfg, short, LongestWait(cfg.rules, items));
    }
  }

  /** What (op, key) is charged by the call. */
  function Charge(cfg: Config, states: States, requests: seq<Request>, times: map<Operation, Time>, op: Operation, key: Key): nat
    requires times.Keys <= states.Keys <= cfg.rules.Keys && op in times
    requires forall o <- cfg.rules :: cfg.rules[o].ttl > 0
  {
    Load(cfg.mode, RotateAll(cfg, states, times)[op], Unique(requests), op, key)
  }

  /** RetryAfter covers the shortage of every charged bucket. */
  lemma ShortageIsCovered(cfg: Config, states: States, requests: seq<Request>, now: Time, times: map<Operation, Time>,
                          op: Operation, key: Key)
    requires InProgress(cfg, states, requests, now, times) && op in times
    ensures var charge, level := Charge(cfg, states, requests, times, op, key), Level(cfg.rules[op], states[op], key, times[op]);
            charge > 0 && level < charge as real && Reserve(cfg, states, requests, now).1.Denied?
            ==> cfg.rules[op].Wait(charge as real - level) <= Reserve(cfg, states, requests, now).1.retryAfter
  {
    hide Unique, ReadClocks, Acceptable, StateInv, StageAll, Level, Load, Rotate, Reserve, RotateAll;
    if Charge(cfg, states, requests, times, op, key) > 0 {
      var item := FindStaged(cfg, states, requests, now, times, op, key);
      OutcomeIsLongestWait(cfg, states, requests, now, times);
    }
  }

  /** Some charged bucket is short for exactly RetryAfter. */
  lemma ShortageIsReal(cfg: Config, states: States, requests: seq<Request>, now: Time, times: map<Operation, Time>)
    returns (op: Operation, key: Key)
    requires InProgress(cfg, states, requests, now, times)
    requires Reserve(cfg, states, requests, now).1.Denied?
    ensures op in times
    ensures var charge, level := Charge(cfg, states, requests, times, op, key), Level(cfg.rules[op], states[op], key, times[op]);
            charge > 0 && level < charge as real
            && cfg.rules[op].Wait(charge as real - level) == Reserve(cfg, states, requests, now).1.retryAfter
  {
    hide Unique, ReadClocks, Acceptable, StateInv, StageAll, Level, Load, Rotate, Reserve, RotateAll;
    OutcomeIsLongestWait(cfg, states, requests, now, times);
    var i :| i in StagingOf(cfg, states, requests, times).items && IsShort(cfg, i, Reserve(cfg, states, requests, now).1.retryAfter);
    PriceBefore(cfg, states, requests, now, times, i);
    op, key := i.operation, i.key;
  }

  /** A call is granted exactly when every bucket can pay its charge. */
  lemma GrantedWhenAllCanPay(cfg: Config, states: States, requests: seq<Request>, now: Time, times: map<Operation, Time>)
    requires InProgress(cfg, states, requests, now, times)
    ensures Reserve(cfg, states, requests, now).1.Granted?
            <==> forall op, key :: op in times && Charge(cfg, states, requests, times, op, key) > 0
                   ==> Level(cfg.rules[op], states[op], key, times[op]) >= Charge(cfg, states, requests, times, op, key) as real
  {
    hide Unique, ReadClocks, Acceptable, StateInv, StageAll, Level, Load, Rotate, Reserve, RotateAll;
    OutcomeIsLongestWait(cfg, states, requests, now, times);
    if Reserve(cfg, states, requests, now).1.Granted? {
      forall op, key | op in times && Charge(cfg, states, requests, times, op, key) > 0
        ensures Level(cfg.rules[op], states[op], key, times[op]) >= Charge(cfg, states, requests, times, op, key) as real
      {
        var item := FindStaged(cfg, states, requests, now, times, op, key);
      }
    } else {
      var op, key := ShortageIsReal(cfg, states, requests, now, times);
    }
  }

  // ------------------------------------------------------------ the theorems

  lemma OwnerPays(mode: Mode, st: OpState, requests: seq<Request>, op: Operation, s: string)
    requires Find(st, Own(s)).Some? && Request(s, op) in requests
    ensures Load(mode, st, requests, op, Own(s)) > 0
  {
    if requests[|requests| - 1] != Request(s, op) {
      var before := requests[..|requests| - 1];
      assert requests == before + [requests[|requests| - 1]];
      OwnerPays(mode, st, before, op, s);
    }
  }

  lemma OwnCharge(cfg: Config, states: States, requests: seq<Request>, now: Time, times: map<Operation, Time>, op: Operation, s: string)
    requires InProgress(cfg, states, requests, now, times) && op in times
    ensures Charge(cfg, states, requests, times, op, Own(s)) <= 1
    ensures Charge(cfg, states, requests, times, op, Own(s)) == 1 ==> Request(s, op) in requests
    ensures Request(s, op) in requests && Charge(cfg, states, requests, times, op, Own(s)) == 0
            ==> Find(RotateAll(cfg, states, times)[op], Own(s)).None?
  {
    hide Load, Rotate, ReadClocks, StateInv;
    UniqueIsSubset(requests);
    var st := RotateAll(cfg, states, times)[op];
    LoadOfOwnIsAtMostOne(cfg.mode, st, Unique(requests), op, s);
    LoadOfOwnIsRequested(cfg.mode, st, Unique(requests), op, s);
    if Request(s, op) in requests && Find(st, Own(s)).Some? {
      OwnerPays(cfg.mode, st, Unique(requests), op, s);
    }
  }

  /** After the wait every bucket the denied call charged holds its charge. */
  lemma ChargedBucketRecovers(cfg: Config, states: States, requests: seq<Request>, now: Time, times: map<Operation, Time>,
                              op: Operation, key: Key, later: Time)
    requires InProgress(cfg, states, requests, now, times) && op in times
    requires Reserve(cfg, states, requests, now).1.Denied? && Reserve(cfg, states, requests, now).1.retryAfter >= 0
    requires later >= times[op] + Reserve(cfg, states, requests, now).1.retryAfter
    requires 0 < Charge(cfg, states, requests, times, op, key) <= cfg.rules[op].capacity
    ensures Level(cfg.rules[op], states[op], key, later) >= Charge(cfg, states, requests, times, op, key) as real
  {
    hide Unique, ReadClocks, Acceptable, KeyInv, Level, Load, Reserve, Charge;
    ShortageIsCovered(cfg, states, requests, now, times, op, key);
    EffectiveTimes(cfg, states, requests, now, times, op);
    var charge := Charge(cfg, states, requests, times, op, key);
    if Level(cfg.rules[op], states[op], key, times[op]) < charge as real {
      LevelAfterWaiting(cfg.mode, cfg.rules[op], states[op], key, times[op], later, charge);
    } else {
      LevelNeverFalls(cfg.mode, cfg.rules[op], states[op], key, times[op], later);
    }
  }

  lemma EffectiveTimes(cfg: Config, states: States, requests: seq<Request>, now: Time, times: map<Operation, Time>, op: Operation)
    requires InProgress(cfg, states, requests, now, times) && op in times
    ensures now > 0 && op in states && op in cfg.rules
    ensures times[op] == EffectiveNow(states[op], now) && StateInv(cfg.mode, cfg.rules[op], states[op]) && cfg.rules[op].Recovers()
  {
    ClocksAreEffective(states, Unique(requests), now);
  }

  /** The state a denied call leaves for one operation. */
  lemma DeniedState(cfg: Config, states: States, requests: seq<Request>, now: Time, times: map<Operation, Time>, op: Operation)
    requires InProgress(cfg, states, requests, now, times) && op in times
    requires Reserve(cfg, states, requests, now).1.Denied?
    ensures var after := Reserve(cfg, states, requests, now).0;
            && after[op].lastNow == times[op]
            && Known(after[op]) <= Known(RotateAll(cfg, states, times)[op])
            && SameLevels(cfg.rules[op], states[op], after[op])
            && StateInv(cfg.mode, cfg.rules[op], after[op])
  {
    hide Unique, ReadClocks, Acceptable, KeyInv, Level, Load, StageAll, Rotate, Find;
    DenialEvolves(cfg, states, requests, now, times, op);
    ReserveUnfolds(cfg, states, requests, now, times);
    InProgressStages(cfg, states, requests, now, times);
    var sg := StagingOf(cfg, states, requests, times);
    assert SameBuckets(RotateAll(cfg, states, times)[op], sg.states[op]);
    SameBucketsKnowTheSame(RotateAll(cfg, states, times)[op], sg.states[op]);
  }

  lemma SameBucketsKnowTheSame(a: OpState, b: OpState)
    requires SameBuckets(a, b)
    ensures Known(b) == Known(a)
  {
    forall s
      ensures s in Known(b) <==> s in Known(a)
    {
      KnownMeansFound(a, s);
      KnownMeansFound(b, s);
    }
  }

  /** A denied call, the state it left in `after`, and the same call made again at `later`. */
  ghost predicate Repeated(cfg: Config, states: States, after: States, requests: seq<Request>, now: Time,
                           times: map<Operation, Time>, later: Time, times': map<Operation, Time>) {
    && InProgress(cfg, states, requests, now, times)
    && Reserve(cfg, states, requests, now).1.Denied?
    && Reserve(cfg, states, requests, now).0 == after
    && InProgress(cfg, after, requests, later, times')
    && times'.Keys == times.Keys
    && forall op <- times' :: times'[op] == Later(times[op], later)
  }

  lemma SharedChargeShrinks(cfg: Config, states: States, after: States, requests: seq<Request>, now: Time,
                            times: map<Operation, Time>, later: Time, times': map<Operation, Time>, op: Operation)
    requires Repeated(cfg, states, after, requests, now, times, later, times') && op in times
    ensures Charge(cfg, after, requests, times', op, Shared) <= Charge(cfg, states, requests, times, op, Shared)
  {
    hide ReadClocks, Acceptable, KeyInv, Level, Load, StageAll, Rotate, Find, Reserve, Known, StagingInv;
    var rotated, rotated' := RotateAll(cfg, states, times), RotateAll(cfg, after, times');
    DeniedState(cfg, states, requests, now, times, op);
    InProgressStages(cfg, states, requests, now, times);
    InProgressStages(cfg, after, requests, later, times');
    UniqueIsSubset(requests);
    if cfg.mode.Bounded? {
      var max := cfg.mode.maxSubjects;
      RotationKnowsNoMore(cfg.mode, cfg.rules[op], after[op], times'[op]);
      KnownIgnoresClock(rotated[op], times[op]);
      KnownIgnoresClock(rotated'[op], times'[op]);
      SharedLoadShrinks(max, cfg.rules[op], AtNow(rotated, times, op), AtNow(rotated', times', op), Unique(requests), op);
      LoadIgnoresClock(cfg.mode, rotated[op], times[op], Unique(requests), op, Shared);
      LoadIgnoresClock(cfg.mode, rotated'[op], times'[op], Unique(requests), op, Shared);
    } else {
      LoadOfOwnIsRequested(cfg.mode, rotated'[op], Unique(requests), op, "");
    }
  }

  lemma KnownIgnoresClock(st: OpState, t: Time)
    ensures Known(st.(lastNow := t)) == Known(st)
  {
  }

  /** A bucket the retry charges can pay: own buckets their one unit, the shared one its smaller load. */
  lemma RetriedBucketCanPay(cfg: Config, states: States, after: States, requests: seq<Request>, now: Time,
                            times: map<Operation, Time>, later: Time, times': map<Operation, Time>, op: Operation, key: Key)
    requires Repeated(cfg, states, after, requests, now, times, later, times') && op in times
    requires 0 <= Reserve(cfg, states, requests, now).1.retryAfter <= later - times[op]
    requires Charge(cfg, states, requests, times, op, Shared) <= cfg.rules[op].capacity
    requires Charge(cfg, after, requests, times', op, key) > 0
    ensures Level(cfg.rules[op], after[op], key, later) >= Charge(cfg, after, requests, times', op, key) as real
  {
    hide ReadClocks, Acceptable, KeyInv, Load, StageAll, Rotate, Find, Reserve, Charge, Unique, Level;
    DeniedState(cfg, states, requests, now, times, op);
    EffectiveTimes(cfg, states, requests, now, times, op);
    assert Level(cfg.rules[op], after[op], key, later) == Level(cfg.rules[op], states[op], key, later);
    if key.Shared? {
      SharedChargeShrinks(cfg, states, after, requests, now, times, later, times', op);
      ChargedBucketRecovers(cfg, states, requests, now, times, op, Shared, later);
    } else {
      OwnCharge(cfg, after, requests, later, times', op, key.subject);
      OwnCharge(cfg, states, requests, now, times, op, key.subject);
      if Charge(cfg, states, requests, times, op, key) > 0 {
        ChargedBucketRecovers(cfg, states, requests, now, times, op, key, later);
      } else {
        RotationKeepsLevels(cfg.mode, cfg.rules[op], states[op], times[op], key, later);
        MissingBucketIsFull(cfg.rules[op], Rotate(cfg.mode, cfg.rules[op], states[op], times[op]), key, later);
      }
    }
  }

  lemma MissingBucketIsFull(rule: Rule, st: OpState, key: Key, t: Time)
    ensures Find(st, key).None? ==> Level(rule, st, key, t) == rule.capacity as real
  {
  }

  /** A repeated call takes effect at `later`, or when the denied one did if that is later. */
  lemma RepeatedCall(cfg: Config, states: States, requests: seq<Request>, now: Time, times: map<Operation, Time>, later: Time)
    returns (times': map<Operation, Time>)
    requires InProgress(cfg, states, requests, now, times)
    requires Reserve(cfg, states, requests, now).1.Denied? && later > 0
    requires ReadClocks(Reserve(cfg, states, requests, now).0, Unique(requests), later).Clocks?
    ensures Repeated(cfg, states, Reserve(cfg, states, requests, now).0, requests, now, times, later, times')
  {
    hide KeyInv, Load, StageAll, Rotate, StateInv, Level, Reserve, Unique;
    var after := Reserve(cfg, states, requests, now).0;
    DeniedStatesInv(cfg, states, requests, now);
    forall op | op in times
      ensures after[op].lastNow == times[op]
    {
      DeniedState(cfg, states, requests, now, times, op);
    }
    ClocksAreEffective(after, Unique(requests), later);
    times' := ReadClocks(after, Unique(requests), later).times;
  }

  lemma RepeatedCallReadsClocks(cfg: Config, states: States, requests: seq<Request>, now: Time, times: map<Operation, Time>, later: Time)
    requires InProgress(cfg, states, requests, now, times)
    requires Reserve(cfg, states, requests, now).1.Denied?
    requires forall op <- times :: times[op] <= later
    ensures ReadClocks(Reserve(cfg, states, requests, now).0, Unique(requests), later).Clocks?
  {
    hide KeyInv, Load, StageAll, Rotate, StateInv, Level, Reserve;
    var after := Reserve(cfg, states, requests, now).0;
    forall r | r in Unique(requests)
      ensures after[r.operation].lastNow <= later
    {
      DeniedState(cfg, states, requests, now, times, r.operation);
    }
    ClocksRun(after, Unique(requests), later);
  }

  lemma StoppedIsDenied(cfg: Config, states: States, requests: seq<Request>, now: Time)
    requires Configured(cfg) && states.Keys == cfg.rules.Keys
    requires (forall r <- Unique(requests) :: r.operation in states) ==> now == 0 || ReadClocks(states, Unique(requests), now).Stopped?
    ensures Reserve(cfg, states, requests, now).1.Denied?
  {
    UniqueIsSubset(requests);
  }

  lemma DeniedStatesInv(cfg: Config, states: States, requests: seq<Request>, now: Time)
    requires StatesInv(cfg, states) && Configured(cfg)
    ensures StatesInv(cfg, Reserve(cfg, states, requests, now).0)
  {
    hide Reserve, StateInv;
    forall op | op in states
      ensures StateInv(cfg.mode, cfg.rules[op], Reserve(cfg, states, requests, now).0[op])
    {
      ReserveIsAllOrNothing(cfg, states, requests, now, op);
    }
  }

  lemma ClocksRun(states: States, requests: seq<Request>, now: Time)
    requires forall r <- requests :: r.operation in states && states[r.operation].lastNow <= now
    ensures ReadClocks(states, requests, now).Clocks?
  {
    if requests != [] {
      ClocksRun(states, requests[..|requests| - 1], now);
    }
  }

  /**
   RetryAfter is honest.  A reservation denied for lack of tokens is granted when repeated, with no call
   in between, at any instant that is RetryAfter or more past the instant the denied call took effect:
   through any rotations, and however subjects are rerouted between own and shared buckets.
   */
  lemma RetryAfterIsHonest(cfg: Config, states: States, requests: seq<Request>, now: Time, times: map<Operation, Time>, later: Time)
    requires InProgress(cfg, states, requests, now, times)
    requires Reserve(cfg, states, requests, now).1.Denied?
    requires forall op <- times :: Charge(cfg, states, requests, times, op, Shared) <= cfg.rules[op].capacity
    requires forall op <- times :: later >= EffectiveNow(states[op], now) + Reserve(cfg, states, requests, now).1.retryAfter
    ensures Reserve(cfg, Reserve(cfg, states, requests, now).0, requests, later).1.Granted?
  {
    hide KeyInv, Load, StageAll, Rotate, Reserve, StateInv, Charge, Level, ReadClocks, Unique;
    var after, wait := Reserve(cfg, states, requests, now).0, Reserve(cfg, states, requests, now).1.retryAfter;
    var op0, _ := ShortageIsReal(cfg, states, requests, now, times);
    OutcomeIsLongestWait(cfg, states, requests, now, times);
    forall op | op in times
      ensures times[op] == EffectiveNow(states[op], now)
    {
      EffectiveTimes(cfg, states, requests, now, times, op);
    }
    assert wait >= 0 by {
      ShortageIsPositive(cfg, states, requests, now, times);
    }
    RepeatedCallReadsClocks(cfg, states, requests, now, times, later);
    var times' := RepeatedCall(cfg, states, requests, now, times, later);
    forall op, key | op in times' && Charge(cfg, after, requests, times', op, key) > 0
      ensures Level(cfg.rules[op], after[op], key, times'[op]) >= Charge(cfg, after, requests, times', op, key) as real
    {
      RetriedBucketCanPay(cfg, states, after, requests, now, times, later, times', op, key);
    }
    GrantedWhenAllCanPay(cfg, after, requests, later, times');
  }

  lemma ShortageIsPositive(cfg: Config, states: States, requests: seq<Request>, now: Time, times: map<Operation, Time>)
    requires InProgress(cfg, states, requests, now, times)
    requires Reserve(cfg, states, requests, now).1.Denied?
    ensures Reserve(cfg, states, requests, now).1.retryAfter > 0
  {
    hide StateInv, StageAll, Level, Load, Rotate, Charge, Unique, ReadClocks;
    ReserveUnfolds(cfg, states, requests, now, times);
  }

  /**
   RetryAfter is tight.  When no subject is sent to the shared bucket, repeating the denied call any
   earlier is denied again.
   */
  lemma RetryAfterIsTight(cfg: Config, states: States, requests: seq<Request>, now: Time, times: map<Operation, Time>, later: Time)
    requires InProgress(cfg, states, requests, now, times)
    requires Reserve(cfg, states, requests, now).1.Denied?
    requires forall op <- times :: Charge(cfg, states, requests, times, op, Shared) == 0
    requires forall op <- times :: later < EffectiveNow(states[op], now) + Reserve(cfg, states, requests, now).1.retryAfter
    ensures Reserve(cfg, Reserve(cfg, states, requests, now).0, requests, later).1.Denied?
  {
    hide KeyInv, Load, StageAll, Rotate, StateInv, Charge, Level, Unique, Find, Reserve, ReadClocks;
    var after := Reserve(cfg, states, requests, now).0;
    ShortageIsPositive(cfg, states, requests, now, times);
    if later == 0 || ReadClocks(after, Unique(requests), later).Stopped? {
      StoppedIsDenied(cfg, after, requests, later);
    } else {
      var op, key := ShortageIsReal(cfg, states, requests, now, times);
      EffectiveTimes(cfg, states, requests, now, times, op);
      OwnCharge(cfg, states, requests, now, times, op, key.subject);
      var times' := RepeatedCall(cfg, states, requests, now, times, later);
      ShortBucketStaysShort(cfg, states, after, requests, now, times, later, times', op, key);
      GrantedWhenAllCanPay(cfg, after, requests, later, times');
    }
  }

  lemma ShortBucketStaysShort(cfg: Config, states: States, after: States, requests: seq<Request>, now: Time,
                              times: map<Operation, Time>, later: Time, times': map<Operation, Time>, op: Operation, key: Key)
    requires Repeated(cfg, states, after, requests, now, times, later, times') && op in times && key.Own?
    requires Charge(cfg, states, requests, times, op, key) > 0
    requires Level(cfg.rules[op], states[op], key, times[op]) < 1.0
    requires times'[op] < times[op] + cfg.rules[op].Wait(1.0 - Level(cfg.rules[op], states[op], key, times[op]))
    ensures Charge(cfg, after, requests, times', op, key) == 1
    ensures Level(cfg.rules[op], after[op], key, times'[op]) < 1.0
  {
    hide ReadClocks, Acceptable, KeyInv, Load, StageAll, Rotate, Find, Reserve, Charge, Unique, Level, SameLevels, StateInv;
    DeniedState(cfg, states, requests, now, times, op);
    EffectiveTimes(cfg, states, requests, now, times, op);
    OwnCharge(cfg, states, requests, now, times, op, key.subject);
    OwnCharge(cfg, after, requests, later, times', op, key.subject);
    BucketStaysShort(cfg.mode, cfg.rules[op], states[op], after[op], key, times[op], times'[op]);
  }

  lemma BucketStaysShort(mode: Mode, rule: Rule, was: OpState, now: OpState, key: Key, t0: Time, t1: Time)
    requires rule.Recovers() && StateInv(mode, rule, was) && StateInv(mode, rule, now) && SameLevels(rule, was, now)
    requires was.lastNow <= t0 == now.lastNow <= t1
    requires Level(rule, was, key, t0) < 1.0 && t1 < t0 + rule.Wait(1.0 - Level(rule, was, key, t0))
    ensures Level(rule, now, key, t1) < 1.0
    ensures Find(Rotate(mode, rule, now, t1), key).Some?
  {
    hide StateInv, Level;
    assert Level(rule, now, key, t1) == Level(rule, was, key, t1);
    LevelAfterWaiting(mode, rule, was, key, t0, t1, 1);
    RotationKeepsLevels(mode, rule, now, t1, key, t1);
    MissingBucketIsFull(rule, Rotate(mode, rule, now, t1), key, t1);
  }
}
