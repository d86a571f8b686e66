/**
 What every call answers and does, told by the levels of the buckets alone: when a query or a reservation is
 granted, which buckets a rotation forgets, and what a refund gives back.
 */
module LimiterOutcomes {
  import opened Wrappers
  import opened LimiterSpec
  import opened LimiterInvariant
  import opened LimiterStaging
  import opened LimiterEffects
  import opened LimiterRuns
  import opened LimiterRoom
  import opened LimiterRetry
  import opened LimiterSkew
  import LimiterQueries

  // ------------------------------------------------------------- forgetting

  /** Time since the generation began, as far as a Duration can tell. */
  function Age(st: OpState, at: Time): int {
    if st.generationStart == 0 || at < st.generationStart then 0
    else if at - st.generationStart > MAX_DURATION then MAX_DURATION
    else at - st.generationStart
  }

  /** The bucket of `key` that is still remembered at `at`: any in the first phase, in the second those used in it, then none. */
  function Remembered(rule: Rule, st: OpState, key: Key, at: Time): Option<Bucket> {
    if Age(st, at) < rule.ttl then Find(st, key)
    else if Age(st, at) < 2 * rule.ttl then FindCurrent(st, key)
    else None
  }

  /** A rotation forgets exactly what was not used for a whole phase. */
  lemma ForgottenExactly(max: nat, rule: Rule, st: OpState, at: Time, key: Key)
    requires rule.Valid()
    ensures Find(Rotate(Bounded(max), rule, st, at), key) == Remembered(rule, st, key, at)
  {
    if st.generationStart != 0 && at >= st.generationStart && Age(st, at) >= rule.ttl {
      TwoPhases(Age(st, at), rule.ttl);
    }
  }

  /**
   A rotation begins a new generation when a phase or more has passed, at the boundary of the phase the call falls
   into, so that phases keep their places however long nothing was asked.
   */
  lemma PhasesKeepTheirPlaces(mode: Mode, rule: Rule, st: OpState, at: Time)
    requires rule.Valid() && st.generationStart != 0
    ensures var after := Rotate(mode, rule, st, at);
            if Age(st, at) < rule.ttl then after == st
            else
              && after.generation == st.generation + 1 && after.generationStart <= at
              && (at - st.generationStart <= MAX_DURATION ==>
                    at < after.generationStart + rule.ttl
                    && exists k: nat :: k > 0 && after.generationStart == st.generationStart + k * rule.ttl)
  {
    if Age(st, at) >= rule.ttl {
      var elapsed := Sub(at, st.generationStart);
      TwoPhases(elapsed, rule.ttl);
      if at - st.generationStart <= MAX_DURATION {
        var k := elapsed / rule.ttl;
        assert elapsed == k * rule.ttl + elapsed % rule.ttl;
        assert k > 0;
        assert Rotate(mode, rule, st, at).generationStart == st.generationStart + k * rule.ttl;
      }
    }
  }

  /** The subjects whose own bucket is still remembered. */
  function RememberedSubjects(rule: Rule, st: OpState, at: Time): (s: set<string>)
    ensures forall x :: x in s <==> Remembered(rule, st, Own(x), at).Some?
  {
    if Age(st, at) < rule.ttl then st.buckets.Keys + st.previousBuckets.Keys
    else if Age(st, at) < 2 * rule.ttl then st.buckets.Keys
    else {}
  }

  lemma RotatedSubjects(max: nat, rule: Rule, st: OpState, at: Time)
    requires rule.Valid()
    ensures Known(Rotate(Bounded(max), rule, st, at)) == RememberedSubjects(rule, st, at)
  {
    forall s
      ensures s in Known(Rotate(Bounded(max), rule, st, at)) <==> s in RememberedSubjects(rule, st, at)
    {
      ForgottenExactly(max, rule, st, at, Own(s));
      KnownMeansFound(Rotate(Bounded(max), rule, st, at), s);
    }
  }

  // ---------------------------------------------------------------- queries

  /** A call is taken to happen at its own moment, or at the last one seen if that is less than a second ahead. */
  function Moment(st: OpState, now: Time): Time {
    if now < st.lastNow then st.lastNow else now
  }

  /** The clock has not run back by a second or more. */
  predicate InTime(st: OpState, now: Time) {
    st.lastNow < now + SECOND
  }

  lemma InTimeIsRead(st: OpState, now: Time)
    requires now > 0
    ensures ReadClock(st, now).At? <==> InTime(st, now)
    ensures InTime(st, now) ==> ReadClock(st, now) == At(Moment(st, now)) && EffectiveNow(st, now) == Moment(st, now)
  {
  }

  /** Who pays for a subject: its own bucket, if it is remembered or there is a free place, and else the shared one. */
  function QueryPayer(max: nat, rule: Rule, st: OpState, subject: string, at: Time): Key {
    var subjects := RememberedSubjects(rule, st, at);
    if subject in subjects || |subjects| < max then Own(subject) else Shared
  }

  lemma QueryPayerIsKey(max: nat, rule: Rule, st: OpState, subject: string, now: Time)
    requires rule.Recovers() && StateInv(Bounded(max), rule, st) && now > 0 && InTime(st, now)
    ensures QueryKey(Bounded(max), rule, st, subject, now) == QueryPayer(max, rule, st, subject, Moment(st, now))
  {
    var at := Moment(st, now);
    var rotated := Rotate(Bounded(max), rule, st, at);
    RotatedSubjects(max, rule, st, at);
    RotationKeepsInvariant(Bounded(max), rule, st, at);
    KnownMeansFound(rotated, subject);
    KnownIsCounted(Bounded(max), rule, rotated.(lastNow := at));
    assert Known(rotated.(lastNow := at)) == Known(rotated);
  }

  /** One operation asked: the answer, the token taken, and every level that stays. */
  ghost predicate Asked(max: nat, rule: Rule, st: OpState, subject: string, now: Time, consume: bool, after: OpState, decision: Decision)
    requires rule.refill > 0.0
  {
    var at := Moment(st, now);
    var key := QueryPayer(max, rule, st, subject, at);
    && decision == (if !InTime(st, now) then Decision(false, Sub(st.lastNow, now))
                    else if Level(rule, st, key, at) >= 1.0 then ALLOWED
                    else Decision(false, rule.Wait(1.0 - Level(rule, st, key, at))))
    && (forall k, t :: t >= after.lastNow && !(decision.allowed && consume && k == key) ==> Level(rule, after, k, t) == Level(rule, st, k, t))
    && (decision.allowed && consume ==> after.lastNow == at && Level(rule, after, key, at) == Level(rule, st, key, at) - 1.0)
  }

  lemma AskedExactly(max: nat, rule: Rule, st: OpState, subject: string, now: Time, consume: bool)
    requires rule.Recovers() && StateInv(Bounded(max), rule, st) && now > 0
    ensures var (after, decision) := Ask(Bounded(max), rule, st, subject, now, consume);
            Asked(max, rule, st, subject, now, consume, after, decision)
  {
    InTimeIsRead(st, now);
    QueryDebits(Bounded(max), rule, st, subject, now, consume);
    var (after, decision) := Ask(Bounded(max), rule, st, subject, now, consume);
    if InTime(st, now) {
      QueryPayerIsKey(max, rule, st, subject, now);
      LimiterQueries.AllowedIfTokenLeft(Bounded(max), rule, st, subject, now, consume);
      DebitsTell(rule, st, after, decision, consume, QueryKey(Bounded(max), rule, st, subject, now), now);
      AllowedMeansNoWait(Bounded(max), rule, st, subject, now, consume);
      hide Ask, Level, QueryPayer, StateInv, InTime, QueryKey, Rule.Recovers;
    }
  }

  lemma AllowedMeansNoWait(mode: Mode, rule: Rule, st: OpState, subject: string, now: Time, consume: bool)
    requires rule.ttl > 0 && rule.refill > 0.0
    ensures Ask(mode, rule, st, subject, now, consume).1.allowed ==> Ask(mode, rule, st, subject, now, consume).1 == ALLOWED
  {
    hide Rotate, Route, Settled;
  }

  lemma DebitsTell(rule: Rule, st: OpState, after: OpState, decision: Decision, consume: bool, key: Key, now: Time)
    requires forall k :: Debited(rule, st, after, k, QueryUnits(decision, consume, key, k), now)
    ensures forall k, t :: t >= after.lastNow && !(decision.allowed && consume && k == key) ==> Level(rule, after, k, t) == Level(rule, st, k, t)
    ensures decision.allowed && consume ==> Level(rule, after, key, after.lastNow) == Level(rule, st, key, after.lastNow) - 1.0
  {
    hide Level;
    assert Debited(rule, st, after, key, QueryUnits(decision, consume, key, key), now);
    forall k, t | t >= after.lastNow && !(decision.allowed && consume && k == key)
      ensures Level(rule, after, k, t) == Level(rule, st, k, t)
    {
      assert Debited(rule, st, after, k, QueryUnits(decision, consume, key, k), now);
    }
  }

  /**
   Allow and Check answer yes exactly when their arguments are good, the clock has not run back by a second and the
   bucket that pays holds a token; Allow then takes it, and nothing else changes any level.
   */
  lemma QueryAnswersExactly(cfg: Config, states: States, subject: string, op: Operation, now: Time, consume: bool)
    requires StatesInv(cfg, states) && Configured(cfg) && cfg.mode.Bounded?
    ensures var (after, decision) := Decide(cfg, states, subject, op, now, consume);
            if subject != "" && now > 0 && op in cfg.rules then
              && Asked(cfg.mode.maxSubjects, cfg.rules[op], states[op], subject, now, consume, after[op], decision)
              && (forall o <- states :: o != op ==> after[o] == states[o])
            else after == states && !decision.allowed
  {
    if subject != "" && now > 0 && op in cfg.rules {
      AskedExactly(cfg.mode.maxSubjects, cfg.rules[op], states[op], subject, now, consume);
      hide Ask, Asked;
    }
  }

  // ------------------------------------------------------------- reservations

  /** The subjects that ask for `op`. */
  function Asking(requests: seq<Request>, op: Operation): set<string> {
    set r | r in requests && r.operation == op :: r.subject
  }

  /** How many of the asking subjects find neither a bucket of their own nor a free place. */
  function Surplus(max: nat, rule: Rule, st: OpState, requests: seq<Request>, op: Operation, at: Time): nat {
    var n := |RememberedSubjects(rule, st, at) + Asking(requests, op)|;
    if n <= max then 0 else n - max
  }

  /** Every asking subject has a token left, a new one included, and the shared bucket one for each that found no place. */
  ghost predicate Payable(max: nat, rule: Rule, st: OpState, requests: seq<Request>, op: Operation, at: Time) {
    && (forall s <- Asking(requests, op) :: Level(rule, st, Own(s), at) >= 1.0)
    && Level(rule, st, Shared, at) >= Surplus(max, rule, st, requests, op, at) as real
  }

  ghost predicate WellAsked(rules: map<Operation, Rule>, requests: seq<Request>, now: Time) {
    && requests != [] && now > 0
    && forall r :: r in requests ==> r.subject != "" && r.operation in rules
  }

  /** A well-formed call whose clocks have not run back gets as far as its buckets, and no other call does. */
  lemma GetsThrough(cfg: Config, states: States, requests: seq<Request>, now: Time)
    requires StatesInv(cfg, states)
    ensures WellAsked(cfg.rules, requests, now) && (forall r :: r in requests ==> InTime(states[r.operation], now))
            <==> exists times :: InProgress(cfg, states, requests, now, times)
  {
    UniqueIsSubset(requests);
    var unique := Unique(requests);
    if WellAsked(cfg.rules, requests, now) {
      forall r | r in requests
        ensures ReadClock(states[r.operation], now).At? <==> InTime(states[r.operation], now)
      {
        InTimeIsRead(states[r.operation], now);
      }
      if forall r :: r in requests ==> InTime(states[r.operation], now) {
        ClocksCanBeRead(states, unique, now);
        assert InProgress(cfg, states, requests, now, ReadClocks(states, unique, now).times);
      }
    }
    if times :| InProgress(cfg, states, requests, now, times) {
      ClocksWereRead(states, unique, now);
    }
  }

  /** The shared bucket is charged for the surplus. */
  lemma SharedCharge(cfg: Config, states: States, requests: seq<Request>, now: Time, times: map<Operation, Time>, op: Operation)
    requires InProgress(cfg, states, requests, now, times) && op in times && cfg.mode.Bounded?
    ensures Charge(cfg, states, requests, times, op, Shared) == Surplus(cfg.mode.maxSubjects, cfg.rules[op], states[op], requests, op, times[op])
  {
    UniqueIsSubset(requests);
    EffectiveTimes(cfg, states, requests, now, times, op);
    hide StateInv, Rotate, Load, Rule.Recovers, InProgress, Known;
    SharedLoadAt(cfg.mode.maxSubjects, cfg.rules[op], states[op], Unique(requests), op, times[op]);
    assert Asking(Unique(requests), op) == Asking(requests, op);
  }

  lemma SharedLoadAt(max: nat, rule: Rule, st: OpState, requests: seq<Request>, op: Operation, at: Time)
    requires rule.Recovers() && StateInv(Bounded(max), rule, st) && 0 < at && st.lastNow <= at && Distinct(requests)
    ensures Load(Bounded(max), Rotate(Bounded(max), rule, st, at), requests, op, Shared) == Surplus(max, rule, st, requests, op, at)
  {
    var rotated := Rotate(Bounded(max), rule, st, at);
    RotationKeepsInvariant(Bounded(max), rule, st, at);
    hide StateInv, Rotate, Load, Rule.Recovers;
    SharedLoad(max, rule, rotated.(lastNow := at), requests, op);
    LoadIgnoresClock(Bounded(max), rotated, at, requests, op, Shared);
    RotatedSubjects(max, rule, st, at);
    assert Known(rotated.(lastNow := at)) == Known(rotated);
    assert Requested(requests, op) == Asking(requests, op);
  }

  /** One bucket per asking subject is charged once; the others have a full bucket waiting. */
  lemma OwnCharges(cfg: Config, states: States, requests: seq<Request>, now: Time, times: map<Operation, Time>, op: Operation, s: string)
    requires InProgress(cfg, states, requests, now, times) && op in times && cfg.mode.Bounded?
    ensures Charge(cfg, states, requests, times, op, Own(s)) <= (if s in Asking(requests, op) then 1 else 0)
    ensures s in Asking(requests, op) && Charge(cfg, states, requests, times, op, Own(s)) == 0 ==>
              Level(cfg.rules[op], states[op], Own(s), times[op]) == cfg.rules[op].capacity as real
  {
    var rule, st, at := cfg.rules[op], states[op], times[op];
    UniqueIsSubset(requests);
    EffectiveTimes(cfg, states, requests, now, times, op);
    OwnCharge(cfg, states, requests, now, times, op, s);
    RotationKeepsLevels(cfg.mode, rule, st, at, Own(s), at);
    hide StateInv, Rotate, Load, Rule.Recovers, Settled, Charge;
    assert s in Asking(requests, op) ==> Request(s, op) in requests;
  }

  /**
   A reservation is granted exactly when it is well formed, no clock it needs has run back by a second, every
   subject it names has a token left, and the shared bucket of each operation has one for every subject beyond the
   places; how often a request is repeated does not matter.
   */
  lemma ReserveGrantsExactly(cfg: Config, states: States, requests: seq<Request>, now: Time)
    requires StatesInv(cfg, states) && Configured(cfg) && cfg.mode.Bounded?
    ensures Reserve(cfg, states, requests, now).1.Granted? <==>
              && WellAsked(cfg.rules, requests, now)
              && forall r :: r in requests ==>
                   && InTime(states[r.operation], now)
                   && Payable(cfg.mode.maxSubjects, cfg.rules[r.operation], states[r.operation], requests, r.operation,
                              Moment(states[r.operation], now))
  {
    hide Reserve, Level, StatesInv;
    GetsThrough(cfg, states, requests, now);
    ReserveStopsEarly(cfg, states, requests, now);
    if times :| InProgress(cfg, states, requests, now, times) {
      GrantedWhenAllCanPay(cfg, states, requests, now, times);
      AskedOperations(cfg, states, requests, now, times);
      hide InProgress, Charge, Payable, Moment;
      forall op | op in times
        ensures OperationPays(cfg, states, requests, times, op)
            <==> Payable(cfg.mode.maxSubjects, cfg.rules[op], states[op], requests, op, Moment(states[op], now))
      {
        PayableMeansCharged(cfg, states, requests, now, times, op);
      }
    }
  }

  lemma AskedOperations(cfg: Config, states: States, requests: seq<Request>, now: Time, times: map<Operation, Time>)
    requires InProgress(cfg, states, requests, now, times)
    ensures times.Keys <= states.Keys <= cfg.rules.Keys && forall o <- cfg.rules :: cfg.rules[o].ttl > 0
    ensures forall op :: op in times <==> exists r :: r in requests && r.operation == op
  {
    UniqueIsSubset(requests);
    forall op | op in times
      ensures exists r :: r in requests && r.operation == op
    {
      var r :| r in Unique(requests) && r.operation == op;
      assert r in requests;
    }
    forall r | r in requests
      ensures r.operation in times
    {
      assert r in Unique(requests);
    }
  }

  /** Every bucket of one operation can pay what it is charged. */
  ghost predicate OperationPays(cfg: Config, states: States, requests: seq<Request>, times: map<Operation, Time>, op: Operation)
    requires times.Keys <= states.Keys <= cfg.rules.Keys && op in times && forall o <- cfg.rules :: cfg.rules[o].ttl > 0
  {
    forall key :: Charge(cfg, states, requests, times, op, key) > 0 ==>
      Level(cfg.rules[op], states[op], key, times[op]) >= Charge(cfg, states, requests, times, op, key) as real
  }

  lemma PayableMeansCharged(cfg: Config, states: States, requests: seq<Request>, now: Time, times: map<Operation, Time>, op: Operation)
    requires InProgress(cfg, states, requests, now, times) && Configured(cfg) && cfg.mode.Bounded? && op in times
    requires times.Keys <= states.Keys <= cfg.rules.Keys && forall o <- cfg.rules :: cfg.rules[o].ttl > 0
    ensures OperationPays(cfg, states, requests, times, op)
        <==> Payable(cfg.mode.maxSubjects, cfg.rules[op], states[op], requests, op, Moment(states[op], now))
  {
    var rule, st, at := cfg.rules[op], states[op], times[op];
    EffectiveTimes(cfg, states, requests, now, times, op);
    SharedCharge(cfg, states, requests, now, times, op);
    LevelNeverFalls(cfg.mode, rule, st, Shared, at, at);
    assert rule.capacity >= 1;
    hide Charge, Surplus, Level, StateInv, Asking, Rule.Recovers, Rule.Valid, InProgress, Configured;
    if OperationPays(cfg, states, requests, times, op) {
      forall s | s in Asking(requests, op)
        ensures Level(rule, st, Own(s), at) >= 1.0
      {
        OwnCharges(cfg, states, requests, now, times, op, s);
        assert Charge(cfg, states, requests, times, op, Own(s)) in {0, 1};
      }
    }
    forall s | Charge(cfg, states, requests, times, op, Own(s)) > 0
      ensures s in Asking(requests, op) && Charge(cfg, states, requests, times, op, Own(s)) == 1
    {
      OwnCharges(cfg, states, requests, now, times, op, s);
    }
    if Payable(cfg.mode.maxSubjects, rule, st, requests, op, at) {
      ChargesArePaid(cfg, states, requests, times, op);
    }
  }

  lemma ChargesArePaid(cfg: Config, states: States, requests: seq<Request>, times: map<Operation, Time>, op: Operation)
    requires times.Keys <= states.Keys <= cfg.rules.Keys && op in times && forall o <- cfg.rules :: cfg.rules[o].ttl > 0
    requires Level(cfg.rules[op], states[op], Shared, times[op]) >= Charge(cfg, states, requests, times, op, Shared) as real
    requires forall s <- Asking(requests, op) :: Level(cfg.rules[op], states[op], Own(s), times[op]) >= 1.0
    requires forall s :: Charge(cfg, states, requests, times, op, Own(s)) > 0
               ==> s in Asking(requests, op) && Charge(cfg, states, requests, times, op, Own(s)) == 1
    ensures OperationPays(cfg, states, requests, times, op)
  {
    hide Charge, Level, Asking;
    forall key: Key | Charge(cfg, states, requests, times, op, key) > 0
      ensures Level(cfg.rules[op], states[op], key, times[op]) >= Charge(cfg, states, requests, times, op, key) as real
    {
      assert key.Own? ==> key == Own(key.subject);
    }
  }

  // ------------------------------------------------------------------ refunds

  function Capped(rule: Rule, tokens: real): real {
    if tokens < rule.capacity as real then tokens else rule.capacity as real
  }

  /** Units that the lines of the running generation name for bucket (op, key). */
  function Returning(items: seq<Item>, op: Operation, key: Key, generation: nat): nat {
    if items == [] then 0
    else
      var i := items[|items| - 1];
      Returning(items[..|items| - 1], op, key, generation)
      + if i.operation == op && i.key == key && i.generation == generation then i.units else 0
  }

  /** Bucket `key` was lifted by `units` at `now`, up to its capacity, and has refilled since. */
  ghost predicate Lifted(rule: Rule, was: OpState, after: OpState, key: Key, units: nat, now: Time) {
    forall t :: t >= now ==>
      Level(rule, after, key, t) == Capped(rule, Capped(rule, Level(rule, was, key, now) + units as real) + rule.Gain(Sub(t, now)))
  }

  /** Untouched, a bucket refills up to its capacity. */
  lemma {:induction false} LiftedByNothing(mode: Mode, rule: Rule, st: OpState, key: Key, now: Time)
    requires rule.Recovers() && StateInv(mode, rule, st) && st.lastNow <= now
    ensures Lifted(rule, st, st, key, 0, now)
  {
    LevelNeverFalls(mode, rule, st, key, now, now);
    assert KeyInv(rule, st, key);
    forall t | t >= now
      ensures Level(rule, st, key, t) == Capped(rule, Capped(rule, Level(rule, st, key, now) + 0.0) + rule.Gain(Sub(t, now)))
    {
      GainMonotone(rule, 0, Sub(t, now));
      if Find(st, key).Some? {
        SettlingIsUnobservable(rule, Find(st, key).value, now, t);
      }
    }
  }

  /** Two lifts at one instant are one. */
  lemma {:induction false} LiftedTwice(rule: Rule, a: OpState, b: OpState, c: OpState, key: Key, m: nat, n: nat, now: Time)
    requires Lifted(rule, a, b, key, m, now) && Lifted(rule, b, c, key, n, now)
    ensures Lifted(rule, a, c, key, m + n, now)
  {
    assert Sub(now, now) == 0 && rule.Gain(0) == 0.0;
    assert Level(rule, b, key, now) == Capped(rule, Capped(rule, Level(rule, a, key, now) + m as real) + rule.Gain(Sub(now, now)));
    hide Level;
  }

  /** A line that is accepted lifts its bucket, and no other. */
  lemma {:induction false} CreditLifts(mode: Mode, rule: Rule, st: OpState, item: Item, now: Time, key: Key)
    requires rule.Recovers() && StateInv(mode, rule, st) && st.lastNow <= now && FindCurrent(st, item.key).Some?
    ensures var b := FindCurrent(st, item.key).value;
            Lifted(rule, st, Put(st, item.key, Returned(rule, b, item.units, now)).(lastNow := now), key,
                   if key == item.key then item.units else 0, now)
  {
    var b := FindCurrent(st, item.key).value;
    var r := Returned(rule, b, item.units, now);
    PutAt(st, item.key, r);
    assert KeyInv(rule, st, item.key);
    if key != item.key {
      LiftedByNothing(mode, rule, st, key, now);
    } else {
      assert r == Bucket(Capped(rule, Settled(rule, b, now) + item.units as real), now);
    }
  }

  lemma {:induction false} OneLineLifts(cfg: Config, states: States, item: Item, now: Time, op: Operation, key: Key)
    requires StatesInv(cfg, states) && op in states && now > 0 && Live(cfg, states, item) && states[op].lastNow <= now
    ensures Lifted(cfg.rules[op], states[op], RefundOne(cfg.rules, states, item, now)[op], key,
                   Returning([item], op, key, states[op].generation), now)
  {
    var rule, st := cfg.rules[op], states[op];
    assert [item][..0] == [];
    if item.operation == op && item.generation == st.generation {
      CreditLifts(cfg.mode, rule, st, item, now, key);
    } else {
      LiftedByNothing(cfg.mode, rule, st, key, now);
    }
    hide Lifted, StateInv, Returned;
  }

  lemma {:induction false} ReturningTogether(items: seq<Item>, item: Item, op: Operation, key: Key, generation: nat)
    ensures Returning(items + [item], op, key, generation) == Returning(items, op, key, generation) + Returning([item], op, key, generation)
  {
    assert (items + [item])[..|items|] == items && [item][..0] == [];
  }

  /**
   A refund whose operation's clock is not ahead lifts every bucket by exactly the units its lines of the running
   generation name, up to capacity, and leaves every other bucket alone; an operation whose clock is ahead is not
   touched at all.
   */
  lemma {:induction false} RefundLifts(cfg: Config, states: States, items: seq<Item>, now: Time, op: Operation, key: Key)
    requires StatesInv(cfg, states) && op in states && now > 0 && forall i <- items :: Live(cfg, states, i)
    ensures var after := RefundAll(cfg.rules, states, items, now);
            if states[op].lastNow <= now
            then Lifted(cfg.rules[op], states[op], after[op], key, Returning(items, op, key, states[op].generation), now)
            else after[op] == states[op]
  {
    hide RefundOne, Lifted, StateInv;
    if items == [] {
      if states[op].lastNow <= now {
        LiftedByNothing(cfg.mode, cfg.rules[op], states[op], key, now);
      }
    } else {
      var front, last := items[..|items| - 1], items[|items| - 1];
      RefundLifts(cfg, states, front, now, op, key);
      RefundKeepsLines(cfg, states, front, now, last);
      RefundKeepsClock(cfg.rules, states, front, now, op);
      var mid := RefundAll(cfg.rules, states, front, now);
      hide RefundAll, Live;
      if states[op].lastNow <= now {
        OneMoreLine(cfg, states[op], mid, items, now, op, key);
      } else {
        AheadIsSkipped(cfg.rules, mid, last, now, op);
      }
    }
  }

  lemma RefundKeepsLines(cfg: Config, states: States, items: seq<Item>, now: Time, item: Item)
    requires StatesInv(cfg, states) && Live(cfg, states, item)
    ensures StatesInv(cfg, RefundAll(cfg.rules, states, items, now)) && Live(cfg, RefundAll(cfg.rules, states, items, now), item)
  {
    RefundCredits(cfg, states, items, now);
    LiveStaysLive(cfg, states, RefundAll(cfg.rules, states, items, now), item, now);
  }

  lemma {:induction false} OneMoreLine(cfg: Config, st: OpState, mid: States, items: seq<Item>, now: Time, op: Operation, key: Key)
    requires StatesInv(cfg, mid) && op in mid && mid.Keys == cfg.rules.Keys && now > 0 && items != [] && Live(cfg, mid, items[|items| - 1])
    requires mid[op].generation == st.generation && mid[op].lastNow <= now
    requires Lifted(cfg.rules[op], st, mid[op], key, Returning(items[..|items| - 1], op, key, st.generation), now)
    ensures Lifted(cfg.rules[op], st, RefundOne(cfg.rules, mid, items[|items| - 1], now)[op], key,
                   Returning(items, op, key, st.generation), now)
  {
    hide *;
    var front, last := items[..|items| - 1], items[|items| - 1];
    ReturningTogether(front, last, op, key, st.generation);
    assert items == front + [last];
    OneLineLifts(cfg, mid, last, now, op, key);
    LiftedTwice(cfg.rules[op], st, mid[op], RefundOne(cfg.rules, mid, last, now)[op], key,
                Returning(front, op, key, st.generation), Returning([last], op, key, st.generation), now);
  }

  lemma AheadIsSkipped(rules: map<Operation, Rule>, states: States, item: Item, now: Time, op: Operation)
    requires states.Keys == rules.Keys && op in states && states[op].lastNow > now
    ensures RefundOne(rules, states, item, now)[op] == states[op]
  {
  }

  lemma {:induction false} RefundKeepsClock(rules: map<Operation, Rule>, states: States, items: seq<Item>, now: Time, op: Operation)
    requires states.Keys == rules.Keys && op in states
    ensures var after := RefundAll(rules, states, items, now)[op];
            after.generation == states[op].generation && (after.lastNow == states[op].lastNow || after.lastNow == now)
  {
    if items != [] && now != 0 {
      RefundKeepsClock(rules, states, items[..|items| - 1], now, op);
    }
  }

  /** In any run, giving a reservation back does that to every bucket. */
  lemma {:induction false} GivingBackLifts(cfg: Config, w: World, index: nat, now: Time, op: Operation, key: Key)
    requires WorldInv(cfg, w) && index < |w.reservations| && !w.reservations[index].resolved && now > 0 && op in cfg.rules
    ensures var after := Step(cfg, w, Refund(index, now)).0;
            && after.reservations == w.reservations[index := w.reservations[index].(resolved := true)]
            && if w.states[op].lastNow <= now
               then Lifted(cfg.rules[op], w.states[op], after.states[op], key,
                           Returning(w.reservations[index].items, op, key, w.states[op].generation), now)
               else after.states[op] == w.states[op]
  {
    var r := w.reservations[index];
    RefundStep(cfg, w, index, now);
    assert forall i <- r.items :: Live(cfg, w.states, i);
    hide Lifted, RefundAll, Live, StateInv, Rule.Recovers, Returning, Step;
    RefundLifts(cfg, w.states, r.items, now, op, key);
  }

  lemma RefundStep(cfg: Config, w: World, index: nat, now: Time)
    requires Configured(cfg) && w.states.Keys == cfg.rules.Keys && index < |w.reservations| && !w.reservations[index].resolved
    ensures Step(cfg, w, Refund(index, now)).0 == World(RefundAll(cfg.rules, w.states, w.reservations[index].items, now),
                                                        w.reservations[index := w.reservations[index].(resolved := true)])
  {
    hide Reserve, Decide, RefundAll;
  }

  lemma {:induction false} ReturningIsUnits(items: seq<Item>, op: Operation, key: Key, generation: nat)
    requires forall i <- items :: i.operation == op ==> i.generation == generation
    ensures Returning(items, op, key, generation) == Units(items, op, key)
  {
    if items != [] {
      assert items[|items| - 1] in items;
      ReturningIsUnits(items[..|items| - 1], op, key, generation);
    }
  }

  /**
   A reservation that is granted and given back at the same moment leaves every level at every later instant as it
   was, if the operation's clock was not ahead of that moment; if it was ahead, what was taken stays taken.
   */
  lemma {:induction false} RefundUndoesReserve(cfg: Config, states: States, requests: seq<Request>, now: Time, op: Operation)
    requires StatesInv(cfg, states) && Configured(cfg) && op in states && Reserve(cfg, states, requests, now).1.Granted?
    ensures var (held, outcome) := Reserve(cfg, states, requests, now);
            var after := RefundAll(cfg.rules, held, outcome.items, now);
            if states[op].lastNow <= now
            then forall key, t :: t >= now ==> Level(cfg.rules[op], after[op], key, t) == Level(cfg.rules[op], states[op], key, t)
            else after[op] == held[op]
  {
    hide StateInv, Reserve, Level, RefundAll;
    GrantedItemsAreLive(cfg, states, requests, now);
    GrantedNow(cfg, states, requests, now);
    ReserveIsAllOrNothing(cfg, states, requests, now, op);
    assert StatesInv(cfg, Reserve(cfg, states, requests, now).0) by {
      forall o | o in states
        ensures StateInv(cfg.mode, cfg.rules[o], Reserve(cfg, states, requests, now).0[o])
      {
        ReserveIsAllOrNothing(cfg, states, requests, now, o);
      }
    }
    var (held, outcome) := Reserve(cfg, states, requests, now);
    RefundLifts(cfg, held, outcome.items, now, op, Shared);
    if states[op].lastNow <= now {
      forall key, t | t >= now
        ensures Level(cfg.rules[op], RefundAll(cfg.rules, held, outcome.items, now)[op], key, t) == Level(cfg.rules[op], states[op], key, t)
      {
        RefundLifts(cfg, held, outcome.items, now, op, key);
        LiftedByNothing(cfg.mode, cfg.rules[op], states[op], key, now);
        ReturningIsUnits(outcome.items, op, key, held[op].generation);
        LiftedBack(cfg.rules[op], states[op], held[op], RefundAll(cfg.rules, held, outcome.items, now)[op], key,
                   Units(outcome.items, op, key), now);
      }
    }
  }

  /** What was taken and given back at one moment leaves no trace. */
  lemma LiftedBack(rule: Rule, was: OpState, held: OpState, after: OpState, key: Key, units: nat, now: Time)
    requires held.lastNow <= now && Debited(rule, was, held, key, units, now)
    requires Lifted(rule, was, was, key, 0, now) && Lifted(rule, held, after, key, units, now)
    ensures forall t :: t >= now ==> Level(rule, after, key, t) == Level(rule, was, key, t)
  {
    hide Level;
    assert Level(rule, held, key, now) + units as real == Level(rule, was, key, now) + 0.0;
  }

  /** The lines of a fresh reservation belong to the running generation, and the call had its arguments. */
  lemma GrantedNow(cfg: Config, states: States, requests: seq<Request>, now: Time)
    requires StatesInv(cfg, states) && Configured(cfg) && Reserve(cfg, states, requests, now).1.Granted?
    ensures now > 0
    ensures var (after, outcome) := Reserve(cfg, states, requests, now);
            forall i <- outcome.items :: i.operation in after && i.generation == after[i.operation].generation
  {
    ReserveStopsEarly(cfg, states, requests, now);
    var times :| InProgress(cfg, states, requests, now, times);
    ReserveUnfolds(cfg, states, requests, now, times);
    hide *;
    ReceiptIsCurrent(Reserve(cfg, states, requests, now).0, StagingOf(cfg, states, requests, times).items);
  }

  lemma ReceiptIsCurrent(states: States, items: seq<Staged>)
    requires forall i <- items :: i.operation in states
    ensures forall i <- Receipt(states, items) :: i.operation in states && i.generation == states[i.operation].generation
  {
  }

  // ----------------------------------------------------- committed for good

  lemma StepKeepsResolved(cfg: Config, w: World, e: Event, index: nat)
    requires WorldInv(cfg, w) && index < |w.reservations| && w.reservations[index].resolved
    ensures var after := Step(cfg, w, e).0;
            index < |after.reservations| && after.reservations[index] == w.reservations[index]
    ensures e.Refund? && e.index == index ==> Step(cfg, w, e).0 == w
  {
    hide Reserve, Decide, RefundAll, StatesInv;
  }

  /** What was committed, or given back once, is never given back again, whatever is called in between. */
  lemma {:induction false} ResolvedForGood(cfg: Config, w: World, index: nat, now: Time, events: seq<Event>, later: Time)
    requires WorldInv(cfg, w) && index < |w.reservations|
    ensures var committed := Run(cfg, Step(cfg, w, Commit(index)).0, events);
            Step(cfg, committed, Refund(index, later)).0 == committed
    ensures var refunded := Run(cfg, Step(cfg, w, Refund(index, now)).0, events);
            Step(cfg, refunded, Refund(index, later)).0 == refunded
    ensures Step(cfg, w, Commit(index)).0.states == w.states
  {
    hide RefundAll, StatesInv;
    StepKeepsInvariant(cfg, w, Commit(index));
    StepKeepsInvariant(cfg, w, Refund(index, now));
    StaysResolved(cfg, Step(cfg, w, Commit(index)).0, index, events, later);
    StaysResolved(cfg, Step(cfg, w, Refund(index, now)).0, index, events, later);
  }

  lemma {:induction false} StaysResolved(cfg: Config, w: World, index: nat, events: seq<Event>, later: Time)
    requires WorldInv(cfg, w) && index < |w.reservations| && w.reservations[index].resolved
    ensures Step(cfg, Run(cfg, w, events), Refund(index, later)).0 == Run(cfg, w, events)
    decreases |events|
  {
    hide Step, StateInv, Rule.Recovers;
    if events == [] {
      StepKeepsResolved(cfg, w, Refund(index, later), index);
    } else {
      StepKeepsResolved(cfg, w, events[0], index);
      StepKeepsInvariant(cfg, w, events[0]);
      StaysResolved(cfg, Step(cfg, w, events[0]).0, index, events[1..], later);
    }
  }
}
