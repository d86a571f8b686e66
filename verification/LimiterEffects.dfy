/**
 What one call does to the buckets: a query or a granted reservation takes exactly its units from
 the buckets that pay, a denial takes nothing from any bucket at any later time, and a refund never
 lifts a bucket by more than it credits.
 */
module LimiterEffects {
  import opened Wrappers
  import opened LimiterSpec
  import opened LimiterInvariant
  import opened LimiterStaging

  // ------------------------------------------------------ paying the items

  ghost predicate CanPay(cfg: Config, times: map<Operation, Time>, base: States, i: Staged) {
    && i.operation in times && i.operation in base && i.operation in cfg.rules
    && i.spend as real <= i.tokens <= cfg.rules[i.operation].capacity as real
    && FindPrevious(base[i.operation], i.key).None?
  }

  /** One operation after some of its items were paid. */
  ghost predicate PaidState(cfg: Config, rule: Rule, base: OpState, now: OpState, items: seq<Staged>, op: Operation, at: Time) {
    && StateInv(cfg.mode, rule, now)
    && now.lastNow == base.lastNow && now.generationStart == base.generationStart && now.generation == base.generation
    && SubjectCount(now) == SubjectCount(base) + Created(base, items, op)
    && (forall k :: FindPrevious(now, k) == FindPrevious(base, k))
    && (forall k :: !IsStaged(items, op, k) ==> FindCurrent(now, k) == FindCurrent(base, k))
    && (forall i :: 0 <= i < |items| && items[i].operation == op ==>
          FindCurrent(now, items[i].key) == Some(Bucket(items[i].tokens - items[i].spend as real, at)))
  }

  lemma StagedSplit(items: seq<Staged>, op: Operation, k: Key)
    requires items != []
    ensures IsStaged(items, op, k)
            <==> IsStaged(items[..|items| - 1], op, k) || (items[|items| - 1].operation == op && items[|items| - 1].key == k)
    ensures DistinctItems(items)
            ==> !(IsStaged(items[..|items| - 1], op, k) && items[|items| - 1].operation == op && items[|items| - 1].key == k)
  {
    var front := items[..|items| - 1];
    assert forall j :: 0 <= j < |front| ==> items[j] == front[j];
  }

  lemma PaidStateSkips(cfg: Config, rule: Rule, base: OpState, now: OpState, items: seq<Staged>, op: Operation, at: Time)
    requires items != [] && items[|items| - 1].operation != op
    requires PaidState(cfg, rule, base, now, items[..|items| - 1], op, at)
    ensures PaidState(cfg, rule, base, now, items, op, at)
  {
    forall k {
      StagedSplit(items, op, k);
    }
  }

  lemma PaidStatePays(cfg: Config, rule: Rule, base: OpState, was: OpState, items: seq<Staged>, op: Operation, at: Time)
    requires items != [] && items[|items| - 1].operation == op && DistinctItems(items)
    requires rule.Recovers() && PaidState(cfg, rule, base, was, items[..|items| - 1], op, at)
    requires 0 < at == base.lastNow && at < base.generationStart + rule.ttl
    requires var i := items[|items| - 1];
             && i.spend as real <= i.tokens <= rule.capacity as real
             && FindPrevious(base, i.key).None?
    requires cfg.mode.Bounded? ==> SubjectCount(base) + Created(base, items, op) <= cfg.mode.maxSubjects
    ensures var i := items[|items| - 1];
            PaidState(cfg, rule, base, Put(was, i.key, Bucket(i.tokens - i.spend as real, at)), items, op, at)
  {
    var front, i := items[..|items| - 1], items[|items| - 1];
    var b := Bucket(i.tokens - i.spend as real, at);
    StagedSplit(items, op, i.key);
    RecentBucketIsDueInTime(rule, b, was.generationStart);
    PutKeepsInvariant(cfg.mode, rule, was, i.key, b);
    PutAt(was, i.key, b);
    forall k {
      StagedSplit(items, op, k);
    }
  }

  lemma {:induction false} SpendPays(cfg: Config, times: map<Operation, Time>, base: States, items: seq<Staged>, op: Operation)
    requires op in base && op in times && op in cfg.rules && (forall i <- items :: i.operation in base && i.operation in times)
    requires StateInv(cfg.mode, cfg.rules[op], base[op]) && cfg.rules[op].Recovers() && DistinctItems(items)
    requires 0 < times[op] == base[op].lastNow && times[op] < base[op].generationStart + cfg.rules[op].ttl
    requires forall i :: 0 <= i < |items| && items[i].operation == op ==> CanPay(cfg, times, base, items[i])
    requires cfg.mode.Bounded? ==> SubjectCount(base[op]) + Created(base[op], items, op) <= cfg.mode.maxSubjects
    ensures PaidState(cfg, cfg.rules[op], base[op], Spend(base, times, items)[op], items, op, times[op])
  {
    if items != [] {
      var front, i := items[..|items| - 1], items[|items| - 1];
      SpendPays(cfg, times, base, front, op);
      var was := Spend(base, times, front);
      if op == i.operation {
        assert CanPay(cfg, times, base, i);
        PaidStatePays(cfg, cfg.rules[op], base[op], was[op], items, op, times[op]);
      } else {
        PaidStateSkips(cfg, cfg.rules[op], base[op], was[op], items, op, times[op]);
      }
    }
  }

  lemma {:induction false} SpendTouchesOnlyItems(times: map<Operation, Time>, base: States, items: seq<Staged>, op: Operation)
    requires op in base && (forall i <- items :: i.operation in base && i.operation in times && i.operation != op)
    ensures Spend(base, times, items)[op] == base[op]
  {
    if items != [] {
      SpendTouchesOnlyItems(times, base, items[..|items| - 1], op);
    }
  }

  // ------------------------------------------------------ reading the clock

  ghost predicate StatesInv(cfg: Config, states: States) {
    && states.Keys == cfg.rules.Keys
    && (forall op <- cfg.rules :: cfg.rules[op].Recovers())
    && (forall op <- states :: StateInv(cfg.mode, cfg.rules[op], states[op]))
  }

  /** A call never happens before the last one, nor before it was made. */
  function EffectiveNow(st: OpState, now: Time): Time {
    if st.lastNow != 0 && now < st.lastNow then st.lastNow else now
  }

  lemma ClocksAreEffective(states: States, requests: seq<Request>, now: Time)
    requires forall r <- requests :: r.operation in states
    ensures var c := ReadClocks(states, requests, now);
            c.Clocks? ==> forall op <- c.times :: c.times[op] == EffectiveNow(states[op], now)
  {
    if requests != [] {
      ClocksAreEffective(states, requests[..|requests| - 1], now);
    }
  }

  lemma RotatedIsReady(cfg: Config, states: States, times: map<Operation, Time>, now: Time)
    requires StatesInv(cfg, states) && times.Keys <= states.Keys && now > 0
    requires forall op <- times :: times[op] == EffectiveNow(states[op], now)
    ensures Ready(cfg, times, RotateAll(cfg, states, times))
  {
    var rotated := RotateAll(cfg, states, times);
    forall op | op in times
      ensures StateInv(cfg.mode, cfg.rules[op], AtNow(rotated, times, op))
      ensures times[op] < rotated[op].generationStart + cfg.rules[op].ttl
    {
      RotationKeepsInvariant(cfg.mode, cfg.rules[op], states[op], times[op]);
      RotationReachesNow(cfg.mode, cfg.rules[op], states[op], times[op]);
    }
  }

  // --------------------------------------------------------- the transition

  /** How one operation's state may move in one call made at `when`. */
  ghost predicate Evolves(mode: Mode, rule: Rule, was: OpState, now: OpState, when: Time) {
    && StateInv(mode, rule, now)
    && was.lastNow <= now.lastNow
    && (now.lastNow == was.lastNow || now.lastNow == when)
    && was.generation <= now.generation
    && (was.generation == now.generation ==> forall k :: FindCurrent(was, k).Some? ==> FindCurrent(now, k).Some?)
  }

  /** No request, now or later, can tell the two states apart by the tokens it finds. */
  ghost predicate SameLevels(rule: Rule, was: OpState, now: OpState) {
    forall k, t :: t >= now.lastNow ==> Level(rule, now, k, t) == Level(rule, was, k, t)
  }

  lemma RoutedStateEvolves(cfg: Config, op: Operation, was: OpState, rotated: OpState, now: OpState, when: Time)
    requires op in cfg.rules && cfg.rules[op].Recovers() && StateInv(cfg.mode, cfg.rules[op], was) && when > 0
    requires var at := EffectiveNow(was, when);
             && rotated == Rotate(cfg.mode, cfg.rules[op], was, at)
             && now.lastNow == at && StateInv(cfg.mode, cfg.rules[op], now)
             && SameBuckets(rotated.(lastNow := at), now)
    ensures Evolves(cfg.mode, cfg.rules[op], was, now, when)
    ensures SameLevels(cfg.rules[op], was, now)
  {
    var rule, at := cfg.rules[op], EffectiveNow(was, when);
    RotationReachesNow(cfg.mode, rule, was, at);
    assert forall k :: FindCurrent(rotated.(lastNow := at), k) == FindCurrent(rotated, k);
    forall k, t | t >= now.lastNow
      ensures Level(rule, now, k, t) == Level(rule, was, k, t)
    {
      RotationKeepsLevels(cfg.mode, rule, was, at, k, t);
      assert Find(now, k) == Find(rotated.(lastNow := at), k) == Find(rotated, k);
    }
  }

  // ------------------------------------------------------- one reservation

  /** The call got past its arguments and the clock: everything `Reserve` computes on the way. */
  ghost predicate InProgress(cfg: Config, states: States, requests: seq<Request>, now: Time, times: map<Operation, Time>) {
    && StatesInv(cfg, states)
    && Acceptable(cfg.rules, requests, now)
    && (forall r <- Unique(requests) :: r.operation in states)
    && ReadClocks(states, Unique(requests), now) == Clocks(times)
  }

  function StagingOf(cfg: Config, states: States, requests: seq<Request>, times: map<Operation, Time>): Staging
    requires times.Keys <= states.Keys <= cfg.rules.Keys
    requires forall op <- cfg.rules :: cfg.rules[op].ttl > 0
    requires forall q <- Unique(requests) :: q.operation in times
  {
    StageAll(cfg, times, RotateAll(cfg, states, times), Unique(requests))
  }

  lemma InProgressStages(cfg: Config, states: States, requests: seq<Request>, now: Time, times: map<Operation, Time>)
    requires InProgress(cfg, states, requests, now, times)
    ensures now > 0
    ensures forall op <- times :: times[op] == EffectiveNow(states[op], now)
    ensures Ready(cfg, times, RotateAll(cfg, states, times))
    ensures forall q <- Unique(requests) :: q.operation in times
    ensures StagingInv(cfg, times, RotateAll(cfg, states, times), Unique(requests), StagingOf(cfg, states, requests, times))
  {
    ClocksAreEffective(states, Unique(requests), now);
    RotatedIsReady(cfg, states, times, now);
    StagingIsRight(cfg, times, RotateAll(cfg, states, times), Unique(requests));
  }

  lemma StagedStateEvolves(cfg: Config, states: States, requests: seq<Request>, now: Time, times: map<Operation, Time>, op: Operation)
    requires InProgress(cfg, states, requests, now, times) && op in states
    ensures forall q <- Unique(requests) :: q.operation in times
    ensures times.Keys <= StagingOf(cfg, states, requests, times).states.Keys
    ensures var stamped := StampAll(StagingOf(cfg, states, requests, times).states, times);
            && Evolves(cfg.mode, cfg.rules[op], states[op], stamped[op], now)
            && SameLevels(cfg.rules[op], states[op], stamped[op])
            && (op !in times ==> stamped[op] == states[op])
  {
    hide Unique, ReadClocks, Acceptable;
    InProgressStages(cfg, states, requests, now, times);
    var rotated := RotateAll(cfg, states, times);
    var staged := StagingOf(cfg, states, requests, times).states;
    assert SameBuckets(rotated[op], staged[op]);
    if op in times {
      SameBucketsStamp(rotated[op], staged[op], times[op]);
      RoutedStateEvolves(cfg, op, states[op], rotated[op], staged[op].(lastNow := times[op]), now);
    }
  }

  lemma SameBucketsStamp(a: OpState, b: OpState, t: Time)
    requires SameBuckets(a, b)
    ensures SameBuckets(a.(lastNow := t), b.(lastNow := t))
  {
    forall k
      ensures Find(b.(lastNow := t), k) == Find(a.(lastNow := t), k)
      ensures FindCurrent(a.(lastNow := t), k).Some? ==> FindCurrent(b.(lastNow := t), k).Some?
      ensures FindPrevious(a.(lastNow := t), k).None? ==> FindPrevious(b.(lastNow := t), k).None?
    {
      assert Find(b, k) == Find(a, k);
      assert FindCurrent(b.(lastNow := t), k) == FindCurrent(b, k) && FindCurrent(a.(lastNow := t), k) == FindCurrent(a, k);
      assert FindPrevious(b.(lastNow := t), k) == FindPrevious(b, k) && FindPrevious(a.(lastNow := t), k) == FindPrevious(a, k);
    }
  }

  lemma WaitsWhenShort(rules: map<Operation, Rule>, i: Staged)
    requires i.operation in rules && rules[i.operation].refill > 0.0
    ensures ItemWait(rules, i) > 0 <==> i.tokens < i.spend as real
  {
    if i.tokens < i.spend as real {
      WaitIsTight(rules[i.operation], i.spend as real - i.tokens, 0);
    }
  }

  lemma {:induction false} LongestWaitIsMax(rules: map<Operation, Rule>, items: seq<Staged>)
    requires forall i <- items :: i.operation in rules && rules[i.operation].refill > 0.0
    ensures forall i <- items :: ItemWait(rules, i) <= LongestWait(rules, items)
    ensures LongestWait(rules, items) > 0 ==> exists i :: i in items && ItemWait(rules, i) == LongestWait(rules, items)
    ensures forall i <- items :: ItemWait(rules, i) > 0 <==> i.tokens < i.spend as real
  {
    hide ItemWait;
    if items != [] {
      var front, last := items[..|items| - 1], items[|items| - 1];
      LongestWaitIsMax(rules, front);
      WaitsWhenShort(rules, last);
      assert items == front + [last];
      if LongestWait(rules, items) > 0 && LongestWait(rules, front) == LongestWait(rules, items) {
        var i :| i in front && ItemWait(rules, i) == LongestWait(rules, front);
        assert i in items;
      }
    }
  }

  /** Units charged to (op, key) by a granted reservation. */
  function Units(items: seq<Item>, op: Operation, key: Key): nat {
    if items == [] then 0
    else
      var i := items[|items| - 1];
      Units(items[..|items| - 1], op, key) + if i.operation == op && i.key == key then i.units else 0
  }

  lemma {:induction false} UnitsOfReceipt(states: States, items: seq<Staged>, op: Operation, key: Key)
    requires (forall i <- items :: i.operation in states) && DistinctItems(items)
    ensures !IsStaged(items, op, key) ==> Units(Receipt(states, items), op, key) == 0
    ensures forall i <- items :: i.operation == op && i.key == key ==> Units(Receipt(states, items), op, key) == i.spend
  {
    if items != [] {
      var front, last := items[..|items| - 1], items[|items| - 1];
      UnitsOfReceipt(states, front, op, key);
      StagedSplit(items, op, key);
      assert Receipt(states, items)[..|items| - 1] == Receipt(states, front);
      assert items == front + [last];
      forall i | i in items && i.operation == op && i.key == key
        ensures Units(Receipt(states, items), op, key) == i.spend
      {
        if i in front {
          assert IsStaged(front, op, key);
        }
      }
    }
  }

  lemma SameFindsCreateTheSame(a: OpState, b: OpState, items: seq<Staged>, op: Operation)
    requires forall k :: Find(a, k) == Find(b, k)
    ensures Created(a, items, op) == Created(b, items, op)
  {
    if items != [] {
      SameFindsCreateTheSame(a, b, items[..|items| - 1], op);
    }
  }

  /** There is room for every bucket the items open. */
  lemma CreationsFit(cfg: Config, times: map<Operation, Time>, start: States, u: seq<Request>, sg: Staging, op: Operation)
    requires times.Keys <= start.Keys <= cfg.rules.Keys && op in times && op in sg.states && cfg.mode.Bounded?
    requires SubjectCount(start[op]) <= cfg.mode.maxSubjects && SameBuckets(start[op], sg.states[op])
    requires OwnersCounted(cfg.mode, times, start, u, sg.pending) && CreationsCounted(times, start, sg.items, sg.pending)
    ensures SubjectCount(AtNow(sg.states, times, op)) + Created(AtNow(sg.states, times, op), sg.items, op) <= cfg.mode.maxSubjects
  {
    forall k
      ensures Find(AtNow(sg.states, times, op), k) == Find(start[op], k)
    {
      assert Find(sg.states[op], k) == Find(start[op], k);
    }
    SameFindsCreateTheSame(start[op], AtNow(sg.states, times, op), sg.items, op);
    SurplusIsShared(cfg.mode.maxSubjects, start[op], u, op);
  }

  lemma StagedCanPay(cfg: Config, times: map<Operation, Time>, start: States, u: seq<Request>, sg: Staging, item: Staged)
    requires times.Keys <= start.Keys <= cfg.rules.Keys && start.Keys == sg.states.Keys
    requires ItemsPriced(cfg, times, start, u, sg.items) && ItemsPlaced(start, sg.states, sg.items)
    requires item in sg.items && item.spend as real <= item.tokens
    ensures CanPay(cfg, times, StampAll(sg.states, times), item)
  {
    assert Priced(cfg, times, start, u, item);
    assert Placed(start, sg.states, item);
    assert FindPrevious(StampAll(sg.states, times)[item.operation], item.key) == FindPrevious(sg.states[item.operation], item.key);
  }

  /** `Reserve` past the clock, spelled out. */
  lemma ReserveUnfolds(cfg: Config, states: States, requests: seq<Request>, now: Time, times: map<Operation, Time>)
    requires InProgress(cfg, states, requests, now, times)
    ensures forall q <- Unique(requests) :: q.operation in times
    ensures var sg := StagingOf(cfg, states, requests, times);
            var stamped := StampAll(sg.states, times);
            && (forall i <- sg.items :: i.operation in times)
            && var wait := LongestWait(cfg.rules, sg.items);
               var spent := Spend(stamped, times, sg.items);
               Reserve(cfg, states, requests, now)
               == if wait > 0 then (stamped, Denied(wait)) else (spent, Granted(Receipt(spent, sg.items)))
  {
    InProgressStages(cfg, states, requests, now, times);
    StagedOperations(cfg, times, RotateAll(cfg, states, times), Unique(requests));
  }

  lemma ItemsPay(cfg: Config, times: map<Operation, Time>, start: States, u: seq<Request>, sg: Staging, op: Operation)
    requires Ready(cfg, times, start) && StagingInv(cfg, times, start, u, sg) && op in times && times[op] > 0
    requires forall i <- sg.items :: i.operation in times && i.spend as real <= i.tokens
    ensures var stamped := StampAll(sg.states, times);
            PaidState(cfg, cfg.rules[op], stamped[op], Spend(stamped, times, sg.items)[op], sg.items, op, times[op])
  {
    hide KeyInv, PaidState, Put;
    var stamped := StampAll(sg.states, times);
    forall i | 0 <= i < |sg.items| && sg.items[i].operation == op
      ensures CanPay(cfg, times, stamped, sg.items[i])
    {
      assert sg.items[i] in sg.items;
      StagedCanPay(cfg, times, start, u, sg, sg.items[i]);
    }
    assert stamped[op] == AtNow(sg.states, times, op);
    if cfg.mode.Bounded? {
      assert StateInv(cfg.mode, cfg.rules[op], AtNow(start, times, op));
      CreationsFit(cfg, times, start, u, sg, op);
    }
    assert SameBuckets(start[op], sg.states[op]);
    SpendPays(cfg, times, stamped, sg.items, op);
  }

  /** Granting a reservation: each paying bucket loses its load, every other bucket keeps its level. */
  lemma GrantPays(cfg: Config, states: States, requests: seq<Request>, now: Time, times: map<Operation, Time>, op: Operation)
    requires InProgress(cfg, states, requests, now, times) && op in times
    requires Reserve(cfg, states, requests, now).1.Granted?
    ensures forall q <- Unique(requests) :: q.operation in times
    ensures times.Keys <= StagingOf(cfg, states, requests, times).states.Keys
    ensures var sg := StagingOf(cfg, states, requests, times);
            var (after, outcome) := Reserve(cfg, states, requests, now);
            PaidState(cfg, cfg.rules[op], StampAll(sg.states, times)[op], after[op], sg.items, op, times[op])
  {
    hide Unique, ReadClocks, Acceptable, Reserve, StageAll, KeyInv, PaidState, Level, Load;
    InProgressStages(cfg, states, requests, now, times);
    ReserveUnfolds(cfg, states, requests, now, times);
    var sg := StagingOf(cfg, states, requests, times);
    LongestWaitIsMax(cfg.rules, sg.items);
    ItemsPay(cfg, times, RotateAll(cfg, states, times), Unique(requests), sg, op);
  }

  /** Bucket `key` gave `units` in this call. */
  ghost predicate Debited(rule: Rule, was: OpState, now: OpState, key: Key, units: nat, when: Time) {
    if units == 0 then forall t :: t >= now.lastNow ==> Level(rule, now, key, t) == Level(rule, was, key, t)
    else
      && when <= now.lastNow
      && Level(rule, now, key, now.lastNow) == Level(rule, was, key, now.lastNow) - units as real
  }

  /** A paid item took its spend; a bucket without an item kept what it had. */
  lemma PaidDebits(cfg: Config, rule: Rule, was: OpState, stamped: OpState, after: OpState, items: seq<Staged>,
                   op: Operation, at: Time, k: Key, units: nat, when: Time)
    requires when <= at && rule.Recovers() && PaidState(cfg, rule, stamped, after, items, op, at) && stamped.lastNow == at
    requires SameLevels(rule, was, stamped)
    requires !IsStaged(items, op, k) ==> units == 0
    requires forall i <- items :: i.operation == op && i.key == k ==>
               units == i.spend >= 1 && i.spend as real <= i.tokens && i.tokens == Level(rule, was, k, at)
    ensures Debited(rule, was, after, k, units, when)
  {
    GainMonotone(rule, 0, 0);
    if IsStaged(items, op, k) {
      var i :| 0 <= i < |items| && items[i].operation == op && items[i].key == k;
      assert items[i] in items;
      assert FindCurrent(after, items[i].key) == Some(Bucket(items[i].tokens - items[i].spend as real, at));
    } else {
      assert Find(after, k) == Find(stamped, k) by {
        assert FindCurrent(after, k) == FindCurrent(stamped, k) && FindPrevious(after, k) == FindPrevious(stamped, k);
      }
    }
  }

  lemma PaidStateEvolves(cfg: Config, rule: Rule, was: OpState, stamped: OpState, after: OpState, items: seq<Staged>,
                         op: Operation, at: Time, when: Time)
    requires PaidState(cfg, rule, stamped, after, items, op, at) && Evolves(cfg.mode, rule, was, stamped, when)
    ensures Evolves(cfg.mode, rule, was, after, when)
  {
    forall k | FindCurrent(stamped, k).Some?
      ensures FindCurrent(after, k).Some?
    {
      if IsStaged(items, op, k) {
        var i :| 0 <= i < |items| && items[i].operation == op && items[i].key == k;
        assert FindCurrent(after, items[i].key).Some?;
      }
    }
  }

  /** The price of an item, seen from the state before the call. */
  lemma PriceBefore(cfg: Config, states: States, requests: seq<Request>, now: Time, times: map<Operation, Time>, item: Staged)
    requires InProgress(cfg, states, requests, now, times)
    ensures forall q <- Unique(requests) :: q.operation in times
    ensures item in StagingOf(cfg, states, requests, times).items ==>
              && item.operation in times
              && item.tokens == Level(cfg.rules[item.operation], states[item.operation], item.key, times[item.operation])
              && item.spend == Load(cfg.mode, RotateAll(cfg, states, times)[item.operation], Unique(requests), item.operation, item.key)
              && item.spend >= 1
  {
    hide Unique, ReadClocks, Acceptable;
    InProgressStages(cfg, states, requests, now, times);
    var rotated, sg := RotateAll(cfg, states, times), StagingOf(cfg, states, requests, times);
    if item in sg.items {
      assert Priced(cfg, times, rotated, Unique(requests), item);
      var op := item.operation;
      RotationKeepsLevels(cfg.mode, cfg.rules[op], states[op], times[op], item.key, times[op]);
    }
  }

  lemma UnstagedHasNoLoad(cfg: Config, states: States, requests: seq<Request>, now: Time, times: map<Operation, Time>, op: Operation, k: Key)
    requires InProgress(cfg, states, requests, now, times) && op in times
    ensures forall q <- Unique(requests) :: q.operation in times
    ensures !IsStaged(StagingOf(cfg, states, requests, times).items, op, k)
            ==> Load(cfg.mode, RotateAll(cfg, states, times)[op], Unique(requests), op, k) == 0
    ensures DistinctItems(StagingOf(cfg, states, requests, times).items)
  {
    hide Unique, ReadClocks, Acceptable;
    InProgressStages(cfg, states, requests, now, times);
  }

  /** A granted reservation, bucket by bucket: it takes one unit per distinct request that maps there. */
  lemma GrantDebits(cfg: Config, states: States, requests: seq<Request>, now: Time, times: map<Operation, Time>, op: Operation, k: Key)
    requires InProgress(cfg, states, requests, now, times) && op in times
    requires Reserve(cfg, states, requests, now).1.Granted?
    ensures var (after, outcome) := Reserve(cfg, states, requests, now);
            && Debited(cfg.rules[op], states[op], after[op], k, Units(outcome.items, op, k), now)
            && Units(outcome.items, op, k)
               == Load(cfg.mode, RotateAll(cfg, states, times)[op], Unique(requests), op, k)
  {
    hide Unique, ReadClocks, Acceptable, Reserve, StateInv, Evolves, SameLevels, PaidState, Debited, StagingOf, Level, Load, StageAll, RotateAll,
      Rotate, KeyInv, LongestWait, Units, Receipt, Spend;
    var (after, outcome) := Reserve(cfg, states, requests, now);
    GrantPays(cfg, states, requests, now, times, op);
    ReserveUnfolds(cfg, states, requests, now, times);
    StagedStateEvolves(cfg, states, requests, now, times, op);
    UnstagedHasNoLoad(cfg, states, requests, now, times, op, k);
    var sg := StagingOf(cfg, states, requests, times);
    var units := Units(outcome.items, op, k);
    LongestWaitIsMax(cfg.rules, sg.items);
    UnitsOfReceipt(after, sg.items, op, k);
    assert now <= times[op] by {
      ClocksAreEffective(states, Unique(requests), now);
    }
    forall i | i in sg.items && i.operation == op && i.key == k
      ensures i.tokens == Level(cfg.rules[op], states[op], k, times[op])
      ensures units == i.spend >= 1 && i.spend as real <= i.tokens
    {
      PriceBefore(cfg, states, requests, now, times, i);
    }
    PaidDebits(cfg, cfg.rules[op], states[op], StampAll(sg.states, times)[op], after[op], sg.items, op, times[op], k, units, now);
    if IsStaged(sg.items, op, k) {
      var n :| 0 <= n < |sg.items| && sg.items[n].operation == op && sg.items[n].key == k;
      PriceBefore(cfg, states, requests, now, times, sg.items[n]);
    }
  }

  lemma UntouchedOperation(cfg: Config, states: States, requests: seq<Request>, now: Time, times: map<Operation, Time>, op: Operation)
    requires InProgress(cfg, states, requests, now, times) && op in states && op !in times
    ensures var (after, outcome) := Reserve(cfg, states, requests, now);
            && after[op] == states[op]
            && (outcome.Granted? ==> forall k :: Units(outcome.items, op, k) == 0)
  {
    hide Unique, ReadClocks, Acceptable;
    ReserveUnfolds(cfg, states, requests, now, times);
    StagedStateEvolves(cfg, states, requests, now, times, op);
    var sg := StagingOf(cfg, states, requests, times);
    var stamped := StampAll(sg.states, times);
    var spent := Spend(stamped, times, sg.items);
    SpendTouchesOnlyItems(times, stamped, sg.items, op);
    NoUnitsElsewhere(spent, sg.items, op);
  }

  lemma NoUnitsElsewhere(states: States, items: seq<Staged>, op: Operation)
    requires forall i <- items :: i.operation in states && i.operation != op
    ensures forall k :: Units(Receipt(states, items), op, k) == 0
  {
    if items != [] {
      NoUnitsElsewhere(states, items[..|items| - 1], op);
      assert Receipt(states, items)[..|items| - 1] == Receipt(states, items[..|items| - 1]);
    }
  }

  lemma GrantEvolves(cfg: Config, states: States, requests: seq<Request>, now: Time, times: map<Operation, Time>, op: Operation)
    requires InProgress(cfg, states, requests, now, times) && op in times
    requires Reserve(cfg, states, requests, now).1.Granted?
    ensures Evolves(cfg.mode, cfg.rules[op], states[op], Reserve(cfg, states, requests, now).0[op], now)
  {
    hide Unique, ReadClocks, Acceptable;
    GrantPays(cfg, states, requests, now, times, op);
    StagedStateEvolves(cfg, states, requests, now, times, op);
    var sg := StagingOf(cfg, states, requests, times);
    PaidStateEvolves(cfg, cfg.rules[op], states[op], StampAll(sg.states, times)[op],
                     Reserve(cfg, states, requests, now).0[op], sg.items, op, times[op], now);
  }

  lemma DenialEvolves(cfg: Config, states: States, requests: seq<Request>, now: Time, times: map<Operation, Time>, op: Operation)
    requires InProgress(cfg, states, requests, now, times) && op in times
    requires Reserve(cfg, states, requests, now).1.Denied?
    ensures Evolves(cfg.mode, cfg.rules[op], states[op], Reserve(cfg, states, requests, now).0[op], now)
    ensures SameLevels(cfg.rules[op], states[op], Reserve(cfg, states, requests, now).0[op])
  {
    hide Unique, ReadClocks, Acceptable;
    ReserveUnfolds(cfg, states, requests, now, times);
    StagedStateEvolves(cfg, states, requests, now, times, op);
  }

  lemma ReserveStopsEarly(cfg: Config, states: States, requests: seq<Request>, now: Time)
    requires StatesInv(cfg, states) && Configured(cfg)
    ensures (forall times :: !InProgress(cfg, states, requests, now, times))
            ==> Reserve(cfg, states, requests, now).0 == states && Reserve(cfg, states, requests, now).1.Denied?
  {
    UniqueIsSubset(requests);
    if Acceptable(cfg.rules, requests, now) && ReadClocks(states, Unique(requests), now).Clocks? {
      assert InProgress(cfg, states, requests, now, ReadClocks(states, Unique(requests), now).times);
    }
  }

  /**
   All or nothing.  A denial leaves the level of every bucket of every operation as it was, at every
   later instant; a grant takes from every bucket exactly its units.
   */
  lemma ReserveIsAllOrNothing(cfg: Config, states: States, requests: seq<Request>, now: Time, op: Operation)
    requires StatesInv(cfg, states) && Configured(cfg) && op in states
    ensures var (after, outcome) := Reserve(cfg, states, requests, now);
            && Evolves(cfg.mode, cfg.rules[op], states[op], after[op], now)
            && (outcome.Denied? ==> SameLevels(cfg.rules[op], states[op], after[op]))
            && (outcome.Granted? ==> forall k :: Debited(cfg.rules[op], states[op], after[op], k, Units(outcome.items, op, k), now))
  {
    ReserveStopsEarly(cfg, states, requests, now);
    var (after, outcome) := Reserve(cfg, states, requests, now);
    if times :| InProgress(cfg, states, requests, now, times) {
      if op !in times {
        UntouchedOperation(cfg, states, requests, now, times, op);
      } else if outcome.Granted? {
        GrantEvolves(cfg, states, requests, now, times, op);
        forall k
          ensures Debited(cfg.rules[op], states[op], after[op], k, Units(outcome.items, op, k), now)
        {
          GrantDebits(cfg, states, requests, now, times, op, k);
        }
      } else {
        DenialEvolves(cfg, states, requests, now, times, op);
      }
    }
  }

  // -------------------------------------------------- reservations are live

  /** A reservation of the running generation still finds its bucket where a refund looks for it. */
  ghost predicate Live(cfg: Config, states: States, item: Item) {
    && item.operation in states && item.operation in cfg.rules
    && item.key != Own("")
    && item.units > 0
    && item.generation <= states[item.operation].generation
    && (item.generation == states[item.operation].generation ==> FindCurrent(states[item.operation], item.key).Some?)
  }

  lemma GrantedItemIsLive(cfg: Config, states: States, requests: seq<Request>, now: Time, times: map<Operation, Time>, n: nat)
    requires InProgress(cfg, states, requests, now, times)
    requires Reserve(cfg, states, requests, now).1.Granted?
    ensures forall q <- Unique(requests) :: q.operation in times
    ensures var (after, outcome) := Reserve(cfg, states, requests, now);
            var sg := StagingOf(cfg, states, requests, times);
            && |outcome.items| == |sg.items|
            && (n < |sg.items| ==> Live(cfg, after, outcome.items[n]))
  {
    hide ReadClocks, Rotate, RotateAll, StageAll, StateInv, Level, Reserve, Unique, Load;
    InProgressStages(cfg, states, requests, now, times);
    ReserveUnfolds(cfg, states, requests, now, times);
    var sg := StagingOf(cfg, states, requests, times);
    if n < |sg.items| {
      var i := sg.items[n];
      PriceBefore(cfg, states, requests, now, times, i);
      GrantPays(cfg, states, requests, now, times, i.operation);
      if i.key.Own? {
        LoadOfOwnIsRequested(cfg.mode, RotateAll(cfg, states, times)[i.operation], Unique(requests), i.operation, i.key.subject);
        UniqueIsSubset(requests);
      }
    }
  }

  lemma GrantedItemsAreLive(cfg: Config, states: States, requests: seq<Request>, now: Time)
    requires StatesInv(cfg, states) && Configured(cfg)
    ensures var (after, outcome) := Reserve(cfg, states, requests, now);
            outcome.Granted? ==> forall i <- outcome.items :: Live(cfg, after, i)
  {
    ReserveStopsEarly(cfg, states, requests, now);
    var (after, outcome) := Reserve(cfg, states, requests, now);
    if times :| InProgress(cfg, states, requests, now, times) {
      if outcome.Granted? {
        forall n | 0 <= n < |outcome.items|
          ensures Live(cfg, after, outcome.items[n])
        {
          GrantedItemIsLive(cfg, states, requests, now, times, n);
        }
      }
    }
  }

  // ------------------------------------------------------- Allow and Check

  /** The bucket a query looks at. */
  function QueryKey(mode: Mode, rule: Rule, st: OpState, subject: string, now: Time): Key
    requires rule.ttl > 0
  {
    KeyFor(mode, Rotate(mode, rule, st, EffectiveNow(st, now)), subject, 0)
  }

  /** Units a query takes from bucket `k` when it looks at bucket `key`. */
  function QueryUnits(decision: Decision, consume: bool, key: Key, k: Key): nat {
    if decision.allowed && consume && k == key then 1 else 0
  }

  lemma WriteBack(mode: Mode, rule: Rule, st: OpState, key: Key, b: Bucket)
    requires rule.Recovers() && StateInv(mode, rule, st)
    requires Sane(rule, b, st.lastNow) && b.last == st.lastNow < st.generationStart + rule.ttl
    requires FindPrevious(st, key).None? && (FindCurrent(st, key).Some? || key.Shared? || HasRoom(mode, st, 0))
    ensures Evolves(mode, rule, st, Put(st, key, b), st.lastNow)
    ensures forall k :: Find(Put(st, key, b), k) == if k == key then Some(b) else Find(st, k)
  {
    RecentBucketIsDueInTime(rule, b, st.generationStart);
    PutKeepsInvariant(mode, rule, st, key, b);
    PutAt(st, key, b);
  }

  /** The state a query finds after rotating, stamping the clock and routing. */
  lemma QueryRoutes(mode: Mode, rule: Rule, st: OpState, subject: string, now: Time)
    requires rule.Recovers() && StateInv(mode, rule, st) && now > 0 && ReadClock(st, now).At?
    ensures var at := EffectiveNow(st, now);
            var (found, key) := Route(mode, Rotate(mode, rule, st, at).(lastNow := at), subject, 0);
            && ReadClock(st, now).now == at && found.lastNow == at < found.generationStart + rule.ttl
            && key == QueryKey(mode, rule, st, subject, now)
            && FindPrevious(found, key).None?
            && (FindCurrent(found, key).Some? || key.Shared? || HasRoom(mode, found, 0))
            && Evolves(mode, rule, st, found, now)
            && SameLevels(rule, st, found)
            && Find(found, key) == FindCurrent(found, key)
  {
    var at := EffectiveNow(st, now);
    var rotated := Rotate(mode, rule, st, at);
    RotationKeepsInvariant(mode, rule, st, at);
    RotationReachesNow(mode, rule, st, at);
    RouteMovesNothing(mode, rule, rotated.(lastNow := at), subject, 0);
    var (found, key) := Route(mode, rotated.(lastNow := at), subject, 0);
    assert Find(rotated.(lastNow := at), Own(subject)) == Find(rotated, Own(subject));
    RoutedStateEvolves(Config(map["" := rule], mode), "", st, rotated, found, now);
  }

  lemma EvolvesTwice(mode: Mode, rule: Rule, a: OpState, b: OpState, c: OpState, when: Time)
    requires Evolves(mode, rule, a, b, when) && (Evolves(mode, rule, b, c, when) || Evolves(mode, rule, b, c, b.lastNow))
    ensures Evolves(mode, rule, a, c, when)
  {
  }

  /** `Allow` takes one token from the bucket it looks at when it allows; otherwise nothing is taken. */
  lemma QueryDebits(mode: Mode, rule: Rule, st: OpState, subject: string, now: Time, consume: bool)
    requires rule.Recovers() && StateInv(mode, rule, st) && now > 0
    ensures var (after, decision) := Ask(mode, rule, st, subject, now, consume);
            var key := QueryKey(mode, rule, st, subject, now);
            && Evolves(mode, rule, st, after, now)
            && forall k :: Debited(rule, st, after, k, QueryUnits(decision, consume, key, k), now)
  {
    if ReadClock(st, now).At? {
      var at := EffectiveNow(st, now);
      QueryRoutes(mode, rule, st, subject, now);
      var (found, key) := Route(mode, Rotate(mode, rule, st, at).(lastNow := at), subject, 0);
      var (after, decision) := Ask(mode, rule, st, subject, now, consume);
      if Find(found, key).Some? || consume {
        var b := if Find(found, key).Some? then Find(found, key).value else Bucket(rule.capacity as real, at);
        assert KeyInv(rule, found, key);
        GainMonotone(rule, 0, Sub(at, b.last));
        SettlingIsUnobservable(rule, b, at, at);
        var tokens := Settled(rule, b, at);
        var left := if decision.allowed && consume then tokens - 1.0 else tokens;
        assert after == Put(found, key, Bucket(left, at));
        WriteBack(mode, rule, found, key, Bucket(left, at));
        EvolvesTwice(mode, rule, st, found, after, now);
        forall k
          ensures Debited(rule, st, after, k, QueryUnits(decision, consume, key, k), now)
        {
          WrittenLevels(mode, rule, found, key, b, left, after, k);
        }
      }
    }
  }

  lemma WrittenLevels(mode: Mode, rule: Rule, found: OpState, key: Key, b: Bucket, left: real, after: OpState, k: Key)
    requires rule.Recovers() && StateInv(mode, rule, found) && after == Put(found, key, Bucket(left, found.lastNow))
    requires b == if Find(found, key).Some? then Find(found, key).value else Bucket(rule.capacity as real, found.lastNow)
    requires 0.0 <= b.tokens <= rule.capacity as real && b.last <= found.lastNow
    requires 0.0 <= left <= rule.capacity as real
    ensures k != key || left == Settled(rule, b, found.lastNow)
            ==> forall t :: t >= found.lastNow ==> Level(rule, after, k, t) == Level(rule, found, k, t)
    ensures k == key ==> Level(rule, after, k, found.lastNow) == left
    ensures k == key ==> Level(rule, found, k, found.lastNow) == Settled(rule, b, found.lastNow)
  {
    PutAt(found, key, Bucket(left, found.lastNow));
    GainMonotone(rule, 0, 0);
    if k == key && left == Settled(rule, b, found.lastNow) {
      forall t | t >= found.lastNow
        ensures Level(rule, after, k, t) == Level(rule, found, k, t)
      {
        SettlingIsUnobservable(rule, b, found.lastNow, t);
        GainMonotone(rule, 0, Sub(t, found.lastNow));
      }
    }
  }

  // ---------------------------------------------------------------- Refund

  /** Bucket `key` rose by at most `units`, at every later instant. */
  ghost predicate Credited(rule: Rule, was: OpState, now: OpState, key: Key, units: nat) {
    forall t :: t >= now.lastNow ==> Level(rule, was, key, t) <= Level(rule, now, key, t) <= Level(rule, was, key, t) + units as real
  }

  lemma ReturnedBucket(rule: Rule, b: Bucket, units: nat, now: Time, due: int)
    requires rule.Recovers() && 0.0 <= b.tokens <= rule.capacity as real && b.last <= now && FullBy(rule, b, due)
    ensures var r := Returned(rule, b, units, now);
            && r.last == now && 0.0 <= r.tokens <= rule.capacity as real && FullBy(rule, r, due)
            && forall t: Time :: t >= now ==> Settled(rule, b, t) <= Settled(rule, r, t) <= Settled(rule, b, t) + units as real
  {
    var r := Returned(rule, b, units, now);
    GainMonotone(rule, 0, Sub(now, b.last));
    GainAdds(rule, now - b.last, due - now);
    GainMonotone(rule, rule.ttl, MAX_DURATION);
    if now >= due {
      FullBucketSettlesFull(rule, b, due, now);
    }
    forall t: Time | t >= now
      ensures Settled(rule, b, t) <= Settled(rule, r, t) <= Settled(rule, b, t) + units as real
    {
      SettlingIsUnobservable(rule, b, now, t);
      GainMonotone(rule, 0, Sub(t, now));
    }
  }

  lemma RefundOneCredits(cfg: Config, states: States, item: Item, now: Time, op: Operation)
    requires StatesInv(cfg, states) && op in states && now > 0
    ensures var after := RefundOne(cfg.rules, states, item, now);
            && Evolves(cfg.mode, cfg.rules[op], states[op], after[op], now)
            && forall k :: Credited(cfg.rules[op], states[op], after[op], k, RefundUnits(cfg.rules, states, item, now, op, k))
  {
    hide Settled;
    if Credits(cfg.rules, states, item, now) && item.operation == op {
      var rule, st := cfg.rules[op], states[op];
      var b := FindCurrent(st, item.key).value;
      assert KeyInv(rule, st, item.key);
      ReturnedBucket(rule, b, item.units, now, st.generationStart + 2 * rule.ttl);
      var r := Returned(rule, b, item.units, now);
      var after := Put(st, item.key, r).(lastNow := now);
      var later := st.(lastNow := now);
      LaterIsFine(cfg.mode, rule, st, now);
      assert FindCurrent(later, item.key) == FindCurrent(st, item.key) && FindPrevious(later, item.key) == FindPrevious(st, item.key);
      PutKeepsInvariant(cfg.mode, rule, later, item.key, r);
      PutAt(later, item.key, r);
      assert after == Put(later, item.key, r);
    }
  }

  lemma LaterIsFine(mode: Mode, rule: Rule, st: OpState, now: Time)
    requires StateInv(mode, rule, st) && st.lastNow <= now && st.lastNow > 0
    ensures StateInv(mode, rule, st.(lastNow := now))
    ensures forall k :: Find(st.(lastNow := now), k) == Find(st, k) && FindCurrent(st.(lastNow := now), k) == FindCurrent(st, k)
  {
    forall k
      ensures KeyInv(rule, st.(lastNow := now), k)
    {
      assert KeyInv(rule, st, k);
    }
  }

  /** Units one line of a refund gives back to bucket (op, key). */
  function RefundUnits(rules: map<Operation, Rule>, states: States, item: Item, now: Time, op: Operation, key: Key): nat
    requires states.Keys == rules.Keys
  {
    if Credits(rules, states, item, now) && item.operation == op && item.key == key then item.units else 0
  }

  /** Units a whole refund gives back to bucket (op, key). */
  function RefundTotal(rules: map<Operation, Rule>, states: States, items: seq<Item>, now: Time, op: Operation, key: Key): nat
    requires states.Keys == rules.Keys
  {
    if items == [] || now == 0 then 0
    else
      var front, last := items[..|items| - 1], items[|items| - 1];
      RefundTotal(rules, states, front, now, op, key)
      + RefundUnits(rules, RefundAll(rules, states, front, now), last, now, op, key)
  }

  lemma {:induction false} RefundCredits(cfg: Config, states: States, items: seq<Item>, now: Time)
    requires StatesInv(cfg, states)
    ensures var after := RefundAll(cfg.rules, states, items, now);
            && StatesInv(cfg, after)
            && (forall op <- states :: Evolves(cfg.mode, cfg.rules[op], states[op], after[op], now))
            && (forall op, k :: op in states ==>
                  Credited(cfg.rules[op], states[op], after[op], k, RefundTotal(cfg.rules, states, items, now, op, k)))
  {
    if items != [] && now != 0 {
      var front, last := items[..|items| - 1], items[|items| - 1];
      RefundCredits(cfg, states, front, now);
      var mid, after := RefundAll(cfg.rules, states, front, now), RefundAll(cfg.rules, states, items, now);
      forall op | op in states
        ensures Evolves(cfg.mode, cfg.rules[op], states[op], after[op], now)
        ensures Evolves(cfg.mode, cfg.rules[op], mid[op], after[op], now)
      {
        RefundOneCredits(cfg, mid, last, now, op);
        EvolvesTwice(cfg.mode, cfg.rules[op], states[op], mid[op], after[op], now);
      }
      forall op, k | op in states
        ensures Credited(cfg.rules[op], states[op], after[op], k, RefundTotal(cfg.rules, states, items, now, op, k))
      {
        RefundOneCredits(cfg, mid, last, now, op);
        assert Credited(cfg.rules[op], mid[op], after[op], k, RefundUnits(cfg.rules, mid, last, now, op, k));
        assert Credited(cfg.rules[op], states[op], mid[op], k, RefundTotal(cfg.rules, states, front, now, op, k));
      }
    }
  }
}
