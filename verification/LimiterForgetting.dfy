/**
 Forgetting is unobservable: as long as no subject is turned away to the shared bucket, the limiter
 answers every call of every run as one that never discards a bucket would.
 */
module LimiterForgetting {
  import opened Wrappers
  import opened LimiterSpec
  import opened LimiterInvariant
  import opened LimiterStaging
  import opened LimiterEffects
  import opened LimiterRuns

  /** `a` remembers a subject exactly as `b` does, or has forgotten it and `b` holds a full bucket. */
  ghost predicate SameSubject(rule: Rule, a: OpState, b: OpState, key: Key) {
    if Find(a, key).Some? then Find(b, key) == Find(a, key)
    else Find(b, key).Some? ==>
      Find(b, key).value.last <= a.lastNow && Settled(rule, Find(b, key).value, a.lastNow) == rule.capacity as real
  }

  ghost predicate Simulates(rule: Rule, a: OpState, b: OpState) {
    && a.lastNow == b.lastNow && a.generationStart == b.generationStart && a.generation == b.generation
    && Find(a, Shared).None? && Find(b, Shared).None?
    && forall key :: SameSubject(rule, a, b, key)
  }

  lemma SimulationHasSameLevels(mode: Mode, rule: Rule, a: OpState, b: OpState, key: Key, t: Time)
    requires rule.Recovers() && StateInv(mode, rule, b) && Simulates(rule, a, b) && t >= a.lastNow
    ensures Level(rule, a, key, t) == Level(rule, b, key, t)
  {
    assert SameSubject(rule, a, b, key);
    assert KeyInv(rule, b, key);
    if Find(a, key).None? && Find(b, key).Some? {
      var bucket := Find(b, key).value;
      SettlingIsUnobservable(rule, bucket, a.lastNow, t);
      GainMonotone(rule, 0, Sub(t, a.lastNow));
    }
  }

  lemma RotationSimulates(max: nat, rule: Rule, a: OpState, b: OpState, at: Time)
    requires rule.Recovers() && StateInv(Bounded(max), rule, a) && StateInv(Unbounded, rule, b) && Simulates(rule, a, b)
    requires a.lastNow <= at && at > 0
    ensures Simulates(rule, Rotate(Bounded(max), rule, a, at).(lastNow := at), Rotate(Unbounded, rule, b, at).(lastNow := at))
  {
    var a', b' := Rotate(Bounded(max), rule, a, at).(lastNow := at), Rotate(Unbounded, rule, b, at).(lastNow := at);
    forall key
      ensures SameSubject(rule, a', b', key)
    {
      assert SameSubject(rule, a, b, key) && KeyInv(rule, a, key) && KeyInv(rule, b, key);
      assert Find(b', key) == Find(b, key);
      if Find(a', key).None? {
        RotationKeepsLevels(Bounded(max), rule, a, at, key, at);
        SimulationHasSameLevels(Unbounded, rule, a, b, key, at);
        assert Find(Rotate(Bounded(max), rule, a, at), key).None?;
      }
    }
    assert Find(a', Shared).None?;
  }

  lemma SameBucketsSimulate(rule: Rule, a: OpState, b: OpState, a': OpState, b': OpState)
    requires Simulates(rule, a, b) && SameBuckets(a, a') && SameBuckets(b, b')
    ensures Simulates(rule, a', b')
  {
    forall key
      ensures SameSubject(rule, a', b', key)
    {
      assert SameSubject(rule, a, b, key);
    }
  }

  lemma PutSimulates(rule: Rule, a: OpState, b: OpState, key: Key, bucket: Bucket)
    requires Simulates(rule, a, b) && key.Own?
    ensures Simulates(rule, Put(a, key, bucket), Put(b, key, bucket))
  {
    PutAt(a, key, bucket);
    PutAt(b, key, bucket);
    forall k
      ensures SameSubject(rule, Put(a, key, bucket), Put(b, key, bucket), k)
    {
      assert SameSubject(rule, a, b, k);
    }
  }

  /** `b` may refresh a bucket that `a` has forgotten. */
  lemma RefreshSimulates(rule: Rule, a: OpState, b: OpState, key: Key)
    requires rule.Valid() && Simulates(rule, a, b) && key.Own? && Find(a, key).None?
    ensures Simulates(rule, a, Put(b, key, Bucket(rule.capacity as real, a.lastNow)))
  {
    var full := Bucket(rule.capacity as real, a.lastNow);
    PutAt(b, key, full);
    GainMonotone(rule, 0, 0);
    forall k
      ensures SameSubject(rule, a, Put(b, key, full), k)
    {
      assert SameSubject(rule, a, b, k);
    }
  }

  lemma QuerySimulates(max: nat, rule: Rule, a: OpState, b: OpState, subject: string, now: Time, consume: bool)
    requires rule.Recovers() && StateInv(Bounded(max), rule, a) && StateInv(Unbounded, rule, b) && Simulates(rule, a, b)
    requires now > 0 && QueryKey(Bounded(max), rule, a, subject, now).Own?
    ensures Ask(Bounded(max), rule, a, subject, now, consume).1 == Ask(Unbounded, rule, b, subject, now, consume).1
    ensures Simulates(rule, Ask(Bounded(max), rule, a, subject, now, consume).0, Ask(Unbounded, rule, b, subject, now, consume).0)
  {
    hide KeyInv, StateInv, SameSubject, Rotate, Migrate, Answer, Find;
    if ReadClock(a, now).At? {
      var at := EffectiveNow(a, now);
      RotationSimulates(max, rule, a, b, at);
      RotationKeepsInvariant(Bounded(max), rule, a, at);
      RotationKeepsInvariant(Unbounded, rule, b, at);
      var ra, rb := Rotate(Bounded(max), rule, a, at).(lastNow := at), Rotate(Unbounded, rule, b, at).(lastNow := at);
      RouteMovesNothing(Bounded(max), rule, ra, subject, 0);
      RouteMovesNothing(Unbounded, rule, rb, subject, 0);
      QueryRoutes(Bounded(max), rule, a, subject, now);
      var (fa, key) := Route(Bounded(max), ra, subject, 0);
      var (fb, key') := Route(Unbounded, rb, subject, 0);
      assert key == key' == Own(subject);
      SameBucketsSimulate(rule, ra, rb, fa, fb);
      RoutedQueriesAgree(rule, fa, fb, key, at, consume);
    }
  }

  lemma RoutedQueriesAgree(rule: Rule, fa: OpState, fb: OpState, key: Key, at: Time, consume: bool)
    requires rule.Recovers() && Simulates(rule, fa, fb) && key.Own? && fa.lastNow == at
    ensures Answer(rule, fa, key, at, consume).1 == Answer(rule, fb, key, at, consume).1
    ensures Simulates(rule, Answer(rule, fa, key, at, consume).0, Answer(rule, fb, key, at, consume).0)
  {
    assert SameSubject(rule, fa, fb, key);
    GainMonotone(rule, 0, 0);
    if Find(fa, key).None? && !consume {
      if Find(fb, key).Some? {
        RefreshSimulates(rule, fa, fb, key);
      }
    } else {
      var after := Answer(rule, fa, key, at, consume).0;
      var bucket := if Find(fa, key).Some? then Find(fa, key).value else Bucket(rule.capacity as real, at);
      PutSimulates(rule, fa, fb, key, bucket);
      PutSimulates(rule, fa, fb, key, Bucket(Settled(rule, bucket, at), at));
      PutSimulates(rule, fa, fb, key, Bucket(Settled(rule, bucket, at) - 1.0, at));
    }
  }

  // ---------------------------------------------------------------- Reserve

  function Limited(rules: map<Operation, Rule>, max: nat): Config {
    Config(rules, Bounded(max))
  }

  function Unlimited(rules: map<Operation, Rule>): Config {
    Config(rules, Unbounded)
  }

  ghost predicate AllSimulate(rules: map<Operation, Rule>, times: map<Operation, Time>, a: States, b: States) {
    && a.Keys == b.Keys == rules.Keys && times.Keys <= a.Keys
    && forall op <- times :: Simulates(rules[op], AtNow(a, times, op), AtNow(b, times, op))
  }

  /** None of the requests is sent to the shared bucket. */
  ghost predicate NoneShared(max: nat, times: map<Operation, Time>, a: States, requests: seq<Request>)
    requires times.Keys <= a.Keys
  {
    forall op <- times :: Load(Bounded(max), a[op], requests, op, Shared) == 0
  }

  lemma StampedLevel(rule: Rule, st: OpState, key: Key, at: Time)
    ensures Level(rule, st.(lastNow := at), key, at) == Level(rule, st, key, at)
  {
  }

  lemma {:induction false} StagesTheSame(rules: map<Operation, Rule>, max: nat, times: map<Operation, Time>,
                                          a: States, b: States, requests: seq<Request>)
    requires Ready(Limited(rules, max), times, a) && Ready(Unlimited(rules), times, b) && AllSimulate(rules, times, a, b)
    requires (forall r <- requests :: r.operation in times) && NoneShared(max, times, a, requests)
    ensures StageAll(Limited(rules, max), times, a, requests).items == StageAll(Unlimited(rules), times, b, requests).items
  {
    if requests != [] {
      hide Ready, StagingInv, Simulates, Stage, Level, Find, StatesStaged;
      var before, r := requests[..|requests| - 1], requests[|requests| - 1];
      var op := r.operation;
      assert NoneShared(max, times, a, before) && Payer(Bounded(max), a[op], before, r) == Own(r.subject);
      StagesTheSame(rules, max, times, a, b, before);
      StageOneTheSame(rules, max, times, a, b, before, r);
    }
  }

  lemma StageOneTheSame(rules: map<Operation, Rule>, max: nat, times: map<Operation, Time>, a: States, b: States,
                        before: seq<Request>, r: Request)
    requires Ready(Limited(rules, max), times, a) && Ready(Unlimited(rules), times, b) && AllSimulate(rules, times, a, b)
    requires (forall q <- before :: q.operation in times) && r.operation in times
    requires Payer(Bounded(max), a[r.operation], before, r) == Own(r.subject)
    ensures var sa, sb := StageAll(Limited(rules, max), times, a, before), StageAll(Unlimited(rules), times, b, before);
            && sa.stuck.None? && sb.stuck.None?
            && (sa.items == sb.items
                ==> Stage(Limited(rules, max), times, sa, r).items == Stage(Unlimited(rules), times, sb, r).items)
  {
    hide StateInv, Stage, Route, AddUnit, Find, LoadsStaged, ItemsPriced, ItemsPlaced, CreationsCounted;
    var op := r.operation;
    var sa, sb := StageAll(Limited(rules, max), times, a, before), StageAll(Unlimited(rules), times, b, before);
    StageAddsOwnUnit(Limited(rules, max), times, a, before, r);
    StageAddsOwnUnit(Unlimited(rules), times, b, before, r);
    SimulationHasSameLevels(Unbounded, rules[op], AtNow(a, times, op), AtNow(b, times, op), Own(r.subject), times[op]);
    StampedLevel(rules[op], a[op], Own(r.subject), times[op]);
    StampedLevel(rules[op], b[op], Own(r.subject), times[op]);
  }

  lemma StageAddsOwnUnit(cfg: Config, times: map<Operation, Time>, start: States, before: seq<Request>, r: Request)
    requires Ready(cfg, times, start) && (forall q <- before :: q.operation in times) && r.operation in times
    requires Payer(cfg.mode, start[r.operation], before, r) == Own(r.subject)
    ensures var sg := StageAll(cfg, times, start, before);
            && sg.stuck.None?
            && Stage(cfg, times, sg, r).items
               == AddUnit(sg.items, r.operation, Own(r.subject),
                          Level(cfg.rules[r.operation], start[r.operation], Own(r.subject), times[r.operation]))
  {
    StagingIsRight(cfg, times, start, before);
    StageAddsUnit(cfg, times, start, before, r, StageAll(cfg, times, start, before));
  }

  ghost predicate StatesSimulate(rules: map<Operation, Rule>, a: States, b: States) {
    && a.Keys == b.Keys == rules.Keys
    && forall op <- rules :: Simulates(rules[op], a[op], b[op])
  }

  lemma ClocksAgree(a: States, b: States, requests: seq<Request>, now: Time)
    requires forall r <- requests :: r.operation in a && r.operation in b && a[r.operation].lastNow == b[r.operation].lastNow
    ensures ReadClocks(a, requests, now) == ReadClocks(b, requests, now)
  {
    if requests != [] {
      ClocksAgree(a, b, requests[..|requests| - 1], now);
    }
  }

  lemma PaidSimulates(ca: Config, cb: Config, rule: Rule, a: OpState, b: OpState, a': OpState, b': OpState,
                      items: seq<Staged>, op: Operation, at: Time)
    requires Simulates(rule, a, b) && !IsStaged(items, op, Shared)
    requires PaidState(ca, rule, a, a', items, op, at) && PaidState(cb, rule, b, b', items, op, at)
    ensures Simulates(rule, a', b')
  {
    forall key
      ensures SameSubject(rule, a', b', key)
    {
      assert SameSubject(rule, a, b, key);
      if IsStaged(items, op, key) {
        var i :| 0 <= i < |items| && items[i].operation == op && items[i].key == key;
        assert FindCurrent(a', items[i].key) == FindCurrent(b', items[i].key);
      } else {
        assert FindCurrent(a', key) == FindCurrent(a, key) && FindPrevious(a', key) == FindPrevious(a, key);
        assert FindCurrent(b', key) == FindCurrent(b, key) && FindPrevious(b', key) == FindPrevious(b, key);
      }
    }
    assert FindCurrent(a', Shared) == FindCurrent(a, Shared) && FindPrevious(a', Shared) == FindPrevious(a, Shared);
    assert FindCurrent(b', Shared) == FindCurrent(b, Shared) && FindPrevious(b', Shared) == FindPrevious(b, Shared);
  }

  /** The requests of this reservation all find room for a bucket of their own. */
  ghost predicate ReserveHasRoom(rules: map<Operation, Rule>, max: nat, a: States, requests: seq<Request>, now: Time)
    requires Configured(Limited(rules, max))
  {
    forall times :: InProgress(Limited(rules, max), a, requests, now, times)
                    ==> NoneShared(max, times, RotateAll(Limited(rules, max), a, times), Unique(requests))
  }

  lemma RotateAllSimulates(rules: map<Operation, Rule>, max: nat, a: States, b: States, times: map<Operation, Time>, now: Time)
    requires StatesInv(Limited(rules, max), a) && StatesInv(Unlimited(rules), b) && StatesSimulate(rules, a, b)
    requires times.Keys <= a.Keys && now > 0 && forall op <- times :: times[op] == EffectiveNow(a[op], now)
    ensures AllSimulate(rules, times, RotateAll(Limited(rules, max), a, times), RotateAll(Unlimited(rules), b, times))
  {
    forall op | op in times
      ensures Simulates(rules[op], AtNow(RotateAll(Limited(rules, max), a, times), times, op),
                        AtNow(RotateAll(Unlimited(rules), b, times), times, op))
    {
      RotationSimulates(max, rules[op], a[op], b[op], times[op]);
    }
  }

  lemma {:induction false} ReserveSimulatesInProgress(rules: map<Operation, Rule>, max: nat, a: States, b: States, requests: seq<Request>,
                                                      now: Time, times: map<Operation, Time>)
    requires StatesInv(Unlimited(rules), b) && StatesSimulate(rules, a, b)
    requires InProgress(Limited(rules, max), a, requests, now, times)
    requires NoneShared(max, times, RotateAll(Limited(rules, max), a, times), Unique(requests))
    ensures InProgress(Unlimited(rules), b, requests, now, times)
    ensures forall q <- Unique(requests) :: q.operation in times
    ensures StagingOf(Limited(rules, max), a, requests, times).items == StagingOf(Unlimited(rules), b, requests, times).items
    ensures AllSimulate(rules, times, StagingOf(Limited(rules, max), a, requests, times).states,
                        StagingOf(Unlimited(rules), b, requests, times).states)
    ensures forall op <- times :: !IsStaged(StagingOf(Limited(rules, max), a, requests, times).items, op, Shared)
  {
    var ca, cb := Limited(rules, max), Unlimited(rules);
    ClocksAgree(a, b, Unique(requests), now);
    InProgressStages(ca, a, requests, now, times);
    InProgressStages(cb, b, requests, now, times);
    RotateAllSimulates(rules, max, a, b, times, now);
    var ra, rb := RotateAll(ca, a, times), RotateAll(cb, b, times);
    StagesTheSame(rules, max, times, ra, rb, Unique(requests));
    StagedStatesSimulate(rules, max, times, ra, rb, Unique(requests));
    NothingStagedShared(ca, times, ra, Unique(requests));
  }

  lemma StagedStatesSimulate(rules: map<Operation, Rule>, max: nat, times: map<Operation, Time>, a: States, b: States, u: seq<Request>)
    requires Ready(Limited(rules, max), times, a) && Ready(Unlimited(rules), times, b) && AllSimulate(rules, times, a, b)
    requires forall q <- u :: q.operation in times
    ensures AllSimulate(rules, times, StageAll(Limited(rules, max), times, a, u).states, StageAll(Unlimited(rules), times, b, u).states)
  {
    var sa, sb := StageAll(Limited(rules, max), times, a, u).states, StageAll(Unlimited(rules), times, b, u).states;
    StagingIsRight(Limited(rules, max), times, a, u);
    StagingIsRight(Unlimited(rules), times, b, u);
    forall op | op in times
      ensures Simulates(rules[op], AtNow(sa, times, op), AtNow(sb, times, op))
    {
      assert SameBuckets(a[op], sa[op]) && SameBuckets(b[op], sb[op]);
      SameBucketsStamp(a[op], sa[op], times[op]);
      SameBucketsStamp(b[op], sb[op], times[op]);
      SameBucketsSimulate(rules[op], AtNow(a, times, op), AtNow(b, times, op), AtNow(sa, times, op), AtNow(sb, times, op));
    }
  }

  lemma NothingStagedShared(cfg: Config, times: map<Operation, Time>, start: States, u: seq<Request>)
    requires Ready(cfg, times, start) && (forall q <- u :: q.operation in times)
    requires forall op <- times :: Load(cfg.mode, start[op], u, op, Shared) == 0
    ensures forall op <- times :: !IsStaged(StageAll(cfg, times, start, u).items, op, Shared)
  {
    StagingIsRight(cfg, times, start, u);
    var items := StageAll(cfg, times, start, u).items;
    forall op | op in times
      ensures !IsStaged(items, op, Shared)
    {
      forall i | 0 <= i < |items| && items[i].operation == op
        ensures items[i].key != Shared
      {
        assert Priced(cfg, times, start, u, items[i]);
      }
    }
  }

  lemma StampedSimulates(rules: map<Operation, Rule>, max: nat, a: States, b: States, requests: seq<Request>,
                         now: Time, times: map<Operation, Time>)
    requires StatesSimulate(rules, a, b) && StatesInv(Unlimited(rules), b)
    requires InProgress(Limited(rules, max), a, requests, now, times)
    requires NoneShared(max, times, RotateAll(Limited(rules, max), a, times), Unique(requests))
    ensures InProgress(Unlimited(rules), b, requests, now, times)
    ensures forall q <- Unique(requests) :: q.operation in times
    ensures var sa, sb := StagingOf(Limited(rules, max), a, requests, times), StagingOf(Unlimited(rules), b, requests, times);
            && sa.items == sb.items
            && StatesSimulate(rules, StampAll(sa.states, times), StampAll(sb.states, times))
            && forall op <- times :: !IsStaged(sa.items, op, Shared)
  {
    hide Unique, ReadClocks, Acceptable;
    ReserveSimulatesInProgress(rules, max, a, b, requests, now, times);
    var sa, sb := StagingOf(Limited(rules, max), a, requests, times), StagingOf(Unlimited(rules), b, requests, times);
    var ta, tb := StampAll(sa.states, times), StampAll(sb.states, times);
    forall op | op in rules
      ensures Simulates(rules[op], ta[op], tb[op])
    {
      if op in times {
        assert ta[op] == AtNow(sa.states, times, op) && tb[op] == AtNow(sb.states, times, op);
      } else {
        StagedStateEvolves(Limited(rules, max), a, requests, now, times, op);
        StagedStateEvolves(Unlimited(rules), b, requests, now, times, op);
      }
    }
  }

  lemma SameGenerationsSameReceipt(a: States, b: States, items: seq<Staged>)
    requires forall i <- items :: i.operation in a && i.operation in b && a[i.operation].generation == b[i.operation].generation
    ensures Receipt(a, items) == Receipt(b, items)
  {
  }

  lemma {:induction false} SpendSimulates(rules: map<Operation, Rule>, max: nat, a: States, b: States, requests: seq<Request>,
                                          now: Time, times: map<Operation, Time>)
    requires StatesSimulate(rules, a, b) && StatesInv(Unlimited(rules), b)
    requires InProgress(Limited(rules, max), a, requests, now, times)
    requires NoneShared(max, times, RotateAll(Limited(rules, max), a, times), Unique(requests))
    ensures Reserve(Limited(rules, max), a, requests, now).1 == Reserve(Unlimited(rules), b, requests, now).1
    ensures StatesSimulate(rules, Reserve(Limited(rules, max), a, requests, now).0, Reserve(Unlimited(rules), b, requests, now).0)
  {
    hide Unique, ReadClocks, Acceptable;
    var ca, cb := Limited(rules, max), Unlimited(rules);
    StampedSimulates(rules, max, a, b, requests, now, times);
    ReserveUnfolds(ca, a, requests, now, times);
    ReserveUnfolds(cb, b, requests, now, times);
    var items := StagingOf(ca, a, requests, times).items;
    if LongestWait(rules, items) == 0 {
      var (ra, rb) := (Reserve(ca, a, requests, now).0, Reserve(cb, b, requests, now).0);
      forall op | op in rules
        ensures Simulates(rules[op], ra[op], rb[op])
      {
        if op in times {
          GrantPays(ca, a, requests, now, times, op);
          GrantPays(cb, b, requests, now, times, op);
          PaidSimulates(ca, cb, rules[op], StampAll(StagingOf(ca, a, requests, times).states, times)[op],
                        StampAll(StagingOf(cb, b, requests, times).states, times)[op], ra[op], rb[op], items, op, times[op]);
        } else {
          UntouchedOperation(ca, a, requests, now, times, op);
          UntouchedOperation(cb, b, requests, now, times, op);
        }
      }
      SameGenerationsSameReceipt(ra, rb, items);
    }
  }

  lemma ReserveSimulates(rules: map<Operation, Rule>, max: nat, a: States, b: States, requests: seq<Request>, now: Time)
    requires Configured(Limited(rules, max))
    requires StatesInv(Limited(rules, max), a) && StatesInv(Unlimited(rules), b) && StatesSimulate(rules, a, b)
    requires ReserveHasRoom(rules, max, a, requests, now)
    ensures Reserve(Limited(rules, max), a, requests, now).1 == Reserve(Unlimited(rules), b, requests, now).1
    ensures StatesSimulate(rules, Reserve(Limited(rules, max), a, requests, now).0, Reserve(Unlimited(rules), b, requests, now).0)
  {
    if Acceptable(rules, requests, now) {
      UniqueIsSubset(requests);
      ClocksAgree(a, b, Unique(requests), now);
      if ReadClocks(a, Unique(requests), now).Clocks? {
        var times := ReadClocks(a, Unique(requests), now).times;
        assert InProgress(Limited(rules, max), a, requests, now, times);
        SpendSimulates(rules, max, a, b, requests, now, times);
      }
    }
  }

  // ---------------------------------------------------------------- Refund

  lemma RefundOneSimulates(rules: map<Operation, Rule>, max: nat, a: States, b: States, i: Item, now: Time)
    requires StatesInv(Limited(rules, max), a) && StatesInv(Unlimited(rules), b) && StatesSimulate(rules, a, b) && now > 0
    requires Live(Limited(rules, max), a, i) && Live(Unlimited(rules), b, i)
    ensures StatesSimulate(rules, RefundOne(rules, a, i, now), RefundOne(rules, b, i, now))
  {
    var op := i.operation;
    assert Simulates(rules[op], a[op], b[op]) && SameSubject(rules[op], a[op], b[op], i.key);
    if Credits(rules, a, i, now) {
      var rule, bucket := rules[op], FindCurrent(a[op], i.key).value;
      assert KeyInv(rule, b[op], i.key) && KeyInv(rule, a[op], i.key);
      var returned := Returned(rule, bucket, i.units, now);
      LaterSimulates(rule, Unbounded, a[op], b[op], now);
      PutSimulates(rule, a[op].(lastNow := now), b[op].(lastNow := now), i.key, returned);
      assert Put(a[op], i.key, returned).(lastNow := now) == Put(a[op].(lastNow := now), i.key, returned);
      assert Put(b[op], i.key, returned).(lastNow := now) == Put(b[op].(lastNow := now), i.key, returned);
    }
  }

  lemma LaterSimulates(rule: Rule, mode: Mode, a: OpState, b: OpState, now: Time)
    requires rule.Recovers() && StateInv(mode, rule, b) && Simulates(rule, a, b) && a.lastNow <= now
    ensures Simulates(rule, a.(lastNow := now), b.(lastNow := now))
  {
    forall key
      ensures SameSubject(rule, a.(lastNow := now), b.(lastNow := now), key)
    {
      assert SameSubject(rule, a, b, key);
      assert Find(a.(lastNow := now), key) == Find(a, key) && Find(b.(lastNow := now), key) == Find(b, key);
      SimulationHasSameLevels(mode, rule, a, b, key, now);
    }
    assert Find(a.(lastNow := now), Shared) == Find(a, Shared) && Find(b.(lastNow := now), Shared) == Find(b, Shared);
  }

  lemma {:induction false} RefundSimulates(rules: map<Operation, Rule>, max: nat, a: States, b: States, items: seq<Item>, now: Time)
    requires StatesInv(Limited(rules, max), a) && StatesInv(Unlimited(rules), b) && StatesSimulate(rules, a, b)
    requires forall i <- items :: Live(Limited(rules, max), a, i) && Live(Unlimited(rules), b, i)
    ensures StatesSimulate(rules, RefundAll(rules, a, items, now), RefundAll(rules, b, items, now))
  {
    if items != [] && now != 0 {
      var front, last := items[..|items| - 1], items[|items| - 1];
      RefundSimulates(rules, max, a, b, front, now);
      RefundCredits(Limited(rules, max), a, front, now);
      RefundCredits(Unlimited(rules), b, front, now);
      var a', b' := RefundAll(rules, a, front, now), RefundAll(rules, b, front, now);
      assert last in items;
      LiveStaysLive(Limited(rules, max), a, a', last, now);
      LiveStaysLive(Unlimited(rules), b, b', last, now);
      RefundOneSimulates(rules, max, a', b', last, now);
    }
  }
}
