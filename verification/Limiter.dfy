/**
 The limiter as the object it is: `Limiter` and `Reservation` of internal/agents/limiter.go with the
 fields, loops and early returns of their methods, each proved equal to the function that specifies it.
 */
module LimiterObject {
  import opened Wrappers
  import opened LimiterSpec

  class Limiter {
    const rules: map<Operation, Rule>
    const maxSubjects: nat
    var states: States

    ghost predicate Valid()
      reads this
    {
      states.Keys == rules.Keys && Configured(Config())
    }

    function Config(): Config {
      LimiterSpec.Config.Config(rules, Bounded(maxSubjects))
    }

    /** `NewLimiter`: a non-positive bound or TTL selects the default, and each TTL is clamped. */
    constructor (limits: map<Operation, (nat, real)>, maxSubjects: int, generationTTL: int)
      requires forall op <- limits :: limits[op].0 >= 1 && limits[op].1 > 0.0
      requires generationTTL <= MAX_DURATION
      ensures Valid()
      ensures rules == map op | op in limits :: NewRule(limits[op].0, limits[op].1, generationTTL)
      ensures this.maxSubjects == if maxSubjects <= 0 then 10_000 else maxSubjects
      ensures states == Start(Config()).states
    {
      this.maxSubjects := if maxSubjects <= 0 then 10_000 else maxSubjects;
      rules := map op | op in limits :: NewRule(limits[op].0, limits[op].1, generationTTL);
      states := map op | op in limits :: EMPTY;
      new;
      forall op | op in rules
        ensures rules[op].Valid()
      {
        NewRuleIsValid(limits[op].0, limits[op].1, generationTTL);
      }
    }

    method Allow(subject: string, operation: Operation, now: Time) returns (decision: Decision)
      requires Valid()
      modifies this
      ensures Valid()
      ensures (states, decision) == LimiterSpec.Decide(Config(), old(states), subject, operation, now, true)
    {
      decision := Decide(subject, operation, now, true);
    }

    method Check(subject: string, operation: Operation, now: Time) returns (decision: Decision)
      requires Valid()
      modifies this
      ensures Valid()
      ensures (states, decision) == LimiterSpec.Decide(Config(), old(states), subject, operation, now, false)
    {
      decision := Decide(subject, operation, now, false);
    }

    method Decide(subject: string, operation: Operation, now: Time, consume: bool) returns (decision: Decision)
      requires Valid()
      modifies this
      ensures Valid()
      ensures (states, decision) == LimiterSpec.Decide(Config(), old(states), subject, operation, now, consume)
    {
      if subject == "" || now == 0 || operation !in rules {
        return REFUSED;
      }
      hide Rotate, Route, Answer, Find;
      var rule, at := rules[operation], now;
      var last := states[operation].lastNow;
      if last != 0 && at < last {
        if Sub(last, at) >= CLOCK_SKEW {
          assert states == states[operation := states[operation]];
          return Decision(false, Sub(last, at));
        }
        at := last;
      }
      var key, bucket := Locate(operation, subject, at);
      if bucket.None? {
        if !consume {
          return ALLOWED;
        }
        bucket := Some(Bucket(rule.capacity as real, at));
      }
      decision := Settle(operation, key, bucket.value, at, consume);
      assert states == old(states)[operation := states[operation]];
    }

    /** The middle of `decide`: rotate, advance the clock and look the paying bucket up. */
    method Locate(operation: Operation, subject: string, now: Time) returns (key: Key, bucket: Option<Bucket>)
      requires Valid() && operation in rules
      modifies this
      ensures Valid()
      ensures var start := Rotate(Bounded(maxSubjects), rules[operation], old(states)[operation], now).(lastNow := now);
              var (st, payer) := Route(Bounded(maxSubjects), start, subject, 0);
              states == old(states)[operation := st] && key == payer
      ensures bucket == Find(states[operation], key)
    {
      hide Rotate, Migrate, Find, Configured, SubjectCount, FindCurrent, Rule.Valid;
      RotateGeneration(operation, now);
      states := states[operation := states[operation].(lastNow := now)];
      key := Own(subject);
      bucket := SubjectBucket(operation, subject);
      if bucket.None? && SubjectCount(states[operation]) >= maxSubjects {
        key := Shared;
        bucket := OverflowBucket(operation);
      }
    }

    /** The end of `decide`: credit the refill, answer, and take a token if asked to. */
    method Settle(operation: Operation, key: Key, bucket: Bucket, now: Time, consume: bool) returns (decision: Decision)
      requires Valid() && operation in rules
      requires Find(states[operation], key).Some? ==> Find(states[operation], key).value == bucket
      requires Find(states[operation], key).None? ==> consume && bucket == Bucket(rules[operation].capacity as real, now)
      modifies this
      ensures Valid()
      ensures var (st, answer) := Answer(rules[operation], old(states)[operation], key, now, consume);
              states == old(states)[operation := st] && decision == answer
    {
      var rule, st := rules[operation], states[operation];
      if now < bucket.last {
        states := states[operation := Put(st, key, bucket)];
        return Decision(false, Sub(bucket.last, now));
      }
      var tokens := Settled(rule, bucket, now);
      if tokens < 1.0 {
        states := states[operation := Put(st, key, Bucket(tokens, now))];
        return Decision(false, rule.Wait(1.0 - tokens));
      }
      if consume {
        tokens := tokens - 1.0;
      }
      states := states[operation := Put(st, key, Bucket(tokens, now))];
      decision := ALLOWED;
    }

    method RotateGeneration(operation: Operation, now: Time)
      requires Valid() && operation in rules
      modifies this
      ensures Valid()
      ensures states == old(states)[operation := Rotate(Bounded(maxSubjects), rules[operation], old(states)[operation], now)]
    {
      var st := states[operation];
      if st.generationStart == 0 {
        states := states[operation := st.(generationStart := now)];
        return;
      }
      if now < st.generationStart {
        return;
      }
      var ttl, elapsed := rules[operation].ttl, Sub(now, st.generationStart);
      if elapsed < ttl {
        return;
      }
      if elapsed / ttl >= 2 {
        st := st.(previousBuckets := map[], previousOverflow := None);
      } else {
        st := st.(previousBuckets := st.buckets, previousOverflow := st.overflow);
      }
      st := st.(buckets := map[], overflow := None, generation := st.generation + 1);
      states := states[operation := st.(generationStart := now - elapsed % ttl)];
    }

    method SubjectBucket(operation: Operation, subject: string) returns (bucket: Option<Bucket>)
      requires Valid() && operation in rules
      modifies this
      ensures Valid()
      ensures states == old(states)[operation := Migrate(old(states)[operation], Own(subject))]
      ensures bucket == Find(states[operation], Own(subject))
    {
      var st := states[operation];
      if subject in st.buckets {
        return Some(st.buckets[subject]);
      }
      if subject !in st.previousBuckets {
        return None;
      }
      bucket := Some(st.previousBuckets[subject]);
      st := st.(previousBuckets := st.previousBuckets - {subject});
      states := states[operation := st.(buckets := st.buckets[subject := bucket.value])];
    }

    method OverflowBucket(operation: Operation) returns (bucket: Option<Bucket>)
      requires Valid() && operation in rules
      modifies this
      ensures Valid()
      ensures states == old(states)[operation := Migrate(old(states)[operation], Shared)]
      ensures bucket == Find(states[operation], Shared)
    {
      var st := states[operation];
      if st.overflow.Some? {
        return st.overflow;
      }
      bucket := st.previousOverflow;
      if bucket.None? {
        return;
      }
      states := states[operation := st.(previousOverflow := None, overflow := bucket)];
    }

    // -------------------------------------------------------------- Reserve

    /** The first loop of `Reserve`: refuse bad requests, drop repeated ones. */
    method Deduplicate(requests: seq<Request>, now: Time) returns (ok: bool, unique: seq<Request>)
      requires Valid()
      ensures ok == Acceptable(rules, requests, now)
      ensures ok ==> unique == Unique(requests)
    {
      unique := [];
      if requests == [] || now == 0 {
        return false, [];
      }
      var seen: set<Request> := {};
      for i := 0 to |requests|
        invariant unique == Unique(requests[..i])
        invariant seen == set r | r in unique
        invariant forall r <- requests[..i] :: r.subject != "" && r.operation in rules
      {
        var request := requests[i];
        assert requests[..i + 1][..i] == requests[..i];
        if request.subject == "" || request.operation !in rules {
          return false, unique;
        }
        if request !in seen {
          seen := seen + {request};
          unique := unique + [request];
        }
      }
      assert requests[..|requests|] == requests;
      ok := true;
    }

    /** The second loop: the effective instant of each operation, or how far the clock ran back. */
    method EffectiveTimes(unique: seq<Request>, now: Time) returns (clocks: Clocks)
      requires Valid() && forall r <- unique :: r.operation in rules
      ensures clocks == ReadClocks(states, unique, now)
    {
      var times: map<Operation, Time> := map[];
      for i := 0 to |unique|
        invariant ReadClocks(states, unique[..i], now) == Clocks(times)
      {
        assert unique[..i + 1][..i] == unique[..i];
        var op := unique[i].operation;
        if op !in times {
          var effective, last := now, states[op].lastNow;
          if last != 0 && effective < last {
            if Sub(last, effective) >= CLOCK_SKEW {
              StoppedPrefix(states, unique, now, i + 1);
              return Stopped(Sub(last, effective));
            }
            effective := last;
          }
          times := times[op := effective];
        }
      }
      assert unique[..|unique|] == unique;
      clocks := Clocks(times);
    }

    /** Go visits a map in no particular order; rotation touches each operation by itself. */
    method RotateEach(times: map<Operation, Time>)
      requires Valid() && times.Keys <= rules.Keys
      modifies this
      ensures Valid()
      ensures states == RotateAll(Config(), old(states), times)
    {
      var rest := times.Keys;
      while rest != {}
        invariant Valid() && rest <= times.Keys
        invariant forall op <- states :: states[op] ==
                    if op in times && op !in rest then Rotate(Bounded(maxSubjects), rules[op], old(states)[op], times[op])
                    else old(states)[op]
        decreases rest
      {
        hide Rotate;
        var op :| op in rest;
        RotateGeneration(op, times[op]);
        rest := rest - {op};
      }
    }

    method StampEach(times: map<Operation, Time>)
      requires Valid() && times.Keys <= rules.Keys
      modifies this
      ensures Valid()
      ensures states == StampAll(old(states), times)
    {
      var rest := times.Keys;
      while rest != {}
        invariant Valid() && rest <= times.Keys
        invariant forall op <- states :: states[op] ==
                    if op in times && op !in rest then old(states)[op].(lastNow := times[op]) else old(states)[op]
        decreases rest
      {
        var op :| op in rest;
        states := states[op := states[op].(lastNow := times[op])];
        rest := rest - {op};
      }
    }

    /** One turn of the staging loop: the bucket that pays and what it holds, or how far it lies ahead. */
    method RouteRequest(request: Request, at: Time, pending: map<Operation, nat>)
      returns (key: Key, tokens: real, ahead: Option<int>, counted: map<Operation, nat>)
      requires Valid() && request.operation in rules
      modifies this
      ensures Valid()
      ensures var op := request.operation;
              var (st, payer) := Route(Bounded(maxSubjects), old(states)[op], request.subject, Pending(pending, op));
              && states == old(states)[op := st] && key == payer
              && counted == (if payer.Own? && Find(st, payer).None? then pending[op := Pending(pending, op) + 1] else pending)
              && match Find(st, payer)
                 case None => tokens == rules[op].capacity as real && ahead.None?
                 case Some(b) =>
                   if at < b.last then ahead == Some(Sub(b.last, at)) else ahead.None? && tokens == Settled(rules[op], b, at)
    {
      hide Migrate, Settled, Configured;
      var op := request.operation;
      counted := pending;
      key := Own(request.subject);
      var bucket := SubjectBucket(op, request.subject);
      if bucket.None? {
        if SubjectCount(states[op]) + Pending(pending, op) < maxSubjects {
          counted := pending[op := Pending(pending, op) + 1];
        } else {
          key := Shared;
          bucket := OverflowBucket(op);
        }
      }
      tokens, ahead := rules[op].capacity as real, None;
      if bucket.Some? {
        if at < bucket.value.last {
          ahead := Some(Sub(bucket.value.last, at));
        } else {
          tokens := Settled(rules[op], bucket.value, at);
        }
      }
    }

    /** The rest of the turn: one more unit on the staged bucket, or a new staged bucket. */
    method StageOne(request: Request, times: map<Operation, Time>, staged: seq<Staged>,
                    indexes: map<(Operation, Key), nat>, pending: map<Operation, nat>)
      returns (items: seq<Staged>, places: map<(Operation, Key), nat>, counted: map<Operation, nat>, stuck: Option<int>)
      requires Valid() && request.operation in rules && request.operation in times && Indexed(staged, indexes)
      modifies this
      ensures Valid()
      ensures Staging(states, items, counted, stuck)
           == Stage(Config(), times, Staging(old(states), staged, pending, None), request)
      ensures stuck.None? ==> Indexed(items, places)
    {
      hide Route, Settled, Find, Configured, IndexOf, IsStaged, Indexed;
      var op := request.operation;
      var key, tokens, ahead, counts := RouteRequest(request, times[op], pending);
      items, places, counted, stuck := staged, indexes, counts, None;
      IndexedAt(staged, indexes, op, key);
      if (op, key) in indexes {
        var n := indexes[(op, key)];
        items := items[n := items[n].(spend := items[n].spend + 1)];
      } else if ahead.Some? {
        stuck := ahead;
        return;
      } else {
        places := places[(op, key) := |items|];
        items := items + [Staged(op, key, tokens, 1)];
      }
      IndexedAfter(staged, indexes, op, key, tokens);
    }

    /** The staging loop: which bucket each request is charged to, and what that bucket holds now. */
    method StageEach(unique: seq<Request>, times: map<Operation, Time>) returns (staged: seq<Staged>, stuck: Option<int>)
      requires Valid() && times.Keys <= rules.Keys && forall r <- unique :: r.operation in times
      modifies this
      ensures Valid()
      ensures var sg := StageAll(Config(), times, old(states), unique);
              states == sg.states && stuck == sg.stuck && (stuck.None? ==> staged == sg.items)
    {
      staged := [];
      var indexes: map<(Operation, Key), nat> := map[];
      var pending: map<Operation, nat> := map[];
      for i := 0 to |unique|
        invariant Valid()
        invariant StageAll(Config(), times, old(states), unique[..i]) == Staging(states, staged, pending, None)
        invariant Indexed(staged, indexes)
      {
        hide Stage, Indexed;
        assert unique[..i + 1][..i] == unique[..i];
        staged, indexes, pending, stuck := StageOne(unique[i], times, staged, indexes, pending);
        if stuck.Some? {
          StuckPrefix(Config(), times, old(states), unique, i + 1);
          return;
        }
      }
      assert unique[..|unique|] == unique;
      stuck := None;
    }

    /** The loop that decides: how long until every staged bucket can pay. */
    method LongestWaitOf(staged: seq<Staged>) returns (retryAfter: int)
      requires Valid() && forall i <- staged :: i.operation in rules
      ensures retryAfter == LongestWait(rules, staged)
    {
      retryAfter := 0;
      for i := 0 to |staged|
        invariant retryAfter == LongestWait(rules, staged[..i])
      {
        assert staged[..i + 1][..i] == staged[..i];
        var item := staged[i];
        if item.tokens < item.spend as real {
          var wait := rules[item.operation].Wait(item.spend as real - item.tokens);
          WaitIsPositive(rules[item.operation], item.spend as real - item.tokens);
          if wait > retryAfter {
            retryAfter := wait;
          }
        }
      }
      assert staged[..|staged|] == staged;
    }

    /** The paying loop: each staged bucket is written with what it has left. */
    method SpendEach(staged: seq<Staged>, times: map<Operation, Time>)
      requires Valid() && forall i <- staged :: i.operation in rules && i.operation in times
      modifies this
      ensures Valid()
      ensures states == Spend(old(states), times, staged)
    {
      for i := 0 to |staged|
        invariant Valid()
        invariant states == Spend(old(states), times, staged[..i])
      {
        assert staged[..i + 1][..i] == staged[..i];
        var item := staged[i];
        var left := Bucket(item.tokens - item.spend as real, times[item.operation]);
        states := states[item.operation := Put(states[item.operation], item.key, left)];
      }
      assert staged[..|staged|] == staged;
    }

    /** `Reserve`: all requests are charged together or none is. */
    method Reserve(requests: seq<Request>, now: Time) returns (reservation: Reservation?, decision: Decision)
      requires Valid()
      modifies this
      ensures Valid()
      ensures states == LimiterSpec.Reserve(Config(), old(states), requests, now).0
      ensures match LimiterSpec.Reserve(Config(), old(states), requests, now).1
              case Denied(retryAfter) => reservation == null && decision == Decision(false, retryAfter)
              case Granted(items) =>
                && reservation != null && fresh(reservation) && decision == ALLOWED
                && reservation.limiter == this && reservation.items == items && !reservation.resolved
    {
      hide Configured, StageAll, ReadClocks, Unique, LongestWait, Spend, Acceptable;
      var ok, unique := Deduplicate(requests, now);
      if !ok {
        return null, REFUSED;
      }
      assert forall r <- unique :: r.operation in rules by {
        UniqueIsSubset(requests);
        AcceptableOperations(rules, requests, now);
      }
      var clocks := EffectiveTimes(unique, now);
      if clocks.Stopped? {
        return null, Decision(false, clocks.gap);
      }
      var times := clocks.times;
      RotateEach(times);
      StagedOperations(Config(), times, states, unique);
      var staged, stuck := StageEach(unique, times);
      if stuck.Some? {
        return null, Decision(false, stuck.value);
      }
      var retryAfter := LongestWaitOf(staged);
      StampEach(times);
      if retryAfter > 0 {
        return null, Decision(false, retryAfter);
      }
      SpendEach(staged, times);
      var items := Receipt(states, staged);
      reservation := new Reservation(this, items);
      decision := ALLOWED;
    }

    // --------------------------------------------------------------- Refund

    /** `refundMany`: each line that still belongs to the running generation goes back to its bucket. */
    method RefundMany(items: seq<Item>, now: Time)
      requires Valid()
      modifies this
      ensures Valid()
      ensures states == RefundAll(rules, old(states), items, now)
    {
      if items == [] || now == 0 {
        return;
      }
      for i := 0 to |items|
        invariant Valid()
        invariant states == RefundAll(rules, old(states), items[..i], now)
      {
        hide Settled, Configured;
        assert items[..i + 1][..i] == items[..i];
        var item := items[i];
        if item.operation in rules && item.key != Own("") && item.units > 0
           && item.generation == states[item.operation].generation
        {
          var st := states[item.operation];
          var bucket := FindCurrent(st, item.key);
          if !(st.lastNow != 0 && now < st.lastNow) && bucket.Some? {
            var rule, b := rules[item.operation], bucket.value;
            if !(now < b.last) {
              b := Bucket(Settled(rule, b, now), now);
            }
            var tokens := b.tokens + item.units as real;
            b := b.(tokens := if tokens < rule.capacity as real then tokens else rule.capacity as real);
            states := states[item.operation := Put(st, item.key, b).(lastNow := now)];
          }
        }
      }
      assert items[..|items|] == items;
    }
  }

  class Reservation {
    const limiter: Limiter
    const items: seq<Item>
    var resolved: bool

    constructor (limiter: Limiter, items: seq<Item>)
      ensures this.limiter == limiter && this.items == items && !resolved
    {
      this.limiter, this.items, resolved := limiter, items, false;
    }

    method Commit()
      modifies this
      ensures resolved
    {
      resolved := true;
    }

    /** A reservation is given back at most once, and never after it was committed. */
    method Refund(now: Time)
      requires limiter.Valid()
      modifies this, limiter
      ensures limiter.Valid() && resolved
      ensures limiter.states
           == if old(resolved) then old(limiter.states) else RefundAll(limiter.rules, old(limiter.states), items, now)
    {
      if resolved {
        return;
      }
      resolved := true;
      limiter.RefundMany(items, now);
    }
  }

  lemma WaitIsPositive(rule: Rule, missing: real)
    requires rule.refill > 0.0 && missing > 0.0
    ensures rule.Wait(missing) > 0
  {
    assert missing / rule.refill > 0.0;
  }

  lemma AcceptableOperations(rules: map<Operation, Rule>, requests: seq<Request>, now: Time)
    requires Acceptable(rules, requests, now)
    ensures forall r <- requests :: r.operation in rules
  {
  }

  /** `stagedIndexes` names the item of every bucket staged so far. */
  ghost predicate Indexed(items: seq<Staged>, indexes: map<(Operation, Key), nat>) {
    forall op, key :: ((op, key) in indexes <==> IsStaged(items, op, key))
                      && ((op, key) in indexes ==> indexes[(op, key)] == IndexOf(items, op, key))
  }

  lemma IndexedAt(items: seq<Staged>, indexes: map<(Operation, Key), nat>, op: Operation, key: Key)
    requires Indexed(items, indexes)
    ensures (op, key) in indexes <==> IsStaged(items, op, key)
    ensures (op, key) in indexes ==> indexes[(op, key)] == IndexOf(items, op, key) < |items|
    ensures (op, key) !in indexes ==> IndexOf(items, op, key) == |items|
  {
  }

  /** Adding a unit gives a new bucket the next index and leaves the others where they were. */
  lemma IndexedAfter(items: seq<Staged>, indexes: map<(Operation, Key), nat>, op: Operation, key: Key, tokens: real)
    requires Indexed(items, indexes)
    ensures Indexed(AddUnit(items, op, key, tokens), if (op, key) in indexes then indexes else indexes[(op, key) := |items|])
  {
    var after := AddUnit(items, op, key, tokens);
    forall o, k
      ensures IsStaged(after, o, k) <==> IsStaged(items, o, k) || (o == op && k == key)
      ensures IsStaged(after, o, k) ==> IndexOf(after, o, k) == if IsStaged(items, o, k) then IndexOf(items, o, k) else |items|
    {
      if IsStaged(items, op, key) {
        SameKeysSameIndex(items, after, o, k);
      } else {
        IndexOfAppend(items, Staged(op, key, tokens, 1), o, k);
      }
    }
  }

  lemma SameKeysSameIndex(a: seq<Staged>, b: seq<Staged>, op: Operation, key: Key)
    requires |a| == |b|
    requires forall i :: 0 <= i < |a| ==> a[i].operation == b[i].operation && a[i].key == b[i].key
    ensures IsStaged(a, op, key) <==> IsStaged(b, op, key)
    ensures IndexOf(a, op, key) == IndexOf(b, op, key)
  {
    if a != [] {
      SameKeysSameIndex(a[1..], b[1..], op, key);
    }
    if i :| 0 <= i < |a| && a[i].operation == op && a[i].key == key {
      assert b[i].operation == op && b[i].key == key;
    }
    if i :| 0 <= i < |b| && b[i].operation == op && b[i].key == key {
      assert a[i].operation == op && a[i].key == key;
    }
  }

  lemma IndexOfAppend(items: seq<Staged>, item: Staged, op: Operation, key: Key)
    ensures IsStaged(items + [item], op, key) <==> IsStaged(items, op, key) || (item.operation == op && item.key == key)
    ensures IsStaged(items + [item], op, key)
            ==> IndexOf(items + [item], op, key) == if IsStaged(items, op, key) then IndexOf(items, op, key) else |items|
  {
    var all := items + [item];
    assert all[|items|] == item;
    forall i | 0 <= i < |items|
      ensures all[i] == items[i]
    {
    }
    if items != [] {
      IndexOfAppend(items[1..], item, op, key);
      assert all[1..] == items[1..] + [item];
    }
  }

  lemma {:induction false} StuckPrefix(cfg: LimiterSpec.Config, times: map<Operation, Time>, states: States, requests: seq<Request>, n: nat)
    requires times.Keys <= states.Keys <= cfg.rules.Keys
    requires n <= |requests| && forall q <- requests :: q.operation in times
    requires StageAll(cfg, times, states, requests[..n]).stuck.Some?
    ensures StageAll(cfg, times, states, requests) == StageAll(cfg, times, states, requests[..n])
  {
    hide Stage;
    if n < |requests| {
      var init := requests[..|requests| - 1];
      assert init[..n] == requests[..n];
      StuckPrefix(cfg, times, states, init, n);
    } else {
      assert requests[..n] == requests;
    }
  }

  lemma {:induction false} StoppedPrefix(states: States, requests: seq<Request>, now: Time, n: nat)
    requires n <= |requests| && forall r <- requests :: r.operation in states
    requires ReadClocks(states, requests[..n], now).Stopped?
    ensures ReadClocks(states, requests, now) == ReadClocks(states, requests[..n], now)
  {
    if n < |requests| {
      var init := requests[..|requests| - 1];
      assert init[..n] == requests[..n];
      StoppedPrefix(states, init, now, n);
    } else {
      assert requests[..n] == requests;
    }
  }

  lemma NewRuleIsValid(capacity: nat, refill: real, configuredTTL: int)
    requires capacity >= 1 && refill > 0.0 && configuredTTL <= MAX_DURATION
    ensures NewRule(capacity, refill, configuredTTL).Valid()
  {
  }
}
