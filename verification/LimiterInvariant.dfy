/**
 What one operation's state keeps, and why forgetting a bucket cannot be observed: a bucket is only
 dropped once it has refilled, so its `Level` (the tokens a request would find) does not change.
 */
module LimiterInvariant {
  import opened Wrappers
  import opened LimiterSpec

  // ------------------------------------------------------------- refilling

  lemma GainAdds(rule: Rule, a: int, b: int)
    ensures rule.Gain(a + b) == rule.Gain(a) + rule.Gain(b)
  {
  }

  lemma GainMonotone(rule: Rule, a: int, b: int)
    requires rule.refill > 0.0 && a <= b
    ensures rule.Gain(a) <= rule.Gain(b)
    ensures rule.Gain(0) == 0.0
  {
    var x, y := a as real / SECOND as real, b as real / SECOND as real;
    assert x <= y;
    assert (y - x) * rule.refill >= 0.0;
  }

  lemma CeilIsLeast(x: real, d: int)
    ensures d >= Ceil(x) <==> d as real >= x
  {
  }

  lemma WaitIsTight(rule: Rule, missing: real, d: int)
    requires rule.refill > 0.0
    ensures rule.Gain(d) >= missing <==> d >= rule.Wait(missing)
  {
    var x, e := missing / rule.refill, d as real / SECOND as real;
    assert x * rule.refill == missing;
    assert e >= x ==> e * rule.refill >= x * rule.refill;
    assert e < x ==> e * rule.refill < x * rule.refill;
    CeilIsLeast(x * SECOND as real, d);
  }

  /** The TTL clamp of the constructor lets every bucket recover exactly when recovery fits a Duration. */
  lemma ClampedTTLRecovers(capacity: nat, refill: real, configuredTTL: int)
    requires capacity >= 1 && refill > 0.0 && configuredTTL <= MAX_DURATION
    ensures NewRule(capacity, refill, configuredTTL).Valid()
    ensures NewRule(capacity, refill, configuredTTL).Recovers()
            <==> capacity as real / refill * SECOND as real <= MAX_DURATION as real
  {
    var rule := NewRule(capacity, refill, configuredTTL);
    var need := rule.Wait(capacity as real);
    WaitIsTight(rule, capacity as real, rule.ttl);
    WaitIsTight(rule, capacity as real, MAX_DURATION);
    assert need as real >= capacity as real / refill * SECOND as real;
    assert capacity as real / refill > 0.0;
  }

  /**
   The rule of a new limiter keeps capacity and refill, and the configured TTL, fifteen minutes unless given, if full
   recovery fits it; otherwise its TTL is the least in which an empty bucket fills up, or the longest Duration.
   */
  lemma {:induction false} NewRuleExactly(capacity: nat, refill: real, configuredTTL: int)
    requires capacity >= 1 && refill > 0.0 && configuredTTL <= MAX_DURATION
    ensures var rule := NewRule(capacity, refill, configuredTTL);
            var ttl := if configuredTTL <= 0 then 15 * 60 * SECOND else configuredTTL;
            && rule.capacity == capacity && rule.refill == refill && ttl <= rule.ttl <= MAX_DURATION
            && (rule.Gain(ttl) >= capacity as real ==> rule.ttl == ttl)
            && (rule.ttl > ttl ==> rule.Gain(rule.ttl - 1) < capacity as real)
  {
    var rule := NewRule(capacity, refill, configuredTTL);
    var ttl := if configuredTTL <= 0 then 15 * 60 * SECOND else configuredTTL;
    WaitIsTight(rule, capacity as real, ttl);
    WaitIsTight(rule, capacity as real, rule.ttl - 1);
    assert rule.Wait(capacity as real) == Ceil(capacity as real / refill * SECOND as real);
  }

  // ------------------------------------------------------------- one state

  /** The tokens a request would find in bucket `key` at `t`; a missing bucket counts as full. */
  function Level(rule: Rule, st: OpState, key: Key, t: Time): real {
    match Find(st, key)
    case None => rule.capacity as real
    case Some(b) => Settled(rule, b, t)
  }

  ghost predicate Sane(rule: Rule, b: Bucket, lastNow: Time) {
    0.0 <= b.tokens <= rule.capacity as real && 0 < b.last <= lastNow
  }

  /** From `t` on the bucket is full unless it is used again. */
  ghost predicate FullBy(rule: Rule, b: Bucket, t: int) {
    b.tokens == rule.capacity as real || b.tokens + rule.Gain(t - b.last) >= rule.capacity as real
  }

  function FindPrevious(st: OpState, key: Key): Option<Bucket> {
    match key
    case Own(s) => if s in st.previousBuckets then Some(st.previousBuckets[s]) else None
    case Shared => st.previousOverflow
  }

  /**
   A key has a bucket in one generation at most.  A current bucket is full two phases after the
   generation started, a previous one already after one phase: the instants they may be dropped.
   */
  ghost predicate KeyInv(rule: Rule, st: OpState, key: Key) {
    && (FindCurrent(st, key).None? || FindPrevious(st, key).None?)
    && (FindCurrent(st, key).Some? ==>
          && Sane(rule, FindCurrent(st, key).value, st.lastNow)
          && FullBy(rule, FindCurrent(st, key).value, st.generationStart + 2 * rule.ttl))
    && (FindPrevious(st, key).Some? ==>
          && Sane(rule, FindPrevious(st, key).value, st.lastNow)
          && FullBy(rule, FindPrevious(st, key).value, st.generationStart + rule.ttl))
  }

  ghost predicate StateInv(mode: Mode, rule: Rule, st: OpState) {
    && (st.lastNow == 0 <==> st.generationStart == 0)
    && st.generationStart <= st.lastNow
    && (forall key :: KeyInv(rule, st, key))
    && (mode.Bounded? ==> SubjectCount(st) <= mode.maxSubjects)
    && (mode.Unbounded? ==> st.previousBuckets == map[] && st.previousOverflow.None?)
  }

  lemma FullBucketSettlesFull(rule: Rule, b: Bucket, due: int, t: Time)
    requires rule.Recovers() && 0.0 <= b.tokens <= rule.capacity as real && b.last <= t
    requires FullBy(rule, b, due) && due <= t
    ensures Settled(rule, b, t) == rule.capacity as real
  {
    GainMonotone(rule, 0, Sub(t, b.last));
    GainMonotone(rule, rule.ttl, MAX_DURATION);
    GainMonotone(rule, due - b.last, t - b.last);
  }

  /** Settling early changes nothing that is seen later, even where Durations saturate. */
  lemma SettlingIsUnobservable(rule: Rule, b: Bucket, now: Time, t: Time)
    requires rule.Recovers() && 0.0 <= b.tokens <= rule.capacity as real && b.last <= now <= t
    ensures Settled(rule, Bucket(Settled(rule, b, now), now), t) == Settled(rule, b, t)
    ensures b.tokens <= Settled(rule, b, now) <= rule.capacity as real
  {
    GainMonotone(rule, 0, Sub(now, b.last));
    GainMonotone(rule, 0, Sub(t, now));
    GainMonotone(rule, 0, Sub(t, b.last));
    GainMonotone(rule, rule.ttl, MAX_DURATION);
    GainMonotone(rule, now - b.last, t - b.last);
    GainAdds(rule, now - b.last, t - now);
    if t - b.last <= MAX_DURATION {
      assert Sub(t, b.last) == Sub(now, b.last) + Sub(t, now);
    } else {
      GainAdds(rule, Sub(now, b.last), Sub(t, now));
      GainMonotone(rule, MAX_DURATION, Sub(now, b.last) + Sub(t, now));
    }
  }

  // -------------------------------------------------------------- rotation

  lemma {:induction false} RotationKeepsLevels(mode: Mode, rule: Rule, st: OpState, now: Time, key: Key, t: Time)
    requires rule.Recovers() && StateInv(mode, rule, st) && st.lastNow <= now <= t
    ensures Level(rule, Rotate(mode, rule, st, now), key, t) == Level(rule, st, key, t)
  {
    assert KeyInv(rule, st, key);
    var after := Rotate(mode, rule, st, now);
    if st.generationStart != 0 && Sub(now, st.generationStart) >= rule.ttl && mode.Bounded? && Find(st, key).Some?
       && Find(after, key).None? {
      var elapsed := Sub(now, st.generationStart);
      var due := st.generationStart + (if FindCurrent(st, key).Some? then 2 * rule.ttl else rule.ttl);
      if FindCurrent(st, key).Some? {
        TwoPhases(elapsed, rule.ttl);
      }
      FullBucketSettlesFull(rule, Find(st, key).value, due, t);
    }
  }

  lemma TwoPhases(elapsed: int, ttl: nat)
    requires 0 < ttl <= elapsed
    ensures elapsed / ttl >= 2 ==> elapsed >= 2 * ttl
    ensures elapsed / ttl < 2 ==> elapsed % ttl == elapsed - ttl
    ensures 0 <= elapsed % ttl < ttl
  {
    assert elapsed == elapsed / ttl * ttl + elapsed % ttl;
    if elapsed / ttl >= 2 {
      assert elapsed / ttl * ttl >= 2 * ttl;
    }
  }

  lemma RotationKeepsKey(mode: Mode, rule: Rule, st: OpState, now: Time, key: Key)
    requires rule.Recovers() && KeyInv(rule, st, key) && 0 < now
    requires st.generationStart <= st.lastNow <= now && (st.lastNow == 0 <==> st.generationStart == 0)
    ensures KeyInv(rule, Rotate(mode, rule, st, now).(lastNow := now), key)
  {
    var after := Rotate(mode, rule, st, now).(lastNow := now);
    if st.generationStart != 0 && Sub(now, st.generationStart) >= rule.ttl {
      TwoPhases(Sub(now, st.generationStart), rule.ttl);
      if FindCurrent(st, key).Some? {
        var b := FindCurrent(st, key).value;
        GainMonotone(rule, st.generationStart + 2 * rule.ttl - b.last, after.generationStart + rule.ttl - b.last);
        GainMonotone(rule, st.generationStart + 2 * rule.ttl - b.last, after.generationStart + 2 * rule.ttl - b.last);
      }
      if FindPrevious(st, key).Some? {
        var b := FindPrevious(st, key).value;
        GainMonotone(rule, st.generationStart + rule.ttl - b.last, after.generationStart + rule.ttl - b.last);
      }
    }
  }

  lemma RotationKeepsInvariant(mode: Mode, rule: Rule, st: OpState, now: Time)
    requires rule.Recovers() && StateInv(mode, rule, st) && st.lastNow <= now && now > 0
    ensures StateInv(mode, rule, Rotate(mode, rule, st, now).(lastNow := now))
  {
    forall key {
      RotationKeepsKey(mode, rule, st, now, key);
    }
    if st.generationStart != 0 && Sub(now, st.generationStart) >= rule.ttl {
      TwoPhases(Sub(now, st.generationStart), rule.ttl);
    }
  }

  /** After a rotation the phase is current; without a new generation nothing moved. */
  lemma RotationReachesNow(mode: Mode, rule: Rule, st: OpState, now: Time)
    requires rule.Recovers() && StateInv(mode, rule, st) && st.lastNow <= now && now > 0
    ensures var after := Rotate(mode, rule, st, now);
            && after.generationStart <= now < after.generationStart + rule.ttl
            && after.generation >= st.generation
            && (after.generation == st.generation ==> forall key :: FindCurrent(after, key) == FindCurrent(st, key))
  {
    if st.generationStart != 0 && Sub(now, st.generationStart) >= rule.ttl {
      TwoPhases(Sub(now, st.generationStart), rule.ttl);
    }
  }

  // ---------------------------------------------------- migrating, putting

  lemma MigrationKeepsKey(rule: Rule, st: OpState, key: Key, k: Key)
    requires KeyInv(rule, st, k) && rule.Recovers()
    ensures KeyInv(rule, Migrate(st, key), k)
    ensures Find(Migrate(st, key), k) == Find(st, k)
    ensures FindCurrent(Migrate(st, key), k) == if k == key then Find(st, k) else FindCurrent(st, k)
  {
    if k == key && FindPrevious(st, k).Some? {
      var b := FindPrevious(st, k).value;
      GainMonotone(rule, st.generationStart + rule.ttl - b.last, st.generationStart + 2 * rule.ttl - b.last);
    }
  }

  lemma MigrationMovesNothing(mode: Mode, rule: Rule, st: OpState, key: Key)
    requires StateInv(mode, rule, st) && rule.Recovers()
    ensures StateInv(mode, rule, Migrate(st, key))
    ensures forall k :: Find(Migrate(st, key), k) == Find(st, k)
    ensures forall k :: FindCurrent(Migrate(st, key), k) == if k == key then Find(st, k) else FindCurrent(st, k)
    ensures SubjectCount(Migrate(st, key)) == SubjectCount(st)
  {
    forall k {
      MigrationKeepsKey(rule, st, key, k);
    }
    MigrationKeepsCount(st, key);
  }

  lemma MigrationKeepsCount(st: OpState, key: Key)
    ensures SubjectCount(Migrate(st, key)) == SubjectCount(st)
  {
    if key.Own? && key.subject !in st.buckets && key.subject in st.previousBuckets {
      var after := Migrate(st, key);
      assert after.previousBuckets.Keys == st.previousBuckets.Keys - {key.subject};
      assert after.buckets.Keys == st.buckets.Keys + {key.subject};
      assert |after.previousBuckets| == |after.previousBuckets.Keys| && |after.buckets| == |after.buckets.Keys|;
    }
  }

  /** Routing moved buckets between generations and nothing else. */
  ghost predicate SameBuckets(before: OpState, after: OpState) {
    && (forall k :: Find(after, k) == Find(before, k))
    && (forall k :: FindCurrent(before, k).Some? ==> FindCurrent(after, k).Some?)
    && (forall k :: FindPrevious(before, k).None? ==> FindPrevious(after, k).None?)
    && SubjectCount(after) == SubjectCount(before)
    && after.lastNow == before.lastNow
    && after.generationStart == before.generationStart
    && after.generation == before.generation
  }

  lemma RouteMovesNothing(mode: Mode, rule: Rule, st: OpState, subject: string, pending: nat)
    requires StateInv(mode, rule, st) && rule.Recovers()
    ensures var (after, key) := Route(mode, st, subject, pending);
            && StateInv(mode, rule, after)
            && SameBuckets(st, after)
            && key == KeyFor(mode, st, subject, pending)
            && FindCurrent(after, key) == Find(st, key)
            && FindPrevious(after, key).None?
  {
    var own := Migrate(st, Own(subject));
    MigrationMovesNothing(mode, rule, st, Own(subject));
    MigrationMovesNothing(mode, rule, own, Shared);
    var (after, key) := Route(mode, st, subject, pending);
    assert KeyInv(rule, after, key);
  }

  lemma RouteIgnoresClock(mode: Mode, st: OpState, subject: string, pending: nat, t: Time)
    ensures Route(mode, st.(lastNow := t), subject, pending)
            == (Route(mode, st, subject, pending).0.(lastNow := t), Route(mode, st, subject, pending).1)
  {
  }

  /** Writing a bucket settled at `lastNow`, into its own generation or into a free place. */
  lemma PutKeepsInvariant(mode: Mode, rule: Rule, st: OpState, key: Key, b: Bucket)
    requires StateInv(mode, rule, st) && rule.Recovers()
    requires Sane(rule, b, st.lastNow) && FullBy(rule, b, st.generationStart + 2 * rule.ttl)
    requires FindPrevious(st, key).None?
    requires FindCurrent(st, key).Some? || key.Shared? || HasRoom(mode, st, 0)
    ensures StateInv(mode, rule, Put(st, key, b))
    ensures SubjectCount(Put(st, key, b)) == SubjectCount(st) + if key.Own? && FindCurrent(st, key).None? then 1 else 0
  {
    var after := Put(st, key, b);
    PutAt(st, key, b);
    forall k
      ensures KeyInv(rule, after, k)
    {
      assert KeyInv(rule, st, k);
    }
    PutCounts(st, key, b);
  }

  lemma PutCounts(st: OpState, key: Key, b: Bucket)
    ensures SubjectCount(Put(st, key, b)) == SubjectCount(st) + if key.Own? && FindCurrent(st, key).None? then 1 else 0
  {
    if key.Own? {
      OneMoreKey(st.buckets, key.subject, b);
    }
  }

  lemma OneMoreKey<K, V>(m: map<K, V>, k: K, v: V)
    ensures |m[k := v]| == |m| + if k in m then 0 else 1
  {
    assert m[k := v].Keys == m.Keys + {k};
    assert |m[k := v]| == |m[k := v].Keys| && |m| == |m.Keys|;
  }

  lemma PutAt(st: OpState, key: Key, b: Bucket)
    ensures forall k :: FindCurrent(Put(st, key, b), k) == if k == key then Some(b) else FindCurrent(st, k)
    ensures forall k :: FindPrevious(Put(st, key, b), k) == FindPrevious(st, k)
    ensures forall k :: Find(Put(st, key, b), k) == if k == key then Some(b) else Find(st, k)
  {
  }

  /** A bucket settled inside the current phase fills up before that phase's bucket may be dropped. */
  lemma RecentBucketIsDueInTime(rule: Rule, b: Bucket, start: Time)
    requires rule.Recovers() && 0.0 <= b.tokens && b.last < start + rule.ttl
    ensures FullBy(rule, b, start + 2 * rule.ttl)
  {
    GainMonotone(rule, rule.ttl, start + 2 * rule.ttl - b.last);
  }
}
