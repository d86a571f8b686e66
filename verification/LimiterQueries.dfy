/**
 When Allow and Check answer yes, and what their RetryAfter is worth: the same call succeeds once that long
 has passed, through rotations and changes of the bucket that pays, and not before.
 */
module LimiterQueries {
  import opened Wrappers
  import opened LimiterSpec
  import opened LimiterInvariant
  import opened LimiterEffects
  import opened LimiterRetry

  /** A query whose clock is accepted allows exactly when the bucket that pays holds a token. */
  lemma AllowedIfTokenLeft(mode: Mode, rule: Rule, st: OpState, subject: string, now: Time, consume: bool)
    requires rule.Recovers() && StateInv(mode, rule, st) && now > 0 && ReadClock(st, now).At?
    ensures var at, key, (after, decision) := EffectiveNow(st, now), QueryKey(mode, rule, st, subject, now), Ask(mode, rule, st, subject, now, consume);
            && (decision.allowed <==> Level(rule, st, key, at) >= 1.0)
            && (!decision.allowed ==> decision.retryAfter == rule.Wait(1.0 - Level(rule, st, key, at)))
            && after.lastNow == at
  {
    var at := EffectiveNow(st, now);
    QueryRoutes(mode, rule, st, subject, now);
    var (found, key) := Route(mode, Rotate(mode, rule, st, at).(lastNow := at), subject, 0);
    assert KeyInv(rule, found, key);
    assert Level(rule, found, key, at) == Level(rule, st, key, at);
    hide Route, Rotate, Evolves;
  }

  /** What a denied query leaves: the same levels, and the bucket that was short. */
  lemma DeniedQuery(mode: Mode, rule: Rule, st: OpState, subject: string, now: Time, consume: bool)
    requires rule.Recovers() && StateInv(mode, rule, st) && now > 0 && ReadClock(st, now).At?
    requires !Ask(mode, rule, st, subject, now, consume).1.allowed
    ensures var key, after := QueryKey(mode, rule, st, subject, now), Ask(mode, rule, st, subject, now, consume).0;
            && StateInv(mode, rule, after) && SameLevels(rule, st, after)
            && st.lastNow <= after.lastNow == EffectiveNow(st, now)
            && Level(rule, st, key, after.lastNow) < 1.0
            && FindCurrent(after, key).Some?
            && (key.Shared? ==> Find(after, Own(subject)).None?)
  {
    var at := EffectiveNow(st, now);
    DeniedKeepsLevels(mode, rule, st, subject, now, consume);
    AllowedIfTokenLeft(mode, rule, st, subject, now, consume);
    RotationKeepsInvariant(mode, rule, st, at);
    RouteMovesNothing(mode, rule, Rotate(mode, rule, st, at).(lastNow := at), subject, 0);
    hide Rotate, Route, StateInv, SameLevels, Level;
  }

  lemma DeniedKeepsLevels(mode: Mode, rule: Rule, st: OpState, subject: string, now: Time, consume: bool)
    requires rule.Recovers() && StateInv(mode, rule, st) && now > 0
    requires !Ask(mode, rule, st, subject, now, consume).1.allowed
    ensures var after := Ask(mode, rule, st, subject, now, consume).0;
            StateInv(mode, rule, after) && SameLevels(rule, st, after) && st.lastNow <= after.lastNow
  {
    QueryDebits(mode, rule, st, subject, now, consume);
    var key := QueryKey(mode, rule, st, subject, now);
    var (after, decision) := Ask(mode, rule, st, subject, now, consume);
    hide Ask, StateInv, Level;
    forall k, t | t >= after.lastNow
      ensures Level(rule, after, k, t) == Level(rule, st, k, t)
    {
      assert Debited(rule, st, after, k, QueryUnits(decision, consume, key, k), now);
    }
  }

  /** A subject with a bucket in the current generation is never sent to the shared one: it keeps it or finds room. */
  lemma OwnerStaysOwner(mode: Mode, rule: Rule, st: OpState, subject: string, later: Time)
    requires rule.Recovers() && StateInv(mode, rule, st) && st.lastNow <= later && FindCurrent(st, Own(subject)).Some?
    ensures QueryKey(mode, rule, st, subject, later) == Own(subject)
  {
    assert |st.buckets| > 0;
  }

  /**
   RetryAfter of a query is honest: repeated at any instant that is RetryAfter or more past the one the denied
   query took effect at, it is allowed.
   */
  lemma QueryRetryIsHonest(mode: Mode, rule: Rule, st: OpState, subject: string, now: Time, consume: bool, later: Time)
    requires rule.Recovers() && StateInv(mode, rule, st) && now > 0 && ReadClock(st, now).At?
    requires var (after, decision) := Ask(mode, rule, st, subject, now, consume);
             !decision.allowed && later >= EffectiveNow(st, now) + decision.retryAfter
    ensures Ask(mode, rule, Ask(mode, rule, st, subject, now, consume).0, subject, later, consume).1.allowed
  {
    var at, key := EffectiveNow(st, now), QueryKey(mode, rule, st, subject, now);
    var after := Ask(mode, rule, st, subject, now, consume).0;
    AllowedIfTokenLeft(mode, rule, st, subject, now, consume);
    DeniedQuery(mode, rule, st, subject, now, consume);
    OwnKeyIsSubject(mode, rule, st, subject, now);
    hide Ask, StateInv, Level, QueryKey;
    TokenFlowsIn(mode, rule, st, after, subject, key, later);
    AllowedIfTokenLeft(mode, rule, after, subject, later, consume);
  }

  lemma OwnKeyIsSubject(mode: Mode, rule: Rule, st: OpState, subject: string, now: Time)
    requires rule.ttl > 0
    ensures QueryKey(mode, rule, st, subject, now) in {Own(subject), Shared}
  {
  }

  /** The bucket that pays after the wait holds a token: the one that was short has refilled, a new one is full. */
  lemma TokenFlowsIn(mode: Mode, rule: Rule, st: OpState, after: OpState, subject: string, key: Key, later: Time)
    requires rule.Recovers() && StateInv(mode, rule, st) && StateInv(mode, rule, after) && SameLevels(rule, st, after)
    requires st.lastNow <= after.lastNow && Level(rule, st, key, after.lastNow) < 1.0
    requires later >= after.lastNow + rule.Wait(1.0 - Level(rule, st, key, after.lastNow))
    requires FindCurrent(after, key).Some? && key in {Own(subject), Shared}
    requires key.Shared? ==> Find(after, Own(subject)).None?
    ensures after.lastNow <= later
    ensures Level(rule, after, QueryKey(mode, rule, after, subject, later), later) >= 1.0
  {
    hide StateInv, Level;
    LevelAfterWaiting(mode, rule, st, key, after.lastNow, after.lastNow, 1);
    LevelAfterWaiting(mode, rule, st, key, after.lastNow, later, 1);
    var key' := QueryKey(mode, rule, after, subject, later);
    OwnKeyIsSubject(mode, rule, after, subject, later);
    if key.Own? {
      OwnerStaysOwner(mode, rule, after, subject, later);
    } else if key'.Own? {
      MissingBucketIsFull(rule, after, key', later);
    }
  }

  /** RetryAfter of a query is tight: a subject with its own bucket is denied again at any earlier instant. */
  lemma QueryRetryIsTight(mode: Mode, rule: Rule, st: OpState, subject: string, now: Time, consume: bool, later: Time)
    requires rule.Recovers() && StateInv(mode, rule, st) && now > 0 && ReadClock(st, now).At?
    requires QueryKey(mode, rule, st, subject, now).Own?
    requires var (after, decision) := Ask(mode, rule, st, subject, now, consume);
             !decision.allowed && 0 < later < EffectiveNow(st, now) + decision.retryAfter
    ensures !Ask(mode, rule, Ask(mode, rule, st, subject, now, consume).0, subject, later, consume).1.allowed
  {
    var at, key := EffectiveNow(st, now), QueryKey(mode, rule, st, subject, now);
    var after := Ask(mode, rule, st, subject, now, consume).0;
    AllowedIfTokenLeft(mode, rule, st, subject, now, consume);
    DeniedQuery(mode, rule, st, subject, now, consume);
    if ReadClock(after, later).At? {
      hide Ask, StateInv, Level;
      var at' := EffectiveNow(after, later);
      LevelAfterWaiting(mode, rule, st, key, at, at, 1);
      BucketStaysShort(mode, rule, st, after, key, at, at');
      AllowedIfTokenLeft(mode, rule, after, subject, later, consume);
    }
  }
}
