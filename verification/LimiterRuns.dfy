/**
 Theorems over whole runs of the limiter, for any interleaving of Allow, Check, Reserve, Commit and
 Refund: what every reachable state keeps, and the rate bound.
 */
module LimiterRuns {
  import opened Wrappers
  import opened LimiterSpec
  import opened LimiterInvariant
  import opened LimiterStaging
  import opened LimiterEffects

  ghost predicate WorldInv(cfg: Config, w: World) {
    && Configured(cfg)
    && StatesInv(cfg, w.states)
    && forall r <- w.reservations, i <- r.items :: Live(cfg, w.states, i)
  }

  function When(e: Event): Option<Time> {
    match e
    case Query(_, _, now, _) => Some(now)
    case Hold(_, now) => Some(now)
    case Refund(_, now) => Some(now)
    case Commit(_) => None
  }

  lemma LiveStaysLive(cfg: Config, before: States, after: States, i: Item, when: Time)
    requires StatesInv(cfg, before) && StatesInv(cfg, after) && Live(cfg, before, i)
    requires Evolves(cfg.mode, cfg.rules[i.operation], before[i.operation], after[i.operation], when)
    ensures Live(cfg, after, i)
  {
  }

  /** How one operation moves in a step, and what its buckets give (or, negative, get back). */
  function Taken(cfg: Config, w: World, e: Event, op: Operation, key: Key): real
    requires Configured(cfg) && w.states.Keys == cfg.rules.Keys
  {
    match e
    case Query(subject, o, now, consume) =>
      if subject == "" || now == 0 || o != op || op !in cfg.rules then 0.0
      else QueryUnits(Step(cfg, w, e).1, consume, QueryKey(cfg.mode, cfg.rules[op], w.states[op], subject, now), key) as real
    case Hold(requests, now) =>
      var outcome := Reserve(cfg, w.states, requests, now).1;
      if outcome.Granted? then Units(outcome.items, op, key) as real else 0.0
    case Commit(_) => 0.0
    case Refund(i, now) =>
      if i < |w.reservations| && !w.reservations[i].resolved
      then 0.0 - RefundTotal(cfg.rules, w.states, w.reservations[i].items, now, op, key) as real else 0.0
  }

  /** In one step a bucket's level drops by at least what is taken from it, net of refunds. */
  ghost predicate Accounted(rule: Rule, was: OpState, now: OpState, key: Key, units: real, when: Option<Time>) {
    && (forall t :: t >= now.lastNow && units <= 0.0 ==> Level(rule, now, key, t) + units <= Level(rule, was, key, t))
    && (units > 0.0 ==>
          && when.Some? && when.value <= now.lastNow
          && Level(rule, now, key, now.lastNow) + units <= Level(rule, was, key, now.lastNow))
  }

  lemma StepAccounts(cfg: Config, w: World, e: Event, op: Operation)
    requires WorldInv(cfg, w) && op in cfg.rules
    ensures var after := Step(cfg, w, e).0.states;
            && Evolves(cfg.mode, cfg.rules[op], w.states[op], after[op], if When(e).Some? then When(e).value else 0)
            && forall k :: Accounted(cfg.rules[op], w.states[op], after[op], k, Taken(cfg, w, e, op, k), When(e))
  {
    hide Level, Reserve, Ask, StateInv, RefundAll, Units, RefundTotal;
    match e
    case Query(subject, o, now, consume) =>
      if subject != "" && now != 0 && o == op {
        QueryDebits(cfg.mode, cfg.rules[op], w.states[op], subject, now, consume);
        forall k
          ensures Accounted(cfg.rules[op], w.states[op], Step(cfg, w, e).0.states[op], k, Taken(cfg, w, e, op, k), When(e))
        {
          assert Debited(cfg.rules[op], w.states[op], Step(cfg, w, e).0.states[op], k,
                         QueryUnits(Step(cfg, w, e).1, consume, QueryKey(cfg.mode, cfg.rules[op], w.states[op], subject, now), k), now);
        }
      }
    case Hold(requests, now) =>
      ReserveIsAllOrNothing(cfg, w.states, requests, now, op);
      var (after, outcome) := Reserve(cfg, w.states, requests, now);
      forall k
        ensures Accounted(cfg.rules[op], w.states[op], after[op], k, Taken(cfg, w, e, op, k), When(e))
      {
        if outcome.Granted? {
          assert Debited(cfg.rules[op], w.states[op], after[op], k, Units(outcome.items, op, k), now);
        }
      }
    case Commit(_) =>
    case Refund(i, now) =>
      if i < |w.reservations| && !w.reservations[i].resolved {
        var items := w.reservations[i].items;
        RefundCredits(cfg, w.states, items, now);
        forall k
          ensures Accounted(cfg.rules[op], w.states[op], Step(cfg, w, e).0.states[op], k, Taken(cfg, w, e, op, k), When(e))
        {
          assert Credited(cfg.rules[op], w.states[op], RefundAll(cfg.rules, w.states, items, now)[op], k,
                          RefundTotal(cfg.rules, w.states, items, now, op, k));
        }
      }
  }

  /** Every step keeps the invariant, and with it that live reservations find their buckets. */
  lemma StepKeepsInvariant(cfg: Config, w: World, e: Event)
    requires WorldInv(cfg, w)
    ensures WorldInv(cfg, Step(cfg, w, e).0)
  {
    hide Level, Reserve, Ask, StateInv, RefundAll, Taken;
    var after := Step(cfg, w, e).0;
    var when := if When(e).Some? then When(e).value else 0;
    forall op | op in cfg.rules
      ensures Evolves(cfg.mode, cfg.rules[op], w.states[op], after.states[op], when)
    {
      StepAccounts(cfg, w, e, op);
    }
    if e.Hold? {
      GrantedItemsAreLive(cfg, w.states, e.requests, e.now);
    }
    forall r, i | r in after.reservations && i in r.items
      ensures Live(cfg, after.states, i)
    {
      if r' :| r' in w.reservations && i in r'.items {
        LiveStaysLive(cfg, w.states, after.states, i, when);
      }
    }
  }

  lemma StartInvariant(cfg: Config)
    requires Configured(cfg) && forall op <- cfg.rules :: cfg.rules[op].Recovers()
    ensures WorldInv(cfg, Start(cfg))
  {
    forall op | op in cfg.rules
      ensures StateInv(cfg.mode, cfg.rules[op], EMPTY)
    {
      assert forall key :: FindCurrent(EMPTY, key).None? && FindPrevious(EMPTY, key).None?;
    }
  }

  /**
   In every reachable state tokens lie between 0 and capacity, no bucket is in two generations, the
   two generations hold at most `maxSubjects` subjects together, and a reservation of the running
   generation finds its bucket.
   */
  lemma {:induction false} RunKeepsInvariant(cfg: Config, w: World, events: seq<Event>)
    requires WorldInv(cfg, w)
    ensures WorldInv(cfg, Run(cfg, w, events))
    decreases |events|
  {
    if events != [] {
      StepKeepsInvariant(cfg, w, events[0]);
      RunKeepsInvariant(cfg, Step(cfg, w, events[0]).0, events[1..]);
    }
  }

  // ------------------------------------------------------------ rate bound

  /** Units taken from bucket (op, key) along a run, net of units given back. */
  function TotalTaken(cfg: Config, w: World, events: seq<Event>, op: Operation, key: Key): real
    requires Configured(cfg) && w.states.Keys == cfg.rules.Keys
    decreases |events|
  {
    if events == [] then 0.0
    else Taken(cfg, w, events[0], op, key) + TotalTaken(cfg, Step(cfg, w, events[0]).0, events[1..], op, key)
  }

  lemma LevelRises(mode: Mode, rule: Rule, st: OpState, key: Key, t0: Time, t1: Time)
    requires rule.Recovers() && StateInv(mode, rule, st) && st.lastNow <= t0 <= t1
    ensures 0.0 <= Level(rule, st, key, t0) <= rule.capacity as real
    ensures Level(rule, st, key, t1) <= Level(rule, st, key, t0) + rule.Gain(t1 - t0)
  {
    assert KeyInv(rule, st, key);
    GainMonotone(rule, 0, t1 - t0);
    if Find(st, key).Some? {
      var b := Find(st, key).value;
      GainMonotone(rule, 0, Sub(t0, b.last));
      GainMonotone(rule, Sub(t1, b.last), Sub(t0, b.last) + (t1 - t0));
      GainAdds(rule, Sub(t0, b.last), t1 - t0);
    }
  }

  function Later(a: Time, b: Time): Time {
    if a < b then b else a
  }

  ghost predicate Within(events: seq<Event>, a: Time, b: Time) {
    forall i :: 0 <= i < |events| && When(events[i]).Some? ==> a <= When(events[i]).value <= b
  }

  /** No call of the run can happen before this instant. */
  function From(w: World, op: Operation, a: Time): Time
    requires op in w.states
  {
    Later(w.states[op].lastNow, a)
  }

  /** What bucket (op, key) has in stock at that instant. */
  function Stock(cfg: Config, w: World, op: Operation, key: Key, a: Time): real
    requires op in w.states && op in cfg.rules
  {
    Level(cfg.rules[op], w.states[op], key, From(w, op, a))
  }

  ghost predicate Paid(cfg: Config, w: World, events: seq<Event>, op: Operation, key: Key, a: Time, end: Time)
    requires Configured(cfg) && w.states.Keys == cfg.rules.Keys && op in cfg.rules
  {
    TotalTaken(cfg, w, events, op, key) <= Stock(cfg, w, op, key, a) + cfg.rules[op].Gain(end - From(w, op, a))
  }

  /** The stock pays for everything: a potential argument over the run. */
  lemma {:induction false} StockPays(cfg: Config, w: World, events: seq<Event>, op: Operation, key: Key, a: Time, b: Time, end: Time)
    requires WorldInv(cfg, w) && op in cfg.rules && Within(events, a, b)
    requires b <= end && From(w, op, a) <= end
    ensures Paid(cfg, w, events, op, key, a, end)
    decreases |events|
  {
    hide Step, Taken, Level, Reserve, Ask, Decide, StateInv, Live;
    if events == [] {
      StockIsBounded(cfg, w, op, key, a);
      GainMonotone(cfg.rules[op], 0, end - From(w, op, a));
    } else {
      StepKeepsInvariant(cfg, w, events[0]);
      StepLowersStock(cfg, w, events[0], op, key, a, b);
      StockPays(cfg, Step(cfg, w, events[0]).0, events[1..], op, key, a, b, end);
      StockPaysOneMore(cfg, w, events, op, key, a, b, end);
    }
  }

  lemma StockPaysOneMore(cfg: Config, w: World, events: seq<Event>, op: Operation, key: Key, a: Time, b: Time, end: Time)
    requires WorldInv(cfg, w) && op in cfg.rules && Within(events, a, b) && events != []
    requires Paid(cfg, Step(cfg, w, events[0]).0, events[1..], op, key, a, end)
    ensures Paid(cfg, w, events, op, key, a, end)
  {
    hide Step, Taken, Level, Reserve, Ask, Decide, StateInv;
    var w' := Step(cfg, w, events[0]).0;
    StepLowersStock(cfg, w, events[0], op, key, a, b);
    GainAdds(cfg.rules[op], end - From(w', op, a), From(w', op, a) - From(w, op, a));
    assert TotalTaken(cfg, w, events, op, key)
        == Taken(cfg, w, events[0], op, key) + TotalTaken(cfg, w', events[1..], op, key);
  }

  lemma StockIsBounded(cfg: Config, w: World, op: Operation, key: Key, a: Time)
    requires WorldInv(cfg, w) && op in cfg.rules
    ensures 0.0 <= Stock(cfg, w, op, key, a) <= cfg.rules[op].capacity as real
  {
    LevelRises(cfg.mode, cfg.rules[op], w.states[op], key, From(w, op, a), From(w, op, a));
  }

  lemma StepLowersStock(cfg: Config, w: World, e: Event, op: Operation, key: Key, a: Time, b: Time)
    requires WorldInv(cfg, w) && op in cfg.rules && (When(e).Some? ==> a <= When(e).value <= b)
    ensures var w' := Step(cfg, w, e).0;
            && From(w, op, a) <= From(w', op, a) <= Later(From(w, op, a), b)
            && Stock(cfg, w', op, key, a) + Taken(cfg, w, e, op, key)
               <= Stock(cfg, w, op, key, a) + cfg.rules[op].Gain(From(w', op, a) - From(w, op, a))
  {
    var rule, w' := cfg.rules[op], Step(cfg, w, e).0;
    StepAccounts(cfg, w, e, op);
    assert Accounted(rule, w.states[op], w'.states[op], key, Taken(cfg, w, e, op, key), When(e));
    hide Step, Taken, Level, Reserve, Ask, Decide, StateInv;
    LevelRises(cfg.mode, rule, w.states[op], key, From(w, op, a), From(w', op, a));
  }

  /**
   Rate bound.  Over any run from any reachable state, with all calls made at instants in [a, b], the
   units taken from one bucket less the units refunded to it are at most capacity + refill * (b - a).
   The bucket may be a subject's own or the shared one, and may be forgotten and reopened meanwhile.
   */
  lemma RateBound(cfg: Config, w: World, events: seq<Event>, op: Operation, key: Key, a: Time, b: Time)
    requires WorldInv(cfg, w) && op in cfg.rules && a <= b && Within(events, a, b)
    ensures TotalTaken(cfg, w, events, op, key) <= cfg.rules[op].capacity as real + cfg.rules[op].Gain(b - a)
  {
    hide Step, Taken, Level, Reserve, Ask, Decide, StateInv;
    var end := Later(From(w, op, a), b);
    StockPays(cfg, w, events, op, key, a, b, end);
    StockIsBounded(cfg, w, op, key, a);
    GainMonotone(cfg.rules[op], end - From(w, op, a), b - a);
  }
}
