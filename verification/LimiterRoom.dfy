/**
 The forgetting theorem, for every run in which the limiter never reaches its bound; and a condition on the
 calls alone under which it never does: they mention at most `maxSubjects` distinct subjects per operation.
 */
module LimiterRoom {
  import opened Wrappers
  import opened LimiterSpec
  import opened LimiterInvariant
  import opened LimiterStaging
  import opened LimiterEffects
  import opened LimiterRuns
  import opened LimiterForgetting

  // ------------------------------------------------- few enough subjects

  /** The subjects with a bucket of their own. */
  function Known(st: OpState): set<string> {
    st.buckets.Keys + st.previousBuckets.Keys
  }

  function SubjectsOf(e: Event, op: Operation): set<string> {
    match e
    case Query(subject, o, _, _) => if o == op then {subject} else {}
    case Hold(requests, _) => set r | r in requests && r.operation == op :: r.subject
    case _ => {}
  }

  /** Every subject a run mentions for an operation. */
  function Mentioned(events: seq<Event>, op: Operation): set<string> {
    if events == [] then {} else SubjectsOf(events[0], op) + Mentioned(events[1..], op)
  }

  lemma KnownMeansFound(st: OpState, s: string)
    ensures s in Known(st) <==> Find(st, Own(s)).Some?
  {
  }

  lemma KnownIsCounted(mode: Mode, rule: Rule, st: OpState)
    requires StateInv(mode, rule, st)
    ensures |Known(st)| == SubjectCount(st)
  {
    forall s | s in st.buckets
      ensures s !in st.previousBuckets
    {
      assert KeyInv(rule, st, Own(s));
    }
    assert st.buckets.Keys !! st.previousBuckets.Keys;
  }

  /** The absent subjects among the requests, as a set. */
  function AbsentSubjects(st: OpState, requests: seq<Request>, op: Operation): set<string> {
    set r | r in requests && r.operation == op && r.subject !in Known(st) :: r.subject
  }

  lemma AbsentNext(st: OpState, before: seq<Request>, r: Request, op: Operation)
    ensures AbsentSubjects(st, before + [r], op)
         == AbsentSubjects(st, before, op) + if r.operation == op && r.subject !in Known(st) then {r.subject} else {}
    ensures r !in before && r.operation == op ==> r.subject !in AbsentSubjects(st, before, op)
  {
    hide Known;
    forall s
      ensures s in AbsentSubjects(st, before + [r], op)
              <==> s in AbsentSubjects(st, before, op) || (r.operation == op && r.subject !in Known(st) && s == r.subject)
    {
      if s in AbsentSubjects(st, before, op) {
        var q :| q in before && q.operation == op && q.subject !in Known(st) && q.subject == s;
        assert q in before + [r];
      }
      if r.operation == op && r.subject !in Known(st) && s == r.subject {
        assert r in before + [r];
      }
    }
  }

  lemma {:induction false} NewcomersAreAbsent(st: OpState, requests: seq<Request>, op: Operation)
    requires Distinct(requests)
    ensures Newcomers(st, requests, op) == |AbsentSubjects(st, requests, op)|
  {
    if requests != [] {
      var before, r := requests[..|requests| - 1], requests[|requests| - 1];
      assert requests == before + [r] && r !in before;
      NewcomersAreAbsent(st, before, op);
      KnownMeansFound(st, r.subject);
      AbsentNext(st, before, r, op);
      hide Known, AbsentSubjects, Find;
    }
  }

  lemma SubsetCardinality<T>(a: set<T>, b: set<T>)
    requires a <= b
    ensures |a| <= |b|
  {
    assert b == a + (b - a);
  }

  /** With at most `max` subjects in play nobody is sent to the shared bucket. */
  lemma FewSubjectsFindRoom(max: nat, rule: Rule, st: OpState, requests: seq<Request>, op: Operation, all: set<string>)
    requires StateInv(Bounded(max), rule, st) && Distinct(requests)
    requires Known(st) <= all && |all| <= max
    requires forall r <- requests :: r.operation == op ==> r.subject in all
    ensures Load(Bounded(max), st, requests, op, Shared) == 0
  {
    KnownIsCounted(Bounded(max), rule, st);
    NewcomersAreAbsent(st, requests, op);
    SubsetCardinality(Known(st) + AbsentSubjects(st, requests, op), all);
    assert Known(st) !! AbsentSubjects(st, requests, op);
    SurplusIsShared(max, st, requests, op);
  }

  lemma QueryFindsRoom(max: nat, rule: Rule, st: OpState, subject: string, now: Time, all: set<string>)
    requires rule.Recovers() && StateInv(Bounded(max), rule, st) && now > 0
    requires Known(st) <= all && subject in all && |all| <= max
    ensures QueryKey(Bounded(max), rule, st, subject, now) == Own(subject)
  {
    hide KeyInv, Rotate;
    var at := EffectiveNow(st, now);
    var rotated := Rotate(Bounded(max), rule, st, at);
    RotationKeepsInvariant(Bounded(max), rule, st, at);
    KnownIsCounted(Bounded(max), rule, rotated.(lastNow := at));
    KnownMeansFound(rotated, subject);
    RotationKnowsNoMore(Bounded(max), rule, st, at);
    if subject !in Known(rotated) {
      SubsetCardinality(Known(rotated) + {subject}, all);
    }
  }

  // ---------------------------------------------- new subjects are mentioned

  /** Every subject known afterwards was known before or is in `fresh`. */
  ghost predicate GrowsBy(was: OpState, now: OpState, more: set<string>) {
    forall s :: Find(now, Own(s)).Some? ==> Find(was, Own(s)).Some? || s in more
  }

  lemma RotationGrowsNothing(mode: Mode, rule: Rule, st: OpState, at: Time)
    requires rule.ttl > 0
    ensures GrowsBy(st, Rotate(mode, rule, st, at).(lastNow := at), {})
  {
    var rotated := Rotate(mode, rule, st, at).(lastNow := at);
    forall s | Find(rotated, Own(s)).Some?
      ensures Find(st, Own(s)).Some?
    {
    }
  }

  lemma SameBucketsGrowNothing(a: OpState, b: OpState)
    requires SameBuckets(a, b)
    ensures GrowsBy(a, b, {})
  {
    forall s
      ensures Find(b, Own(s)) == Find(a, Own(s))
    {
    }
  }

  lemma GrowsTwice(a: OpState, b: OpState, c: OpState, more: set<string>)
    requires GrowsBy(a, b, {}) && GrowsBy(b, c, more)
    ensures GrowsBy(a, c, more)
  {
    hide Find;
  }

  lemma AnswerGrows(rule: Rule, found: OpState, subject: string, key: Key, at: Time, consume: bool)
    requires rule.refill > 0.0 && (key == Own(subject) || key == Shared)
    ensures GrowsBy(found, Answer(rule, found, key, at, consume).0, {subject})
  {
    var after := Answer(rule, found, key, at, consume).0;
    if after != found {
      var b := FindCurrent(after, key).value;
      assert after == Put(found, key, b);
      PutAt(found, key, b);
    }
  }

  lemma QueryGrows(mode: Mode, rule: Rule, st: OpState, subject: string, now: Time, consume: bool)
    requires rule.Recovers() && StateInv(mode, rule, st) && now > 0
    ensures GrowsBy(st, Ask(mode, rule, st, subject, now, consume).0, {subject})
  {
    hide GrowsBy, Find, KeyInv, Answer, Migrate, Rotate;
    if ReadClock(st, now).At? {
      var at := ReadClock(st, now).now;
      var rotated := Rotate(mode, rule, st, at).(lastNow := at);
      RotationKeepsInvariant(mode, rule, st, at);
      RotationGrowsNothing(mode, rule, st, at);
      RouteMovesNothing(mode, rule, rotated, subject, 0);
      var (found, key) := Route(mode, rotated, subject, 0);
      SameBucketsGrowNothing(rotated, found);
      GrowsTwice(st, rotated, found, {});
      AnswerGrows(rule, found, subject, key, at, consume);
      GrowsTwice(st, found, Answer(rule, found, key, at, consume).0, {subject});
    } else {
      NothingGrows(st, {subject});
    }
  }

  lemma NothingGrows(st: OpState, more: set<string>)
    ensures GrowsBy(st, st, more)
  {
  }

  lemma StagedGrows(cfg: Config, rule: Rule, stamped: OpState, after: OpState, items: seq<Staged>, op: Operation, at: Time, more: set<string>)
    requires PaidState(cfg, rule, stamped, after, items, op, at)
    requires forall i :: 0 <= i < |items| && items[i].operation == op && items[i].key.Own? ==> items[i].key.subject in more
    ensures GrowsBy(stamped, after, more)
  {
    forall s | Find(after, Own(s)).Some?
      ensures Find(stamped, Own(s)).Some? || s in more
    {
      if !IsStaged(items, op, Own(s)) {
        assert FindCurrent(after, Own(s)) == FindCurrent(stamped, Own(s)) && FindPrevious(after, Own(s)) == FindPrevious(stamped, Own(s));
      }
    }
  }

  lemma StampedGrows(cfg: Config, states: States, requests: seq<Request>, now: Time, times: map<Operation, Time>, op: Operation)
    requires InProgress(cfg, states, requests, now, times) && op in states
    ensures forall q <- Unique(requests) :: q.operation in times
    ensures times.Keys <= StagingOf(cfg, states, requests, times).states.Keys
    ensures GrowsBy(states[op], StampAll(StagingOf(cfg, states, requests, times).states, times)[op], {})
  {
    hide Unique, ReadClocks, Acceptable, GrowsBy, KeyInv, StateInv, StageAll, Rotate;
    InProgressStages(cfg, states, requests, now, times);
    var rotated, staged := RotateAll(cfg, states, times)[op], StagingOf(cfg, states, requests, times).states[op];
    assert SameBuckets(rotated, staged);
    if op in times {
      SameBucketsStamp(rotated, staged, times[op]);
      SameBucketsGrowNothing(rotated.(lastNow := times[op]), staged.(lastNow := times[op]));
      RotationGrowsNothing(cfg.mode, cfg.rules[op], states[op], times[op]);
      GrowsTwice(states[op], rotated.(lastNow := times[op]), staged.(lastNow := times[op]), {});
    } else {
      NothingGrows(states[op], {});
    }
  }

  lemma GrantGrows(cfg: Config, states: States, requests: seq<Request>, now: Time, times: map<Operation, Time>, op: Operation)
    requires InProgress(cfg, states, requests, now, times) && op in times
    requires Reserve(cfg, states, requests, now).1.Granted?
    ensures GrowsBy(states[op], Reserve(cfg, states, requests, now).0[op], SubjectsOf(Hold(requests, now), op))
  {
    hide Unique, ReadClocks, Acceptable, GrowsBy, KeyInv, StateInv, StageAll, Rotate, PaidState, Reserve;
    var more := SubjectsOf(Hold(requests, now), op);
    StampedGrows(cfg, states, requests, now, times, op);
    GrantPays(cfg, states, requests, now, times, op);
    var sg := StagingOf(cfg, states, requests, times);
    forall i | 0 <= i < |sg.items| && sg.items[i].operation == op && sg.items[i].key.Own?
      ensures sg.items[i].key.subject in more
    {
      StagedIsRequested(cfg, states, requests, now, times, sg.items[i]);
    }
    var stamped, after := StampAll(sg.states, times)[op], Reserve(cfg, states, requests, now).0[op];
    StagedGrows(cfg, cfg.rules[op], stamped, after, sg.items, op, times[op], more);
    GrowsTwice(states[op], stamped, after, more);
  }

  lemma DenialGrowsNothing(cfg: Config, states: States, requests: seq<Request>, now: Time, times: map<Operation, Time>, op: Operation)
    requires InProgress(cfg, states, requests, now, times) && op in times
    requires Reserve(cfg, states, requests, now).1.Denied?
    ensures GrowsBy(states[op], Reserve(cfg, states, requests, now).0[op], {})
  {
    hide Unique, ReadClocks, Acceptable, GrowsBy, KeyInv, StateInv, StageAll, Rotate;
    StampedGrows(cfg, states, requests, now, times, op);
    ReserveUnfolds(cfg, states, requests, now, times);
  }

  lemma ReserveGrows(cfg: Config, states: States, requests: seq<Request>, now: Time, op: Operation)
    requires StatesInv(cfg, states) && Configured(cfg) && op in states
    ensures GrowsBy(states[op], Reserve(cfg, states, requests, now).0[op], SubjectsOf(Hold(requests, now), op))
  {
    hide GrowsBy, StateInv, Reserve;
    var after, more := Reserve(cfg, states, requests, now).0[op], SubjectsOf(Hold(requests, now), op);
    ReserveStopsEarly(cfg, states, requests, now);
    NothingGrows(states[op], more);
    NothingGrows(after, more);
    if times :| InProgress(cfg, states, requests, now, times) {
      if op !in times {
        UntouchedOperation(cfg, states, requests, now, times, op);
      } else if Reserve(cfg, states, requests, now).1.Granted? {
        GrantGrows(cfg, states, requests, now, times, op);
      } else {
        DenialGrowsNothing(cfg, states, requests, now, times, op);
        GrowsTwice(states[op], after, after, more);
      }
    }
  }

  lemma StagedIsRequested(cfg: Config, states: States, requests: seq<Request>, now: Time, times: map<Operation, Time>, i: Staged)
    requires InProgress(cfg, states, requests, now, times)
    ensures forall q <- Unique(requests) :: q.operation in times
    ensures i in StagingOf(cfg, states, requests, times).items && i.key.Own?
            ==> i.key.subject in SubjectsOf(Hold(requests, now), i.operation)
  {
    hide Unique, ReadClocks, Acceptable, StateInv, StageAll, Level;
    PriceBefore(cfg, states, requests, now, times, i);
    if i in StagingOf(cfg, states, requests, times).items && i.key.Own? {
      LoadOfOwnIsRequested(cfg.mode, RotateAll(cfg, states, times)[i.operation], Unique(requests), i.operation, i.key.subject);
      UniqueIsSubset(requests);
      assert Request(i.key.subject, i.operation) in requests;
    }
  }

  lemma {:induction false} RefundGrowsNothing(rules: map<Operation, Rule>, states: States, items: seq<Item>, now: Time, op: Operation)
    requires states.Keys == rules.Keys && op in states
    ensures GrowsBy(states[op], RefundAll(rules, states, items, now)[op], {})
  {
    if items == [] || now == 0 {
      NothingGrows(states[op], {});
    } else {
      var front, last := RefundAll(rules, states, items[..|items| - 1], now), items[|items| - 1];
      RefundGrowsNothing(rules, states, items[..|items| - 1], now, op);
      RefundOneGrowsNothing(rules, front, last, now, op);
      GrowsTwice(states[op], front[op], RefundOne(rules, front, last, now)[op], {});
    }
  }

  lemma RefundOneGrowsNothing(rules: map<Operation, Rule>, states: States, i: Item, now: Time, op: Operation)
    requires states.Keys == rules.Keys && op in states
    ensures GrowsBy(states[op], RefundOne(rules, states, i, now)[op], {})
  {
    if Credits(rules, states, i, now) && i.operation == op {
      var b := Returned(rules[op], FindCurrent(states[op], i.key).value, i.units, now);
      PutAt(states[op], i.key, b);
      assert RefundOne(rules, states, i, now)[op] == Put(states[op], i.key, b).(lastNow := now);
      forall s | Find(RefundOne(rules, states, i, now)[op], Own(s)).Some?
        ensures Find(states[op], Own(s)).Some?
      {
        assert Find(RefundOne(rules, states, i, now)[op], Own(s)) == Find(Put(states[op], i.key, b), Own(s));
      }
    }
  }

  lemma StepGrows(cfg: Config, w: World, e: Event, op: Operation)
    requires WorldInv(cfg, w) && op in cfg.rules
    ensures GrowsBy(w.states[op], Step(cfg, w, e).0.states[op], SubjectsOf(e, op))
  {
    hide GrowsBy, Reserve, Ask, RefundAll, StateInv;
    NothingGrows(w.states[op], SubjectsOf(e, op));
    match e
    case Query(subject, o, now, consume) =>
      if subject != "" && now != 0 && o == op {
        QueryGrows(cfg.mode, cfg.rules[op], w.states[op], subject, now, consume);
      }
    case Hold(requests, now) =>
      ReserveGrows(cfg, w.states, requests, now, op);
    case Commit(_) =>
    case Refund(i, now) =>
      if i < |w.reservations| && !w.reservations[i].resolved {
        RefundGrowsNothing(cfg.rules, w.states, w.reservations[i].items, now, op);
      }
  }

  // ------------------------------------------------------------ the theorem

  ghost predicate WorldsSimulate(rules: map<Operation, Rule>, a: World, b: World) {
    StatesSimulate(rules, a.states, b.states) && a.reservations == b.reservations
  }

  /** All subjects known now or mentioned later, per operation, fit into `max` places. */
  ghost predicate Fits(rules: map<Operation, Rule>, max: nat, w: World, events: seq<Event>, all: map<Operation, set<string>>)
    requires w.states.Keys == rules.Keys
  {
    && all.Keys == rules.Keys
    && forall op <- rules :: |all[op]| <= max && Known(w.states[op]) <= all[op] && Mentioned(events, op) <= all[op]
  }

  /** In this step nobody is turned away: every subject that asks has a bucket of its own or finds a free place. */
  ghost predicate HasPlaces(rules: map<Operation, Rule>, max: nat, w: World, e: Event)
    requires Configured(Limited(rules, max)) && w.states.Keys == rules.Keys
  {
    && (e.Query? && e.subject != "" && e.now != 0 && e.operation in rules ==>
          QueryKey(Bounded(max), rules[e.operation], w.states[e.operation], e.subject, e.now).Own?)
    && (e.Hold? ==> ReserveHasRoom(rules, max, w.states, e.requests, e.now))
  }

  /** The limiter itself never reaches its bound along this run, however many subjects come and go. */
  ghost predicate PlacesThroughout(rules: map<Operation, Rule>, max: nat, w: World, events: seq<Event>)
    requires Configured(Limited(rules, max)) && w.states.Keys == rules.Keys
    decreases |events|
  {
    events != [] ==>
      && HasPlaces(rules, max, w, events[0])
      && PlacesThroughout(rules, max, Step(Limited(rules, max), w, events[0]).0, events[1..])
  }

  lemma StepKeepsFit(rules: map<Operation, Rule>, max: nat, w: World, events: seq<Event>, all: map<Operation, set<string>>)
    requires WorldInv(Limited(rules, max), w) && events != [] && Fits(rules, max, w, events, all)
    ensures Fits(rules, max, Step(Limited(rules, max), w, events[0]).0, events[1..], all)
  {
    hide Step, Ask, Reserve, StateInv;
    var after := Step(Limited(rules, max), w, events[0]).0;
    forall op | op in rules
      ensures Known(after.states[op]) <= all[op]
    {
      StepGrows(Limited(rules, max), w, events[0], op);
      forall s | s in Known(after.states[op])
        ensures s in all[op]
      {
        KnownMeansFound(after.states[op], s);
        KnownMeansFound(w.states[op], s);
      }
    }
  }

  lemma StepFindsRoom(rules: map<Operation, Rule>, max: nat, w: World, events: seq<Event>, all: map<Operation, set<string>>)
    requires WorldInv(Limited(rules, max), w) && events != [] && Fits(rules, max, w, events, all)
    ensures HasPlaces(rules, max, w, events[0])
  {
    hide StateInv;
    match events[0]
    case Query(subject, op, now, _) =>
      if now != 0 && op in rules {
        QueryFindsRoom(max, rules[op], w.states[op], subject, now, all[op]);
      }
    case Hold(requests, now) =>
      forall times | InProgress(Limited(rules, max), w.states, requests, now, times)
        ensures NoneShared(max, times, RotateAll(Limited(rules, max), w.states, times), Unique(requests))
      {
        forall op | op in times {
          ReserveFindsRoom(rules, max, w, requests, now, times, op, all[op]);
        }
      }
    case _ =>
  }

  lemma ReserveFindsRoom(rules: map<Operation, Rule>, max: nat, w: World, requests: seq<Request>, now: Time,
                         times: map<Operation, Time>, op: Operation, all: set<string>)
    requires InProgress(Limited(rules, max), w.states, requests, now, times) && op in times
    requires Known(w.states[op]) <= all && SubjectsOf(Hold(requests, now), op) <= all && |all| <= max
    ensures Load(Bounded(max), RotateAll(Limited(rules, max), w.states, times)[op], Unique(requests), op, Shared) == 0
  {
    hide Unique, ReadClocks, Acceptable, KeyInv, Load, Rotate, StageAll, NewOwners;
    InProgressStages(Limited(rules, max), w.states, requests, now, times);
    var rotated := RotateAll(Limited(rules, max), w.states, times);
    assert StateInv(Bounded(max), rules[op], AtNow(rotated, times, op));
    UniqueIsSubset(requests);
    RotationKnowsNoMore(Bounded(max), rules[op], w.states[op], times[op]);
    forall r | r in Unique(requests) && r.operation == op
      ensures r.subject in all
    {
      assert r in requests;
    }
    FewSubjectsFindRoom(max, rules[op], AtNow(rotated, times, op), Unique(requests), op, all);
    LoadIgnoresClock(Bounded(max), rotated[op], times[op], Unique(requests), op, Shared);
  }

  lemma RotationKnowsNoMore(mode: Mode, rule: Rule, st: OpState, at: Time)
    requires rule.ttl > 0
    ensures Known(Rotate(mode, rule, st, at)) <= Known(st)
  {
  }

  lemma LoadIgnoresClock(mode: Mode, st: OpState, at: Time, requests: seq<Request>, op: Operation, key: Key)
    ensures NewOwners(mode, st.(lastNow := at), requests, op) == NewOwners(mode, st, requests, op)
    ensures Load(mode, st.(lastNow := at), requests, op, key) == Load(mode, st, requests, op, key)
  {
    if requests != [] {
      var before, r := requests[..|requests| - 1], requests[|requests| - 1];
      LoadIgnoresClock(mode, st, at, before, op, key);
      LoadIgnoresClock(mode, st, at, before, r.operation, key);
    }
  }

  lemma StepSimulates(rules: map<Operation, Rule>, max: nat, a: World, b: World, e: Event)
    requires WorldInv(Limited(rules, max), a) && WorldInv(Unlimited(rules), b) && WorldsSimulate(rules, a, b)
    requires HasPlaces(rules, max, a, e)
    ensures Step(Limited(rules, max), a, e).1 == Step(Unlimited(rules), b, e).1
    ensures WorldsSimulate(rules, Step(Limited(rules, max), a, e).0, Step(Unlimited(rules), b, e).0)
  {
    hide StateInv, Reserve, Ask, Simulates, RefundAll;
    match e
    case Query(subject, op, now, consume) =>
      if subject != "" && now != 0 && op in rules {
        QuerySimulates(max, rules[op], a.states[op], b.states[op], subject, now, consume);
      }
    case Hold(requests, now) =>
      ReserveSimulates(rules, max, a.states, b.states, requests, now);
    case Commit(_) =>
    case Refund(i, now) =>
      if i < |a.reservations| && !a.reservations[i].resolved {
        RefundSimulates(rules, max, a.states, b.states, a.reservations[i].items, now);
      }
  }

  lemma {:induction false} RunsAnswerAlike(rules: map<Operation, Rule>, max: nat, a: World, b: World, events: seq<Event>)
    requires WorldInv(Limited(rules, max), a) && WorldInv(Unlimited(rules), b) && WorldsSimulate(rules, a, b)
    requires PlacesThroughout(rules, max, a, events)
    ensures Answers(Limited(rules, max), a, events) == Answers(Unlimited(rules), b, events)
    decreases |events|
  {
    hide StateInv, Live, Step, HasPlaces, WorldsSimulate;
    if events != [] {
      StepSimulates(rules, max, a, b, events[0]);
      StepKeepsInvariant(Limited(rules, max), a, events[0]);
      StepKeepsInvariant(Unlimited(rules), b, events[0]);
      RunsAnswerAlike(rules, max, Step(Limited(rules, max), a, events[0]).0, Step(Unlimited(rules), b, events[0]).0, events[1..]);
    }
  }

  /**
   Forgetting is unobservable.  If full recovery fits the generation TTL and the limiter never reaches its
   bound, then every decision, with its RetryAfter, of every Allow, Check, Reserve, Commit and Refund equals
   that of a limiter that never discards a bucket, which may by then remember any number of subjects.
   */
  lemma ForgettingIsUnobservable(rules: map<Operation, Rule>, max: nat, events: seq<Event>)
    requires Configured(Unlimited(rules)) && forall op <- rules :: rules[op].Recovers()
    requires PlacesThroughout(rules, max, Start(Limited(rules, max)), events)
    ensures Answers(Limited(rules, max), Start(Limited(rules, max)), events)
         == Answers(Unlimited(rules), Start(Unlimited(rules)), events)
  {
    StartInvariant(Limited(rules, max));
    StartInvariant(Unlimited(rules));
    forall op | op in rules
      ensures Simulates(rules[op], EMPTY, EMPTY)
    {
      assert forall key :: Find(EMPTY, key).None?;
    }
    RunsAnswerAlike(rules, max, Start(Limited(rules, max)), Start(Unlimited(rules)), events);
  }

  lemma {:induction false} FitsMeansPlaces(rules: map<Operation, Rule>, max: nat, w: World, events: seq<Event>, all: map<Operation, set<string>>)
    requires WorldInv(Limited(rules, max), w) && Fits(rules, max, w, events, all)
    ensures PlacesThroughout(rules, max, w, events)
    decreases |events|
  {
    hide StateInv, Live, Step, Fits, HasPlaces;
    if events != [] {
      StepFindsRoom(rules, max, w, events, all);
      StepKeepsFit(rules, max, w, events, all);
      StepKeepsInvariant(Limited(rules, max), w, events[0]);
      FitsMeansPlaces(rules, max, Step(Limited(rules, max), w, events[0]).0, events[1..], all);
    }
  }

  /** A condition on the calls alone: with at most `max` distinct subjects per operation the bound is never reached. */
  lemma FewSubjectsNeverReachTheBound(rules: map<Operation, Rule>, max: nat, events: seq<Event>)
    requires Configured(Unlimited(rules)) && forall op <- rules :: rules[op].Recovers()
    requires forall op <- rules :: |Mentioned(events, op)| <= max
    ensures PlacesThroughout(rules, max, Start(Limited(rules, max)), events)
  {
    hide PlacesThroughout, StateInv, Live, Mentioned, WorldInv;
    StartInvariant(Limited(rules, max));
    var all := map op | op in rules :: Mentioned(events, op);
    assert Known(EMPTY) == {};
    FitsMeansPlaces(rules, max, Start(Limited(rules, max)), events, all);
  }

  /** The bound may stay out of reach although more subjects come than fit, because earlier ones were forgotten. */
  lemma {:induction false} SubjectsMayComeAndGo(rules: map<Operation, Rule>, op: Operation, first: string, second: string, now: Time)
    requires Configured(Limited(rules, 1)) && op in rules && first != second && now > 0
    requires 2 * rules[op].ttl <= MAX_DURATION
    ensures var events := [Query(first, op, now, true), Query(second, op, now + 2 * rules[op].ttl, true)];
            |Mentioned(events, op)| == 2 && PlacesThroughout(rules, 1, Start(Limited(rules, 1)), events)
  {
    var e, f := Query(first, op, now, true), Query(second, op, now + 2 * rules[op].ttl, true);
    var events, w := [e, f], Start(Limited(rules, 1));
    assert events[1..] == [f] && events[1..][1..] == [];
    assert Mentioned(events, op) == {first, second} by {
      assert Mentioned([f], op) == {second} + Mentioned([], op);
    }
    FirstSubject(rules[op], first, now);
    var next := Step(Limited(rules, 1), w, e).0;
    hide Ask, Mentioned;
    assert HasPlaces(rules, 1, w, e);
    assert HasPlaces(rules, 1, next, f) by {
      if first != "" {
        Forgotten(rules[op], next.states[op], second, now + 2 * rules[op].ttl);
      }
    }
    hide HasPlaces, Step;
    assert PlacesThroughout(rules, 1, next, [f]);
  }

  lemma FirstSubject(rule: Rule, subject: string, now: Time)
    requires rule.Valid() && now > 0
    ensures var st := Ask(Bounded(1), rule, EMPTY, subject, now, true).0;
            st.lastNow == now && st.generationStart == now
  {
  }

  lemma Forgotten(rule: Rule, st: OpState, subject: string, later: Time)
    requires rule.Valid() && st.generationStart != 0 && later == st.generationStart + 2 * rule.ttl && st.lastNow <= later
    requires 2 * rule.ttl <= MAX_DURATION
    ensures QueryKey(Bounded(1), rule, st, subject, later) == Own(subject)
  {
    assert 2 * rule.ttl / rule.ttl == 2;
    assert SubjectCount(Rotate(Bounded(1), rule, st, later)) == 0;
  }
}
