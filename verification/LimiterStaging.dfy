/**
 What the staging loop of `Reserve` computes: each request is charged to one bucket, a bucket is
 charged once per distinct request that maps to it, and staging itself changes no level.
 */
module LimiterStaging {
  import opened Wrappers
  import opened LimiterSpec
  import opened LimiterInvariant

  // ------------------------------------------- the declarative assignment

  /** How many of the requests open a bucket of their own for a subject that had none. */
  function NewOwners(mode: Mode, st: OpState, requests: seq<Request>, op: Operation): (n: nat)
    ensures n <= |requests|
  {
    if requests == [] then 0
    else
      var n := NewOwners(mode, st, requests[..|requests| - 1], op);
      var r := requests[|requests| - 1];
      if r.operation == op && Find(st, Own(r.subject)).None? && HasRoom(mode, st, n) then n + 1 else n
  }

  /** The bucket that pays for `r` when the requests in `before` were served first. */
  function Payer(mode: Mode, st: OpState, before: seq<Request>, r: Request): Key {
    KeyFor(mode, st, r.subject, NewOwners(mode, st, before, r.operation))
  }

  /** How many of the requests are charged to bucket `key` of operation `op`. */
  function Load(mode: Mode, st: OpState, requests: seq<Request>, op: Operation, key: Key): nat {
    if requests == [] then 0
    else
      var before, r := requests[..|requests| - 1], requests[|requests| - 1];
      Load(mode, st, before, op, key) + if r.operation == op && Payer(mode, st, before, r) == key then 1 else 0
  }

  /** How many requests of `op` name a subject without a bucket. */
  function Newcomers(st: OpState, requests: seq<Request>, op: Operation): nat {
    if requests == [] then 0
    else
      var r := requests[|requests| - 1];
      Newcomers(st, requests[..|requests| - 1], op) + if r.operation == op && Find(st, Own(r.subject)).None? then 1 else 0
  }

  /** Newcomers fill the free places; exactly the surplus lands in the shared bucket. */
  lemma SurplusIsShared(max: nat, st: OpState, requests: seq<Request>, op: Operation)
    requires SubjectCount(st) <= max
    ensures var free, n := max - SubjectCount(st), Newcomers(st, requests, op);
            && NewOwners(Bounded(max), st, requests, op) == (if n <= free then n else free)
            && Load(Bounded(max), st, requests, op, Shared) == (if n <= free then 0 else n - free)
  {
    if requests != [] {
      SurplusIsShared(max, st, requests[..|requests| - 1], op);
    }
  }

  lemma LoadOfOwnIsRequested(mode: Mode, st: OpState, requests: seq<Request>, op: Operation, s: string)
    ensures Load(mode, st, requests, op, Own(s)) > 0 ==> Request(s, op) in requests
    ensures mode.Unbounded? ==> Load(mode, st, requests, op, Shared) == 0
  {
    if requests != [] {
      LoadOfOwnIsRequested(mode, st, requests[..|requests| - 1], op, s);
    }
  }

  ghost predicate Distinct(requests: seq<Request>) {
    forall i, j :: 0 <= i < j < |requests| ==> requests[i] != requests[j]
  }

  lemma LoadOfOwnIsAtMostOne(mode: Mode, st: OpState, requests: seq<Request>, op: Operation, s: string)
    requires Distinct(requests)
    ensures Load(mode, st, requests, op, Own(s)) <= 1
  {
    if requests != [] {
      LoadOfOwnIsAtMostOne(mode, st, requests[..|requests| - 1], op, s);
      LoadOfOwnIsRequested(mode, st, requests[..|requests| - 1], op, s);
    }
  }

  // ------------------------------------------------- the loop implements it

  /** The state of one operation seen at the instant of the call. */
  function AtNow(states: States, times: map<Operation, Time>, op: Operation): OpState
    requires op in times && op in states
  {
    states[op].(lastNow := times[op])
  }

  ghost predicate Ready(cfg: Config, times: map<Operation, Time>, states: States) {
    && times.Keys <= states.Keys <= cfg.rules.Keys
    && (forall op <- cfg.rules :: cfg.rules[op].Recovers())
    && (forall op <- times :: StateInv(cfg.mode, cfg.rules[op], AtNow(states, times, op)))
    && (forall op <- times :: times[op] < states[op].generationStart + cfg.rules[op].ttl)
  }

  /** The item asks its bucket for exactly what the requests charge to it. */
  ghost predicate Priced(cfg: Config, times: map<Operation, Time>, start: States, requests: seq<Request>, item: Staged)
    requires times.Keys <= start.Keys <= cfg.rules.Keys
  {
    && item.operation in times
    && item.spend == Load(cfg.mode, start[item.operation], requests, item.operation, item.key)
    && item.spend >= 1
    && item.tokens == Level(cfg.rules[item.operation], start[item.operation], item.key, times[item.operation])
  }

  /** The item's bucket, if it exists, is in the current generation. */
  ghost predicate Placed(start: States, now: States, item: Staged) {
    && item.operation in start && item.operation in now
    && FindCurrent(now[item.operation], item.key) == Find(start[item.operation], item.key)
    && FindPrevious(now[item.operation], item.key).None?
  }

  ghost predicate StatesStaged(cfg: Config, times: map<Operation, Time>, start: States, now: States) {
    && now.Keys == start.Keys
    && Ready(cfg, times, now)
    && (forall op <- start :: SameBuckets(start[op], now[op]))
    && (forall op <- start :: op !in times ==> now[op] == start[op])
  }

  ghost predicate OwnersCounted(mode: Mode, times: map<Operation, Time>, start: States, requests: seq<Request>,
                                pending: map<Operation, nat>)
    requires times.Keys <= start.Keys
  {
    forall op <- times :: Pending(pending, op) == NewOwners(mode, start[op], requests, op)
  }

  /** How many of the items open a new bucket of their own. */
  function Created(st: OpState, items: seq<Staged>, op: Operation): nat {
    if items == [] then 0
    else
      var i := items[|items| - 1];
      Created(st, items[..|items| - 1], op) + if i.operation == op && i.key.Own? && Find(st, i.key).None? then 1 else 0
  }

  ghost predicate CreationsCounted(times: map<Operation, Time>, start: States, items: seq<Staged>, pending: map<Operation, nat>)
    requires times.Keys <= start.Keys
  {
    forall op <- times :: Created(start[op], items, op) <= Pending(pending, op)
  }

  ghost predicate LoadsStaged(mode: Mode, times: map<Operation, Time>, start: States, requests: seq<Request>,
                              items: seq<Staged>)
    requires times.Keys <= start.Keys
  {
    forall op, key :: op in times && Load(mode, start[op], requests, op, key) > 0 ==> IsStaged(items, op, key)
  }

  ghost predicate ItemsPriced(cfg: Config, times: map<Operation, Time>, start: States, requests: seq<Request>, items: seq<Staged>)
    requires times.Keys <= start.Keys <= cfg.rules.Keys
  {
    forall i :: 0 <= i < |items| ==> Priced(cfg, times, start, requests, items[i])
  }

  ghost predicate ItemsPlaced(start: States, now: States, items: seq<Staged>) {
    forall i :: 0 <= i < |items| ==> Placed(start, now, items[i])
  }

  ghost predicate StagingInv(cfg: Config, times: map<Operation, Time>, start: States, requests: seq<Request>, sg: Staging)
    requires Ready(cfg, times, start)
  {
    && sg.stuck.None?
    && StatesStaged(cfg, times, start, sg.states)
    && OwnersCounted(cfg.mode, times, start, requests, sg.pending)
    && DistinctItems(sg.items)
    && LoadsStaged(cfg.mode, times, start, requests, sg.items)
    && ItemsPriced(cfg, times, start, requests, sg.items)
    && ItemsPlaced(start, sg.states, sg.items)
    && CreationsCounted(times, start, sg.items, sg.pending)
  }

  lemma ReadyAfterUpdate(cfg: Config, times: map<Operation, Time>, states: States, op: Operation, st: OpState)
    requires Ready(cfg, times, states) && op in times
    requires StateInv(cfg.mode, cfg.rules[op], st.(lastNow := times[op]))
    requires st.generationStart == states[op].generationStart
    ensures Ready(cfg, times, states[op := st])
  {
    hide StateInv;
    forall o | o in times
      ensures StateInv(cfg.mode, cfg.rules[o], AtNow(states[op := st], times, o))
    {
      if o != op {
        assert AtNow(states[op := st], times, o) == AtNow(states, times, o);
      }
    }
  }

  lemma StageRoutes(cfg: Config, times: map<Operation, Time>, sg: Staging, r: Request)
    requires Ready(cfg, times, sg.states) && r.operation in times
    ensures var op := r.operation;
            var (st, key) := Route(cfg.mode, sg.states[op], r.subject, Pending(sg.pending, op));
            && Stage(cfg, times, sg, r).states == sg.states[op := st]
            && Ready(cfg, times, sg.states[op := st])
            && SameBuckets(sg.states[op], st)
            && key == KeyFor(cfg.mode, sg.states[op], r.subject, Pending(sg.pending, op))
            && FindCurrent(st, key) == Find(sg.states[op], key)
            && FindPrevious(st, key).None?
  {
    hide KeyInv, StateInv, Migrate, Settled, AddUnit;
    var op, pending := r.operation, Pending(sg.pending, r.operation);
    var now := AtNow(sg.states, times, op);
    RouteIgnoresClock(cfg.mode, sg.states[op], r.subject, pending, times[op]);
    RouteMovesNothing(cfg.mode, cfg.rules[op], now, r.subject, pending);
    var (st, key) := Route(cfg.mode, sg.states[op], r.subject, pending);
    assert st.lastNow == sg.states[op].lastNow by {
      RouteKeepsClock(cfg.mode, sg.states[op], r.subject, pending);
    }
    SameBucketsStamped(sg.states[op], st, times[op]);
    ReadyAfterUpdate(cfg, times, sg.states, op, st);
    assert Find(now, key) == Find(sg.states[op], key);
    assert FindCurrent(st.(lastNow := times[op]), key) == FindCurrent(st, key);
    assert FindPrevious(st.(lastNow := times[op]), key) == FindPrevious(st, key);
  }

  lemma RouteKeepsClock(mode: Mode, st: OpState, subject: string, pending: nat)
    ensures Route(mode, st, subject, pending).0.lastNow == st.lastNow
  {
  }

  lemma SameBucketsStamped(a: OpState, b: OpState, t: Time)
    requires SameBuckets(a.(lastNow := t), b.(lastNow := t)) && a.lastNow == b.lastNow
    ensures SameBuckets(a, b)
  {
    forall k
      ensures Find(b, k) == Find(a, k)
      ensures FindCurrent(a, k).Some? ==> FindCurrent(b, k).Some?
      ensures FindPrevious(a, k).None? ==> FindPrevious(b, k).None?
    {
      assert Find(b.(lastNow := t), k) == Find(a.(lastNow := t), k);
      assert FindCurrent(b.(lastNow := t), k) == FindCurrent(b, k) && FindCurrent(a.(lastNow := t), k) == FindCurrent(a, k);
      assert FindPrevious(b.(lastNow := t), k) == FindPrevious(b, k) && FindPrevious(a.(lastNow := t), k) == FindPrevious(a, k);
    }
  }

  lemma AssignmentSnoc(mode: Mode, st: OpState, before: seq<Request>, r: Request, op: Operation, key: Key)
    ensures Load(mode, st, before + [r], op, key)
            == Load(mode, st, before, op, key) + if r.operation == op && Payer(mode, st, before, r) == key then 1 else 0
    ensures NewOwners(mode, st, before + [r], op)
            == NewOwners(mode, st, before, op)
               + if r.operation == op && Find(st, Own(r.subject)).None? && Payer(mode, st, before, r).Own? then 1 else 0
  {
    assert (before + [r])[..|before|] == before;
  }

  lemma PayerOf(mode: Mode, start: OpState, now: OpState, before: seq<Request>, r: Request)
    requires SameBuckets(start, now)
    ensures KeyFor(mode, now, r.subject, NewOwners(mode, start, before, r.operation)) == Payer(mode, start, before, r)
  {
    assert Find(now, Own(r.subject)) == Find(start, Own(r.subject));
  }

  lemma AddUnitStages(items: seq<Staged>, op: Operation, key: Key, tokens: real)
    requires DistinctItems(items)
    ensures var after := AddUnit(items, op, key, tokens);
            && DistinctItems(after)
            && IsStaged(after, op, key)
            && (forall o, k :: IsStaged(items, o, k) ==> IsStaged(after, o, k))
            && (forall i :: 0 <= i < |after| ==> UnitAdded(items, op, key, tokens, after[i]))
  {
    var after := AddUnit(items, op, key, tokens);
    var n := IndexOf(items, op, key);
    assert after[n].operation == op && after[n].key == key;
    forall o, k | IsStaged(items, o, k)
      ensures IsStaged(after, o, k)
    {
      var i :| 0 <= i < |items| && items[i].operation == o && items[i].key == k;
      assert after[i].operation == o && after[i].key == k;
    }
    forall i | 0 <= i < |after|
      ensures UnitAdded(items, op, key, tokens, after[i])
    {
      if n < |items| && i == n {
        assert items[i] in items;
      } else if i < |items| {
        assert items[i] in items;
        assert items[i].operation == op && items[i].key == key ==> IsStaged(items, op, key);
      }
    }
  }

  ghost predicate DistinctItems(items: seq<Staged>) {
    forall i, j :: 0 <= i < j < |items| ==> items[i].operation != items[j].operation || items[i].key != items[j].key
  }

  /** `item` stands in the list after one unit was added for (op, key). */
  ghost predicate UnitAdded(items: seq<Staged>, op: Operation, key: Key, tokens: real, item: Staged) {
    if item.operation != op || item.key != key then item in items
    else if IsStaged(items, op, key) then item.spend >= 1 && item.(spend := item.spend - 1) in items
    else item == Staged(op, key, tokens, 1)
  }

  /** Which unit one stage adds. */
  lemma {:induction false} StageAddsUnit(cfg: Config, times: map<Operation, Time>, start: States, before: seq<Request>,
                                         r: Request, sg: Staging)
    requires times.Keys <= start.Keys <= cfg.rules.Keys && Ready(cfg, times, sg.states) && r.operation in times
    requires SameBuckets(start[r.operation], sg.states[r.operation])
    requires Pending(sg.pending, r.operation) == NewOwners(cfg.mode, start[r.operation], before, r.operation)
    ensures var after := Stage(cfg, times, sg, r);
            var key := Payer(cfg.mode, start[r.operation], before, r);
            && after.stuck.None?
            && after.items == AddUnit(sg.items, r.operation, key,
                                      Level(cfg.rules[r.operation], start[r.operation], key, times[r.operation]))
            && after.pending == (if key.Own? && Find(start[r.operation], key).None?
                                 then sg.pending[r.operation := Pending(sg.pending, r.operation) + 1] else sg.pending)
  {
    hide KeyInv, FindCurrent, FindPrevious, Migrate, AddUnit;
    var op := r.operation;
    StageRoutes(cfg, times, sg, r);
    PayerOf(cfg.mode, start[op], sg.states[op], before, r);
    var key := Payer(cfg.mode, start[op], before, r);
    assert Find(sg.states[op], key) == Find(start[op], key);
    FoundIsNotFromTheFuture(cfg.mode, cfg.rules[op], sg.states[op], key, times[op]);
  }

  lemma FoundIsNotFromTheFuture(mode: Mode, rule: Rule, st: OpState, key: Key, at: Time)
    requires StateInv(mode, rule, st.(lastNow := at))
    ensures Find(st, key).Some? ==> Find(st, key).value.last <= at
  {
    var now := st.(lastNow := at);
    assert KeyInv(rule, now, key);
    assert Find(now, key) == Find(st, key);
  }

  lemma StageKeepsStates(cfg: Config, times: map<Operation, Time>, start: States, r: Request, sg: Staging)
    requires Ready(cfg, times, start) && StatesStaged(cfg, times, start, sg.states) && r.operation in times
    ensures StatesStaged(cfg, times, start, Stage(cfg, times, sg, r).states)
  {
    hide KeyInv, Find, FindCurrent, FindPrevious, Migrate, KeyFor, AddUnit, StateInv;
    StageRoutes(cfg, times, sg, r);
    var after := Stage(cfg, times, sg, r);
    assert SameBuckets(sg.states[r.operation], after.states[r.operation]);
    assert SameBuckets(start[r.operation], sg.states[r.operation]);
  }

  lemma CountOneMore(mode: Mode, times: map<Operation, Time>, start: States, before: seq<Request>, r: Request,
                     pending: map<Operation, nat>)
    requires times.Keys <= start.Keys && r.operation in times && OwnersCounted(mode, times, start, before, pending)
    ensures var key := Payer(mode, start[r.operation], before, r);
            OwnersCounted(mode, times, start, before + [r],
                          if key.Own? && Find(start[r.operation], key).None?
                          then pending[r.operation := Pending(pending, r.operation) + 1] else pending)
  {
    var key := Payer(mode, start[r.operation], before, r);
    forall o | o in times
      ensures NewOwners(mode, start[o], before + [r], o)
              == Pending(pending, o) + if o == r.operation && key.Own? && Find(start[o], key).None? then 1 else 0
    {
      AssignmentSnoc(mode, start[o], before, r, o, key);
      assert key.Own? ==> key == Own(r.subject);
    }
  }

  lemma SameKeysCreateTheSame(st: OpState, a: seq<Staged>, b: seq<Staged>, op: Operation)
    requires |a| == |b|
    requires forall i :: 0 <= i < |a| ==> a[i].operation == b[i].operation && a[i].key == b[i].key
    ensures Created(st, a, op) == Created(st, b, op)
  {
    if a != [] {
      SameKeysCreateTheSame(st, a[..|a| - 1], b[..|b| - 1], op);
    }
  }

  lemma CreateOneMore(times: map<Operation, Time>, start: States, items: seq<Staged>, op: Operation, key: Key, tokens: real,
                      pending: map<Operation, nat>)
    requires times.Keys <= start.Keys && op in times && CreationsCounted(times, start, items, pending)
    ensures CreationsCounted(times, start, AddUnit(items, op, key, tokens),
                             if key.Own? && Find(start[op], key).None? then pending[op := Pending(pending, op) + 1] else pending)
  {
    var after := AddUnit(items, op, key, tokens);
    forall o | o in times
      ensures Created(start[o], after, o)
              <= Created(start[o], items, o) + if o == op && key.Own? && Find(start[op], key).None? then 1 else 0
    {
      if IsStaged(items, op, key) {
        SameKeysCreateTheSame(start[o], after, items, o);
      } else {
        assert after[..|items|] == items;
      }
    }
  }

  lemma PriceOneMore(cfg: Config, times: map<Operation, Time>, start: States, before: seq<Request>, r: Request,
                     items: seq<Staged>, item: Staged)
    requires times.Keys <= start.Keys <= cfg.rules.Keys && r.operation in times
    requires LoadsStaged(cfg.mode, times, start, before, items) && ItemsPriced(cfg, times, start, before, items)
    requires var key := Payer(cfg.mode, start[r.operation], before, r);
             UnitAdded(items, r.operation, key, Level(cfg.rules[r.operation], start[r.operation], key, times[r.operation]), item)
    ensures Priced(cfg, times, start, before + [r], item)
  {
    var op := r.operation;
    var key := Payer(cfg.mode, start[op], before, r);
    var same := item.operation == op && item.key == key;
    var was := if same then item.(spend := item.spend - 1) else item;
    if was in items {
      assert Priced(cfg, times, start, before, was);
    } else {
      assert Load(cfg.mode, start[op], before, op, key) == 0;
    }
    AssignmentSnoc(cfg.mode, start[item.operation], before, r, item.operation, item.key);
  }

  lemma StageOneMore(cfg: Config, times: map<Operation, Time>, start: States, before: seq<Request>, r: Request,
                     items: seq<Staged>, after: seq<Staged>)
    requires times.Keys <= start.Keys <= cfg.rules.Keys && r.operation in times
    requires DistinctItems(items)
    requires LoadsStaged(cfg.mode, times, start, before, items) && ItemsPriced(cfg, times, start, before, items)
    requires var key := Payer(cfg.mode, start[r.operation], before, r);
             after == AddUnit(items, r.operation, key, Level(cfg.rules[r.operation], start[r.operation], key, times[r.operation]))
    ensures DistinctItems(after)
    ensures LoadsStaged(cfg.mode, times, start, before + [r], after) && ItemsPriced(cfg, times, start, before + [r], after)
  {
    var op := r.operation;
    var key := Payer(cfg.mode, start[op], before, r);
    AddUnitStages(items, op, key, Level(cfg.rules[op], start[op], key, times[op]));
    forall o, k | o in times && Load(cfg.mode, start[o], before + [r], o, k) > 0
      ensures IsStaged(after, o, k)
    {
      AssignmentSnoc(cfg.mode, start[o], before, r, o, k);
    }
    forall i | 0 <= i < |after|
      ensures Priced(cfg, times, start, before + [r], after[i])
    {
      PriceOneMore(cfg, times, start, before, r, items, after[i]);
    }
  }

  lemma PlaceOneMore(start: States, was: States, now: States, items: seq<Staged>, op: Operation, key: Key, tokens: real,
                     item: Staged)
    requires ItemsPlaced(start, was, items) && UnitAdded(items, op, key, tokens, item)
    requires op in start && op in was && op in now && now == was[op := now[op]]
    requires SameBuckets(start[op], was[op]) && SameBuckets(was[op], now[op])
    requires FindCurrent(now[op], key) == Find(was[op], key) && FindPrevious(now[op], key).None?
    ensures Placed(start, now, item)
  {
    if item.operation == op && item.key == key {
      assert Find(was[op], key) == Find(start[op], key);
    } else {
      assert Placed(start, was, item);
      assert Find(now[item.operation], item.key) == Find(start[item.operation], item.key);
    }
  }

  lemma {:induction false} StageKeepsPlaces(cfg: Config, times: map<Operation, Time>, start: States, before: seq<Request>,
                                            r: Request, sg: Staging)
    requires Ready(cfg, times, start) && StagingInv(cfg, times, start, before, sg) && r.operation in times
    ensures ItemsPlaced(start, Stage(cfg, times, sg, r).states, Stage(cfg, times, sg, r).items)
  {
    var op := r.operation;
    var key := Payer(cfg.mode, start[op], before, r);
    var level := Level(cfg.rules[op], start[op], key, times[op]);
    var after := Stage(cfg, times, sg, r);
    StageAddsUnit(cfg, times, start, before, r, sg);
    AddUnitStages(sg.items, op, key, level);
    StageRoutes(cfg, times, sg, r);
    PayerOf(cfg.mode, start[op], sg.states[op], before, r);
    forall i | 0 <= i < |after.items|
      ensures Placed(start, after.states, after.items[i])
    {
      PlaceOneMore(start, sg.states, after.states, sg.items, op, key, level, after.items[i]);
    }
  }

  lemma {:induction false} StageKeepsInv(cfg: Config, times: map<Operation, Time>, start: States, before: seq<Request>,
                                         r: Request, sg: Staging)
    requires Ready(cfg, times, start) && StagingInv(cfg, times, start, before, sg) && r.operation in times
    ensures StagingInv(cfg, times, start, before + [r], Stage(cfg, times, sg, r))
  {
    StageKeepsStates(cfg, times, start, r, sg);
    StageKeepsPlaces(cfg, times, start, before, r, sg);
    StageAddsUnit(cfg, times, start, before, r, sg);
    CountOneMore(cfg.mode, times, start, before, r, sg.pending);
    StageOneMore(cfg, times, start, before, r, sg.items, Stage(cfg, times, sg, r).items);
    var key := Payer(cfg.mode, start[r.operation], before, r);
    CreateOneMore(times, start, sg.items, r.operation, key,
                  Level(cfg.rules[r.operation], start[r.operation], key, times[r.operation]), sg.pending);
  }

  lemma {:induction false} StagingIsRight(cfg: Config, times: map<Operation, Time>, start: States, requests: seq<Request>)
    requires Ready(cfg, times, start)
    requires forall r <- requests :: r.operation in times
    ensures StagingInv(cfg, times, start, requests, StageAll(cfg, times, start, requests))
  {
    hide KeyInv, KeyFor, AddUnit, StateInv, Stage;
    if requests != [] {
      var before, r := requests[..|requests| - 1], requests[|requests| - 1];
      assert requests == before + [r];
      StagingIsRight(cfg, times, start, before);
      StageKeepsInv(cfg, times, start, before, r, StageAll(cfg, times, start, before));
    }
  }
}
