/**
 The token-bucket limiter of internal/agents/limiter.go as functions on its state.

 Every operation owns an independent `OpState`.  Instants are nanoseconds since Go's zero time, so
 0 is the zero time (`IsZero`).  Tokens are exact reals where the code uses float64.
 */
module LimiterSpec {
  import opened Wrappers

  const SECOND: nat := 1_000_000_000
  const CLOCK_SKEW: nat := SECOND
  const MAX_DURATION: int := 0x7fff_ffff_ffff_ffff
  const DEFAULT_TTL: nat := 900 * SECOND

  type Time = nat
  type Operation = string

  /** `now.Sub(since)`, which saturates at the largest Duration. */
  function Sub(now: Time, since: Time): (d: int) {
    if now - since > MAX_DURATION then MAX_DURATION
    else if now - since < -MAX_DURATION - 1 then -MAX_DURATION - 1
    else now - since
  }

  function Ceil(x: real): (n: int) {
    if x.Floor as real == x then x.Floor else x.Floor + 1
  }

  /** Limits of one operation; `refill` is in tokens per second. */
  datatype Rule = Rule(capacity: nat, refill: real, ttl: nat) {
    /** Tokens that flow in during `d` nanoseconds. */
    function Gain(d: int): (g: real) {
      d as real / SECOND as real * refill
    }

    /** Nanoseconds until `missing` tokens have flowed in, rounded up. */
    function Wait(missing: real): (d: int)
      requires refill > 0.0
    {
      Ceil(missing / refill * SECOND as real)
    }

    ghost predicate Valid() {
      capacity >= 1 && refill > 0.0 && 0 < ttl <= MAX_DURATION
    }

    /** The generation phase is long enough for an empty bucket to fill up. */
    ghost predicate Recovers() {
      Valid() && Gain(ttl) >= capacity as real
    }
  }

  function NaturalRecovery(capacity: nat, refill: real): (d: nat)
    requires refill > 0.0
  {
    var ns := capacity as real / refill * SECOND as real;
    assert ns >= 0.0;
    if ns >= MAX_DURATION as real then MAX_DURATION else Ceil(ns)
  }

  /** How the constructor derives one operation's rule from the configured TTL. */
  function NewRule(capacity: nat, refill: real, configuredTTL: int): (r: Rule)
    requires capacity >= 1 && refill > 0.0 && configuredTTL <= MAX_DURATION
  {
    var ttl := if configuredTTL <= 0 then DEFAULT_TTL else configuredTTL;
    var recovery := NaturalRecovery(capacity, refill);
    Rule(capacity, refill, if ttl < recovery then recovery else ttl)
  }

  datatype Bucket = Bucket(tokens: real, last: Time)

  /** A bucket of its own for a subject, or the one shared by all subjects that found no room. */
  datatype Key = Own(subject: string) | Shared

  datatype OpState = OpState(
    buckets: map<string, Bucket>,
    previousBuckets: map<string, Bucket>,
    overflow: Option<Bucket>,
    previousOverflow: Option<Bucket>,
    lastNow: Time,
    generationStart: Time,
    generation: nat)

  const EMPTY: OpState := OpState(map[], map[], None, None, 0, 0, 0)

  /**
   `Bounded` is the limiter itself.  `Unbounded` is the same code without its memory policy: a
   rotation discards nothing and there is always room for one more subject.
   */
  datatype Mode = Bounded(maxSubjects: nat) | Unbounded

  datatype Config = Config(rules: map<Operation, Rule>, mode: Mode)

  datatype Decision = Decision(allowed: bool, retryAfter: int)

  const REFUSED: Decision := Decision(false, 0)
  const ALLOWED: Decision := Decision(true, 0)

  function Find(st: OpState, key: Key): Option<Bucket> {
    match key
    case Own(s) =>
      if s in st.buckets then Some(st.buckets[s])
      else if s in st.previousBuckets then Some(st.previousBuckets[s])
      else None
    case Shared =>
      if st.overflow.Some? then st.overflow else st.previousOverflow
  }

  function FindCurrent(st: OpState, key: Key): Option<Bucket> {
    match key
    case Own(s) => if s in st.buckets then Some(st.buckets[s]) else None
    case Shared => st.overflow
  }

  function Put(st: OpState, key: Key, b: Bucket): OpState {
    match key
    case Own(s) => st.(buckets := st.buckets[s := b])
    case Shared => st.(overflow := Some(b))
  }

  /** A bucket found in the previous generation moves to the current one. */
  function Migrate(st: OpState, key: Key): OpState {
    match key
    case Own(s) =>
      if s in st.buckets || s !in st.previousBuckets then st
      else st.(previousBuckets := st.previousBuckets - {s},
               buckets := st.buckets[s := st.previousBuckets[s]])
    case Shared =>
      if st.overflow.Some? || st.previousOverflow.None? then st
      else st.(previousOverflow := None, overflow := st.previousOverflow)
  }

  function SubjectCount(st: OpState): nat {
    |st.buckets| + |st.previousBuckets|
  }

  function HasRoom(mode: Mode, st: OpState, pending: nat): bool {
    mode.Unbounded? || SubjectCount(st) + pending < mode.maxSubjects
  }

  /** Tokens of a bucket once the refill since its last use is credited. */
  function Settled(rule: Rule, b: Bucket, now: Time): real {
    var tokens := b.tokens + rule.Gain(Sub(now, b.last));
    if tokens < rule.capacity as real then tokens else rule.capacity as real
  }

  function Rotate(mode: Mode, rule: Rule, st: OpState, now: Time): OpState
    requires rule.ttl > 0
  {
    if st.generationStart == 0 then st.(generationStart := now)
    else if now < st.generationStart then st
    else
      var elapsed := Sub(now, st.generationStart);
      if elapsed < rule.ttl then st
      else
        var next := st.(generation := st.generation + 1,
                        generationStart := now - elapsed % rule.ttl);
        if mode.Unbounded? then next
        else if elapsed / rule.ttl >= 2 then
          next.(buckets := map[], previousBuckets := map[], overflow := None, previousOverflow := None)
        else
          next.(buckets := map[], previousBuckets := st.buckets,
                overflow := None, previousOverflow := st.overflow)
  }

  /** The instant a call made at `now` is taken to happen, or how far the clock has run back. */
  datatype Clock = At(now: Time) | RolledBack(gap: int)

  function ReadClock(st: OpState, now: Time): Clock {
    if st.lastNow != 0 && now < st.lastNow then
      if Sub(st.lastNow, now) >= CLOCK_SKEW then RolledBack(Sub(st.lastNow, now)) else At(st.lastNow)
    else At(now)
  }

  function KeyFor(mode: Mode, st: OpState, subject: string, pending: nat): Key {
    if Find(st, Own(subject)).Some? || HasRoom(mode, st, pending) then Own(subject) else Shared
  }

  /** Which bucket pays for `subject`, and the state once that bucket is in the current generation. */
  function Route(mode: Mode, st: OpState, subject: string, pending: nat): (OpState, Key) {
    var own := Migrate(st, Own(subject));
    var key := KeyFor(mode, own, subject, pending);
    (if key.Shared? then Migrate(own, Shared) else own, key)
  }

  /** The tail of `decide`: settle the routed bucket, answer, and take a token if asked to. */
  function Answer(rule: Rule, found: OpState, key: Key, at: Time, consume: bool): (OpState, Decision)
    requires rule.refill > 0.0
  {
    if Find(found, key).None? && !consume then (found, ALLOWED)
    else
      var b := if Find(found, key).Some? then Find(found, key).value else Bucket(rule.capacity as real, at);
      if at < b.last then (Put(found, key, b), Decision(false, Sub(b.last, at)))
      else
        var tokens := Settled(rule, b, at);
        if tokens < 1.0 then (Put(found, key, Bucket(tokens, at)), Decision(false, rule.Wait(1.0 - tokens)))
        else (Put(found, key, Bucket(if consume then tokens - 1.0 else tokens, at)), ALLOWED)
  }

  /** `Allow` (`consume`) and `Check`, once the arguments are accepted. */
  function Ask(mode: Mode, rule: Rule, st: OpState, subject: string, now: Time, consume: bool): (OpState, Decision)
    requires rule.ttl > 0 && rule.refill > 0.0
  {
    match ReadClock(st, now)
    case RolledBack(gap) => (st, Decision(false, gap))
    case At(at) =>
      var (found, key) := Route(mode, Rotate(mode, rule, st, at).(lastNow := at), subject, 0);
      Answer(rule, found, key, at, consume)
  }

  // ---------------------------------------------------------------- Reserve

  datatype Request = Request(subject: string, operation: Operation)

  /** What one bucket is asked for; `tokens` are settled at the time of the call. */
  datatype Staged = Staged(operation: Operation, key: Key, tokens: real, spend: nat)

  /** One line of a reservation, kept until it is committed or refunded. */
  datatype Item = Item(operation: Operation, key: Key, units: nat, generation: nat)

  datatype Outcome = Denied(retryAfter: int) | Granted(items: seq<Item>)

  type States = map<Operation, OpState>

  /** Distinct requests in order of first appearance. */
  function Unique(requests: seq<Request>): seq<Request> {
    if requests == [] then []
    else
      var front := Unique(requests[..|requests| - 1]);
      var request := requests[|requests| - 1];
      if request in front then front else front + [request]
  }

  predicate Acceptable(rules: map<Operation, Rule>, requests: seq<Request>, now: Time) {
    && requests != []
    && now != 0
    && forall r <- requests :: r.subject != "" && r.operation in rules
  }

  /** The effective instant of every requested operation, or the first roll-back met. */
  datatype Clocks = Clocks(times: map<Operation, Time>) | Stopped(gap: int)

  function ReadClocks(states: States, requests: seq<Request>, now: Time): (c: Clocks)
    requires forall r <- requests :: r.operation in states
    ensures c.Clocks? ==> c.times.Keys == set r | r in requests :: r.operation
  {
    if requests == [] then Clocks(map[])
    else
      var init, request := requests[..|requests| - 1], requests[|requests| - 1];
      assert requests == init + [request];
      var front := ReadClocks(states, init, now);
      if front.Stopped? then front
      else if request.operation in front.times then front
      else
        match ReadClock(states[request.operation], now)
        case RolledBack(gap) => Stopped(gap)
        case At(at) => Clocks(front.times[request.operation := at])
  }

  function RotateAll(cfg: Config, states: States, times: map<Operation, Time>): (r: States)
    requires times.Keys <= states.Keys <= cfg.rules.Keys
    requires forall op <- cfg.rules :: cfg.rules[op].ttl > 0
    ensures r.Keys == states.Keys
  {
    map op | op in states :: if op in times then Rotate(cfg.mode, cfg.rules[op], states[op], times[op]) else states[op]
  }

  function StampAll(states: States, times: map<Operation, Time>): (r: States)
    requires times.Keys <= states.Keys
    ensures r.Keys == states.Keys
  {
    map op | op in states :: if op in times then states[op].(lastNow := times[op]) else states[op]
  }

  /** Accumulator of the staging loop; `stuck` is its early return on a bucket from the future. */
  datatype Staging = Staging(states: States, items: seq<Staged>, pending: map<Operation, nat>, stuck: Option<int>)

  function Pending(pending: map<Operation, nat>, op: Operation): nat {
    if op in pending then pending[op] else 0
  }

  predicate IsStaged(items: seq<Staged>, op: Operation, key: Key) {
    exists i :: 0 <= i < |items| && items[i].operation == op && items[i].key == key
  }

  function IndexOf(items: seq<Staged>, op: Operation, key: Key): (i: nat)
    ensures IsStaged(items, op, key) ==> i < |items| && items[i].operation == op && items[i].key == key
    ensures !IsStaged(items, op, key) ==> i == |items|
  {
    if items == [] then 0
    else if items[0].operation == op && items[0].key == key then 0
    else
      assert IsStaged(items, op, key) ==> IsStaged(items[1..], op, key);
      1 + IndexOf(items[1..], op, key)
  }

  /** One more unit for a bucket: a new item, or one unit on the item it already has. */
  function AddUnit(items: seq<Staged>, op: Operation, key: Key, tokens: real): seq<Staged> {
    var i := IndexOf(items, op, key);
    if i < |items| then items[i := items[i].(spend := items[i].spend + 1)]
    else items + [Staged(op, key, tokens, 1)]
  }

  function Stage(cfg: Config, times: map<Operation, Time>, sg: Staging, request: Request): (r: Staging)
    requires request.operation in times && request.operation in cfg.rules && request.operation in sg.states
    ensures r.states.Keys == sg.states.Keys
  {
    var op := request.operation;
    var rule, at := cfg.rules[op], times[op];
    var (st, key) := Route(cfg.mode, sg.states[op], request.subject, Pending(sg.pending, op));
    var pending := if key.Own? && Find(st, key).None? then sg.pending[op := Pending(sg.pending, op) + 1] else sg.pending;
    var next := Staging(sg.states[op := st], sg.items, pending, None);
    match Find(st, key)
    case None => next.(items := AddUnit(sg.items, op, key, rule.capacity as real))
    case Some(b) =>
      if at < b.last && !IsStaged(sg.items, op, key) then next.(stuck := Some(Sub(b.last, at)))
      else next.(items := AddUnit(sg.items, op, key, Settled(rule, b, at)))
  }

  function StageAll(cfg: Config, times: map<Operation, Time>, states: States, requests: seq<Request>): (r: Staging)
    requires times.Keys <= states.Keys <= cfg.rules.Keys
    requires forall q <- requests :: q.operation in times
    ensures r.states.Keys == states.Keys
  {
    if requests == [] then Staging(states, [], map[], None)
    else
      var front := StageAll(cfg, times, states, requests[..|requests| - 1]);
      if front.stuck.Some? then front
      else Stage(cfg, times, front, requests[|requests| - 1])
  }

  function ItemWait(rules: map<Operation, Rule>, item: Staged): (d: int)
    requires item.operation in rules && rules[item.operation].refill > 0.0
  {
    if item.tokens >= item.spend as real then 0
    else rules[item.operation].Wait(item.spend as real - item.tokens)
  }

  /** The longest wait among the staged buckets. */
  function LongestWait(rules: map<Operation, Rule>, items: seq<Staged>): (d: int)
    requires forall i <- items :: i.operation in rules && rules[i.operation].refill > 0.0
    ensures d >= 0
  {
    if items == [] then 0
    else
      var front := LongestWait(rules, items[..|items| - 1]);
      var wait := ItemWait(rules, items[|items| - 1]);
      if wait > front then wait else front
  }

  function Spend(states: States, times: map<Operation, Time>, items: seq<Staged>): (r: States)
    requires forall i <- items :: i.operation in states && i.operation in times
    ensures r.Keys == states.Keys
  {
    if items == [] then states
    else
      var front := Spend(states, times, items[..|items| - 1]);
      var i := items[|items| - 1];
      front[i.operation := Put(front[i.operation], i.key, Bucket(i.tokens - i.spend as real, times[i.operation]))]
  }

  function Receipt(states: States, items: seq<Staged>): (r: seq<Item>)
    requires forall i <- items :: i.operation in states
    ensures |r| == |items|
  {
    seq(|items|, i requires 0 <= i < |items| =>
      Item(items[i].operation, items[i].key, items[i].spend, states[items[i].operation].generation))
  }

  ghost predicate Configured(cfg: Config) {
    forall op <- cfg.rules :: cfg.rules[op].Valid()
  }

  lemma UniqueIsSubset(requests: seq<Request>)
    ensures forall r :: r in Unique(requests) <==> r in requests
    ensures forall i, j :: 0 <= i < j < |Unique(requests)| ==> Unique(requests)[i] != Unique(requests)[j]
  {
    if requests != [] {
      UniqueIsSubset(requests[..|requests| - 1]);
      assert requests == requests[..|requests| - 1] + [requests[|requests| - 1]];
    }
  }

  lemma StagedOperations(cfg: Config, times: map<Operation, Time>, states: States, requests: seq<Request>)
    requires times.Keys <= states.Keys <= cfg.rules.Keys
    requires forall q <- requests :: q.operation in times
    ensures forall i <- StageAll(cfg, times, states, requests).items :: i.operation in times
  {
    if requests != [] {
      StagedOperations(cfg, times, states, requests[..|requests| - 1]);
    }
  }

  function Reserve(cfg: Config, states: States, requests: seq<Request>, now: Time): (r: (States, Outcome))
    requires Configured(cfg) && states.Keys == cfg.rules.Keys
    ensures r.0.Keys == states.Keys
  {
    if !Acceptable(cfg.rules, requests, now) then (states, Denied(0))
    else
      var unique := Unique(requests);
      UniqueIsSubset(requests);
      match ReadClocks(states, unique, now)
      case Stopped(gap) => (states, Denied(gap))
      case Clocks(times) =>
        var staging := StageAll(cfg, times, RotateAll(cfg, states, times), unique);
        StagedOperations(cfg, times, RotateAll(cfg, states, times), unique);
        if staging.stuck.Some? then (staging.states, Denied(staging.stuck.value))
        else
          var stamped := StampAll(staging.states, times);
          var wait := LongestWait(cfg.rules, staging.items);
          if wait > 0 then (stamped, Denied(wait))
          else
            var spent := Spend(stamped, times, staging.items);
            (spent, Granted(Receipt(spent, staging.items)))
  }

  // ----------------------------------------------------------------- Refund

  /** Is this line given back by a refund at `now`? */
  predicate Credits(rules: map<Operation, Rule>, states: States, item: Item, now: Time)
    requires states.Keys == rules.Keys
  {
    && item.operation in rules
    && item.key != Own("")
    && item.units > 0
    && item.generation == states[item.operation].generation
    && !(states[item.operation].lastNow != 0 && now < states[item.operation].lastNow)
    && FindCurrent(states[item.operation], item.key).Some?
  }

  function Returned(rule: Rule, b: Bucket, units: nat, now: Time): Bucket {
    var settled := if now < b.last then b else Bucket(Settled(rule, b, now), now);
    var tokens := settled.tokens + units as real;
    settled.(tokens := if tokens < rule.capacity as real then tokens else rule.capacity as real)
  }

  function RefundOne(rules: map<Operation, Rule>, states: States, item: Item, now: Time): (r: States)
    requires states.Keys == rules.Keys
    ensures r.Keys == states.Keys
  {
    if !Credits(rules, states, item, now) then states
    else
      var st := states[item.operation];
      var b := FindCurrent(st, item.key).value;
      states[item.operation := Put(st, item.key, Returned(rules[item.operation], b, item.units, now)).(lastNow := now)]
  }

  function RefundAll(rules: map<Operation, Rule>, states: States, items: seq<Item>, now: Time): (r: States)
    requires states.Keys == rules.Keys
    ensures r.Keys == states.Keys
  {
    if items == [] || now == 0 then states
    else RefundOne(rules, RefundAll(rules, states, items[..|items| - 1], now), items[|items| - 1], now)
  }

  // ------------------------------------------------------------------- Runs

  datatype Reservation = Reservation(items: seq<Item>, resolved: bool)

  /** The limiter together with every reservation it has handed out. */
  datatype World = World(states: States, reservations: seq<Reservation>)

  datatype Event =
    | Query(subject: string, operation: Operation, now: Time, consume: bool)
    | Hold(requests: seq<Request>, now: Time)
    | Commit(index: nat)
    | Refund(index: nat, now: Time)

  function Start(cfg: Config): World {
    World(map op | op in cfg.rules :: EMPTY, [])
  }

  function Decide(cfg: Config, states: States, subject: string, op: Operation, now: Time, consume: bool): (r: (States, Decision))
    requires Configured(cfg) && states.Keys == cfg.rules.Keys
    ensures r.0.Keys == states.Keys
  {
    if subject == "" || now == 0 || op !in cfg.rules then (states, REFUSED)
    else
      var (st, decision) := Ask(cfg.mode, cfg.rules[op], states[op], subject, now, consume);
      (states[op := st], decision)
  }

  function Step(cfg: Config, w: World, e: Event): (r: (World, Decision))
    requires Configured(cfg) && w.states.Keys == cfg.rules.Keys
    ensures r.0.states.Keys == cfg.rules.Keys
  {
    match e
    case Query(subject, op, now, consume) =>
      var (states, decision) := Decide(cfg, w.states, subject, op, now, consume);
      (w.(states := states), decision)
    case Hold(requests, now) =>
      var (states, outcome) := Reserve(cfg, w.states, requests, now);
      (match outcome
       case Denied(retryAfter) => (w.(states := states), Decision(false, retryAfter))
       case Granted(items) => (World(states, w.reservations + [Reservation(items, false)]), ALLOWED))
    case Commit(i) =>
      (if i < |w.reservations| then w.(reservations := w.reservations[i := w.reservations[i].(resolved := true)]) else w,
       ALLOWED)
    case Refund(i, now) =>
      (if i < |w.reservations| && !w.reservations[i].resolved then
         World(RefundAll(cfg.rules, w.states, w.reservations[i].items, now),
               w.reservations[i := w.reservations[i].(resolved := true)])
       else w,
       ALLOWED)
  }

  function Run(cfg: Config, w: World, events: seq<Event>): (r: World)
    requires Configured(cfg) && w.states.Keys == cfg.rules.Keys
    ensures r.states.Keys == cfg.rules.Keys
    decreases |events|
  {
    if events == [] then w else Run(cfg, Step(cfg, w, events[0]).0, events[1..])
  }

  /** Every answer the limiter gives along a run. */
  function Answers(cfg: Config, w: World, events: seq<Event>): (r: seq<Decision>)
    requires Configured(cfg) && w.states.Keys == cfg.rules.Keys
    decreases |events|
  {
    if events == [] then []
    else
      var (next, decision) := Step(cfg, w, events[0]);
      [decision] + Answers(cfg, next, events[1..])
  }
}
