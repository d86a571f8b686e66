/**
 The gate that bounds how many failed authentications are logged one by one
 (internal/httpapi/auth_failure_gate.go).
 */
module FailureGate {
  import opened Wrappers

  const WINDOW: int := 60_000_000_000
  const SECOND: int := 1_000_000_000
  const PER_KEY: nat := 5
  const DURABLE: nat := 32
  const MAX_KEYS: nat := 4096
  const OTHER := "auth.other"

  /** One minute of one operation: individual rows per key, rows in all, failures not logged one by one. */
  datatype Window = Window(start: int, entries: map<string, nat>, rows: nat, suppressed: nat)

  datatype Observation = Observation(recordIndividual: bool, rateLimited: bool, retryAfter: int, aggregateCount: nat,
                                     aggregateStart: Option<int>, workUnits: nat)

  /** A call; `now` is `None` for the zero time. */
  datatype Call = Call(operation: string, key: string, now: Option<int>, suppress: bool)

  function Bounded(operation: string): string {
    if operation in {"auth.jwt", "auth.agent", "auth.password", "auth.totp", "auth.refresh", "auth.logout", "auth.totp.reverify"}
    then operation else OTHER
  }

  function RetryAfter(start: int, now: int): int {
    if WINDOW - (now - start) <= 0 then SECOND else WINDOW - (now - start)
  }

  /** The longest `time.Duration`; differences of instants stop there. */
  const MAX_DURATION: int := 0x7fff_ffff_ffff_ffff

  /** From `now` until a later instant. */
  function Until(start: int, now: int): int {
    if start - now > MAX_DURATION then MAX_DURATION else start - now
  }

  type Gate = map<string, Window>

  /** The state an operation is in when a call at `now` looks at it. */
  function Opened(g: Gate, operation: string, now: int): Window {
    if operation in g then g[operation] else Window(now, map[], 0, 0)
  }

  predicate WellFormed(c: Call) {
    c.key != "" && c.now.Some?
  }

  /** The clock went back behind the window: the call is turned away and not counted. */
  predicate RolledBack(g: Gate, c: Call)
    requires c.now.Some?
  {
    c.now.value < Opened(g, Bounded(c.operation), c.now.value).start
  }

  predicate Counts(g: Gate, c: Call) {
    WellFormed(c) && !RolledBack(g, c)
  }

  // -------------------------------------------------------------- one call

  /** The window after a minute has passed: the suppressed failures go out as one aggregate row. */
  function Rolled(w: Window, now: int): Window {
    if now - w.start >= WINDOW then Window(now, map[], if w.suppressed > 0 then 1 else 0, 0) else w
  }

  function Blank(g: Gate, c: Call): Observation {
    if !WellFormed(c) then Observation(false, true, 0, 0, None, 1)
    else Observation(false, true, Until(Opened(g, Bounded(c.operation), c.now.value).start, c.now.value), 0, None, 1)
  }

  /** `observeMode` */
  function Observe(g: Gate, c: Call): (Observation, Gate) {
    if !WellFormed(c) then (Blank(g, c), g)
    else
      var operation, now := Bounded(c.operation), c.now.value;
      var current := Opened(g, operation, now);
      if RolledBack(g, c) then (Blank(g, c), g[operation := current])
      else
        var w := Rolled(current, now);
        var rolled := now - current.start >= WINDOW;
        var (aggregate, since, units) := if rolled then (current.suppressed, Some(current.start), 2) else (0, None, 1);
        var (recorded, w') := Count(w, c.key, c.suppress);
        (Observation(recorded, !recorded, if recorded then 0 else RetryAfter(w.start, now), aggregate, since, units),
         g[operation := w'])
  }

  /** Within a window: log the failure on its own, or count it as suppressed. */
  function Count(w: Window, key: string, suppress: bool): (bool, Window) {
    if suppress || (key !in w.entries && |w.entries| >= MAX_KEYS) then (false, w.(suppressed := w.suppressed + 1))
    else
      var n := if key in w.entries then w.entries[key] else 0;
      if n >= PER_KEY || w.rows >= DURABLE then (false, w.(suppressed := w.suppressed + 1, entries := w.entries[key := n]))
      else (true, w.(rows := w.rows + 1, entries := w.entries[key := n + 1]))
  }

  // ---------------------------------------------------------------- counting

  /** The sum of the counts of all keys. */
  ghost function Sum(entries: map<string, nat>): nat
    decreases |entries|
  {
    if entries == map[] then 0
    else
      assert entries.Keys != {};
      var k :| k in entries;
      entries[k] + Sum(entries - {k})
  }

  lemma {:induction false} SumWithout(entries: map<string, nat>, k: string)
    requires k in entries
    ensures Sum(entries) == entries[k] + Sum(entries - {k})
    decreases |entries|
  {
    assert entries != map[];
    var j :| j in entries && Sum(entries) == entries[j] + Sum(entries - {j});
    if j != k {
      SumWithout(entries - {j}, k);
      SumWithout(entries - {k}, j);
      assert entries - {j} - {k} == entries - {k} - {j};
    }
  }

  lemma SumPut(entries: map<string, nat>, k: string, n: nat)
    ensures Sum(entries[k := n]) == Sum(entries) - (if k in entries then entries[k] else 0) + n
  {
    SumWithout(entries[k := n], k);
    if k in entries {
      SumWithout(entries, k);
      assert entries[k := n] - {k} == entries - {k};
    } else {
      assert entries[k := n] - {k} == entries;
    }
  }

  // --------------------------------------------------------------- invariant

  /**
   In every window at most 32 rows are written, of which `carried` is the aggregate of the window before;
   the others are spread over at most 4096 keys, at most 5 for each.
   */
  ghost predicate Bounds(w: Window, carried: nat) {
    && carried <= 1 && w.rows <= 32 && w.rows == Sum(w.entries) + carried
    && |w.entries| <= 4096 && forall k <- w.entries :: w.entries[k] <= 5
  }

  ghost predicate Valid(g: Gate) {
    forall operation <- g :: exists carried: nat :: Bounds(g[operation], carried)
  }

  lemma {:induction false} FreshWindow(now: int, rows: nat)
    requires rows <= 1
    ensures Bounds(Window(now, map[], rows, 0), rows)
  {
  }

  lemma {:induction false} PutKeepsBounds(w: Window, carried: nat, key: string, n: nat, more: nat)
    requires Bounds(w, carried) && (key in w.entries || |w.entries| < MAX_KEYS)
    requires n == if key in w.entries then w.entries[key] else 0
    requires more <= 1 && n + more <= PER_KEY && w.rows + more <= DURABLE
    ensures Bounds(w.(rows := w.rows + more, entries := w.entries[key := n + more]), carried)
  {
    SumPut(w.entries, key, n + more);
    var put := w.entries[key := n + more];
    assert put.Keys == w.entries.Keys + {key};
  }

  lemma {:induction false} CountKeepsBounds(w: Window, carried: nat, key: string, suppress: bool)
    requires Bounds(w, carried)
    ensures Bounds(Count(w, key, suppress).1, carried)
  {
    if !suppress && (key in w.entries || |w.entries| < MAX_KEYS) {
      var n := if key in w.entries then w.entries[key] else 0;
      var more := if n >= PER_KEY || w.rows >= DURABLE then 0 else 1;
      PutKeepsBounds(w, carried, key, n, more);
    }
  }

  /** No call breaks the bounds of any window. */
  lemma {:induction false} ObserveKeepsBounds(g: Gate, c: Call)
    requires Valid(g)
    ensures Valid(Observe(g, c).1)
  {
    if WellFormed(c) {
      hide Bounds, Count;
      var now := c.now.value;
      var current := Opened(g, Bounded(c.operation), now);
      FreshWindow(now, 0);
      FreshWindow(now, 1);
      var carried: nat :| Bounds(current, carried);
      var w := Rolled(current, now);
      if !RolledBack(g, c) {
        var carried': nat :| Bounds(w, carried');
        CountKeepsBounds(w, carried', c.key, c.suppress);
      }
    }
  }

  /** When the window that counts this call began. */
  function WindowStart(g: Gate, c: Call): int
    requires c.now.Some?
  {
    Rolled(Opened(g, Bounded(c.operation), c.now.value), c.now.value).start
  }

  /** A failure is either logged or rate limited, and whoever is limited within a window may retry when it ends. */
  lemma {:induction false} LoggedOrLimited(g: Gate, c: Call)
    ensures var o := Observe(g, c).0;
            && o.recordIndividual != o.rateLimited
            && (o.rateLimited && Counts(g, c) ==>
                  0 < o.retryAfter <= WINDOW && WindowStart(g, c) + WINDOW == c.now.value + o.retryAfter)
  {
  }

  /**
   A call that is not counted changes no window; one behind its window is told to come back when the window begins, or
   in the longest Duration if that is sooner.
   */
  lemma {:induction false} UncountedExactly(g: Gate, c: Call)
    requires !Counts(g, c)
    ensures var (o, g') := Observe(g, c);
            && g' == g && o.rateLimited && !o.recordIndividual && o.aggregateCount == 0
            && if WellFormed(c)
               then Bounded(c.operation) in g && 0 < o.retryAfter <= MAX_DURATION
                    && c.now.value + o.retryAfter <= g[Bounded(c.operation)].start
                    && (o.retryAfter < MAX_DURATION ==> c.now.value + o.retryAfter == g[Bounded(c.operation)].start)
               else o.retryAfter == 0
  {
    hide Bounded;
  }

  /** Rows already spent on the key of a call in the window that counts it. */
  function Spent(w: Window, key: string): nat {
    if key in w.entries then w.entries[key] else 0
  }

  /**
   A counted failure is logged on its own exactly when its key and its window have a row left and there is
   room for the key; then both are one row poorer.  Other operations are not affected by any call.
   */
  lemma {:induction false} LoggedExactly(g: Gate, c: Call)
    ensures Counts(g, c) ==>
              var w := Rolled(Opened(g, Bounded(c.operation), c.now.value), c.now.value);
              var (o, g') := Observe(g, c);
              && (o.recordIndividual <==> !c.suppress && Spent(w, c.key) < 5 && w.rows < 32
                                          && (c.key in w.entries || |w.entries| < 4096))
              && Bounded(c.operation) in g'
              && var w' := g'[Bounded(c.operation)];
                 w'.start == w.start && w'.rows == w.rows + (if o.recordIndividual then 1 else 0)
                 && Spent(w', c.key) == Spent(w, c.key) + (if o.recordIndividual then 1 else 0)
                 && forall k :: k != c.key ==> Spent(w', k) == Spent(w, k)
    ensures forall operation :: operation != Bounded(c.operation) ==>
              (operation in Observe(g, c).1 <==> operation in g) && (operation in g ==> Observe(g, c).1[operation] == g[operation])
  {
    hide Bounded;
  }

  // ------------------------------------------------------------ conservation

  function GateAfter(g: Gate, calls: seq<Call>): Gate {
    if calls == [] then g else Observe(GateAfter(g, calls[..|calls| - 1]), calls[|calls| - 1]).1
  }

  /** The calls for one operation that were counted, logged one by one, and reported in aggregates. */
  datatype Tally = Tally(counted: nat, individual: nat, aggregated: nat)

  function TallyOf(g: Gate, calls: seq<Call>, operation: string): Tally {
    if calls == [] then Tally(0, 0, 0)
    else
      var before, c := GateAfter(g, calls[..|calls| - 1]), calls[|calls| - 1];
      var t := TallyOf(g, calls[..|calls| - 1], operation);
      if Bounded(c.operation) != operation then t
      else
        var o := Observe(before, c).0;
        Tally(t.counted + (if Counts(before, c) then 1 else 0), t.individual + (if o.recordIndividual then 1 else 0),
              t.aggregated + o.aggregateCount)
  }

  function Pending(g: Gate, operation: string): nat {
    if operation in g then g[operation].suppressed else 0
  }

  /** One call: every counted failure is logged, or pending, or leaves in an aggregate. */
  lemma {:induction false} OneCallConserves(g: Gate, c: Call, operation: string)
    ensures var (o, g') := Observe(g, c);
            Pending(g, operation) + (if Bounded(c.operation) == operation && Counts(g, c) then 1 else 0)
            == Pending(g', operation) + (if Bounded(c.operation) == operation && o.recordIndividual then 1 else 0)
               + (if Bounded(c.operation) == operation then o.aggregateCount else 0)
  {
  }

  /**
   Over every sequence of calls on a new gate, and for each operation: the counted failures are exactly the
   rows logged one by one, the sum of all aggregates reported, and those still pending; and every window is
   within its bounds.
   */
  lemma {:induction false} NoFailureIsLost(calls: seq<Call>, operation: string)
    ensures var t, g := TallyOf(map[], calls, operation), GateAfter(map[], calls);
            t.counted == t.individual + t.aggregated + Pending(g, operation) && Valid(g)
  {
    if calls != [] {
      var init, c := calls[..|calls| - 1], calls[|calls| - 1];
      NoFailureIsLost(init, operation);
      OneCallConserves(GateAfter(map[], init), c, operation);
      ObserveKeepsBounds(GateAfter(map[], init), c);
      hide Observe, Valid;
    }
  }

  /** The seven known operations have a window each, all other names share one. */
  lemma {:induction false} EightWindows(calls: seq<Call>, operation: string)
    ensures GateAfter(map[], calls).Keys <= {"auth.jwt", "auth.agent", "auth.password", "auth.totp", "auth.refresh", "auth.logout",
                                             "auth.totp.reverify", "auth.other"}
    ensures Bounded(operation) == operation <==> operation in {"auth.jwt", "auth.agent", "auth.password", "auth.totp", "auth.refresh",
                                                               "auth.logout", "auth.totp.reverify", "auth.other"}
    ensures Bounded(operation) == operation || Bounded(operation) == "auth.other"
  {
    if calls != [] {
      EightWindows(calls[..|calls| - 1], operation);
      OnlyOwnWindow(GateAfter(map[], calls[..|calls| - 1]), calls[|calls| - 1]);
    }
    hide Observe;
  }

  lemma OnlyOwnWindow(g: Gate, c: Call)
    ensures Observe(g, c).1.Keys <= g.Keys + {Bounded(c.operation)}
  {
    hide Bounded, Count;
  }

  /** Rows written for one operation since its window began: the aggregate of the window before, if any, and its own. */
  function RowsSince(calls: seq<Call>, operation: string): nat {
    if calls == [] then 0
    else
      var c := calls[|calls| - 1];
      var before := RowsSince(calls[..|calls| - 1], operation);
      if Bounded(c.operation) != operation then before
      else
        var o := Observe(GateAfter(map[], calls[..|calls| - 1]), c).0;
        (if o.aggregateStart.Some? then (if o.aggregateCount > 0 then 1 else 0) else before) + (if o.recordIndividual then 1 else 0)
  }

  /** A call closes a window exactly when it counts and a minute has passed; then what was suppressed is reported. */
  lemma {:induction false} WindowClosesExactly(g: Gate, c: Call)
    ensures var (o, g') := Observe(g, c);
            var operation := Bounded(c.operation);
            && (o.aggregateStart.Some? <==> Counts(g, c) && operation in g && c.now.value - g[operation].start >= 60 * SECOND)
            && o.aggregateCount == (if o.aggregateStart.Some? then g[operation].suppressed else 0)
            && (o.aggregateStart.Some? ==> o.aggregateStart.value == g[operation].start)
            && (Counts(g, c) ==>
                  operation in g' && g'[operation].start == WindowStart(g, c)
                  && WindowStart(g, c) == if operation in g && o.aggregateStart.None? then g[operation].start else c.now.value)
  {
    hide Bounded;
  }

  /**
   On a new gate, and after any calls: the rows counted against an operation's limit are exactly those written since
   its window began, the aggregate of the window before included, and they are at most 32.
   */
  lemma {:induction false} RowsAreCounted(calls: seq<Call>, operation: string)
    ensures var g := GateAfter(map[], calls);
            && RowsSince(calls, operation) == (if operation in g then g[operation].rows else 0)
            && RowsSince(calls, operation) <= 32
  {
    NoFailureIsLost(calls, operation);
    if calls != [] {
      var init, c := calls[..|calls| - 1], calls[|calls| - 1];
      RowsAreCounted(init, operation);
      OneMoreRow(GateAfter(map[], init), c, operation);
      hide Observe, Valid;
    }
    WithinBounds(GateAfter(map[], calls), operation);
  }

  lemma WithinBounds(g: Gate, operation: string)
    requires Valid(g)
    ensures operation in g ==> g[operation].rows <= 32
  {
  }

  lemma {:induction false} OneMoreRow(g: Gate, c: Call, operation: string)
    ensures var (o, g') := Observe(g, c);
            var was, now := (if operation in g then g[operation].rows else 0), if operation in g' then g'[operation].rows else 0;
            now == if Bounded(c.operation) != operation then was
                   else (if o.aggregateStart.Some? then (if o.aggregateCount > 0 then 1 else 0) else was)
                        + (if o.recordIndividual then 1 else 0)
  {
    hide Bounded;
  }

  // -------------------------------------------------------------- the object

  /** The gate as it is kept in memory. */
  class AnonymousFailureGate {
    var operations: Gate

    constructor ()
      ensures operations == map[] && Valid(operations)
    {
      operations := map[];
    }

    method ObserveMode(c: Call) returns (o: Observation)
      requires Valid(operations)
      modifies this
      ensures (o, operations) == Observe(old(operations), c) && Valid(operations)
    {
      hide Valid, Count, Bounded;
      ObserveKeepsBounds(operations, c);
      if c.key == "" || c.now.None? {
        return Observation(false, true, 0, 0, None, 1);
      }
      var operation, now := Bounded(c.operation), c.now.value;
      if operation !in operations {
        operations := operations[operation := Window(now, map[], 0, 0)];
      }
      var state := operations[operation];
      assert operations == old(operations)[operation := state];
      o := Observation(false, false, 0, 0, None, 1);
      if now < state.start {
        return o.(rateLimited := true, retryAfter := Until(state.start, now));
      }
      if now - state.start >= WINDOW {
        o := o.(aggregateCount := state.suppressed, aggregateStart := Some(state.start), workUnits := 2);
        operations := operations[operation := Window(now, map[], if state.suppressed > 0 then 1 else 0, 0)];
      }
      var start := operations[operation].start;
      var recorded := CountFailure(operation, c.key, c.suppress);
      assert operations == old(operations)[operation := operations[operation]];
      if recorded {
        o := o.(recordIndividual := true);
      } else {
        o := o.(rateLimited := true, retryAfter := RetryAfter(start, now));
      }
    }

    /** The part of `observeMode` that stays within the current window. */
    method CountFailure(operation: string, key: string, suppress: bool) returns (recorded: bool)
      requires operation in operations
      modifies this
      ensures operations == old(operations)[operation := Count(old(operations)[operation], key, suppress).1]
      ensures recorded == Count(old(operations)[operation], key, suppress).0
    {
      var state := operations[operation];
      if suppress {
        operations := operations[operation := state.(suppressed := state.suppressed + 1)];
        return false;
      }
      var count := 0;
      if key in state.entries {
        count := state.entries[key];
      } else {
        if |state.entries| >= MAX_KEYS {
          operations := operations[operation := state.(suppressed := state.suppressed + 1)];
          return false;
        }
        state := state.(entries := state.entries[key := 0]);
      }
      ghost var before := old(operations)[operation].entries;
      assert state.entries == before[key := count];
      if count >= PER_KEY || state.rows >= DURABLE {
        operations := operations[operation := state.(suppressed := state.suppressed + 1)];
        return false;
      }
      assert state.entries[key := count + 1] == before[key := count + 1];
      operations := operations[operation := state.(entries := state.entries[key := count + 1], rows := state.rows + 1)];
      return true;
    }
  }
}
