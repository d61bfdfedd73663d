/** Accounting and limits of the event watcher over whole streams and reconnects, with a
    remediation worker that moves rows out of the queue at any time and never back. */
module EventRuns {
  import opened Options
  import opened EventWatcher

  /** An event of the stream, a row taken out of the queue by a worker, or a 410 answer that
      makes the reconnect loop forget the resource version. */
  datatype Input = Arrival(item: Item) | Move(row: nat, status: RowStatus) | Gone

  function Step(st: State, input: Input): (r: State) {
    match input
    case Arrival(item) => Process(st, item)
    case Move(i, status) =>
      if i < |st.rows| && status != Queued then st.(rows := st.rows[i := st.rows[i].(status := status)]) else st
    case Gone => st.(lastRv := "")
  }

  function Run(st: State, inputs: seq<Input>): (r: State)
    decreases |inputs|
  {
    if inputs == [] then st else Run(Step(st, inputs[0]), inputs[1..])
  }

  function Arrivals(items: seq<Item>): (r: seq<Input>) {
    seq(|items|, i requires 0 <= i < |items| => Arrival(items[i]))
  }

  /** Consuming a stream is the run of its events one after the other, so what is proved of runs
      holds of it. */
  lemma {:induction false} StreamIsARun(st: State, items: seq<Item>)
    ensures ProcessAll(st, items) == Run(st, Arrivals(items))
    decreases |items|
  {
    if items != [] {
      StreamIsARun(Process(st, items[0]), items[1..]);
      assert Arrivals(items)[1..] == Arrivals(items[1..]);
    }
  }

  function Events(inputs: seq<Input>): (n: nat) {
    if inputs == [] then 0 else (if inputs[0].Arrival? then 1 else 0) + Events(inputs[1..])
  }

  /** How many events of the stream got this verdict. */
  function Tally(st: State, inputs: seq<Input>, v: Verdict): (n: nat)
    decreases |inputs|
  {
    if inputs == [] then 0
    else (if inputs[0].Arrival? && Judge(st, inputs[0].item) == v then 1 else 0) + Tally(Step(st, inputs[0]), inputs[1..], v)
  }

  /** The sum of `count` over all rows. */
  function Total(rows: seq<Row>): (n: nat) {
    if rows == [] then 0 else rows[0].count + Total(rows[1..])
  }

  lemma {:induction false} TotalConcat(a: seq<Row>, b: seq<Row>)
    ensures Total(a + b) == Total(a) + Total(b)
  {
    if a == [] {
      assert a + b == b;
    } else {
      assert (a + b)[1..] == a[1..] + b;
      TotalConcat(a[1..], b);
    }
  }

  lemma TotalUpdate(rows: seq<Row>, i: nat, row: Row)
    requires i < |rows|
    ensures Total(rows[i := row]) == Total(rows) - rows[i].count + row.count
  {
    assert rows == rows[..i] + ([rows[i]] + rows[i + 1..]);
    assert rows[i := row] == rows[..i] + ([row] + rows[i + 1..]);
    TotalConcat(rows[..i], [rows[i]] + rows[i + 1..]);
    TotalConcat(rows[..i], [row] + rows[i + 1..]);
  }

  lemma UpsertTotal(rows: seq<Row>, ev: Event, fixClass: string, now: real)
    ensures Total(Upsert(rows, ev, fixClass, now)) == Total(rows) + 1
  {
    var i := Find(rows, ev.key, now);
    if i < |rows| {
      TotalUpdate(rows, i, rows[i].(count := rows[i].count + 1, lastSeen := now));
    } else {
      TotalConcat(rows, [Row(ev.key, ev.kind, fixClass, now, now, 1, Queued)]);
    }
  }

  lemma StepTotal(st: State, input: Input)
    ensures Total(Step(st, input).rows) ==
      Total(st.rows) + if input.Arrival? && Judge(st, input.item) == Accepted then 1 else 0
    ensures Step(st, input).backpressure ==
      st.backpressure + if input.Arrival? && Judge(st, input.item) == Dropped then 1 else 0
  {
    match input
    case Arrival(item) =>
      if Judge(st, item) == Accepted {
        var ev := item.event.value;
        UpsertTotal(st.rows, ev, Classify(ev.key.reason, ev.kind), item.wall);
      }
    case Move(i, status) =>
      if i < |st.rows| && status != Queued {
        TotalUpdate(st.rows, i, st.rows[i].(status := status));
      }
    case Gone =>
  }

  /** Every event is accounted for: it had no object, was no warning, was held back, was
      ignored, was counted as dropped, or is in the count of some row. */
  lemma {:induction false} EveryEventIsAccountedFor(st: State, inputs: seq<Input>)
    ensures Events(inputs) ==
      Tally(st, inputs, NoObject) + Tally(st, inputs, NotWarning) + Tally(st, inputs, RateLimited)
      + Tally(st, inputs, Ignored)
      + (Run(st, inputs).backpressure - st.backpressure)
      + (Total(Run(st, inputs).rows) - Total(st.rows))
    decreases |inputs|
  {
    if inputs != [] {
      StepTotal(st, inputs[0]);
      EveryEventIsAccountedFor(Step(st, inputs[0]), inputs[1..]);
    }
  }

  // ---------------------------------------------------------------- depth

  lemma DepthUpdate(rows: seq<Row>, i: nat, row: Row)
    requires i < |rows|
    ensures QueueDepth(rows[i := row]) ==
      QueueDepth(rows) - (if rows[i].status == Queued then 1 else 0) + (if row.status == Queued then 1 else 0)
  {
    assert rows == rows[..i] + ([rows[i]] + rows[i + 1..]);
    assert rows[i := row] == rows[..i] + ([row] + rows[i + 1..]);
    DepthConcat(rows[..i], [rows[i]] + rows[i + 1..]);
    DepthConcat(rows[..i], [row] + rows[i + 1..]);
  }

  lemma UpsertDepth(rows: seq<Row>, ev: Event, fixClass: string, now: real)
    ensures QueueDepth(Upsert(rows, ev, fixClass, now)) ==
      QueueDepth(rows) + if Find(rows, ev.key, now) < |rows| then 0 else 1
  {
    var i := Find(rows, ev.key, now);
    FindMeaning(rows, ev.key, now);
    if i < |rows| {
      DepthUpdate(rows, i, rows[i].(count := rows[i].count + 1, lastSeen := now));
    } else {
      DepthConcat(rows, [Row(ev.key, ev.kind, fixClass, now, now, 1, Queued)]);
    }
  }

  lemma StepDepth(st: State, input: Input)
    requires QueueDepth(st.rows) <= QUEUE_DEPTH_LIMIT
    ensures QueueDepth(Step(st, input).rows) <= QUEUE_DEPTH_LIMIT
  {
    match input
    case Arrival(item) =>
      if Judge(st, item) == Accepted {
        var ev := item.event.value;
        UpsertDepth(st.rows, ev, Classify(ev.key.reason, ev.kind), item.wall);
      }
    case Move(i, status) =>
      if i < |st.rows| && status != Queued {
        DepthUpdate(st.rows, i, st.rows[i].(status := status));
      }
    case Gone =>
  }

  /** The queue never holds more than the limit. */
  lemma {:induction false} DepthStaysWithinLimit(st: State, inputs: seq<Input>)
    requires Waiting(st.rows) <= 50
    ensures Waiting(Run(st, inputs).rows) <= 50
    decreases |inputs|
  {
    if inputs != [] {
      WaitingIsDepth(st.rows);
      WaitingIsDepth(Step(st, inputs[0]).rows);
      StepDepth(st, inputs[0]);
      DepthStaysWithinLimit(Step(st, inputs[0]), inputs[1..]);
    }
  }

  /** At the limit an event that would only have raised a counter is dropped as well: the
      rows change exactly when the event is accepted. */
  lemma FullQueueFreezesRows(st: State, item: Item)
    ensures Process(st, item).rows == st.rows <==> Judge(st, item) != Accepted
    ensures Waiting(st.rows) >= 50 ==> Process(st, item).rows == st.rows
  {
    WaitingIsDepth(st.rows);
    if Judge(st, item) == Accepted {
      var ev := item.event.value;
      UpsertTotal(st.rows, ev, Classify(ev.key.reason, ev.kind), item.wall);
    }
  }

  // ---------------------------------------------------------------- rate limit

  predicate PassesLimit(st: State, input: Input, key: Key) {
    && input.Arrival? && input.item.event.Some? && input.item.event.value.key == key
    && Judge(st, input.item) in {Ignored, Dropped, Accepted}
  }

  /** When events of the key got past the rate limiter. */
  function PassTimes(st: State, inputs: seq<Input>, key: Key): (r: seq<real>)
    decreases |inputs|
  {
    if inputs == [] then []
    else (if PassesLimit(st, inputs[0], key) then [inputs[0].item.mono] else []) + PassTimes(Step(st, inputs[0]), inputs[1..], key)
  }

  ghost predicate Spaced(last: real, times: seq<real>, gap: real)
    decreases |times|
  {
    times != [] ==> times[0] - last >= gap && Spaced(times[0], times[1..], gap)
  }

  /** Passed events of a rate-limited key are at least its limit apart, on every stream and
      whatever the clock does. The first one counts from 0.0, so it too is held back while
      the monotonic clock is below the limit. */
  lemma {:induction false} PassedEventsAreSpaced(st: State, inputs: seq<Input>, key: Key)
    requires RateLimit(key.reason).Some?
    ensures Spaced(LastPassed(st.rateLimitSeen, key), PassTimes(st, inputs, key), RateLimit(key.reason).value)
    decreases |inputs|
  {
    if inputs != [] {
      var st' := Step(st, inputs[0]);
      PassedEventsAreSpaced(st', inputs[1..], key);
      if PassesLimit(st, inputs[0], key) {
        assert LastPassed(st'.rateLimitSeen, key) == inputs[0].item.mono;
        assert PassTimes(st, inputs, key)[1..] == PassTimes(st', inputs[1..], key);
      } else {
        assert LastPassed(st'.rateLimitSeen, key) == LastPassed(st.rateLimitSeen, key);
        assert PassTimes(st, inputs, key) == PassTimes(st', inputs[1..], key);
      }
    }
  }

  /** The last of the times, or the one given if there are none. */
  function LastOf(times: seq<real>, otherwise: real): (r: real) {
    if times == [] then otherwise else times[|times| - 1]
  }

  lemma {:induction false} LimiterRemembers(st: State, inputs: seq<Input>, key: Key)
    requires RateLimit(key.reason).Some?
    ensures LastPassed(Run(st, inputs).rateLimitSeen, key)
      == LastOf(PassTimes(st, inputs, key), LastPassed(st.rateLimitSeen, key))
    decreases |inputs|
  {
    if inputs != [] {
      var st' := Step(st, inputs[0]);
      LimiterRemembers(st', inputs[1..], key);
      PassStep(st, inputs[0], key);
    }
  }

  lemma PassStep(st: State, input: Input, key: Key)
    requires RateLimit(key.reason).Some?
    ensures LastPassed(Step(st, input).rateLimitSeen, key)
      == if PassesLimit(st, input, key) then input.item.mono else LastPassed(st.rateLimitSeen, key)
  {
  }

  /** At any moment of any stream a warning is held back exactly if its reason is limited and
      the last event of its key that passed came less than the limit ago. */
  lemma LimitedExactly(st: State, inputs: seq<Input>, item: Item)
    requires item.event.Some?
    ensures var ev := item.event.value;
      var last := LastOf(PassTimes(st, inputs, ev.key), LastPassed(st.rateLimitSeen, ev.key));
      && (Judge(Run(st, inputs), item) == RateLimited ==> ev.eventType == "Warning" && RateLimit(ev.key.reason).Some?)
      && (ev.eventType == "Warning" && RateLimit(ev.key.reason).Some? ==>
            (Judge(Run(st, inputs), item) == RateLimited <==> item.mono - last < RateLimit(ev.key.reason).value))
  {
    var key := item.event.value.key;
    if RateLimit(key.reason).Some? {
      LimiterRemembers(st, inputs, key);
    }
  }

  // ---------------------------------------------------------------- what an event does

  /** When a warning "Unhealthy" of the key last got through, `from` if none has: the first and
      every one 120 s or more after the one before. */
  function LastThrough(from: real, inputs: seq<Input>, key: Key): (r: real)
    decreases |inputs|
  {
    if inputs == [] then from
    else LastThrough(if GetsThrough(from, inputs[0], key) then inputs[0].item.mono else from, inputs[1..], key)
  }

  predicate GetsThrough(last: real, input: Input, key: Key) {
    && input.Arrival? && input.item.event.Some? && input.item.event.value.key == key
    && input.item.event.value.eventType == "Warning" && input.item.mono - last >= 120.0
  }

  lemma ThroughStep(st: State, input: Input, key: Key)
    requires key.reason == "Unhealthy"
    ensures var last := LastPassed(st.rateLimitSeen, key);
      LastPassed(Step(st, input).rateLimitSeen, key) == if GetsThrough(last, input, key) then input.item.mono else last
  {
    PassStep(st, input, key);
  }

  lemma {:induction false} LimiterIsLastThrough(st: State, inputs: seq<Input>, key: Key)
    requires key.reason == "Unhealthy"
    ensures LastPassed(Run(st, inputs).rateLimitSeen, key) == LastThrough(LastPassed(st.rateLimitSeen, key), inputs, key)
    decreases |inputs|
  {
    if inputs != [] {
      ThroughStep(st, inputs[0], key);
      LimiterIsLastThrough(Step(st, inputs[0]), inputs[1..], key);
    }
  }

  /** At any moment of any run, a wanted warning adds one to the sum of counts if fewer than 50
      rows are queued, and one to the backpressure counter otherwise; no other event adds to
      either. */
  lemma WantedEventsCount(st: State, inputs: seq<Input>, item: Item)
    ensures var before := Run(st, inputs);
      var after := Step(before, Arrival(item));
      var wanted := item.event.Some? && (var ev := item.event.value;
        Wanted(ev, item.mono, LastThrough(LastPassed(st.rateLimitSeen, ev.key), inputs, ev.key)));
      && Total(after.rows) == Total(before.rows) + (if wanted && Waiting(before.rows) < 50 then 1 else 0)
      && after.backpressure == before.backpressure + (if wanted && Waiting(before.rows) >= 50 then 1 else 0)
  {
    var before := Run(st, inputs);
    StepTotal(before, Arrival(item));
    JudgedExactly(before, item);
    if item.event.Some? && item.event.value.key.reason == "Unhealthy" {
      LimiterIsLastThrough(st, inputs, item.event.value.key);
    }
  }

  /** A queued row of the key last seen less than 60 s ago. */
  predicate Fresh(row: Row, key: Key, now: real) {
    row.key == key && row.status == Queued && now - row.lastSeen < 60.0
  }

  predicate Bumped(rows: seq<Row>, i: nat, after: seq<Row>, now: real)
    requires i < |rows|
  {
    after == rows[i := rows[i].(count := rows[i].count + 1, lastSeen := now)]
  }

  lemma UpsertWrites(rows: seq<Row>, ev: Event, fixClass: string, now: real)
    ensures var after := Upsert(rows, ev, fixClass, now);
      if exists i :: 0 <= i < |rows| && Fresh(rows[i], ev.key, now)
      then exists i :: 0 <= i < |rows| && Fresh(rows[i], ev.key, now) && Bumped(rows, i, after, now)
      else after == rows + [Row(ev.key, ev.kind, fixClass, now, now, 1, Queued)]
  {
    FindMeaning(rows, ev.key, now);
    var i := Find(rows, ev.key, now);
    var after := Upsert(rows, ev, fixClass, now);
    assert forall k :: 0 <= k < |rows| ==> (Fresh(rows[k], ev.key, now) <==> InWindow(rows[k], ev.key, now));
    if i < |rows| {
      assert Fresh(rows[i], ev.key, now) && Bumped(rows, i, after, now);
    }
  }

  /** What a wanted warning writes while there is room: it raises the count of a queued row of
      its key last seen in the 60 s before, or if there is none appends a row of its own. */
  lemma WantedEventsWrite(st: State, item: Item)
    requires item.event.Some? && Waiting(st.rows) < 50
    requires Wanted(item.event.value, item.mono, LastPassed(st.rateLimitSeen, item.event.value.key))
    ensures var ev, rows, now := item.event.value, st.rows, item.wall;
      var after := Step(st, Arrival(item)).rows;
      if exists i :: 0 <= i < |rows| && Fresh(rows[i], ev.key, now)
      then exists i :: 0 <= i < |rows| && Fresh(rows[i], ev.key, now) && Bumped(rows, i, after, now)
      else after == rows + [Row(ev.key, ev.kind, Classify(ev.key.reason, ev.kind), now, now, 1, Queued)]
  {
    var ev := item.event.value;
    JudgedExactly(st, item);
    UpsertWrites(st.rows, ev, Classify(ev.key.reason, ev.kind), item.wall);
  }

  // ---------------------------------------------------------------- resource version

  /** What the input sets the resource version to, if it touches it: an event's own version,
      or none after a 410 answer. */
  function VersionSet(input: Input): (r: Option<string>) {
    match input
    case Arrival(item) =>
      if item.event.Some? && item.event.value.resourceVersion != "" then Some(item.event.value.resourceVersion) else None
    case Move(_, _) => None
    case Gone => Some("")
  }

  lemma {:induction false} VersionKept(st: State, inputs: seq<Input>)
    requires forall i :: 0 <= i < |inputs| ==> VersionSet(inputs[i]).None?
    ensures Run(st, inputs).lastRv == st.lastRv
    decreases |inputs|
  {
    if inputs != [] {
      assert VersionSet(inputs[0]).None?;
      assert forall i :: 0 <= i < |inputs[1..]| ==> inputs[1..][i] == inputs[i + 1];
      VersionKept(Step(st, inputs[0]), inputs[1..]);
    }
  }

  /** A reconnect resumes after the last event that carried a version, whether that event was
      used, held back, ignored or dropped, or from scratch if a 410 answer came later. */
  lemma {:induction false} VersionIsLatest(st: State, inputs: seq<Input>, i: nat)
    requires i < |inputs| && VersionSet(inputs[i]).Some?
    requires forall j :: i < j < |inputs| ==> VersionSet(inputs[j]).None?
    ensures Run(st, inputs).lastRv == VersionSet(inputs[i]).value
    decreases |inputs|
  {
    var rest := inputs[1..];
    assert forall j :: 0 <= j < |rest| ==> rest[j] == inputs[j + 1];
    if i == 0 {
      VersionKept(Step(st, inputs[0]), rest);
    } else {
      VersionIsLatest(Step(st, inputs[0]), rest, i - 1);
    }
  }

  // ---------------------------------------------------------------- one row in the window

  /** Clock readings of the stream never go back. */
  ghost predicate Monotone(clock: real, inputs: seq<Input>)
    decreases |inputs|
  {
    inputs != [] ==>
      && (inputs[0].Arrival? ==> clock <= inputs[0].item.wall)
      && Monotone(if inputs[0].Arrival? then inputs[0].item.wall else clock, inputs[1..])
  }

  function ClockAfter(clock: real, input: Input): (r: real) {
    if input.Arrival? then input.item.wall else clock
  }

  /** No row is from the future, and a row still queued shares no window with a later row of
      its key, queued or not. */
  ghost predicate Separated(rows: seq<Row>, clock: real) {
    && (forall i :: 0 <= i < |rows| ==> rows[i].firstSeen <= rows[i].lastSeen <= clock)
    && (forall i, j :: 0 <= i < j < |rows| && rows[i].key == rows[j].key && rows[i].status == Queued
          ==> rows[i].lastSeen + DEDUP_WINDOW <= rows[j].firstSeen)
  }

  lemma StepKeepsSeparated(st: State, input: Input, clock: real)
    requires Separated(st.rows, clock) && (input.Arrival? ==> clock <= input.item.wall)
    ensures Separated(Step(st, input).rows, ClockAfter(clock, input))
  {
    match input
    case Arrival(item) => ArrivalKeepsSeparated(st, item, clock);
    case Move(i, status) =>
    case Gone =>
  }

  lemma ArrivalKeepsSeparated(st: State, item: Item, clock: real)
    requires Separated(st.rows, clock) && clock <= item.wall
    ensures Separated(Process(st, item).rows, item.wall)
  {
    if Judge(st, item) == Accepted {
      var ev := item.event.value;
      UpsertKeepsSeparated(st.rows, ev, Classify(ev.key.reason, ev.kind), clock, item.wall);
    }
  }

  lemma UpsertKeepsSeparated(rows: seq<Row>, ev: Event, fixClass: string, clock: real, now: real)
    requires Separated(rows, clock) && clock <= now
    ensures Separated(Upsert(rows, ev, fixClass, now), now)
  {
    FindMeaning(rows, ev.key, now);
    var i := Find(rows, ev.key, now);
    if i < |rows| {
      BumpKeepsSeparated(rows, i, ev.key, clock, now);
    }
  }

  lemma BumpKeepsSeparated(rows: seq<Row>, i: nat, key: Key, clock: real, now: real)
    requires Separated(rows, clock) && clock <= now && i < |rows| && InWindow(rows[i], key, now)
    ensures Separated(rows[i := rows[i].(count := rows[i].count + 1, lastSeen := now)], now)
  {
  }

  ghost predicate OneInWindow(rows: seq<Row>, key: Key, now: real) {
    forall i, j :: 0 <= i < |rows| && 0 <= j < |rows| && InWindow(rows[i], key, now) && InWindow(rows[j], key, now) ==> i == j
  }

  /** At most one queued row per key is ever inside the window, so which of several matching
      rows the query returns never matters. */
  lemma {:induction false} OneRowPerWindow(st: State, inputs: seq<Input>, clock: real, key: Key, now: real)
    requires Separated(st.rows, clock) && Monotone(clock, inputs)
    requires forall k :: 0 <= k < |inputs| && inputs[k].Arrival? ==> inputs[k].item.wall <= now
    requires clock <= now
    ensures OneInWindow(Run(st, inputs).rows, key, now)
    decreases |inputs|
  {
    if inputs == [] {
      SeparatedMeansOne(st.rows, clock, key, now);
    } else {
      StepKeepsSeparated(st, inputs[0], clock);
      OneRowPerWindow(Step(st, inputs[0]), inputs[1..], ClockAfter(clock, inputs[0]), key, now);
    }
  }

  lemma SeparatedMeansOne(rows: seq<Row>, clock: real, key: Key, now: real)
    requires Separated(rows, clock) && clock <= now
    ensures OneInWindow(rows, key, now)
  {
    forall i, j | 0 <= i < j < |rows|
      ensures !(InWindow(rows[i], key, now) && InWindow(rows[j], key, now))
    {
    }
  }
}
