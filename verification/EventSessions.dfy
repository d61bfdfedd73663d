/** The rows of a key are the sessions of its accepted events: the stream is cut wherever two
    neighbours are a window or more apart, and wherever the newest row has left the queue. */
module EventSessions {
  import opened IdOrder
  import opened Options
  import opened EventWatcher
  import opened EventRuns

  // ---------------------------------------------------------------- sessions

  /** An accepted event of a key; parted if no queued row of the key was the newest then. */
  datatype Hit = Hit(at: real, parted: bool)

  predicate Joins(a: Hit, b: Hit) {
    !b.parted && b.at - a.at < 60.0
  }

  /** All neighbours in the group join. */
  ghost predicate Tight(group: seq<Hit>) {
    group != [] && forall i, j :: 0 <= i < |group| && j == i + 1 && j < |group| ==> Joins(group[i], group[j])
  }

  /** Groups cut a list of hits into sessions. */
  ghost predicate CutsInto(times: seq<Hit>, groups: seq<seq<Hit>>)
    decreases |groups|
  {
    if groups == [] then times == []
    else
      var g := groups[0];
      && StartsWith(times, g)
      && CutsInto(times[|g|..], groups[1..])
  }

  lemma {:induction false} CutIsUnique(times: seq<Hit>, a: seq<seq<Hit>>, b: seq<seq<Hit>>)
    requires CutsInto(times, a) && CutsInto(times, b)
    ensures a == b
    decreases |a|
  {
    if a != [] && b != [] {
      FirstGroupUnique(times, a[0], b[0]);
      CutIsUnique(times[|a[0]|..], a[1..], b[1..]);
      assert a == [a[0]] + a[1..] && b == [b[0]] + b[1..];
    }
  }

  /** The list starts with this group, and the next hit does not join it. */
  ghost predicate StartsWith(times: seq<Hit>, g: seq<Hit>) {
    Tight(g) && g <= times && (|g| < |times| ==> !Joins(g[|g| - 1], times[|g|]))
  }

  lemma TightAt(g: seq<Hit>, i: nat)
    requires Tight(g) && i + 1 < |g|
    ensures Joins(g[i], g[i + 1])
  {
    var j := i + 1;
    assert Joins(g[i], g[j]);
  }

  lemma NotLonger(times: seq<Hit>, g: seq<Hit>, h: seq<Hit>)
    requires StartsWith(times, g) && StartsWith(times, h)
    ensures |h| <= |g|
  {
    var last: nat := |g| - 1;
    if |g| < |h| {
      TightAt(h, last);
    }
  }

  lemma FirstGroupUnique(times: seq<Hit>, g: seq<Hit>, h: seq<Hit>)
    requires StartsWith(times, g) && StartsWith(times, h)
    ensures g == h
  {
    NotLonger(times, g, h);
    NotLonger(times, h, g);
  }

  /** Sessions with one more time at the end: the fast form. */
  function Extend(groups: seq<seq<Hit>>, t: Hit): (r: seq<seq<Hit>>) {
    if groups != [] && groups[|groups| - 1] != [] && Joins(Last(groups[|groups| - 1]), t)
    then groups[|groups| - 1 := groups[|groups| - 1] + [t]]
    else groups + [[t]]
  }

  function Last(group: seq<Hit>): (r: Hit)
    requires group != []
  {
    group[|group| - 1]
  }

  lemma CutSingleton(t: Hit)
    ensures CutsInto([t], [[t]])
  {
    assert [[t]][1..] == [];
    assert [t][1..] == [];
    assert CutsInto([], []);
  }

  lemma StartsLonger(times: seq<Hit>, g: seq<Hit>, t: Hit)
    requires StartsWith(times, g) && |g| < |times|
    ensures StartsWith(times + [t], g) && (times + [t])[|g|..] == times[|g|..] + [t]
  {
  }

  lemma ExtendPrepend(g: seq<Hit>, rest: seq<seq<Hit>>, t: Hit)
    requires rest != []
    ensures Extend([g] + rest, t) == [g] + Extend(rest, t)
  {
    var groups := [g] + rest;
    assert groups[|groups| - 1] == rest[|rest| - 1];
  }

  /** Extending the cut of a list by one more time gives the cut of the longer list. */
  lemma {:induction false} ExtendCuts(times: seq<Hit>, groups: seq<seq<Hit>>, t: Hit)
    requires CutsInto(times, groups)
    ensures CutsInto(times + [t], Extend(groups, t))
    decreases |groups|
  {
    if groups == [] {
      CutSingleton(t);
      assert times + [t] == [t];
    } else if |groups| == 1 {
      ExtendLast(times, groups[0], t);
      assert groups == [groups[0]];
    } else {
      var g, rest := groups[0], groups[1..];
      ExtendCuts(times[|g|..], rest, t);
      ExtendPrepend(g, rest, t);
      assert groups == [g] + rest;
      assert StartsWith(times[|g|..], rest[0]);
      StartsLonger(times, g, t);
      CutPrepend(times + [t], times[|g|..] + [t], g, Extend(rest, t));
    }
  }

  lemma CutPrepend(times: seq<Hit>, tail: seq<Hit>, g: seq<Hit>, rest: seq<seq<Hit>>)
    requires StartsWith(times, g) && times[|g|..] == tail && CutsInto(tail, rest)
    ensures CutsInto(times, [g] + rest)
  {
    assert ([g] + rest)[1..] == rest;
  }

  lemma ExtendLast(times: seq<Hit>, g: seq<Hit>, t: Hit)
    requires CutsInto(times, [g])
    ensures CutsInto(times + [t], Extend([g], t))
  {
    assert [g][1..] == [];
    assert times[|g|..] == [];
    assert times == g;
    var next := Extend([g], t);
    if Joins(Last(g), t) {
      var h := g + [t];
      assert next == [h] && next[1..] == [];
      assert Tight(h) by {
        forall i, j | 0 <= i < |h| && j == i + 1 && j < |h|
          ensures Joins(h[i], h[j])
        {
          if j < |g| {
            assert Joins(g[i], g[j]);
          }
        }
      }
      assert (times + [t])[|h|..] == [];
    } else {
      assert next == [g, [t]] && next[1..] == [[t]] && next[1..][1..] == [];
      assert (times + [t])[|g|..] == [t];
      CutSingleton(t);
    }
  }

  // ---------------------------------------------------------------- rows as summaries

  datatype Summary = Summary(firstSeen: real, lastSeen: real, count: nat)

  ghost predicate NoneEmpty(groups: seq<seq<Hit>>) {
    forall i :: 0 <= i < |groups| ==> groups[i] != []
  }

  ghost function SummaryOf(group: seq<Hit>): (r: Summary)
    requires group != []
  {
    Summary(group[0].at, Last(group).at, |group|)
  }

  ghost function Summarize(groups: seq<seq<Hit>>): (r: seq<Summary>)
    requires NoneEmpty(groups)
    ensures |r| == |groups|
  {
    if groups == [] then [] else [SummaryOf(groups[0])] + Summarize(groups[1..])
  }

  lemma {:induction false} CutsNonempty(times: seq<Hit>, groups: seq<seq<Hit>>)
    requires CutsInto(times, groups)
    ensures NoneEmpty(groups)
    decreases |groups|
  {
    if groups != [] {
      CutsNonempty(times[|groups[0]|..], groups[1..]);
      forall i | 0 <= i < |groups|
        ensures groups[i] != []
      {
        assert i > 0 ==> groups[i] == groups[1..][i - 1];
      }
    }
  }

  lemma {:induction false} SummarizeAt(groups: seq<seq<Hit>>, i: nat)
    requires NoneEmpty(groups) && i < |groups|
    ensures Summarize(groups)[i] == SummaryOf(groups[i])
  {
    if i > 0 {
      SummarizeAt(groups[1..], i - 1);
    }
  }

  /** What the rows of a key say, oldest first. */
  function KeyRows(rows: seq<Row>, key: Key): (r: seq<Summary>) {
    if rows == [] then []
    else
      (if rows[0].key == key then [Summary(rows[0].firstSeen, rows[0].lastSeen, rows[0].count)] else [])
      + KeyRows(rows[1..], key)
  }

  lemma {:induction false} KeyRowsConcat(a: seq<Row>, b: seq<Row>, key: Key)
    ensures KeyRows(a + b, key) == KeyRows(a, key) + KeyRows(b, key)
  {
    if a == [] {
      assert a + b == b;
    } else {
      assert (a + b)[1..] == a[1..] + b;
      KeyRowsConcat(a[1..], b, key);
    }
  }

  lemma {:induction false} NoKeyRows(rows: seq<Row>, key: Key)
    requires forall i :: 0 <= i < |rows| ==> rows[i].key != key
    ensures KeyRows(rows, key) == []
  {
    if rows != [] {
      NoKeyRows(rows[1..], key);
    }
  }

  /** The place of the newest row of the key. */
  function Newest(rows: seq<Row>, key: Key): (r: Option<nat>)
    ensures r.Some? ==> r.value < |rows| && rows[r.value].key == key
    ensures r.Some? ==> forall j :: r.value < j < |rows| ==> rows[j].key != key
    ensures r.None? ==> forall j :: 0 <= j < |rows| ==> rows[j].key != key
  {
    if rows == [] then None
    else
      var n := |rows| - 1;
      if rows[n].key == key then Some(n) else Newest(rows[..n], key)
  }

  predicate NewestQueued(rows: seq<Row>, key: Key) {
    Newest(rows, key).Some? && rows[Newest(rows, key).value].status == Queued
  }

  /** The accepted events of the key over a whole run, by the wall clock. */
  function Hits(st: State, inputs: seq<Input>, key: Key): (r: seq<Hit>)
    decreases |inputs|
  {
    if inputs == [] then [] else HitOf(st, inputs[0], key) + Hits(Step(st, inputs[0]), inputs[1..], key)
  }

  predicate IsHit(st: State, input: Input, key: Key) {
    input.Arrival? && Judge(st, input.item) == Accepted && input.item.event.value.key == key
  }

  function HitOf(st: State, input: Input, key: Key): (r: seq<Hit>) {
    if IsHit(st, input, key) then [Hit(input.item.wall, !NewestQueued(st.rows, key))] else []
  }

  lemma KeyRowsSplit(rows: seq<Row>, i: nat, row: Row, key: Key)
    requires i < |rows|
    ensures KeyRows(rows, key) == KeyRows(rows[..i], key) + (KeyRows([rows[i]], key) + KeyRows(rows[i + 1..], key))
    ensures KeyRows(rows[i := row], key) == KeyRows(rows[..i], key) + (KeyRows([row], key) + KeyRows(rows[i + 1..], key))
  {
    assert rows == rows[..i] + ([rows[i]] + rows[i + 1..]);
    assert rows[i := row] == rows[..i] + ([row] + rows[i + 1..]);
    KeyRowsConcat(rows[..i], [rows[i]] + rows[i + 1..], key);
    KeyRowsConcat(rows[..i], [row] + rows[i + 1..], key);
    KeyRowsConcat([rows[i]], rows[i + 1..], key);
    KeyRowsConcat([row], rows[i + 1..], key);
  }

  function SummaryOfRow(row: Row): (r: Summary) {
    Summary(row.firstSeen, row.lastSeen, row.count)
  }

  lemma OneRow(row: Row, key: Key)
    ensures KeyRows([row], key) == if row.key == key then [SummaryOfRow(row)] else []
  {
    assert [row][1..] == [];
  }

  /** The newest row of a key is the last of its summaries. */
  lemma NewestIsLast(rows: seq<Row>, key: Key)
    ensures Newest(rows, key).None? ==> KeyRows(rows, key) == []
    ensures Newest(rows, key).Some? ==>
      var k := Newest(rows, key).value;
      KeyRows(rows, key) == KeyRows(rows[..k], key) + [SummaryOfRow(rows[k])]
  {
    match Newest(rows, key)
    case None => NoKeyRows(rows, key);
    case Some(k) =>
      NoneAfter(rows, key, k);
      KeyRowsEnding(rows, k, rows[k], key);
  }

  lemma NoneAfter(rows: seq<Row>, key: Key, k: nat)
    requires k < |rows| && forall j :: k < j < |rows| ==> rows[j].key != key
    ensures KeyRows(rows[k + 1..], key) == []
  {
    NoKeyRows(rows[k + 1..], key);
  }

  /** The rows of the key are the sessions of the hits seen so far. */
  ghost predicate RowsAreSessions(rows: seq<Row>, key: Key, times: seq<Hit>, groups: seq<seq<Hit>>) {
    CutsInto(times, groups) && NoneEmpty(groups) && KeyRows(rows, key) == Summarize(groups)
  }

  lemma {:induction false} SummarizeSnoc(groups: seq<seq<Hit>>, g: seq<Hit>)
    requires NoneEmpty(groups) && g != []
    ensures NoneEmpty(groups + [g]) && Summarize(groups + [g]) == Summarize(groups) + [SummaryOf(g)]
  {
    if groups == [] {
      assert groups + [g] == [g] && [g][1..] == [];
    } else {
      SummarizeSnoc(groups[1..], g);
      assert (groups + [g])[1..] == groups[1..] + [g];
    }
  }

  lemma ExtendSummary(groups: seq<seq<Hit>>, t: Hit)
    requires NoneEmpty(groups) && groups != [] && Joins(Last(groups[|groups| - 1]), t)
    ensures var front, g := groups[..|groups| - 1], groups[|groups| - 1];
      && NoneEmpty(front) && NoneEmpty(Extend(groups, t))
      && Summarize(groups) == Summarize(front) + [SummaryOf(g)]
      && Summarize(Extend(groups, t)) == Summarize(front) + [SummaryOf(g + [t])]
  {
    var front, g := groups[..|groups| - 1], groups[|groups| - 1];
    SummarizeSnoc(front, g);
    SummarizeSnoc(front, g + [t]);
    assert groups == front + [g];
    assert Extend(groups, t) == front + [g + [t]];
  }

  lemma Unsnoc<T>(a: seq<T>, x: T, b: seq<T>, y: T)
    requires a + [x] == b + [y]
    ensures a == b && x == y
  {
    assert |a + [x]| == |b + [y]|;
    assert a == (a + [x])[..|a|] && b == (b + [y])[..|b|];
    assert (a + [x])[|a|] == x && (b + [y])[|b|] == y;
  }

  function Bumped(row: Row, now: real): (r: Row) {
    row.(count := row.count + 1, lastSeen := now)
  }

  lemma BumpIsExtend(rows: seq<Row>, key: Key, i: nat, now: real, groups: seq<seq<Hit>>)
    requires NoneEmpty(groups) && KeyRows(rows, key) == Summarize(groups)
    requires Newest(rows, key) == Some(i) && InWindow(rows[i], key, now)
    ensures NoneEmpty(Extend(groups, Hit(now, false)))
    ensures KeyRows(rows[i := Bumped(rows[i], now)], key) == Summarize(Extend(groups, Hit(now, false)))
  {
    NoneAfter(rows, key, i);
    KeyRowsEnding(rows, i, Bumped(rows[i], now), key);
    BumpedSummary(KeyRows(rows[..i], key), SummaryOfRow(rows[i]), groups, now);
  }

  lemma KeyRowsEnding(rows: seq<Row>, i: nat, row: Row, key: Key)
    requires i < |rows| && rows[i].key == row.key == key && KeyRows(rows[i + 1..], key) == []
    ensures KeyRows(rows, key) == KeyRows(rows[..i], key) + [SummaryOfRow(rows[i])]
    ensures KeyRows(rows[i := row], key) == KeyRows(rows[..i], key) + [SummaryOfRow(row)]
  {
    KeyRowsSplit(rows, i, row, key);
    OneRow(rows[i], key);
    OneRow(row, key);
  }

  /** The last summary of the sessions is in the window: bumping it extends the last session. */
  lemma BumpedSummary(before: seq<Summary>, last: Summary, groups: seq<seq<Hit>>, now: real)
    requires NoneEmpty(groups) && Summarize(groups) == before + [last] && now - last.lastSeen < DEDUP_WINDOW
    ensures NoneEmpty(Extend(groups, Hit(now, false)))
    ensures Summarize(Extend(groups, Hit(now, false))) == before + [Summary(last.firstSeen, now, last.count + 1)]
  {
    var front, g := groups[..|groups| - 1], groups[|groups| - 1];
    SummarizeSnoc(front, g);
    assert groups == front + [g];
    Unsnoc(before, last, Summarize(front), SummaryOf(g));
    ExtendSummary(groups, Hit(now, false));
  }

  lemma OlderIsOut(rows: seq<Row>, key: Key, now: real, clock: real)
    requires Separated(rows, clock) && clock <= now
    ensures forall i, k :: 0 <= i < k < |rows| && rows[k].key == key ==> !InWindow(rows[i], key, now)
  {
  }

  /** A row in the window is the newest of its key. */
  lemma InWindowIsNewest(rows: seq<Row>, key: Key, i: nat, now: real, clock: real)
    requires Separated(rows, clock) && clock <= now
    requires i < |rows| && InWindow(rows[i], key, now)
    ensures Newest(rows, key) == Some(i)
  {
    OlderIsOut(rows, key, now, clock);
  }

  lemma AppendSummary(groups: seq<seq<Hit>>, t: Hit)
    requires NoneEmpty(groups) && (groups != [] ==> !Joins(Last(groups[|groups| - 1]), t))
    ensures NoneEmpty(Extend(groups, t))
    ensures Summarize(Extend(groups, t)) == Summarize(groups) + [Summary(t.at, t.at, 1)]
  {
    SummarizeSnoc(groups, [t]);
  }

  /** No row of the key is in the window: the new row is a new session. */
  lemma NewRowIsExtend(rows: seq<Row>, row: Row, h: Hit, groups: seq<seq<Hit>>)
    requires NoneEmpty(groups) && KeyRows(rows, row.key) == Summarize(groups)
    requires SummaryOfRow(row) == Summary(h.at, h.at, 1) && h.parted == !NewestQueued(rows, row.key)
    requires forall i :: 0 <= i < |rows| ==> !InWindow(rows[i], row.key, h.at)
    ensures NoneEmpty(Extend(groups, h))
    ensures KeyRows(rows + [row], row.key) == Summarize(Extend(groups, h))
  {
    NothingToJoin(rows, row.key, h, groups);
    AppendSummary(groups, h);
    KeyRowsConcat(rows, [row], row.key);
    OneRow(row, row.key);
  }

  lemma NothingToJoin(rows: seq<Row>, key: Key, h: Hit, groups: seq<seq<Hit>>)
    requires NoneEmpty(groups) && KeyRows(rows, key) == Summarize(groups)
    requires h.parted == !NewestQueued(rows, key)
    requires forall i :: 0 <= i < |rows| ==> !InWindow(rows[i], key, h.at)
    ensures groups != [] ==> !Joins(Last(groups[|groups| - 1]), h)
  {
    NewestIsLast(rows, key);
    if groups != [] && Newest(rows, key).Some? {
      var k := Newest(rows, key).value;
      SummarizeAt(groups, |groups| - 1);
      assert KeyRows(rows, key)[|groups| - 1] == SummaryOfRow(rows[k]);
      assert !InWindow(rows[k], key, h.at);
    }
  }

  /** One accepted event of the key: the fast update is the sessions with one more hit. */
  lemma UpsertExtends(rows: seq<Row>, ev: Event, fixClass: string, now: real, clock: real,
                      times: seq<Hit>, groups: seq<seq<Hit>>)
    requires Separated(rows, clock) && clock <= now
    requires RowsAreSessions(rows, ev.key, times, groups)
    ensures var h := Hit(now, !NewestQueued(rows, ev.key));
      RowsAreSessions(Upsert(rows, ev, fixClass, now), ev.key, times + [h], Extend(groups, h))
  {
    var h := Hit(now, !NewestQueued(rows, ev.key));
    var i := Find(rows, ev.key, now);
    ExtendCuts(times, groups, h);
    FindMeaning(rows, ev.key, now);
    if i < |rows| {
      InWindowIsNewest(rows, ev.key, i, now, clock);
      BumpIsExtend(rows, ev.key, i, now, groups);
    } else {
      NewRowIsExtend(rows, Row(ev.key, ev.kind, fixClass, now, now, 1, Queued), h, groups);
    }
  }

  /** An accepted event of another key leaves the rows of this key alone. */
  lemma UpsertOther(rows: seq<Row>, ev: Event, fixClass: string, now: real, key: Key)
    requires ev.key != key
    ensures KeyRows(Upsert(rows, ev, fixClass, now), key) == KeyRows(rows, key)
  {
    var i := Find(rows, ev.key, now);
    FindMeaning(rows, ev.key, now);
    if i < |rows| {
      var row := rows[i].(count := rows[i].count + 1, lastSeen := now);
      KeyRowsSplit(rows, i, row, key);
      OneRow(row, key);
      OneRow(rows[i], key);
    } else {
      var row := Row(ev.key, ev.kind, fixClass, now, now, 1, Queued);
      KeyRowsConcat(rows, [row], key);
      OneRow(row, key);
    }
  }

  function SessionsAfter(st: State, input: Input, key: Key, groups: seq<seq<Hit>>): (r: seq<seq<Hit>>) {
    if IsHit(st, input, key) then Extend(groups, Hit(input.item.wall, !NewestQueued(st.rows, key))) else groups
  }

  lemma AcceptedSession(st: State, item: Item, key: Key, clock: real, times: seq<Hit>, groups: seq<seq<Hit>>)
    requires Separated(st.rows, clock) && clock <= item.wall
    requires RowsAreSessions(st.rows, key, times, groups) && Judge(st, item) == Accepted
    ensures var input := Arrival(item);
      RowsAreSessions(Process(st, item).rows, key, times + HitOf(st, input, key), SessionsAfter(st, input, key, groups))
  {
    var ev := item.event.value;
    var fixClass := Classify(ev.key.reason, ev.kind);
    assert Process(st, item).rows == Upsert(st.rows, ev, fixClass, item.wall);
    if ev.key == key {
      UpsertExtends(st.rows, ev, fixClass, item.wall, clock, times, groups);
    } else {
      assert times + [] == times;
      UpsertOther(st.rows, ev, fixClass, item.wall, key);
    }
  }

  /** A row that leaves the queue says what it said before. */
  lemma MoveKeepsKeyRows(st: State, i: nat, status: RowStatus, key: Key)
    ensures KeyRows(Step(st, Move(i, status)).rows, key) == KeyRows(st.rows, key)
  {
    if i < |st.rows| {
      var row := st.rows[i].(status := status);
      KeyRowsSplit(st.rows, i, row, key);
      OneRow(row, key);
      OneRow(st.rows[i], key);
    }
  }

  /** What one input does to the sessions of a key. */
  lemma SessionStep(st: State, input: Input, key: Key, clock: real, times: seq<Hit>, groups: seq<seq<Hit>>)
    requires Separated(st.rows, clock) && (input.Arrival? ==> clock <= input.item.wall)
    requires RowsAreSessions(st.rows, key, times, groups)
    ensures RowsAreSessions(Step(st, input).rows, key, times + HitOf(st, input, key), SessionsAfter(st, input, key, groups))
  {
    assert times + [] == times;
    match input
    case Arrival(item) =>
      if Judge(st, item) == Accepted {
        AcceptedSession(st, item, key, clock, times, groups);
      }
    case Move(i, status) =>
      MoveKeepsKeyRows(st, i, status, key);
    case Gone =>
  }

  /** On every stream, whatever a worker takes out of the queue meanwhile, while the clock does
      not go back the rows of every key are, at every moment, the sessions of its hits. By
      CutIsUnique there is only one way to cut them. */
  lemma {:induction false} RowsAreSessionsAlways(st: State, inputs: seq<Input>, key: Key, clock: real,
                                                times: seq<Hit>, groups: seq<seq<Hit>>)
    returns (after: seq<seq<Hit>>)
    requires Separated(st.rows, clock) && Monotone(clock, inputs)
    requires RowsAreSessions(st.rows, key, times, groups)
    ensures RowsAreSessions(Run(st, inputs).rows, key, times + Hits(st, inputs, key), after)
    decreases |inputs|
  {
    if inputs == [] {
      after := groups;
      assert times + [] == times;
    } else {
      var input := inputs[0];
      SessionStep(st, input, key, clock, times, groups);
      StepKeepsSeparated(st, input, clock);
      var hit := HitOf(st, input, key);
      after := RowsAreSessionsAlways(Step(st, input), inputs[1..], key, ClockAfter(clock, input), times + hit,
                                    SessionsAfter(st, input, key, groups));
      Assoc(times, hit, Hits(Step(st, input), inputs[1..], key));
    }
  }

  /** From an empty queue. */
  lemma RowsAreTheSessions(st: State, inputs: seq<Input>, key: Key, clock: real) returns (groups: seq<seq<Hit>>)
    requires st.rows == [] && Monotone(clock, inputs)
    ensures CutsInto(Hits(st, inputs, key), groups) && NoneEmpty(groups)
    ensures KeyRows(Run(st, inputs).rows, key) == Summarize(groups)
  {
    groups := RowsAreSessionsAlways(st, inputs, key, clock, [], []);
    assert [] + Hits(st, inputs, key) == Hits(st, inputs, key);
  }

  // ---------------------------------------------------------------- what parts two hits

  /** The input takes the newest row of the key out of the queue. */
  predicate TakesNewest(st: State, input: Input, key: Key) {
    input.Move? && input.status != Queued && Newest(st.rows, key) == Some(input.row)
  }

  lemma NewestAppend(rows: seq<Row>, row: Row, key: Key)
    ensures Newest(rows + [row], key) == if row.key == key then Some(|rows|) else Newest(rows, key)
  {
    assert (rows + [row])[..|rows + [row]| - 1] == rows;
  }

  lemma {:induction false} SameNewest(a: seq<Row>, b: seq<Row>, key: Key)
    requires |a| == |b| && forall i :: 0 <= i < |a| ==> a[i].key == b[i].key
    ensures Newest(a, key) == Newest(b, key)
  {
    if a != [] {
      SameNewest(a[..|a| - 1], b[..|b| - 1], key);
    }
  }

  /** The newest row of a key is queued after a hit, not after it has been taken out, and else
      as before: so a hit is parted from the one before exactly by a row taken out between. */
  lemma PartedExactly(st: State, input: Input, key: Key, clock: real)
    requires Separated(st.rows, clock) && (input.Arrival? ==> clock <= input.item.wall)
    ensures NewestQueued(Step(st, input).rows, key)
      <==> IsHit(st, input, key) || (NewestQueued(st.rows, key) && !TakesNewest(st, input, key))
  {
    match input
    case Arrival(item) =>
      if Judge(st, item) == Accepted {
        UpsertNewest(st.rows, item.event.value, item.wall, clock, key);
      }
    case Move(i, status) =>
      if i < |st.rows| && status != Queued {
        SameNewest(st.rows[i := st.rows[i].(status := status)], st.rows, key);
      }
    case Gone =>
  }

  lemma BumpNewest(rows: seq<Row>, i: nat, own: Key, now: real, key: Key)
    requires i < |rows| && InWindow(rows[i], own, now) && Newest(rows, own) == Some(i)
    ensures NewestQueued(rows[i := Bumped(rows[i], now)], key) <==> own == key || NewestQueued(rows, key)
  {
    SameNewest(rows[i := Bumped(rows[i], now)], rows, key);
  }

  lemma UpsertNewest(rows: seq<Row>, ev: Event, now: real, clock: real, key: Key)
    requires Separated(rows, clock) && clock <= now
    ensures NewestQueued(Upsert(rows, ev, Classify(ev.key.reason, ev.kind), now), key)
      <==> ev.key == key || NewestQueued(rows, key)
  {
    var i := Find(rows, ev.key, now);
    FindMeaning(rows, ev.key, now);
    if i < |rows| {
      InWindowIsNewest(rows, ev.key, i, now, clock);
      BumpNewest(rows, i, ev.key, now, key);
    } else {
      NewestAppend(rows, Row(ev.key, ev.kind, Classify(ev.key.reason, ev.kind), now, now, 1, Queued), key);
    }
  }
}
