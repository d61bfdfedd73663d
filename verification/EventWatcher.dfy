/** The cluster event watcher: rate limit, classification, depth limit and windowed upsert,
    applied to one event after the other. */
module EventWatcher {
  import opened Options

  const DEDUP_WINDOW: real := 60.0
  const QUEUE_DEPTH_LIMIT: nat := 50

  datatype Key = Key(ns: string, name: string, reason: string)

  datatype RowStatus = Queued | Claimed | Resolved | Escalated

  datatype Row = Row(key: Key, kind: string, fixClass: string, firstSeen: real, lastSeen: real,
                     count: nat, status: RowStatus)

  /** An event object; an absent resource version is "". */
  datatype Event = Event(eventType: string, key: Key, kind: string, resourceVersion: string)

  /** One item of the watch stream with the two clocks read while handling it. */
  datatype Item = Item(event: Option<Event>, wall: real, mono: real)

  /** The watcher and its queue. Row ids are positions. */
  datatype State = State(rows: seq<Row>, rateLimitSeen: map<Key, real>, lastRv: string, backpressure: nat)

  datatype Verdict = NoObject | NotWarning | RateLimited | Ignored | Dropped | Accepted

  function RateLimit(reason: string): (r: Option<real>) {
    if reason == "Unhealthy" then Some(120.0) else None
  }

  /** The table `REASON_TO_FIX_CLASS`. */
  function Classify(reason: string, kind: string): (r: string) {
    if kind == "Pod" then
      if reason == "BackOff" || reason == "OOMKilling" then "restart-first-ladder"
      else if reason == "ImagePullBackOff" || reason == "ErrImagePull" then "image-tag-migration"
      else if reason == "FailedScheduling" || reason == "Evicted" then "resource-shortage"
      else if reason == "FailedMount" || reason == "FailedAttachVolume" then "pvc-issue"
      else if reason == "Killing" then "ignored"
      else "unknown"
    else if kind == "Node" && reason == "NodeNotReady" then "node-issue"
    else if kind == "ReplicaSet" && reason == "FailedCreate" then "resource-shortage"
    else "unknown"
  }

  function QueueDepth(rows: seq<Row>): (n: nat) {
    if rows == [] then 0 else (if rows[0].status == Queued then 1 else 0) + QueueDepth(rows[1..])
  }

  predicate InWindow(row: Row, key: Key, now: real) {
    row.key == key && row.status == Queued && row.lastSeen > now - DEDUP_WINDOW
  }

  /** The position of a queued in-window row of the key, |rows| if there is none. */
  function Find(rows: seq<Row>, key: Key, now: real): (i: nat)
    ensures i <= |rows|
  {
    if rows == [] || InWindow(rows[0], key, now) then 0 else 1 + Find(rows[1..], key, now)
  }

  lemma {:induction false} FindMeaning(rows: seq<Row>, key: Key, now: real)
    ensures var i := Find(rows, key, now);
      && (i < |rows| ==> InWindow(rows[i], key, now))
      && (forall k :: 0 <= k < i ==> !InWindow(rows[k], key, now))
  {
    if rows != [] && !InWindow(rows[0], key, now) {
      FindMeaning(rows[1..], key, now);
      var i := Find(rows[1..], key, now);
      forall k | 0 <= k < i + 1
        ensures !InWindow(rows[k], key, now)
      {
        if k > 0 {
          assert rows[k] == rows[1..][k - 1];
        }
      }
    }
  }

  function Upsert(rows: seq<Row>, ev: Event, fixClass: string, now: real): (r: seq<Row>) {
    var i := Find(rows, ev.key, now);
    if i < |rows| then rows[i := rows[i].(count := rows[i].count + 1, lastSeen := now)]
    else rows + [Row(ev.key, ev.kind, fixClass, now, now, 1, Queued)]
  }

  function LastPassed(seen: map<Key, real>, key: Key): (r: real) {
    if key in seen then seen[key] else 0.0
  }

  predicate IsLimited(seen: map<Key, real>, key: Key, now: real) {
    RateLimit(key.reason).Some? && now - LastPassed(seen, key) < RateLimit(key.reason).value
  }

  function Judge(st: State, item: Item): (r: Verdict) {
    if item.event.None? then NoObject
    else
      var ev := item.event.value;
      if ev.eventType != "Warning" then NotWarning
      else if IsLimited(st.rateLimitSeen, ev.key, item.mono) then RateLimited
      else if Classify(ev.key.reason, ev.kind) == "ignored" then Ignored
      else if QueueDepth(st.rows) < QUEUE_DEPTH_LIMIT then Accepted
      else Dropped
  }

  function Process(st: State, item: Item): (r: State) {
    if item.event.None? then st
    else
      var ev := item.event.value;
      var v := Judge(st, item);
      var s1 := if ev.resourceVersion != "" then st.(lastRv := ev.resourceVersion) else st;
      var s2 := if v in {Ignored, Dropped, Accepted} && RateLimit(ev.key.reason).Some?
                then s1.(rateLimitSeen := s1.rateLimitSeen[ev.key := item.mono]) else s1;
      if v == Accepted then s2.(rows := Upsert(s2.rows, ev, Classify(ev.key.reason, ev.kind), item.wall))
      else if v == Dropped then s2.(backpressure := s2.backpressure + 1)
      else s2
  }

  function ProcessAll(st: State, items: seq<Item>): (r: State)
    decreases |items|
  {
    if items == [] then st else ProcessAll(Process(st, items[0]), items[1..])
  }

  // ---------------------------------------------------------------- which events are wanted

  lemma {:induction false} DepthConcat(a: seq<Row>, b: seq<Row>)
    ensures QueueDepth(a + b) == QueueDepth(a) + QueueDepth(b)
  {
    if a == [] {
      assert a + b == b;
    } else {
      assert (a + b)[1..] == a[1..] + b;
      DepthConcat(a[1..], b);
    }
  }

  /** The number of queued rows. */
  ghost function Waiting(rows: seq<Row>): (n: nat) {
    |set i: nat | i < |rows| && rows[i].status == Queued|
  }

  lemma {:induction false} WaitingIsDepth(rows: seq<Row>)
    ensures Waiting(rows) == QueueDepth(rows)
  {
    if rows != [] {
      var n: nat := |rows| - 1;
      var init := rows[..n];
      WaitingIsDepth(init);
      assert rows == init + [rows[n]];
      DepthConcat(init, [rows[n]]);
      var before := set i: nat | i < |init| && init[i].status == Queued;
      var all := set i: nat | i < |rows| && rows[i].status == Queued;
      assert all == if rows[n].status == Queued then before + {n} else before;
    }
  }

  /** A warning that is neither the end of a Pod nor an "Unhealthy" less than 120 s after the
      last one that got through. */
  predicate Wanted(ev: Event, mono: real, lastThrough: real) {
    && ev.eventType == "Warning"
    && !(ev.key.reason == "Killing" && ev.kind == "Pod")
    && !(ev.key.reason == "Unhealthy" && mono - lastThrough < 120.0)
  }

  /** The fix class of each reason and kind. */
  lemma FixClassExactly(reason: string, kind: string)
    ensures var c := Classify(reason, kind);
      && (c == "restart-first-ladder" <==> kind == "Pod" && reason in ["BackOff", "OOMKilling"])
      && (c == "image-tag-migration" <==> kind == "Pod" && reason in ["ImagePullBackOff", "ErrImagePull"])
      && (c == "resource-shortage" <==>
            || (kind == "Pod" && reason in ["FailedScheduling", "Evicted"])
            || (kind == "ReplicaSet" && reason == "FailedCreate"))
      && (c == "pvc-issue" <==> kind == "Pod" && reason in ["FailedMount", "FailedAttachVolume"])
      && (c == "node-issue" <==> kind == "Node" && reason == "NodeNotReady")
      && (c == "ignored" <==> kind == "Pod" && reason == "Killing")
      && c in ["restart-first-ladder", "image-tag-migration", "resource-shortage", "pvc-issue", "node-issue", "ignored", "unknown"]
  {
  }

  lemma JudgedExactly(st: State, item: Item)
    ensures Judge(st, item) in {Accepted, Dropped} <==>
      item.event.Some? && Wanted(item.event.value, item.mono, LastPassed(st.rateLimitSeen, item.event.value.key))
    ensures Judge(st, item) == Accepted ==> Waiting(st.rows) < 50
    ensures Judge(st, item) == Dropped ==> Waiting(st.rows) >= 50
  {
    WaitingIsDepth(st.rows);
    if item.event.Some? {
      FixClassExactly(item.event.value.key.reason, item.event.value.kind);
    }
  }

  // ---------------------------------------------------------------- the watcher

  class EventStreamWatcher {
    var rows: seq<Row>
    var rateLimitSeen: map<Key, real>
    var lastRv: string
    var backpressure: nat

    function Snapshot(): (r: State)
      reads this
    {
      State(rows, rateLimitSeen, lastRv, backpressure)
    }

    /** `_upsert` */
    method UpsertRow(ev: Event, fixClass: string, now: real)
      modifies this`rows
      ensures rows == Upsert(old(rows), ev, fixClass, now)
    {
      var i := 0;
      while i < |rows| && !InWindow(rows[i], ev.key, now)
        invariant i <= |rows|
        invariant Find(rows, ev.key, now) == i + Find(rows[i..], ev.key, now)
      {
        assert rows[i..][1..] == rows[i + 1..];
        i := i + 1;
      }
      if i < |rows| {
        rows := rows[i := rows[i].(count := rows[i].count + 1, lastSeen := now)];
      } else {
        rows := rows + [Row(ev.key, ev.kind, fixClass, now, now, 1, Queued)];
      }
    }

    /** `_is_rate_limited`: lets the event pass and notes the time, or holds it back. */
    method CheckRateLimit(key: Key, now: real) returns (limited: bool)
      modifies this`rateLimitSeen
      ensures limited <==>
        key.reason == "Unhealthy" && now - (if key in old(rateLimitSeen) then old(rateLimitSeen)[key] else 0.0) < 120.0
      ensures rateLimitSeen ==
        if limited || key.reason != "Unhealthy" then old(rateLimitSeen) else old(rateLimitSeen)[key := now]
    {
      var limit := RateLimit(key.reason);
      if limit.None? {
        return false;
      }
      var last := if key in rateLimitSeen then rateLimitSeen[key] else 0.0;
      if now - last < limit.value {
        return true;
      }
      rateLimitSeen := rateLimitSeen[key := now];
      limited := false;
    }

    /** The loop body of `_consume_stream`. */
    method HandleItem(item: Item)
      modifies this
      ensures Snapshot() == Process(old(Snapshot()), item)
      ensures item.event.None? ==> Snapshot() == old(Snapshot())
      ensures item.event.Some? ==>
        var ev := item.event.value;
        var wanted := Wanted(ev, item.mono, LastPassed(old(rateLimitSeen), ev.key));
        && rows == (if wanted && Waiting(old(rows)) < 50
                    then Upsert(old(rows), ev, Classify(ev.key.reason, ev.kind), item.wall) else old(rows))
        && backpressure == old(backpressure) + (if wanted && Waiting(old(rows)) >= 50 then 1 else 0)
        && lastRv == (if ev.resourceVersion != "" then ev.resourceVersion else old(lastRv))
    {
      if item.event.None? {
        return;
      }
      JudgedExactly(Snapshot(), item);
      var ev := item.event.value;
      if ev.resourceVersion != "" {
        lastRv := ev.resourceVersion;
      }
      if ev.eventType != "Warning" {
        return;
      }
      var limited := CheckRateLimit(ev.key, item.mono);
      if limited {
        return;
      }
      var fixClass := Classify(ev.key.reason, ev.kind);
      if fixClass == "ignored" {
        return;
      }
      if QueueDepth(rows) < QUEUE_DEPTH_LIMIT {
        UpsertRow(ev, fixClass, item.wall);
      } else {
        backpressure := backpressure + 1;
      }
    }

    /** `_consume_stream`: stopAt is the number of items taken before the stop event is seen. */
    method ConsumeStream(items: seq<Item>, stopAt: nat)
      modifies this
      ensures Snapshot() == ProcessAll(old(Snapshot()), if stopAt < |items| then items[..stopAt] else items)
    {
      ghost var all := if stopAt < |items| then items[..stopAt] else items;
      for i := 0 to |items|
        invariant i <= stopAt
        invariant ProcessAll(Snapshot(), all[i..]) == ProcessAll(old(Snapshot()), all)
      {
        if i == stopAt {
          assert all[i..] == [];
          return;
        }
        assert all[i..][0] == items[i] && all[i..][1..] == all[i + 1..];
        HandleItem(items[i]);
      }
      assert all == items;
    }
  }
}
