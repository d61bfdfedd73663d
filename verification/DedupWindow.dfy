/** The rolling dedup window of the runtime loop: a deque of expiring keys that stands for
    the map from key to the time of its last emission. */
module DedupWindow {
  import opened JoinedKeys

  datatype Entry = Entry(expires: real, key: string)

  /** Pop expired entries from the left. */
  function Prune(seen: seq<Entry>, now: real): (r: seq<Entry>) {
    if seen != [] && seen[0].expires <= now then Prune(seen[1..], now) else seen
  }

  predicate HasKey(seen: seq<Entry>, key: string) {
    exists i :: 0 <= i < |seen| && seen[i].key == key
  }

  /** One finding: its key, the clock as `_is_seen` reads it and as `_mark_seen` reads it. */
  datatype Sighting = Sighting(key: string, readAt: real, markAt: real)

  function After(seen: seq<Entry>, s: Sighting, window: real): (r: seq<Entry>) {
    var pruned := Prune(seen, s.readAt);
    if HasKey(pruned, s.key) then pruned else pruned + [Entry(s.markAt + window, s.key)]
  }

  /** Which findings are emitted, by the deque. */
  function Emitted(seen: seq<Entry>, sightings: seq<Sighting>, window: real): (r: seq<bool>)
    decreases |sightings|
  {
    if sightings == [] then []
    else
      [!HasKey(Prune(seen, sightings[0].readAt), sightings[0].key)]
      + Emitted(After(seen, sightings[0], window), sightings[1..], window)
  }

  // ---------------------------------------------------------------- the map it stands for

  /** The key was emitted less than a window ago. */
  predicate Recent(last: map<string, real>, key: string, now: real, window: real) {
    key in last && now - last[key] < window
  }

  function LastAfter(last: map<string, real>, s: Sighting, window: real): (r: map<string, real>) {
    if Recent(last, s.key, s.readAt, window) then last else last[s.key := s.markAt]
  }

  /** Which findings are emitted, by the map. */
  function EmittedByMap(last: map<string, real>, sightings: seq<Sighting>, window: real): (r: seq<bool>)
    decreases |sightings|
  {
    if sightings == [] then []
    else
      [!Recent(last, sightings[0].key, sightings[0].readAt, window)]
      + EmittedByMap(LastAfter(last, sightings[0], window), sightings[1..], window)
  }

  ghost predicate SortedByExpiry(seen: seq<Entry>) {
    forall i, j :: 0 <= i < j < |seen| ==> seen[i].expires <= seen[j].expires
  }

  ghost predicate DistinctKeys(seen: seq<Entry>) {
    forall i, j :: 0 <= i < j < |seen| ==> seen[i].key != seen[j].key
  }

  /** The deque is sorted, free of repeated keys, agrees with the map, and lacks only keys
      whose window has passed. */
  ghost predicate StandsFor(seen: seq<Entry>, last: map<string, real>, window: real, clock: real) {
    && SortedByExpiry(seen)
    && DistinctKeys(seen)
    && (forall i :: 0 <= i < |seen| ==> seen[i].key in last && seen[i].expires == last[seen[i].key] + window)
    && (forall k :: k in last ==> last[k] <= clock && (HasKey(seen, k) || last[k] + window <= clock))
  }

  /** What pruning leaves, whatever the order of the entries: a suffix that starts at the
      first unexpired entry. */
  lemma {:induction false} PruneMeaning(seen: seq<Entry>, now: real) returns (k: nat)
    ensures k <= |seen| && Prune(seen, now) == seen[k..]
    ensures forall i :: 0 <= i < k ==> seen[i].expires <= now
    ensures k < |seen| ==> seen[k].expires > now
  {
    k := 0;
    if seen != [] && seen[0].expires <= now {
      var j := PruneMeaning(seen[1..], now);
      k := j + 1;
      forall i | 0 <= i < k
        ensures seen[i].expires <= now
      {
        assert i > 0 ==> seen[i] == seen[1..][i - 1];
      }
    }
  }

  /** A key is held back exactly when some entry at or before one of its own is unexpired. */
  lemma HeldBackExactly(seen: seq<Entry>, key: string, now: real)
    ensures HasKey(Prune(seen, now), key) <==>
      exists i, j :: 0 <= j <= i < |seen| && seen[i].key == key && seen[j].expires > now
  {
    var k := PruneMeaning(seen, now);
    var rest := Prune(seen, now);
    if HasKey(rest, key) {
      var i :| 0 <= i < |rest| && rest[i].key == key;
      assert seen[k + i].key == key && seen[k].expires > now;
    }
    if i, j :| 0 <= j <= i < |seen| && seen[i].key == key && seen[j].expires > now {
      assert rest[i - k] == seen[i];
    }
  }

  /** A key that pruning drops had its window pass. */
  lemma DroppedKeysExpired(seen: seq<Entry>, last: map<string, real>, window: real, clock: real, k: nat, now: real, key: string)
    requires StandsFor(seen, last, window, clock) && clock <= now && k <= |seen|
    requires forall i :: 0 <= i < k ==> seen[i].expires <= now
    requires key in last
    ensures HasKey(seen[k..], key) || last[key] + window <= now
  {
    if HasKey(seen, key) {
      var i :| 0 <= i < |seen| && seen[i].key == key;
      if i >= k {
        assert seen[k..][i - k].key == key;
      }
    }
  }

  lemma PruneKeepsStanding(seen: seq<Entry>, last: map<string, real>, window: real, clock: real, now: real)
    requires StandsFor(seen, last, window, clock) && clock <= now
    ensures StandsFor(Prune(seen, now), last, window, now)
    ensures forall i :: 0 <= i < |Prune(seen, now)| ==> Prune(seen, now)[i].expires > now
  {
    var k := PruneMeaning(seen, now);
    forall key | key in last
      ensures HasKey(seen[k..], key) || last[key] + window <= now
    {
      DroppedKeysExpired(seen, last, window, clock, k, now, key);
    }
    SuffixStands(seen, k);
  }

  lemma SuffixStands(seen: seq<Entry>, k: nat)
    requires SortedByExpiry(seen) && DistinctKeys(seen) && k <= |seen|
    ensures SortedByExpiry(seen[k..]) && DistinctKeys(seen[k..])
    ensures forall i :: 0 <= i < |seen[k..]| ==> seen[k..][i].expires >= seen[k].expires
  {
  }

  /** The decision of the deque is that of the map. */
  lemma SameDecision(seen: seq<Entry>, last: map<string, real>, window: real, clock: real, key: string, now: real)
    requires StandsFor(seen, last, window, clock) && clock <= now
    ensures HasKey(Prune(seen, now), key) <==> Recent(last, key, now, window)
  {
    PruneKeepsStanding(seen, last, window, clock, now);
    var rest := Prune(seen, now);
    if HasKey(rest, key) {
      var i :| 0 <= i < |rest| && rest[i].key == key;
      assert rest[i].expires > now;
    }
  }

  /** Pushing a key that is not in the deque, with the latest expiry. */
  lemma PushKeepsStanding(seen: seq<Entry>, last: map<string, real>, window: real, clock: real, key: string, now: real)
    requires StandsFor(seen, last, window, clock) && clock <= now && !HasKey(seen, key)
    ensures StandsFor(seen + [Entry(now + window, key)], last[key := now], window, now)
  {
    var next := seen + [Entry(now + window, key)];
    var last' := last[key := now];
    forall i | 0 <= i < |seen|
      ensures seen[i].expires <= now + window && seen[i].key != key
    {
      assert last[seen[i].key] <= clock;
    }
    assert SortedByExpiry(next) && DistinctKeys(next);
    forall k | k in last'
      ensures HasKey(next, k) || last'[k] + window <= now
    {
      if k == key {
        assert next[|seen|].key == key;
      } else if HasKey(seen, k) {
        var i :| 0 <= i < |seen| && seen[i].key == k;
        assert next[i].key == k;
      }
    }
  }

  lemma LaterClock(seen: seq<Entry>, last: map<string, real>, window: real, clock: real, now: real)
    requires StandsFor(seen, last, window, clock) && clock <= now
    ensures StandsFor(seen, last, window, now)
  {
  }

  lemma HeldBackKeepsStanding(seen: seq<Entry>, last: map<string, real>, window: real, clock: real, s: Sighting)
    requires StandsFor(seen, last, window, clock) && clock <= s.readAt <= s.markAt
    requires HasKey(Prune(seen, s.readAt), s.key)
    ensures StandsFor(Prune(seen, s.readAt), last, window, s.markAt)
  {
    PruneKeepsStanding(seen, last, window, clock, s.readAt);
    LaterClock(Prune(seen, s.readAt), last, window, s.readAt, s.markAt);
  }

  lemma EmittedKeepsStanding(seen: seq<Entry>, last: map<string, real>, window: real, clock: real, s: Sighting)
    requires StandsFor(seen, last, window, clock) && clock <= s.readAt <= s.markAt
    requires !HasKey(Prune(seen, s.readAt), s.key)
    ensures StandsFor(Prune(seen, s.readAt) + [Entry(s.markAt + window, s.key)], last[s.key := s.markAt], window, s.markAt)
  {
    PruneKeepsStanding(seen, last, window, clock, s.readAt);
    PushKeepsStanding(Prune(seen, s.readAt), last, window, s.readAt, s.key, s.markAt);
  }

  lemma StepKeepsStanding(seen: seq<Entry>, last: map<string, real>, window: real, clock: real, s: Sighting)
    requires StandsFor(seen, last, window, clock) && clock <= s.readAt <= s.markAt
    ensures StandsFor(After(seen, s, window), LastAfter(last, s, window), window, s.markAt)
  {
    SameDecision(seen, last, window, clock, s.key, s.readAt);
    if HasKey(Prune(seen, s.readAt), s.key) {
      HeldBackKeepsStanding(seen, last, window, clock, s);
    } else {
      EmittedKeepsStanding(seen, last, window, clock, s);
    }
  }

  ghost predicate Monotone(clock: real, sightings: seq<Sighting>)
    decreases |sightings|
  {
    sightings != [] ==>
      clock <= sightings[0].readAt <= sightings[0].markAt && Monotone(sightings[0].markAt, sightings[1..])
  }

  /** While the clock does not go back, the deque emits and suppresses exactly as the map:
      a finding is suppressed if and only if its key was emitted less than a window ago. */
  lemma {:induction false} DequeRefinesMap(seen: seq<Entry>, last: map<string, real>, window: real, clock: real,
                                          sightings: seq<Sighting>)
    requires StandsFor(seen, last, window, clock) && Monotone(clock, sightings)
    ensures Emitted(seen, sightings, window) == EmittedByMap(last, sightings, window)
    decreases |sightings|
  {
    if sightings != [] {
      var s := sightings[0];
      SameDecision(seen, last, window, clock, s.key, s.readAt);
      StepKeepsStanding(seen, last, window, clock, s);
      DequeRefinesMap(After(seen, s, window), LastAfter(last, s, window), window, s.markAt, sightings[1..]);
    }
  }

  /** When the findings of one key were emitted. */
  function EmissionTimes(emitted: seq<bool>, sightings: seq<Sighting>, key: string): (r: seq<real>)
    requires |emitted| == |sightings|
    decreases |sightings|
  {
    if sightings == [] then []
    else
      (if emitted[0] && sightings[0].key == key then [sightings[0].markAt] else [])
      + EmissionTimes(emitted[1..], sightings[1..], key)
  }

  ghost predicate Apart(times: seq<real>, gap: real) {
    forall i, j :: 0 <= i < |times| && j == i + 1 && j < |times| ==> times[j] - times[i] >= gap
  }

  ghost predicate SpacedFrom(last: map<string, real>, key: string, times: seq<real>, gap: real) {
    && (times != [] && key in last ==> times[0] - last[key] >= gap)
    && Apart(times, gap)
  }

  lemma ApartCons(t: real, rest: seq<real>, gap: real)
    requires Apart(rest, gap) && (rest != [] ==> rest[0] - t >= gap)
    ensures Apart([t] + rest, gap)
  {
    var times := [t] + rest;
    forall i, j | 0 <= i < |times| && j == i + 1 && j < |times|
      ensures times[j] - times[i] >= gap
    {
      if i > 0 {
        assert rest[j - 1] - rest[i - 1] >= gap;
      }
    }
  }

  lemma {:induction false} MapEmissionsAreSpaced(last: map<string, real>, sightings: seq<Sighting>, window: real, clock: real, key: string)
    requires Monotone(clock, sightings)
    ensures |EmittedByMap(last, sightings, window)| == |sightings|
    ensures SpacedFrom(last, key, EmissionTimes(EmittedByMap(last, sightings, window), sightings, key), window)
    decreases |sightings|
  {
    if sightings != [] {
      var s := sightings[0];
      var last' := LastAfter(last, s, window);
      MapEmissionsAreSpaced(last', sightings[1..], window, s.markAt, key);
      var rest := EmissionTimes(EmittedByMap(last', sightings[1..], window), sightings[1..], key);
      if !Recent(last, s.key, s.readAt, window) && s.key == key {
        ApartCons(s.markAt, rest, window);
      }
    }
  }

  /** Two audit lines for one key are at least a window apart. */
  lemma AuditLinesAreSpaced(sightings: seq<Sighting>, window: real, clock: real, key: string)
    requires Monotone(clock, sightings)
    ensures |Emitted([], sightings, window)| == |sightings|
    ensures SpacedFrom(map[], key, EmissionTimes(Emitted([], sightings, window), sightings, key), window)
  {
    DequeRefinesMap([], map[], window, clock, sightings);
    MapEmissionsAreSpaced(map[], sightings, window, clock, key);
  }

  /** A clock that goes back breaks it: an unexpired entry in front keeps a key suppressed
      although its window has passed. */
  lemma ClockSteppingBackHidesExpiry(window: real, t: real, a: string, b: string)
    requires window > 0.0 && a != b
    ensures var seen := After(After([], Sighting(a, t + window, t + window), window), Sighting(b, t, t), window);
      HasKey(Prune(seen, t + window), b) && !Recent(map[a := t + window, b := t], b, t + window, window)
  {
    var first := After([], Sighting(a, t + window, t + window), window);
    assert first == [Entry(t + window + window, a)];
    var second := After(first, Sighting(b, t, t), window);
    assert second == [Entry(t + window + window, a), Entry(t + window, b)];
    assert Prune(second, t + window) == second;
    assert second[1].key == b;
  }

  // ---------------------------------------------------------------- any clock

  /** What holds on any clock: keys are distinct, and each entry expires a window after the
      last emission of its key. */
  ghost predicate TellsLast(seen: seq<Entry>, last: map<string, real>, window: real) {
    && DistinctKeys(seen)
    && forall i :: 0 <= i < |seen| ==> seen[i].key in last && seen[i].expires == last[seen[i].key] + window
  }

  /** The key's entry has expired and stands behind one that has not. */
  ghost predicate Hidden(seen: seq<Entry>, key: string, now: real) {
    exists i, j :: 0 <= j < i < |seen| && seen[i].key == key && seen[i].expires <= now && seen[j].expires > now
  }

  /** The key's window has not passed, and its entry is gone. */
  ghost predicate Forgotten(seen: seq<Entry>, last: map<string, real>, key: string, now: real, window: real) {
    key in last && !HasKey(seen, key) && last[key] + window > now
  }

  ghost predicate Astray(seen: seq<Entry>, last: map<string, real>, key: string, now: real, window: real) {
    Hidden(seen, key, now) || Forgotten(seen, last, key, now, window)
  }

  /** The deque decides as the map exactly when the key is neither hidden nor forgotten: it
      holds back too much where the key is hidden, and lets pass too much where it is
      forgotten. */
  lemma SameDecisionExactly(seen: seq<Entry>, last: map<string, real>, window: real, key: string, now: real)
    requires TellsLast(seen, last, window)
    ensures HasKey(Prune(seen, now), key) && !Recent(last, key, now, window) <==> Hidden(seen, key, now)
    ensures !HasKey(Prune(seen, now), key) && Recent(last, key, now, window) <==> Forgotten(seen, last, key, now, window)
  {
    HeldBackExactly(seen, key, now);
    if i :| 0 <= i < |seen| && seen[i].key == key {
      assert HasKey(seen, key);
      assert seen[i].expires == last[key] + window;
    }
  }

  /** The last emissions by the deque. */
  function LastEmitted(seen: seq<Entry>, last: map<string, real>, s: Sighting): (r: map<string, real>) {
    if HasKey(Prune(seen, s.readAt), s.key) then last else last[s.key := s.markAt]
  }

  lemma StepTellsLast(seen: seq<Entry>, last: map<string, real>, window: real, s: Sighting)
    requires TellsLast(seen, last, window)
    ensures TellsLast(After(seen, s, window), LastEmitted(seen, last, s), window)
  {
    var k := PruneMeaning(seen, s.readAt);
    var rest := Prune(seen, s.readAt);
    SuffixTellsLast(seen, k, last, window);
    if !HasKey(rest, s.key) {
      PushTellsLast(rest, last, window, s.key, s.markAt);
    }
  }

  lemma SuffixTellsLast(seen: seq<Entry>, k: nat, last: map<string, real>, window: real)
    requires TellsLast(seen, last, window) && k <= |seen|
    ensures TellsLast(seen[k..], last, window)
  {
  }

  lemma PushTellsLast(seen: seq<Entry>, last: map<string, real>, window: real, key: string, now: real)
    requires TellsLast(seen, last, window) && !HasKey(seen, key)
    ensures TellsLast(seen + [Entry(now + window, key)], last[key := now], window)
  {
    assert forall i :: 0 <= i < |seen| ==> seen[i].key != key;
  }

  /** No finding of the run meets a key that is hidden or forgotten at that moment. */
  ghost predicate NoneAstray(seen: seq<Entry>, last: map<string, real>, sightings: seq<Sighting>, window: real)
    decreases |sightings|
  {
    sightings != [] ==>
      var s := sightings[0];
      && !Astray(seen, last, s.key, s.readAt, window)
      && NoneAstray(After(seen, s, window), LastEmitted(seen, last, s), sightings[1..], window)
  }

  lemma SameHead<T>(x: T, a: seq<T>, y: T, b: seq<T>)
    ensures [x] + a == [y] + b <==> x == y && a == b
  {
    assert ([x] + a)[0] == x && ([y] + b)[0] == y;
    assert ([x] + a)[1..] == a && ([y] + b)[1..] == b;
  }

  /** On any clock, deque and map emit the same findings of a run exactly when none of them
      meets a hidden or forgotten key. */
  lemma {:induction false} DequeAgreesExactly(seen: seq<Entry>, last: map<string, real>, window: real, sightings: seq<Sighting>)
    requires TellsLast(seen, last, window)
    ensures Emitted(seen, sightings, window) == EmittedByMap(last, sightings, window)
      <==> NoneAstray(seen, last, sightings, window)
    decreases |sightings|
  {
    if sightings != [] {
      var s, rest := sightings[0], sightings[1..];
      SameDecisionExactly(seen, last, window, s.key, s.readAt);
      StepTellsLast(seen, last, window, s);
      DequeAgreesExactly(After(seen, s, window), LastEmitted(seen, last, s), window, rest);
      SameHead(!HasKey(Prune(seen, s.readAt), s.key), Emitted(After(seen, s, window), rest, window),
               !Recent(last, s.key, s.readAt, window), EmittedByMap(LastAfter(last, s, window), rest, window));
    }
  }

  /** No line of the key is written while its last one is less than a window old and its entry
      has gone from the pruned deque. */
  ghost predicate NeverTooSoon(seen: seq<Entry>, last: map<string, real>, sightings: seq<Sighting>, window: real, key: string)
    decreases |sightings|
  {
    sightings != [] ==>
      var s := sightings[0];
      && !(s.key == key && Forgotten(Prune(seen, s.readAt), last, key, s.markAt, window))
      && NeverTooSoon(After(seen, s, window), LastEmitted(seen, last, s), sightings[1..], window, key)
  }

  /** On any clock: the audit lines of a key are a window apart exactly if none is written when
      the entry of the one before has been pruned too early. */
  lemma {:induction false} LinesSpacedExactly(seen: seq<Entry>, last: map<string, real>, sightings: seq<Sighting>, window: real, key: string)
    ensures |Emitted(seen, sightings, window)| == |sightings|
    ensures SpacedFrom(last, key, EmissionTimes(Emitted(seen, sightings, window), sightings, key), window)
      <==> NeverTooSoon(seen, last, sightings, window, key)
    decreases |sightings|
  {
    if sightings != [] {
      var s := sightings[0];
      var last' := LastEmitted(seen, last, s);
      LinesSpacedExactly(After(seen, s, window), last', sightings[1..], window, key);
      var rest := EmissionTimes(Emitted(After(seen, s, window), sightings[1..], window), sightings[1..], key);
      if s.key == key && !HasKey(Prune(seen, s.readAt), key) {
        SpacedCons(last, key, s.markAt, rest, window);
      } else {
        assert EmissionTimes(Emitted(seen, sightings, window), sightings, key) == [] + rest == rest;
        SpacedAlike(last, last', key, rest, window);
      }
    }
  }

  lemma SpacedAlike(a: map<string, real>, b: map<string, real>, key: string, times: seq<real>, gap: real)
    requires (key in a <==> key in b) && (key in a ==> a[key] == b[key])
    ensures SpacedFrom(a, key, times, gap) <==> SpacedFrom(b, key, times, gap)
  {
  }

  lemma ApartTail(t: real, rest: seq<real>, gap: real)
    requires Apart([t] + rest, gap)
    ensures Apart(rest, gap) && (rest != [] ==> rest[0] - t >= gap)
  {
    var times := [t] + rest;
    forall i, j | 0 <= i < |rest| && j == i + 1 && j < |rest|
      ensures rest[j] - rest[i] >= gap
    {
      assert times[j + 1] - times[i + 1] >= gap;
    }
    if rest != [] {
      assert times[0 + 1] - times[0] >= gap;
    }
  }

  lemma SpacedCons(last: map<string, real>, key: string, t: real, rest: seq<real>, gap: real)
    ensures SpacedFrom(last, key, [t] + rest, gap)
      <==> (key in last ==> t - last[key] >= gap) && SpacedFrom(last[key := t], key, rest, gap)
  {
    if SpacedFrom(last, key, [t] + rest, gap) {
      ApartTail(t, rest, gap);
    }
    if SpacedFrom(last[key := t], key, rest, gap) {
      ApartCons(t, rest, gap);
    }
  }

  lemma EmittedCons(seen: seq<Entry>, s: Sighting, rest: seq<Sighting>, window: real)
    ensures Emitted(seen, [s] + rest, window)
      == [!HasKey(Prune(seen, s.readAt), s.key)] + Emitted(After(seen, s, window), rest, window)
  {
    assert ([s] + rest)[1..] == rest;
  }

  /** A clock that runs ahead, and back again, forgets a key: it is emitted a second time at
      the very time of the first, while the map holds it back. */
  lemma ClockRunningAheadForgets(window: real, t: real, a: string, b: string)
    requires window > 0.0 && a != b
    ensures var run := [Sighting(a, t, t)] + ([Sighting(b, t + window, t + window)] + ([Sighting(a, t, t)] + []));
      Emitted([], run, window) == [true] + ([true] + ([true] + []))
    ensures Recent(map[a := t, b := t + window], a, t, window)
  {
    var first := After([], Sighting(a, t, t), window);
    assert first == [Entry(t + window, a)];
    var second := After(first, Sighting(b, t + window, t + window), window);
    assert Prune(first, t + window) == [];
    assert second == [Entry(t + window + window, b)];
    assert Prune(second, t) == second && second[0].key != a;
    var third := [Sighting(a, t, t)] + [];
    EmittedCons([], Sighting(a, t, t), [Sighting(b, t + window, t + window)] + third, window);
    EmittedCons(first, Sighting(b, t + window, t + window), third, window);
    EmittedCons(second, Sighting(a, t, t), [], window);
  }

  // ---------------------------------------------------------------- the module-level deque

  datatype Finding = Finding(ns: string, kind: string, name: string, category: string)

  /** `_dedup_key` */
  function DedupKey(f: Finding): (r: string) {
    Join([f.ns, f.kind, f.name, f.category], '/')
  }

  ghost predicate PlainFields(f: Finding) {
    '/' !in f.ns && '/' !in f.kind && '/' !in f.name
  }

  /** Kubernetes names contain no slash, so different findings have different keys. */
  lemma DedupKeyInjective(f: Finding, g: Finding)
    requires PlainFields(f) && PlainFields(g) && DedupKey(f) == DedupKey(g)
    ensures f == g
  {
    var a, b := [f.ns, f.kind, f.name, f.category], [g.ns, g.kind, g.name, g.category];
    JoinInjective(a, b, '/');
    assert a[0] == b[0] && a[1] == b[1] && a[2] == b[2] && a[3] == b[3];
  }

  class Runtime {
    const window: real
    var seen: seq<Entry>
    var audit: seq<string>

    constructor (window: real)
      ensures this.window == window && seen == [] && audit == []
    {
      this.window := window;
      seen, audit := [], [];
    }

    /** `_is_seen`, with its pruning loop. */
    method IsSeen(key: string, now: real) returns (r: bool)
      modifies this`seen
      ensures seen == Prune(old(seen), now) && (r <==> HasKey(seen, key))
    {
      while seen != [] && seen[0].expires <= now
        invariant Prune(seen, now) == Prune(old(seen), now)
        decreases |seen|
      {
        seen := seen[1..];
      }
      r := exists i :: 0 <= i < |seen| && seen[i].key == key;
    }

    /** `_mark_seen` */
    method MarkSeen(key: string, now: real)
      modifies this`seen
      ensures seen == old(seen) + [Entry(now + window, key)]
    {
      seen := seen + [Entry(now + window, key)];
    }

    /** The loop body of `_process_findings`. */
    method ProcessOne(s: Sighting)
      modifies this`seen, this`audit
      ensures seen == After(old(seen), s, window)
      ensures audit == old(audit) + if HasKey(Prune(old(seen), s.readAt), s.key) then [] else [s.key]
    {
      var duplicate := IsSeen(s.key, s.readAt);
      if !duplicate {
        MarkSeen(s.key, s.markAt);
        audit := audit + [s.key];
      }
    }

    /** `_process_findings`, with the two clock readings for each finding. */
    method ProcessFindings(findings: seq<Finding>, clock: seq<(real, real)>)
      requires |clock| == |findings|
      modifies this`seen, this`audit
      ensures seen == AfterAll(old(seen), Sightings(findings, clock), window)
      ensures audit == old(audit) + AuditLines(old(seen), Sightings(findings, clock), window)
    {
      ghost var all := Sightings(findings, clock);
      for i := 0 to |findings|
        invariant AfterAll(seen, all[i..], window) == AfterAll(old(seen), all, window)
        invariant audit + AuditLines(seen, all[i..], window) == old(audit) + AuditLines(old(seen), all, window)
      {
        Unfold(seen, all, i, window, audit);
        ProcessOne(Sighting(DedupKey(findings[i]), clock[i].0, clock[i].1));
      }
    }
  }

  lemma Unfold(seen: seq<Entry>, all: seq<Sighting>, i: nat, window: real, lines: seq<string>)
    requires i < |all|
    ensures AfterAll(seen, all[i..], window) == AfterAll(After(seen, all[i], window), all[i + 1..], window)
    ensures lines + AuditLines(seen, all[i..], window)
      == (lines + if HasKey(Prune(seen, all[i].readAt), all[i].key) then [] else [all[i].key])
         + AuditLines(After(seen, all[i], window), all[i + 1..], window)
  {
    assert all[i..][0] == all[i] && all[i..][1..] == all[i + 1..];
  }

  function Sightings(findings: seq<Finding>, clock: seq<(real, real)>): (r: seq<Sighting>)
    requires |clock| == |findings|
  {
    seq(|findings|, i requires 0 <= i < |findings| => Sighting(DedupKey(findings[i]), clock[i].0, clock[i].1))
  }

  function AfterAll(seen: seq<Entry>, sightings: seq<Sighting>, window: real): (r: seq<Entry>)
    decreases |sightings|
  {
    if sightings == [] then seen else AfterAll(After(seen, sightings[0], window), sightings[1..], window)
  }

  /** The keys written to the audit log: one line for every emitted finding. */
  function AuditLines(seen: seq<Entry>, sightings: seq<Sighting>, window: real): (r: seq<string>)
    decreases |sightings|
  {
    if sightings == [] then []
    else
      (if HasKey(Prune(seen, sightings[0].readAt), sightings[0].key) then [] else [sightings[0].key])
      + AuditLines(After(seen, sightings[0], window), sightings[1..], window)
  }

  /** The keys of the findings that are flagged. */
  function KeysWhere(flags: seq<bool>, sightings: seq<Sighting>): (r: seq<string>)
    requires |flags| == |sightings|
    decreases |sightings|
  {
    if sightings == [] then []
    else (if flags[0] then [sightings[0].key] else []) + KeysWhere(flags[1..], sightings[1..])
  }

  /** The audit log gets a line for every finding that is emitted, and no other. */
  lemma {:induction false} LinesAreEmissions(seen: seq<Entry>, sightings: seq<Sighting>, window: real)
    ensures |Emitted(seen, sightings, window)| == |sightings|
    ensures AuditLines(seen, sightings, window) == KeysWhere(Emitted(seen, sightings, window), sightings)
    decreases |sightings|
  {
    if sightings != [] {
      LinesAreEmissions(After(seen, sightings[0], window), sightings[1..], window);
      assert Emitted(seen, sightings, window)[1..] == Emitted(After(seen, sightings[0], window), sightings[1..], window);
    }
  }

  /** So while the clock does not go back, the lines written from a fresh start are those of
      the findings whose key was not emitted less than a window ago. */
  lemma LinesByMap(findings: seq<Finding>, clock: seq<(real, real)>, window: real, start: real)
    requires |clock| == |findings| && Monotone(start, Sightings(findings, clock))
    ensures var s := Sightings(findings, clock);
      && |EmittedByMap(map[], s, window)| == |s|
      && AuditLines([], s, window) == KeysWhere(EmittedByMap(map[], s, window), s)
  {
    var s := Sightings(findings, clock);
    LinesAreEmissions([], s, window);
    DequeRefinesMap([], map[], window, start, s);
  }
}
