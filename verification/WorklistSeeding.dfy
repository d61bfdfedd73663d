/** Seeding an empty worklist from a list of tasks. Rows are numbered by position in the whole
    list, repeats included, whatever ids the tasks carry, so blockers mean positions once they
    are in the table. */
module WorklistSeeding {
  import opened IdOrder
  import opened BlockerGraph
  import opened WorklistTable
  import D = WorklistDrain
  import Db = WorklistDb
  import K = KahnOrder
  import S = WorklistSeed

  function Payload(tasks: seq<S.Task>): (r: seq<Db.Item>)
    ensures |r| == |tasks|
  {
    seq(|tasks|, i requires 0 <= i < |tasks| => Db.Item(tasks[i].section, tasks[i].title, tasks[i].blockers))
  }

  function Seeded(tasks: seq<S.Task>): (t: Table) {
    Db.SeedAll(map[], 1, Payload(tasks)).0
  }

  predicate SamePair(a: S.Task, b: S.Task) {
    a.section == b.section && a.title == b.title
  }

  predicate PairIn(tasks: seq<S.Task>, x: S.Task) {
    exists i :: 0 <= i < |tasks| && SamePair(tasks[i], x)
  }

  /** The tasks that get a row after those before: the first of each section and title. */
  function KeptAfter(before: seq<S.Task>, tasks: seq<S.Task>): (r: seq<S.Task>)
    decreases |tasks|
  {
    if tasks == [] then before
    else KeptAfter(if PairIn(before, tasks[0]) then before else before + [tasks[0]], tasks[1..])
  }

  /** The list with every id replaced by its position, counted from 1. */
  function Renumbered(tasks: seq<S.Task>): (r: seq<S.Task>)
    ensures |r| == |tasks| && forall i :: 0 <= i < |r| ==> r[i] == tasks[i].(id := i + 1)
  {
    seq(|tasks|, i requires 0 <= i < |tasks| => tasks[i].(id := i + 1))
  }

  /** The tasks that get a row, under the ids of their rows. */
  function Kept(tasks: seq<S.Task>): (r: seq<S.Task>) {
    KeptAfter([], Renumbered(tasks))
  }

  function RowOf(x: S.Task): (r: Row) {
    NewRow(x.section, x.title, x.blockers)
  }

  /** One queued row for each task, under its id. */
  ghost predicate RowsOf(t: Table, kept: seq<S.Task>) {
    && (forall id :: id in t <==> id in S.Ids(kept))
    && (forall i :: 0 <= i < |kept| ==> kept[i].id in t && t[kept[i].id] == RowOf(kept[i]))
  }

  /** Ids are distinct and below n. */
  ghost predicate NumberedBelow(kept: seq<S.Task>, n: nat) {
    S.DistinctIds(kept) && forall i :: 0 <= i < |kept| ==> kept[i].id < n
  }

  lemma TakenMeansPair(t: Table, before: seq<S.Task>, x: S.Task)
    requires RowsOf(t, before)
    ensures Taken(t, x.section, x.title) <==> PairIn(before, x)
  {
    if Taken(t, x.section, x.title) {
      var id :| id in t && t[id].section == x.section && t[id].title == x.title;
      var i :| 0 <= i < |before| && S.Ids(before)[i] == id;
      assert t[before[i].id] == RowOf(before[i]) && SamePair(before[i], x);
    }
    if PairIn(before, x) {
      var i :| 0 <= i < |before| && SamePair(before[i], x);
      assert before[i].id in t && t[before[i].id] == RowOf(before[i]);
    }
  }

  lemma OneMoreRow(t: Table, before: seq<S.Task>, x: S.Task)
    requires RowsOf(t, before) && NumberedBelow(before, x.id)
    ensures RowsOf(t[x.id := RowOf(x)], before + [x]) && NumberedBelow(before + [x], x.id + 1)
  {
    assert S.Ids(before + [x]) == S.Ids(before) + [x.id];
  }

  lemma PayloadTail(tasks: seq<S.Task>)
    requires tasks != []
    ensures Payload(tasks)[1..] == Payload(tasks[1..])
  {
  }

  /** The ids run on from n. */
  ghost predicate Consecutive(tasks: seq<S.Task>, n: nat) {
    forall i :: 0 <= i < |tasks| ==> tasks[i].id == n + i
  }

  lemma {:induction false} SeedGivesRows(t: Table, before: seq<S.Task>, tasks: seq<S.Task>, n: nat)
    requires RowsOf(t, before) && NumberedBelow(before, n) && Consecutive(tasks, n)
    ensures RowsOf(Db.SeedAll(t, n, Payload(tasks)).0, KeptAfter(before, tasks))
    ensures S.DistinctIds(KeptAfter(before, tasks))
    decreases |tasks|
  {
    if tasks != [] {
      var x := tasks[0];
      PayloadTail(tasks);
      TakenMeansPair(t, before, x);
      assert Consecutive(tasks[1..], n + 1);
      if PairIn(before, x) {
        SeedGivesRows(t, before, tasks[1..], n + 1);
      } else {
        OneMoreRow(t, before, x);
        SeedGivesRows(t[x.id := RowOf(x)], before + [x], tasks[1..], n + 1);
      }
    }
  }

  lemma RenumberedIds(tasks: seq<S.Task>)
    ensures S.DistinctIds(Renumbered(tasks))
    ensures forall d :: d in S.Ids(Renumbered(tasks)) <==> 1 <= d <= |tasks|
  {
    var ids := S.Ids(Renumbered(tasks));
    forall d: nat | 1 <= d <= |tasks|
      ensures d in ids
    {
      assert ids[d - 1] == d;
    }
  }

  lemma RowsHaveGraph(t: Table, kept: seq<S.Task>)
    requires RowsOf(t, kept) && S.DistinctIds(kept)
    ensures Deps(t) == S.GraphOf(kept)
  {
    var g := S.GraphOf(kept);
    S.AllKeys(kept, |kept|);
    forall id | id in Deps(t)
      ensures id in g && g[id] == Deps(t)[id]
    {
      var i :| 0 <= i < |kept| && S.Ids(kept)[i] == id;
      S.GraphUpToEntries(kept, |kept|, i);
    }
    SameEntries(Deps(t), g);
  }

  /** The seeded worklist waits as the kept tasks do under the ids of their rows. */
  lemma SeededGraph(tasks: seq<S.Task>)
    ensures RowsOf(Seeded(tasks), Kept(tasks)) && S.DistinctIds(Kept(tasks))
    ensures Deps(Seeded(tasks)) == S.GraphOf(Kept(tasks))
  {
    assert RowsOf(map[], []) && NumberedBelow([], 1);
    assert Payload(Renumbered(tasks)) == Payload(tasks);
    SeedGivesRows(map[], [], Renumbered(tasks), 1);
    RowsHaveGraph(Seeded(tasks), Kept(tasks));
  }

  lemma SeededIsQueued(tasks: seq<S.Task>)
    ensures D.QueuedIds(Seeded(tasks)) == Seeded(tasks).Keys
  {
    SeededGraph(tasks);
    var t, kept := Seeded(tasks), Kept(tasks);
    forall id
      ensures id in D.QueuedIds(t) <==> id in t.Keys
    {
      if id in t {
        var i :| 0 <= i < |kept| && S.Ids(kept)[i] == id;
        assert t[kept[i].id] == RowOf(kept[i]);
      }
    }
  }

  lemma KeptStep(before: seq<S.Task>, x: S.Task, rest: seq<S.Task>)
    ensures KeptAfter(before, [x] + rest) == KeptAfter(if PairIn(before, x) then before else before + [x], rest)
  {
    assert ([x] + rest)[1..] == rest;
  }

  /** A repeated entry gets no row and still shifts the ids of all rows after it. */
  lemma RepeatShiftsIds(x: S.Task, y: S.Task)
    requires !SamePair(x, y)
    ensures Kept([x, x, y]) == [x.(id := 1)] + [y.(id := 3)]
  {
    var a, b, c := x.(id := 1), x.(id := 2), y.(id := 3);
    assert Renumbered([x, x, y]) == [a] + ([b] + ([c] + []));
    KeptStep([], a, [b] + ([c] + []));
    assert [] + [a] == [a] && SamePair([a][0], b);
    KeptStep([a], b, [c] + []);
    KeptStep([a], c, []);
  }

  /** For every list, repeats and all: after the drain the tasks still queued are exactly those
      that the sort reports of the kept tasks under the ids of their rows, and none if it
      succeeds. */
  lemma SortOfPositionsPredictsDrain(tasks: seq<S.Task>, r: S.SortResult, agent: string, id: nat)
    requires S.Correct(Kept(tasks), r) && !r.UnknownBlocker? && id in Seeded(tasks)
    ensures var drained := D.Drained(Seeded(tasks), agent);
      && id in drained
      && (drained[id].status == Queued <==> r.CycleAmong? && id in r.ids)
      && (drained[id].status == Done <==> r.Sorted? || id !in r.ids)
  {
    SeededGraph(tasks);
    SeededIsQueued(tasks);
    D.GraphPredictsDrain(Kept(tasks), r, Seeded(tasks), agent, id);
  }

  // ---------------------------------------------------------------- when ids survive

  ghost predicate DistinctPairs(tasks: seq<S.Task>) {
    forall i, j :: 0 <= i < j < |tasks| ==> !SamePair(tasks[i], tasks[j])
  }

  /** Every id is a position, and the task at that position has the same blockers. */
  predicate InPlace(tasks: seq<S.Task>) {
    forall k :: 0 <= k < |tasks| ==>
      1 <= tasks[k].id <= |tasks| && tasks[tasks[k].id - 1].blockers == tasks[k].blockers
  }

  lemma {:induction false} KeptSize(before: seq<S.Task>, tasks: seq<S.Task>)
    requires DistinctPairs(before)
    ensures |KeptAfter(before, tasks)| <= |before| + |tasks|
    ensures |KeptAfter(before, tasks)| == |before| + |tasks| <==> DistinctPairs(before + tasks)
    ensures DistinctPairs(before + tasks) ==> KeptAfter(before, tasks) == before + tasks
    decreases |tasks|
  {
    if tasks == [] {
      assert before + tasks == before;
    } else if PairIn(before, tasks[0]) {
      KeptSize(before, tasks[1..]);
      RepeatedPair(before, tasks);
    } else {
      assert before + tasks == before + [tasks[0]] + tasks[1..];
      KeptSize(before + [tasks[0]], tasks[1..]);
    }
  }

  lemma RepeatedPair(before: seq<S.Task>, tasks: seq<S.Task>)
    requires tasks != [] && PairIn(before, tasks[0])
    ensures !DistinctPairs(before + tasks)
  {
    var all := before + tasks;
    var i :| 0 <= i < |before| && SamePair(before[i], tasks[0]);
    assert all[i] == before[i] && all[|before|] == tasks[0];
  }

  lemma KeptAll(tasks: seq<S.Task>)
    ensures |Kept(tasks)| == |tasks| <==> DistinctPairs(tasks)
    ensures DistinctPairs(tasks) ==> Kept(tasks) == Renumbered(tasks)
  {
    KeptSize([], Renumbered(tasks));
    assert [] + Renumbered(tasks) == Renumbered(tasks);
    SamePairsRenumbered(tasks);
  }

  lemma SamePairsRenumbered(tasks: seq<S.Task>)
    ensures DistinctPairs(Renumbered(tasks)) <==> DistinctPairs(tasks)
  {
    forall i, j | 0 <= i < j < |tasks|
      ensures SamePair(Renumbered(tasks)[i], Renumbered(tasks)[j]) <==> SamePair(tasks[i], tasks[j])
    {
    }
  }

  lemma GraphKeys(tasks: seq<S.Task>)
    requires S.DistinctIds(tasks)
    ensures |S.GraphOf(tasks).Keys| == |tasks|
  {
    S.AllKeys(tasks, |tasks|);
    S.DistinctIdList(tasks);
    ElemsSize(S.Ids(tasks));
    var keys := S.GraphOf(tasks).Keys;
    forall d
      ensures d in keys <==> d in Elems(S.Ids(tasks))
    {
      S.GraphUpToKeys(tasks, |tasks|, d);
    }
    assert keys == Elems(S.Ids(tasks));
  }

  lemma SameGraphMeansInPlace(tasks: seq<S.Task>)
    requires S.DistinctIds(tasks) && S.GraphOf(Renumbered(tasks)) == S.GraphOf(tasks)
    ensures InPlace(tasks)
  {
    var places := Renumbered(tasks);
    RenumberedIds(tasks);
    forall k | 0 <= k < |tasks|
      ensures 1 <= tasks[k].id <= |tasks| && tasks[tasks[k].id - 1].blockers == tasks[k].blockers
    {
      S.GraphUpToEntries(tasks, |tasks|, k);
      S.GraphUpToKeys(places, |places|, tasks[k].id);
      S.GraphUpToEntries(places, |places|, tasks[k].id - 1);
    }
  }

  lemma InPlaceMeansSameGraph(tasks: seq<S.Task>)
    requires S.DistinctIds(tasks) && InPlace(tasks)
    ensures S.GraphOf(Renumbered(tasks)) == S.GraphOf(tasks)
  {
    var g, h := S.GraphOf(tasks), S.GraphOf(Renumbered(tasks));
    InPlaceEntries(tasks);
    RenumberedIds(tasks);
    GraphKeys(tasks);
    GraphKeys(Renumbered(tasks));
    SubsetSize(g.Keys, h.Keys);
    SameEntries(g, h);
  }

  lemma InPlaceEntry(tasks: seq<S.Task>, k: nat)
    requires S.DistinctIds(tasks) && InPlace(tasks) && k < |tasks|
    ensures var d := tasks[k].id;
      && d in S.GraphOf(tasks) && d in S.GraphOf(Renumbered(tasks))
      && S.GraphOf(Renumbered(tasks))[d] == S.GraphOf(tasks)[d]
  {
    var places := Renumbered(tasks);
    RenumberedIds(tasks);
    S.GraphUpToEntries(tasks, |tasks|, k);
    S.GraphUpToEntries(places, |places|, tasks[k].id - 1);
  }

  lemma InPlaceEntries(tasks: seq<S.Task>)
    requires S.DistinctIds(tasks) && InPlace(tasks)
    ensures forall d :: d in S.GraphOf(tasks) ==>
      d in S.GraphOf(Renumbered(tasks)) && S.GraphOf(Renumbered(tasks))[d] == S.GraphOf(tasks)[d]
  {
    forall d | d in S.GraphOf(tasks)
      ensures d in S.GraphOf(Renumbered(tasks)) && S.GraphOf(Renumbered(tasks))[d] == S.GraphOf(tasks)[d]
    {
      S.GraphUpToKeys(tasks, |tasks|, d);
      var k :| 0 <= k < |tasks| && S.Ids(tasks)[k] == d;
      InPlaceEntry(tasks, k);
    }
  }

  /** Seeding a list of distinct ids keeps its blocker graph exactly when no section and title
      repeats and every id is a position with the same blockers. */
  lemma SeedingKeepsGraphExactly(tasks: seq<S.Task>)
    requires S.DistinctIds(tasks)
    ensures Deps(Seeded(tasks)) == S.GraphOf(tasks) <==> DistinctPairs(tasks) && InPlace(tasks)
  {
    SeededGraph(tasks);
    KeptAll(tasks);
    if Deps(Seeded(tasks)) == S.GraphOf(tasks) {
      GraphKeys(tasks);
      GraphKeys(Kept(tasks));
      SameGraphMeansInPlace(tasks);
    } else if InPlace(tasks) {
      InPlaceMeansSameGraph(tasks);
    }
  }

  /** On such a list the sort predicts the drain: what it reports stays queued, and everything
      gets done if it succeeds. */
  lemma SortPredictsDrain(tasks: seq<S.Task>, r: S.SortResult, agent: string, id: nat)
    requires S.DistinctIds(tasks) && DistinctPairs(tasks) && InPlace(tasks)
    requires S.Correct(tasks, r) && !r.UnknownBlocker? && id in Seeded(tasks)
    ensures var drained := D.Drained(Seeded(tasks), agent);
      && id in drained
      && (drained[id].status == Queued <==> r.CycleAmong? && id in r.ids)
      && (drained[id].status == Done <==> r.Sorted? || id !in r.ids)
  {
    SeedingKeepsGraphExactly(tasks);
    SeededIsQueued(tasks);
    D.GraphPredictsDrain(tasks, r, Seeded(tasks), agent, id);
  }

  /** For every list, repeats and all: the drain gets everything done exactly when the kept
      tasks, under the ids of their rows, have no cycle. */
  lemma AllDoneExactly(tasks: seq<S.Task>, agent: string)
    ensures (forall id :: id in Seeded(tasks) ==>
              id in D.Drained(Seeded(tasks), agent) && D.Drained(Seeded(tasks), agent)[id].status == Done)
      <==> Acyclic(S.GraphOf(Kept(tasks)))
  {
    SeededGraph(tasks);
    SeededIsQueued(tasks);
    D.AllDrainedExactly(Seeded(tasks), agent);
  }

  // ---------------------------------------------------------------- seeding the sorted list

  /** Seeding the sorted list keeps the blocker graph exactly under the same condition on it. */
  lemma SeedingSortedListExactly(tasks: seq<S.Task>, ordered: seq<S.Task>)
    requires S.Correct(tasks, S.Sorted(ordered))
    ensures Deps(Seeded(ordered)) == S.GraphOf(tasks) <==> DistinctPairs(ordered) && InPlace(ordered)
  {
    K.OrderDistinct(S.GraphOf(tasks));
    S.DistinctIdList(ordered);
    S.SameGraphForPermutations(tasks, ordered);
    SeedingKeepsGraphExactly(ordered);
  }

  /** One waits for two. */
  const ONE := S.Task(1, "A", "one", [2])
  const TWO := S.Task(2, "A", "two", [])
  const AS_LISTED: seq<S.Task> := [ONE, TWO]
  const AS_SORTED: seq<S.Task> := [TWO, ONE]

  lemma PairGraph(x: S.Task, y: S.Task)
    requires x.id != y.id
    ensures var g := S.GraphOf([x, y]);
      && (forall d :: d in g <==> d == x.id || d == y.id)
      && g[x.id] == x.blockers && g[y.id] == y.blockers
  {
    var tasks := [x, y];
    S.AllKeys(tasks, 2);
    assert S.Ids(tasks) == [x.id, y.id];
    S.GraphUpToEntries(tasks, 2, 0);
    S.GraphUpToEntries(tasks, 2, 1);
  }

  lemma TwoTasksGraph(g: Graph)
    requires g == S.GraphOf(AS_LISTED)
    ensures forall d :: d in g <==> d == 1 || d == 2
    ensures g[1] == [2] && g[2] == []
  {
    PairGraph(ONE, TWO);
  }

  lemma TwoTasksReady(g: Graph)
    requires g == S.GraphOf(AS_LISTED)
    ensures forall d :: d in K.Available(g, {}) <==> d == 2
    ensures forall d :: d in K.NewlyReady(g, {}, 2) <==> d == 1
    ensures forall d :: d !in K.NewlyReady(g, {2}, 1)
  {
    TwoTasksGraph(g);
    assert 2 in g[1] && !K.Unblocked(g, {}, 1);
  }

  lemma OnlyOne(s: set<nat>, x: nat)
    requires forall d :: d in s <==> d == x
    ensures Ascending(s) == [x]
  {
    forall d
      ensures d in [x] <==> d in Ascending(s)
    {
      assert d in Ascending(s) <==> d in Elems(Ascending(s));
    }
    IncreasingUnique([x], Ascending(s));
  }

  lemma NoneAtAll(s: set<nat>)
    requires forall d :: d !in s
    ensures Ascending(s) == []
  {
    forall d
      ensures d !in Ascending(s)
    {
      assert d in Ascending(s) <==> d in Elems(Ascending(s));
    }
    NoMembers(Ascending(s));
  }

  lemma LastOut(g: Graph, done: set<nat>, c: nat)
    requires K.Frontier(g, done, [c]) && forall d :: d !in K.NewlyReady(g, done, c)
    ensures K.OrderFrom(g, done, [c]) == [c]
  {
    K.FrontierStep(g, done, [c]);
    NoneAtAll(K.NewlyReady(g, done, c));
    assert [c][1..] + [] == [];
  }

  lemma TwoOut(g: Graph, b: nat, c: nat)
    requires K.Frontier(g, {}, [b])
    requires forall d :: d in K.NewlyReady(g, {}, b) <==> d == c
    requires forall d :: d !in K.NewlyReady(g, {b}, c)
    ensures K.OrderFrom(g, {}, [b]) == [b] + [c]
  {
    K.FrontierStep(g, {}, [b]);
    OnlyOne(K.NewlyReady(g, {}, b), c);
    assert [b][1..] + [c] == [c] && {} + {b} == {b};
    LastOut(g, {b}, c);
  }

  lemma TwoTasksOrder()
    ensures K.Order(S.GraphOf(AS_LISTED)) == [2] + [1]
  {
    var g := S.GraphOf(AS_LISTED);
    TwoTasksReady(g);
    K.StartFrontier(g);
    OnlyOne(K.Available(g, {}), 2);
    TwoOut(g, 2, 1);
  }

  lemma TwoTasksPermuted()
    ensures Closed(S.GraphOf(AS_LISTED)) && S.Ids(AS_SORTED) == [2] + [1]
    ensures |AS_SORTED| == |AS_LISTED| && forall x :: x in AS_SORTED ==> x in AS_LISTED
  {
    TwoTasksGraph(S.GraphOf(AS_LISTED));
    assert AS_LISTED[0] == ONE && AS_LISTED[1] == TWO;
  }

  lemma TwoTasksSorted()
    ensures S.Correct(AS_LISTED, S.Sorted(AS_SORTED))
  {
    TwoTasksOrder();
    TwoTasksPermuted();
    S.ResultCorrect(AS_LISTED, AS_SORTED);
  }

  lemma SortedSeedWaitsForItself()
    ensures Stuck(Deps(Seeded(AS_SORTED)), {2}) && 2 in Seeded(AS_SORTED)
  {
    assert "one"[0] != "two"[0];
    SeededGraph(AS_SORTED);
    KeptAll(AS_SORTED);
    var t := Seeded(AS_SORTED);
    assert 2 in t && t[2] == RowOf(AS_SORTED[1]);
    assert 2 in Deps(t)[2];
  }

  /** Seeding the sorted list, as the design document does, can renumber its blockers into a
      cycle: the sort succeeds, and the last task waits for itself. */
  lemma SeedingSortedListGetsStuck(agent: string)
    ensures S.Correct(AS_LISTED, S.Sorted(AS_SORTED))
    ensures 2 in D.Drained(Seeded(AS_SORTED), agent) && D.Drained(Seeded(AS_SORTED), agent)[2].status == Queued
  {
    TwoTasksSorted();
    SortedSeedWaitsForItself();
    SeededIsQueued(AS_SORTED);
    D.StuckIsNeverDrained(Seeded(AS_SORTED), agent, {2}, 2);
  }
}
