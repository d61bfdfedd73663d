/** `topological_sort`: Kahn's algorithm on in-degree counters, dependents lists and a
    first-in first-out queue, proved against the order of module KahnOrder. */
module WorklistSeed {
  import opened Options
  import opened IdOrder
  import opened BlockerGraph
  import K = KahnOrder

  datatype Task = Task(id: nat, section: string, title: string, blockers: seq<nat>)

  /** The returned list, the reported cycle, or the missing key of a blocker lookup. */
  datatype SortResult = Sorted(ordered: seq<Task>) | CycleAmong(ids: seq<nat>) | UnknownBlocker(id: nat)

  ghost predicate DistinctIds(tasks: seq<Task>) {
    forall i, j :: 0 <= i < j < |tasks| ==> tasks[i].id != tasks[j].id
  }

  function Ids(tasks: seq<Task>): (r: seq<nat>) {
    seq(|tasks|, i requires 0 <= i < |tasks| => tasks[i].id)
  }

  ghost function EntryOf(g: Graph, d: nat): (r: seq<nat>) {
    if d in g then g[d] else []
  }

  /** The graph once the blocker lists of the first n tasks have been read. Should an id be
      listed twice, its lists add up. */
  ghost function GraphUpTo(tasks: seq<Task>, n: nat): (g: Graph)
    requires n <= |tasks|
  {
    if n == 0 then map d | d in Ids(tasks) :: []
    else
      var g := GraphUpTo(tasks, n - 1);
      g[tasks[n - 1].id := EntryOf(g, tasks[n - 1].id) + tasks[n - 1].blockers]
  }

  ghost function GraphOf(tasks: seq<Task>): (g: Graph) {
    GraphUpTo(tasks, |tasks|)
  }

  /** The first blocker, in reading order, that names no task. */
  ghost predicate FirstUnknown(tasks: seq<Task>, i: nat, j: nat) {
    && i < |tasks| && j < |tasks[i].blockers|
    && tasks[i].blockers[j] !in Ids(tasks)
    && (forall k :: 0 <= k < j ==> tasks[i].blockers[k] in Ids(tasks))
    && (forall h, b :: 0 <= h < i && b in tasks[h].blockers ==> b in Ids(tasks))
  }

  // ---------------------------------------------------------------- counting

  /** Entries of a blocker list that have not been output, with repeats. */
  ghost function Pending(blockers: seq<nat>, done: set<nat>): (n: nat) {
    if blockers == [] then 0
    else (if blockers[0] in done then 0 else 1) + Pending(blockers[1..], done)
  }

  lemma {:induction false} PendingAll(blockers: seq<nat>)
    ensures Pending(blockers, {}) == |blockers|
  {
    if blockers != [] {
      PendingAll(blockers[1..]);
    }
  }

  lemma {:induction false} PendingStep(blockers: seq<nat>, done: set<nat>, t: nat)
    requires t !in done
    ensures Pending(blockers, done + {t}) == Pending(blockers, done) - Count(blockers, t)
  {
    if blockers != [] {
      PendingStep(blockers[1..], done, t);
    }
  }

  lemma {:induction false} PendingZero(blockers: seq<nat>, done: set<nat>)
    ensures Pending(blockers, done) == 0 <==> forall b :: b in blockers ==> b in done
  {
    if blockers != [] {
      PendingZero(blockers[1..], done);
      assert forall b :: b in blockers <==> b == blockers[0] || b in blockers[1..];
    }
  }

  /** d is listed under b as often as b occurs among d's blockers. */
  ghost predicate Transposed(g: Graph, dependents: map<nat, seq<nat>>) {
    && dependents.Keys == g.Keys
    && (forall b, d {:trigger Count(dependents[b], d)} {:trigger Count(g[d], b)} ::
      b in g && d in g ==> Count(dependents[b], d) == Count(g[d], b))
    && (forall b, d {:trigger d in dependents[b]} :: b in g && d in dependents[b] ==> d in g)
  }

  ghost predicate Counted(g: Graph, inDegree: map<nat, int>, dependents: map<nat, seq<nat>>) {
    && inDegree.Keys == g.Keys
    && (forall d :: d in g ==> inDegree[d] == |g[d]|)
    && Transposed(g, dependents)
  }

  lemma CountEntry(g: Graph, dependents: map<nat, seq<nat>>, d: nat, b: nat, c: nat, e: nat)
    requires Transposed(g, dependents) && d in g && b in g && c in g && e in g
    ensures Count((dependents[b := dependents[b] + [d]])[c], e) == Count((g[d := g[d] + [b]])[e], c)
  {
    CountConcat(dependents[b], [d], e);
    CountConcat(g[d], [b], c);
  }

  lemma TransposeOne(g: Graph, dependents: map<nat, seq<nat>>, d: nat, b: nat)
    requires Transposed(g, dependents) && d in g && b in g
    ensures Transposed(g[d := g[d] + [b]], dependents[b := dependents[b] + [d]])
  {
    var g' := g[d := g[d] + [b]];
    var dependents' := dependents[b := dependents[b] + [d]];
    assert dependents'.Keys == g'.Keys == g.Keys;
    forall c, e | c in g' && e in g'
      ensures Count(dependents'[c], e) == Count(g'[e], c)
    {
      CountEntry(g, dependents, d, b, c, e);
    }
    forall c, e | c in g' && e in dependents'[c]
      ensures e in g'
    {
      assert e == d || e in dependents[c];
    }
  }

  /** The inner loop of the counting pass, for one task. */
  method CountTask(t: Task, inDegree0: map<nat, int>, dependents0: map<nat, seq<nat>>, ghost g: Graph)
    returns (inDegree: map<nat, int>, dependents: map<nat, seq<nat>>, unknown: Option<nat>)
    requires Counted(g, inDegree0, dependents0) && t.id in g
    ensures unknown.None? ==> Counted(g[t.id := g[t.id] + t.blockers], inDegree, dependents)
    ensures unknown.None? ==> forall b :: b in t.blockers ==> b in g
    ensures unknown.Some? ==>
      var j := unknown.value;
      && j < |t.blockers| && t.blockers[j] !in g
      && (forall k :: 0 <= k < j ==> t.blockers[k] in g)
  {
    inDegree, dependents, unknown := inDegree0, dependents0, None;
    assert t.blockers[..0] == [];
    AddNothing(g, t.id);
    for j := 0 to |t.blockers|
      invariant unknown.None?
      invariant Counted(g[t.id := g[t.id] + t.blockers[..j]], inDegree, dependents)
      invariant forall k :: 0 <= k < j ==> t.blockers[k] in g
    {
      var b := t.blockers[j];
      ghost var h := g[t.id := g[t.id] + t.blockers[..j]];
      if b !in dependents {
        unknown := Some(j);
        return;
      }
      TransposeOne(h, dependents, t.id, b);
      OneMoreBlocker(g, t, j);
      inDegree := inDegree[t.id := inDegree[t.id] + 1];
      dependents := dependents[b := dependents[b] + [t.id]];
    }
    assert t.blockers[..|t.blockers|] == t.blockers;
  }

  lemma AddNothing(g: Graph, d: nat)
    requires d in g
    ensures g[d := g[d] + []] == g
  {
    assert g[d] + [] == g[d];
    SameEntries(g[d := g[d]], g);
  }

  lemma OneMoreBlocker(g: Graph, t: Task, j: nat)
    requires t.id in g && j < |t.blockers|
    ensures var h := g[t.id := g[t.id] + t.blockers[..j]];
      h[t.id := h[t.id] + [t.blockers[j]]] == g[t.id := g[t.id] + t.blockers[..j + 1]]
  {
    assert t.blockers[..j + 1] == t.blockers[..j] + [t.blockers[j]];
    Assoc(g[t.id], t.blockers[..j], [t.blockers[j]]);
  }

  lemma {:induction false} GraphUpToEntries(tasks: seq<Task>, n: nat, k: nat)
    requires DistinctIds(tasks) && n <= |tasks| && k < |tasks|
    ensures tasks[k].id in GraphUpTo(tasks, n)
    ensures GraphUpTo(tasks, n)[tasks[k].id] == if k < n then tasks[k].blockers else []
    decreases n
  {
    assert Ids(tasks)[k] == tasks[k].id;
    if n > 0 {
      GraphUpToEntries(tasks, n - 1, k);
    }
  }

  lemma {:induction false} GraphUpToKeys(tasks: seq<Task>, n: nat, d: nat)
    requires n <= |tasks|
    ensures d in GraphUpTo(tasks, n) <==> d in Ids(tasks)
    decreases n
  {
    if n > 0 {
      GraphUpToKeys(tasks, n - 1, d);
      assert Ids(tasks)[n - 1] == tasks[n - 1].id;
    }
  }

  lemma AllKeys(tasks: seq<Task>, n: nat)
    requires n <= |tasks|
    ensures forall d :: d in GraphUpTo(tasks, n) <==> d in Ids(tasks)
  {
    forall d
      ensures d in GraphUpTo(tasks, n) <==> d in Ids(tasks)
    {
      GraphUpToKeys(tasks, n, d);
    }
  }

  /** The blocker lists of the first n tasks name only tasks. */
  ghost predicate AllKnown(tasks: seq<Task>, n: nat)
    requires n <= |tasks|
  {
    forall h, b :: 0 <= h < n && b in tasks[h].blockers ==> b in Ids(tasks)
  }

  /** b is among the blockers of some listed task with id d. */
  ghost predicate Names(tasks: seq<Task>, n: nat, d: nat, b: nat)
    requires n <= |tasks|
  {
    exists k :: 0 <= k < n && tasks[k].id == d && b in tasks[k].blockers
  }

  lemma {:induction false} GraphUpToMember(tasks: seq<Task>, n: nat, d: nat, b: nat)
    requires n <= |tasks|
    ensures b in EntryOf(GraphUpTo(tasks, n), d) <==> Names(tasks, n, d, b)
    decreases n
  {
    if n > 0 {
      GraphUpToMember(tasks, n - 1, d, b);
    }
  }

  lemma KnownIsClosed(tasks: seq<Task>)
    ensures AllKnown(tasks, |tasks|) <==> Closed(GraphOf(tasks))
  {
    var g := GraphOf(tasks);
    AllKeys(tasks, |tasks|);
    forall d, b | AllKnown(tasks, |tasks|) && d in g && b in g[d]
      ensures b in g
    {
      GraphUpToMember(tasks, |tasks|, d, b);
    }
    forall h, b | Closed(g) && 0 <= h < |tasks| && b in tasks[h].blockers
      ensures b in Ids(tasks)
    {
      GraphUpToMember(tasks, |tasks|, tasks[h].id, b);
    }
  }

  lemma FoundUnknown(tasks: seq<Task>, n: nat, j: nat)
    requires n < |tasks| && AllKnown(tasks, n) && j < |tasks[n].blockers|
    requires tasks[n].blockers[j] !in GraphUpTo(tasks, n)
    requires forall k :: 0 <= k < j ==> tasks[n].blockers[k] in GraphUpTo(tasks, n)
    ensures FirstUnknown(tasks, n, j)
  {
    GraphUpToKeys(tasks, n, tasks[n].blockers[j]);
    forall k | 0 <= k < j
      ensures tasks[n].blockers[k] in Ids(tasks)
    {
      GraphUpToKeys(tasks, n, tasks[n].blockers[k]);
    }
  }

  /** The counting pass. */
  method CountAll(tasks: seq<Task>)
    returns (inDegree: map<nat, int>, dependents: map<nat, seq<nat>>, unknown: Option<nat>)
    ensures unknown.None? ==> Counted(GraphOf(tasks), inDegree, dependents) && AllKnown(tasks, |tasks|)
    ensures unknown.Some? ==>
      exists i: nat, j: nat :: FirstUnknown(tasks, i, j) && unknown.value == tasks[i].blockers[j]
  {
    inDegree := map d | d in Ids(tasks) :: 0;
    dependents := map d | d in Ids(tasks) :: [];
    unknown := None;
    assert Counted(GraphUpTo(tasks, 0), inDegree, dependents);
    for n := 0 to |tasks|
      invariant unknown.None?
      invariant Counted(GraphUpTo(tasks, n), inDegree, dependents)
      invariant AllKnown(tasks, n)
    {
      assert Ids(tasks)[n] == tasks[n].id;
      GraphUpToKeys(tasks, n, tasks[n].id);
      var missing: Option<nat>;
      inDegree, dependents, missing := CountTask(tasks[n], inDegree, dependents, GraphUpTo(tasks, n));
      if missing.Some? {
        FoundUnknown(tasks, n, missing.value);
        unknown := Some(tasks[n].blockers[missing.value]);
        return;
      }
      OneMoreKnown(tasks, n);
    }
  }

  lemma OneMoreKnown(tasks: seq<Task>, n: nat)
    requires n < |tasks| && AllKnown(tasks, n)
    requires forall b :: b in tasks[n].blockers ==> b in GraphUpTo(tasks, n)
    ensures AllKnown(tasks, n + 1)
  {
    forall h, b | 0 <= h < n + 1 && b in tasks[h].blockers
      ensures b in Ids(tasks)
    {
      GraphUpToKeys(tasks, n, b);
    }
  }

  // ---------------------------------------------------------------- releasing dependents

  /** The in-degree of a task is the number of blocker entries not yet output. */
  ghost predicate Degrees(g: Graph, done: set<nat>, inDegree: map<nat, int>) {
    inDegree.Keys == g.Keys && forall d :: d in g ==> inDegree[d] == Pending(g[d], done)
  }

  /** deps lists, in order, each dependent of t as often as it names t. */
  ghost predicate SortedDependents(g: Graph, t: nat, deps: seq<nat>) {
    && Nondecreasing(deps)
    && (forall d :: d in deps ==> d in g)
    && (forall d :: d in g ==> Count(deps, d) == Count(g[d], t))
  }

  /** Half way through the release of t: the entries in `past` have been decremented. */
  ghost predicate Decremented(g: Graph, done: set<nat>, past: seq<nat>, inDegree: map<nat, int>) {
    && inDegree.Keys == g.Keys
    && (forall d :: d in g ==> inDegree[d] == Pending(g[d], done) - Count(past, d))
  }

  /** What was appended so far: the decremented tasks that reached zero, in order. */
  ghost predicate Appended(past: seq<nat>, inDegree: map<nat, int>, added: seq<nat>) {
    && Increasing(added)
    && (forall d :: d in added <==> d in past && d in inDegree && inDegree[d] == 0)
  }

  lemma PendingCovers(blockers: seq<nat>, done: set<nat>, t: nat)
    requires t !in done
    ensures Count(blockers, t) <= Pending(blockers, done)
  {
    PendingStep(blockers, done, t);
  }

  lemma DecrementOne(g: Graph, done: set<nat>, t: nat, deps: seq<nat>, k: nat, inDegree: map<nat, int>)
    requires SortedDependents(g, t, deps) && t !in done && k < |deps|
    requires Decremented(g, done, deps[..k], inDegree)
    ensures deps[k] in inDegree && inDegree[deps[k]] >= 1
    ensures Decremented(g, done, deps[..k + 1], inDegree[deps[k] := inDegree[deps[k]] - 1])
  {
    var d := deps[k];
    assert d in deps && d in g;
    assert deps[..k + 1] == deps[..k] + [d];
    assert deps == deps[..k + 1] + deps[k + 1..];
    PendingCovers(g[d], done, t);
    CountConcat(deps[..k + 1], deps[k + 1..], d);
    forall x
      ensures Count(deps[..k + 1], x) == Count(deps[..k], x) + if x == d then 1 else 0
    {
      CountConcat(deps[..k], [d], x);
    }
  }

  lemma AppendOne(deps: seq<nat>, k: nat, inDegree: map<nat, int>, added: seq<nat>)
    requires Nondecreasing(deps) && k < |deps| && deps[k] in inDegree && inDegree[deps[k]] >= 1
    requires Appended(deps[..k], inDegree, added)
    ensures var degree := inDegree[deps[k] := inDegree[deps[k]] - 1];
      Appended(deps[..k + 1], degree, if degree[deps[k]] == 0 then added + [deps[k]] else added)
  {
    var d := deps[k];
    assert forall x :: x in deps[..k + 1] <==> x == d || x in deps[..k];
    forall x | x in added
      ensures x < d
    {
      assert x in deps[..k];
    }
    assert forall i :: 0 <= i < |added| ==> added[i] in added;
  }

  /** The inner loop of the main pass: returns the new counters and the longer queue. */
  method Release(t: nat, deps: seq<nat>, inDegree0: map<nat, int>, queue0: seq<nat>,
                 ghost g: Graph, ghost done: set<nat>)
    returns (inDegree: map<nat, int>, queue: seq<nat>)
    requires SortedDependents(g, t, deps) && t !in done && Degrees(g, done, inDegree0)
    ensures Degrees(g, done + {t}, inDegree)
    ensures queue == queue0 + Ascending(K.NewlyReady(g, done, t))
  {
    inDegree, queue := inDegree0, queue0;
    ghost var added: seq<nat> := [];
    for k := 0 to |deps|
      invariant Decremented(g, done, deps[..k], inDegree)
      invariant Appended(deps[..k], inDegree, added)
      invariant queue == queue0 + added
    {
      var d := deps[k];
      DecrementOne(g, done, t, deps, k, inDegree);
      AppendOne(deps, k, inDegree, added);
      inDegree := inDegree[d := inDegree[d] - 1];
      if inDegree[d] == 0 {
        queue := queue + [d];
        added := added + [d];
      }
    }
    ReleasedAll(g, done, t, deps, inDegree, added);
  }

  lemma ReleasedAll(g: Graph, done: set<nat>, t: nat, deps: seq<nat>, inDegree: map<nat, int>, added: seq<nat>)
    requires SortedDependents(g, t, deps) && t !in done
    requires Decremented(g, done, deps[..|deps|], inDegree) && Appended(deps[..|deps|], inDegree, added)
    ensures Degrees(g, done + {t}, inDegree)
    ensures added == Ascending(K.NewlyReady(g, done, t))
  {
    assert deps[..|deps|] == deps;
    forall d | d in g
      ensures inDegree[d] == Pending(g[d], done + {t})
      ensures d in added <==> d in K.NewlyReady(g, done, t)
    {
      PendingStep(g[d], done, t);
      PendingZero(g[d], done + {t});
      CountMember(deps, d);
      CountMember(g[d], t);
    }
    assert forall d :: d in added <==> d in K.NewlyReady(g, done, t);
    IncreasingUnique(added, Ascending(K.NewlyReady(g, done, t)));
  }

  // ---------------------------------------------------------------- the initial queue

  /** The ids of degree zero, in the order listed. */
  function ZeroDegree(ids: seq<nat>, inDegree: map<nat, int>): (r: seq<nat>)
    requires forall i :: 0 <= i < |ids| ==> ids[i] in inDegree
  {
    if ids == [] then []
    else (if inDegree[ids[0]] == 0 then [ids[0]] else []) + ZeroDegree(ids[1..], inDegree)
  }

  lemma {:induction false} ZeroDegreeMembers(ids: seq<nat>, inDegree: map<nat, int>)
    requires forall i :: 0 <= i < |ids| ==> ids[i] in inDegree
    requires Increasing(ids)
    ensures forall d :: d in ZeroDegree(ids, inDegree) <==> d in ids && d in inDegree && inDegree[d] == 0
    ensures Increasing(ZeroDegree(ids, inDegree))
  {
    if ids != [] {
      var rest := ZeroDegree(ids[1..], inDegree);
      ZeroDegreeMembers(ids[1..], inDegree);
      assert forall d :: d in ids <==> d == ids[0] || d in ids[1..];
      assert forall d :: d in rest ==> ids[0] < d;
      PrependSmaller(ids[0], rest);
    }
  }

  lemma NothingBlocks(g: Graph, d: nat)
    requires d in g
    ensures K.Unblocked(g, {}, d) <==> |g[d]| == 0
  {
    if |g[d]| > 0 {
      var b := g[d][0];
      assert b in g[d];
    }
  }

  lemma InitialQueue(g: Graph, ids: seq<nat>, inDegree: map<nat, int>)
    requires Distinct(ids) && forall d :: d in ids <==> d in g
    requires inDegree.Keys == g.Keys && forall d :: d in g ==> inDegree[d] == |g[d]|
    ensures forall i :: 0 <= i < |Sort(ids)| ==> Sort(ids)[i] in inDegree
    ensures ZeroDegree(Sort(ids), inDegree) == Ascending(K.Available(g, {}))
  {
    SortCorrect(ids);
    assert forall i :: 0 <= i < |Sort(ids)| ==> Sort(ids)[i] in Sort(ids);
    ZeroDegreeMembers(Sort(ids), inDegree);
    var q := ZeroDegree(Sort(ids), inDegree);
    forall d
      ensures d in q <==> d in K.Available(g, {})
    {
      assert d in q <==> d in g && |g[d]| == 0;
      if d in g {
        NothingBlocks(g, d);
      }
    }
    IncreasingUnique(q, Ascending(K.Available(g, {})));
  }

  // ---------------------------------------------------------------- the whole sort

  /** The ids left out of the result, in the order of the input list. */
  function NotIn(tasks: seq<Task>, ids: seq<nat>): (r: seq<nat>) {
    if tasks == [] then []
    else (if tasks[0].id in ids then [] else [tasks[0].id]) + NotIn(tasks[1..], ids)
  }

  /** The members of a set of ids, in the order of the input list. */
  ghost function InListOrder(tasks: seq<Task>, ids: set<nat>): (r: seq<nat>) {
    if tasks == [] then []
    else (if tasks[0].id in ids then [tasks[0].id] else []) + InListOrder(tasks[1..], ids)
  }

  lemma {:induction false} NotInMembers(tasks: seq<Task>, ids: seq<nat>, left: set<nat>)
    requires forall d :: d in Ids(tasks) ==> (d in left <==> d !in ids)
    ensures NotIn(tasks, ids) == InListOrder(tasks, left)
    ensures forall d :: d in NotIn(tasks, ids) <==> d in Ids(tasks) && d !in ids
  {
    if tasks != [] {
      assert Ids(tasks) == [tasks[0].id] + Ids(tasks[1..]);
      NotInMembers(tasks[1..], ids, left);
    }
  }

  lemma OutputSize(tasks: seq<Task>, ordered: seq<Task>)
    requires Closed(GraphOf(tasks)) && Ids(ordered) == K.Order(GraphOf(tasks))
    ensures |ordered| == |tasks| <==> Acyclic(GraphOf(tasks)) && DistinctIds(tasks)
  {
    var g := GraphOf(tasks);
    DistinctIdList(tasks);
    K.OrderDistinct(g);
    K.OrderComplete(g);
    ElemsSize(Ids(ordered));
    ElemsSize(Ids(tasks));
    forall d
      ensures d in g.Keys <==> d in Elems(Ids(tasks))
    {
      GraphUpToKeys(tasks, |tasks|, d);
    }
    assert g.Keys == Elems(Ids(tasks));
    SubsetSize(Elems(Ids(ordered)), g.Keys);
  }

  lemma ReportMembers(tasks: seq<Task>, ids: seq<nat>)
    ensures Elems(NotIn(tasks, ids)) == GraphOf(tasks).Keys - Elems(ids)
    ensures NotIn(tasks, ids) == InListOrder(tasks, GraphOf(tasks).Keys - Elems(ids))
  {
    var left := GraphOf(tasks).Keys - Elems(ids);
    AllKeys(tasks, |tasks|);
    NotInMembers(tasks, ids, left);
    forall d
      ensures d in Elems(NotIn(tasks, ids)) <==> d in left
    {
      GraphUpToKeys(tasks, |tasks|, d);
    }
  }

  lemma ReportCorrect(tasks: seq<Task>, ordered: seq<Task>)
    requires Closed(GraphOf(tasks)) && |ordered| != |tasks|
    requires Ids(ordered) == K.Order(GraphOf(tasks))
    ensures Correct(tasks, CycleAmong(NotIn(tasks, Ids(ordered))))
  {
    ReportMembers(tasks, Ids(ordered));
    OutputSize(tasks, ordered);
    K.LeftoverIsLargestStuck(GraphOf(tasks));
  }

  lemma ResultCorrect(tasks: seq<Task>, ordered: seq<Task>)
    requires Closed(GraphOf(tasks)) && |ordered| == |tasks|
    requires Ids(ordered) == K.Order(GraphOf(tasks)) && forall t :: t in ordered ==> t in tasks
    ensures Correct(tasks, Sorted(ordered))
  {
    var g := GraphOf(tasks);
    OutputSize(tasks, ordered);
    K.OrderDistinct(g);
    K.OrderBlockersFirst(g);
    DistinctIdList(ordered);
    AllOutput(tasks, ordered);
    SameMembersPermute(ordered, tasks);
    K.OrderIsFirstInFirstOut(g);
    OrderOnTasks(tasks, ordered);
  }

  /** A listed task has its own blocker list in the graph. */
  lemma OwnBlockers(tasks: seq<Task>, ordered: seq<Task>, i: nat)
    requires DistinctIds(tasks) && i < |ordered| && forall t :: t in ordered ==> t in tasks
    ensures ordered[i].id in GraphOf(tasks) && GraphOf(tasks)[ordered[i].id] == ordered[i].blockers
  {
    assert ordered[i] in ordered;
    var k :| 0 <= k < |tasks| && tasks[k] == ordered[i];
    GraphUpToEntries(tasks, |tasks|, k);
  }

  /** The two conditions on tasks are those on the graph. */
  lemma OrderOnTasks(tasks: seq<Task>, ordered: seq<Task>)
    requires DistinctIds(tasks) && forall t :: t in ordered ==> t in tasks
    ensures AfterBlockers(ordered) <==> K.BlockersFirst(GraphOf(tasks), Ids(ordered))
    ensures InReleaseOrder(ordered) <==> K.FirstInFirstOut(GraphOf(tasks), Ids(ordered), Ids(ordered))
  {
    var g, ids := GraphOf(tasks), Ids(ordered);
    forall i | 0 <= i < |ordered|
      ensures ids[i] == ordered[i].id && ids[i] in g && g[ids[i]] == ordered[i].blockers
    {
      OwnBlockers(tasks, ordered, i);
    }
  }

  lemma AllOutput(tasks: seq<Task>, ordered: seq<Task>)
    requires DistinctIds(tasks) && Closed(GraphOf(tasks)) && Acyclic(GraphOf(tasks))
    requires Ids(ordered) == K.Order(GraphOf(tasks)) && forall t :: t in ordered ==> t in tasks
    ensures forall t :: t in tasks <==> t in ordered
  {
    var g := GraphOf(tasks);
    AllKeys(tasks, |tasks|);
    K.OrderComplete(g);
    forall t | t in tasks
      ensures t in ordered
    {
      var i :| 0 <= i < |tasks| && tasks[i] == t;
      assert Ids(tasks)[i] == t.id;
      assert t.id in Elems(Ids(ordered));
      var k :| 0 <= k < |ordered| && Ids(ordered)[k] == t.id;
      assert ordered[k] in tasks;
      var h :| 0 <= h < |tasks| && tasks[h] == ordered[k];
    }
  }

  lemma EmitOne(ordered: seq<Task>, t: Task, rest: seq<nat>)
    ensures Ids(ordered + [t]) + rest == Ids(ordered) + ([t.id] + rest)
  {
  }

  /** `id_to_task`: the last task listed under an id counts. */
  function Catalog(tasks: seq<Task>): (r: map<nat, Task>) {
    if tasks == [] then map[]
    else
      var last := tasks[|tasks| - 1];
      Catalog(tasks[..|tasks| - 1])[last.id := last]
  }

  lemma {:induction false} CatalogEntry(tasks: seq<Task>, d: nat)
    requires d in Ids(tasks)
    ensures d in Catalog(tasks) && Catalog(tasks)[d] in tasks && Catalog(tasks)[d].id == d
  {
    var n := |tasks| - 1;
    assert Ids(tasks) == Ids(tasks[..n]) + [tasks[n].id];
    if d != tasks[n].id {
      CatalogEntry(tasks[..n], d);
    }
  }

  /** The keys of a dictionary filled from the list. */
  function DictKeys(tasks: seq<Task>): (r: seq<nat>) {
    if tasks == [] then []
    else
      var keys, id := DictKeys(tasks[..|tasks| - 1]), tasks[|tasks| - 1].id;
      if id in keys then keys else keys + [id]
  }

  lemma {:induction false} DictKeysMeaning(tasks: seq<Task>)
    ensures Distinct(DictKeys(tasks)) && forall d :: d in DictKeys(tasks) <==> d in Ids(tasks)
  {
    if tasks != [] {
      var n := |tasks| - 1;
      DictKeysMeaning(tasks[..n]);
      assert Ids(tasks) == Ids(tasks[..n]) + [tasks[n].id];
    }
  }

  /** One round of the main loop: the head of the queue leaves, its dependents are released. */
  method Round(inDegree0: map<nat, int>, dependents: map<nat, seq<nat>>, queue0: seq<nat>,
               ghost g: Graph, ghost done: set<nat>)
    returns (inDegree: map<nat, int>, queue: seq<nat>)
    requires K.Frontier(g, done, queue0) && queue0 != []
    requires Degrees(g, done, inDegree0) && Transposed(g, dependents)
    ensures queue0[0] in g && queue0[0] !in done
    ensures K.Frontier(g, done + {queue0[0]}, queue) && Degrees(g, done + {queue0[0]}, inDegree)
    ensures K.OrderFrom(g, done, queue0) == [queue0[0]] + K.OrderFrom(g, done + {queue0[0]}, queue)
  {
    K.FrontierStep(g, done, queue0);
    var tid := queue0[0];
    DependentsSorted(g, dependents, tid);
    inDegree, queue := Release(tid, Sort(dependents[tid]), inDegree0, queue0[1..], g, done);
  }

  /** The main loop: empties the queue. */
  method Drain(tasks: seq<Task>, idToTask: map<nat, Task>, inDegree0: map<nat, int>,
               dependents: map<nat, seq<nat>>, queue0: seq<nat>, ghost g: Graph)
    returns (ordered: seq<Task>)
    requires idToTask == Catalog(tasks) && forall d :: d in g <==> d in Ids(tasks)
    requires Degrees(g, {}, inDegree0) && Transposed(g, dependents) && K.Frontier(g, {}, queue0)
    ensures Ids(ordered) == K.OrderFrom(g, {}, queue0)
    ensures forall t :: t in ordered ==> t in tasks
  {
    var inDegree, queue := inDegree0, queue0;
    ordered := [];
    ghost var done: set<nat> := {};
    while queue != []
      invariant K.Frontier(g, done, queue)
      invariant Degrees(g, done, inDegree)
      invariant forall t :: t in ordered ==> t in tasks
      invariant Ids(ordered) + K.OrderFrom(g, done, queue) == K.OrderFrom(g, {}, queue0)
      decreases g.Keys - done
    {
      var tid := queue[0];
      inDegree, queue := Round(inDegree, dependents, queue, g, done);
      CatalogEntry(tasks, tid);
      EmitOne(ordered, idToTask[tid], K.OrderFrom(g, done + {tid}, queue));
      ordered := ordered + [idToTask[tid]];
      done := done + {tid};
    }
  }

  lemma StartDegrees(g: Graph, inDegree: map<nat, int>)
    requires inDegree.Keys == g.Keys && forall d :: d in g ==> inDegree[d] == |g[d]|
    ensures Degrees(g, {}, inDegree)
  {
    forall d | d in g
      ensures inDegree[d] == Pending(g[d], {})
    {
      PendingAll(g[d]);
    }
  }

  lemma DependentsSorted(g: Graph, dependents: map<nat, seq<nat>>, t: nat)
    requires Transposed(g, dependents) && t in g
    ensures SortedDependents(g, t, Sort(dependents[t]))
  {
    SortCorrect(dependents[t]);
    forall d | d in g
      ensures Count(Sort(dependents[t]), d) == Count(g[d], t)
    {
      SortCount(dependents[t], d);
    }
  }

  /** First in, first out, read off the list itself: the place of a task's last blocker in the
      list never falls along the list (-1 without blockers), and ids rise where it is the same. */
  ghost predicate InReleaseOrder(ordered: seq<Task>) {
    forall i, j :: 0 <= i < j < |ordered| ==>
      K.Precedes(Ids(ordered), ordered[i].id, ordered[i].blockers, ordered[j].id, ordered[j].blockers)
  }

  /** Every blocker of a listed task is that of an earlier one. */
  ghost predicate AfterBlockers(ordered: seq<Task>) {
    forall i, b :: 0 <= i < |ordered| && b in ordered[i].blockers ==> b in Ids(ordered)[..i]
  }

  /** The outcome of the sort, stated on the graph and the input list only. */
  ghost predicate Correct(tasks: seq<Task>, r: SortResult) {
    var g := GraphOf(tasks);
    match r
    case Sorted(ordered) =>
      && DistinctIds(tasks) && Closed(g) && Acyclic(g)
      && multiset(ordered) == multiset(tasks)
      && Ids(ordered) == K.Order(g)
      && K.BlockersFirst(g, Ids(ordered))
      && AfterBlockers(ordered) && InReleaseOrder(ordered)
    case CycleAmong(ids) =>
      && Closed(g) && !(DistinctIds(tasks) && Acyclic(g))
      && LargestStuck(g, Elems(ids))
      && ids == InListOrder(tasks, Elems(ids))
    case UnknownBlocker(id) =>
      exists i: nat, j: nat :: FirstUnknown(tasks, i, j) && id == tasks[i].blockers[j]
  }

  /** `topological_sort` */
  method TopologicalSort(tasks: seq<Task>) returns (r: SortResult)
    ensures Correct(tasks, r)
  {
    var idToTask := Catalog(tasks);
    var inDegree, dependents, unknown := CountAll(tasks);
    if unknown.Some? {
      return UnknownBlocker(unknown.value);
    }
    StartCorrect(tasks, inDegree, dependents);
    var queue := ZeroDegree(Sort(DictKeys(tasks)), inDegree);
    K.StartFrontier(GraphOf(tasks));
    var ordered := Drain(tasks, idToTask, inDegree, dependents, queue, GraphOf(tasks));
    if |ordered| != |tasks| {
      var cycle := NotIn(tasks, Ids(ordered));
      ReportCorrect(tasks, ordered);
      return CycleAmong(cycle);
    }
    ResultCorrect(tasks, ordered);
    return Sorted(ordered);
  }

  lemma StartCorrect(tasks: seq<Task>, inDegree: map<nat, int>, dependents: map<nat, seq<nat>>)
    requires AllKnown(tasks, |tasks|)
    requires Counted(GraphOf(tasks), inDegree, dependents)
    ensures Closed(GraphOf(tasks)) && forall d :: d in GraphOf(tasks) <==> d in Ids(tasks)
    ensures Degrees(GraphOf(tasks), {}, inDegree)
    ensures forall i :: 0 <= i < |Sort(DictKeys(tasks))| ==> Sort(DictKeys(tasks))[i] in inDegree
    ensures ZeroDegree(Sort(DictKeys(tasks)), inDegree) == Ascending(K.Available(GraphOf(tasks), {}))
  {
    AllKeys(tasks, |tasks|);
    KnownIsClosed(tasks);
    StartDegrees(GraphOf(tasks), inDegree);
    DictKeysMeaning(tasks);
    InitialQueue(GraphOf(tasks), DictKeys(tasks), inDegree);
  }

  /** The sort fails on a lookup exactly if some blocker is not listed, and succeeds exactly
      if all are, no id is listed twice and nothing waits for itself through others. */
  lemma OutcomeExactly(tasks: seq<Task>, r: SortResult)
    requires Correct(tasks, r)
    ensures r.UnknownBlocker? <==> !Closed(GraphOf(tasks))
    ensures r.Sorted? <==> Closed(GraphOf(tasks)) && Acyclic(GraphOf(tasks)) && DistinctIds(tasks)
  {
    if r.UnknownBlocker? {
      var i: nat, j: nat :| FirstUnknown(tasks, i, j) && r.id == tasks[i].blockers[j];
      assert tasks[i].blockers[j] in tasks[i].blockers;
      KnownIsClosed(tasks);
    }
  }

  lemma DistinctIdList(tasks: seq<Task>)
    ensures DistinctIds(tasks) <==> Distinct(Ids(tasks))
  {
    assert forall i :: 0 <= i < |tasks| ==> Ids(tasks)[i] == tasks[i].id;
  }

  // ---------------------------------------------------------------- what the result depends on

  /** The graph does not depend on the order of the input list, and the result is a
      function of the graph: every permutation of the input gives the same sequence. */
  lemma SameGraphForPermutations(a: seq<Task>, b: seq<Task>)
    requires DistinctIds(a) && DistinctIds(b) && multiset(a) == multiset(b)
    ensures GraphOf(a) == GraphOf(b)
  {
    EntriesCarryOver(a, b);
    EntriesCarryOver(b, a);
    SameEntries(GraphOf(a), GraphOf(b));
  }

  lemma EntriesCarryOver(a: seq<Task>, b: seq<Task>)
    requires DistinctIds(a) && DistinctIds(b) && multiset(a) == multiset(b)
    ensures forall d :: d in GraphOf(a) ==> d in GraphOf(b) && GraphOf(b)[d] == GraphOf(a)[d]
  {
    forall d | d in GraphOf(a)
      ensures d in GraphOf(b) && GraphOf(b)[d] == GraphOf(a)[d]
    {
      GraphUpToKeys(a, |a|, d);
      var i :| 0 <= i < |a| && Ids(a)[i] == d;
      assert a[i] in multiset(b);
      var k :| 0 <= k < |b| && b[k] == a[i];
      GraphUpToEntries(a, |a|, i);
      GraphUpToEntries(b, |b|, k);
    }
  }

  /** Equal inputs up to order give equal outputs. */
  lemma OutputIgnoresListOrder(a: seq<Task>, b: seq<Task>, x: seq<Task>, y: seq<Task>)
    requires multiset(a) == multiset(b)
    requires Correct(a, Sorted(x)) && Correct(b, Sorted(y))
    ensures x == y
  {
    SameGraphForPermutations(a, b);
    SameMembers(a, x);
    SameMembers(b, y);
    SameMembers(a, b);
    SameIdsSameTasks(a, x, y);
  }

  /** The list alone decides: of all orders of the given tasks there is just one with blockers
      first and first in, first out, and the sort returns it. */
  lemma OnlyOneReleaseOrder(tasks: seq<Task>, x: seq<Task>, y: seq<Task>)
    requires Correct(tasks, Sorted(x))
    requires multiset(y) == multiset(tasks) && AfterBlockers(y) && InReleaseOrder(y)
    ensures x == y
  {
    SameMembers(tasks, x);
    SameMembers(tasks, y);
    OrderOnTasks(tasks, x);
    OrderOnTasks(tasks, y);
    PermutedIds(tasks, x);
    PermutedIds(tasks, y);
    K.FifoIsUnique(GraphOf(tasks), Ids(x), Ids(y), |x|);
    assert Ids(x)[..|x|] == Ids(x) && Ids(y)[..|x|] == Ids(y);
    SameIdsSameTasks(tasks, x, y);
  }

  lemma SameMembers(tasks: seq<Task>, x: seq<Task>)
    requires multiset(x) == multiset(tasks)
    ensures |x| == |tasks| && forall t :: t in x <==> t in tasks
  {
    assert |multiset(x)| == |multiset(tasks)|;
    assert forall t :: t in x <==> t in multiset(x);
    assert forall t :: t in tasks <==> t in multiset(tasks);
  }

  /** No task precedes itself, so an id occurs once in such an order. */
  lemma ReleasedOnce(tasks: seq<Task>, x: seq<Task>)
    requires DistinctIds(tasks) && InReleaseOrder(x) && forall t :: t in x ==> t in tasks
    ensures DistinctIds(x)
  {
    forall i, j | 0 <= i < j < |x|
      ensures x[i].id != x[j].id
    {
      OwnBlockers(tasks, x, i);
      OwnBlockers(tasks, x, j);
      assert K.Precedes(Ids(x), x[i].id, x[i].blockers, x[j].id, x[j].blockers);
    }
  }

  /** The ids in such an order: those of the graph, none twice. */
  lemma PermutedIds(tasks: seq<Task>, x: seq<Task>)
    requires DistinctIds(tasks) && multiset(x) == multiset(tasks) && InReleaseOrder(x)
    ensures Distinct(Ids(x)) && forall d :: d in Ids(x) <==> d in GraphOf(tasks)
  {
    SameMembers(tasks, x);
    ReleasedOnce(tasks, x);
    DistinctIdList(x);
    SameGraphForPermutations(tasks, x);
    forall d
      ensures d in Ids(x) <==> d in GraphOf(tasks)
    {
      GraphUpToKeys(x, |x|, d);
    }
  }

  lemma SameIdsSameTasks(tasks: seq<Task>, x: seq<Task>, y: seq<Task>)
    requires DistinctIds(tasks) && Ids(x) == Ids(y)
    requires forall t :: t in x || t in y ==> t in tasks
    ensures x == y
  {
    assert |x| == |Ids(x)| == |Ids(y)| == |y|;
    forall i | 0 <= i < |x|
      ensures x[i] == y[i]
    {
      assert Ids(x)[i] == x[i].id && Ids(y)[i] == y[i].id;
      assert x[i] in x && y[i] in y;
    }
  }

  /** Where an id picked from the list stands in it. */
  lemma {:induction false} ListPlace(tasks: seq<Task>, ids: set<nat>, a: nat) returns (x: nat)
    requires a < |InListOrder(tasks, ids)|
    ensures x < |tasks| && tasks[x].id == InListOrder(tasks, ids)[a]
  {
    var n := if tasks[0].id in ids then 1 else 0;
    if a < n {
      x := 0;
    } else {
      x := ListPlace(tasks[1..], ids, a - n);
      x := x + 1;
    }
  }

  lemma {:induction false} ListPlaces(tasks: seq<Task>, ids: set<nat>, a: nat, b: nat)
    returns (x: nat, y: nat)
    requires a < b < |InListOrder(tasks, ids)|
    ensures x < y < |tasks|
    ensures tasks[x].id == InListOrder(tasks, ids)[a] && tasks[y].id == InListOrder(tasks, ids)[b]
  {
    var n := if tasks[0].id in ids then 1 else 0;
    if a < n {
      y := ListPlace(tasks[1..], ids, b - n);
      x, y := 0, y + 1;
    } else {
      x, y := ListPlaces(tasks[1..], ids, a - n, b - n);
      x, y := x + 1, y + 1;
    }
  }

  lemma {:induction false} ListCount(tasks: seq<Task>, ids: set<nat>, d: nat)
    ensures Count(InListOrder(tasks, ids), d) == if d in ids then Count(Ids(tasks), d) else 0
  {
    if tasks != [] {
      ListCount(tasks[1..], ids, d);
      assert Ids(tasks) == [tasks[0].id] + Ids(tasks[1..]);
      CountConcat([tasks[0].id], Ids(tasks[1..]), d);
      CountConcat(if tasks[0].id in ids then [tasks[0].id] else [], InListOrder(tasks[1..], ids), d);
    }
  }

  /** d is listed before e. */
  ghost predicate ListedBefore(tasks: seq<Task>, d: nat, e: nat) {
    exists x, y :: 0 <= x < y < |tasks| && tasks[x].id == d && tasks[y].id == e
  }

  lemma ListOrderKept(tasks: seq<Task>, ids: set<nat>)
    ensures var r := InListOrder(tasks, ids);
      forall a, b :: 0 <= a < b < |r| ==> ListedBefore(tasks, r[a], r[b])
  {
    var r := InListOrder(tasks, ids);
    forall a, b | 0 <= a < b < |r|
      ensures ListedBefore(tasks, r[a], r[b])
    {
      var x, y := ListPlaces(tasks, ids, a, b);
    }
  }

  lemma ListCounts(tasks: seq<Task>, ids: set<nat>)
    ensures forall d :: d in ids ==> Count(InListOrder(tasks, ids), d) == Count(Ids(tasks), d)
  {
    forall d | d in ids
      ensures Count(InListOrder(tasks, ids), d) == Count(Ids(tasks), d)
    {
      ListCount(tasks, ids, d);
    }
  }

  lemma ReportInOrder(tasks: seq<Task>, r: SortResult)
    requires Correct(tasks, r) && r.CycleAmong?
    ensures r.ids == InListOrder(tasks, Elems(r.ids))
  {
  }

  /** The report keeps the order of the list, and each reported id as often as it is listed. */
  lemma ReportKeepsListOrder(tasks: seq<Task>, r: SortResult)
    requires Correct(tasks, r) && r.CycleAmong?
    ensures forall d :: d in Elems(r.ids) ==> Count(r.ids, d) == Count(Ids(tasks), d)
    ensures forall a, b :: 0 <= a < b < |r.ids| ==> ListedBefore(tasks, r.ids[a], r.ids[b])
  {
    ReportInOrder(tasks, r);
    ListCounts(tasks, Elems(r.ids));
    ListOrderKept(tasks, Elems(r.ids));
  }

  /** The output comes in waves: the longest chain of blockers never gets shorter. */
  lemma OutputInWaves(tasks: seq<Task>, ordered: seq<Task>, i: nat, j: nat)
    requires Correct(tasks, Sorted(ordered)) && i < j < |ordered|
    ensures NoDeeper(GraphOf(tasks), ordered[i].id, ordered[j].id)
  {
    assert Ids(ordered)[i] == ordered[i].id && Ids(ordered)[j] == ordered[j].id;
    K.OrderInWaves(GraphOf(tasks), i, j);
  }
}
