/** The order that Kahn's algorithm gives a blocker graph, as a function of the graph
    alone, and what that order guarantees. */
module KahnOrder {
  import opened IdOrder
  import opened BlockerGraph

  /** Every blocker of d has been output. */
  ghost predicate Unblocked(g: Graph, done: set<nat>, d: nat) {
    d in g && forall b :: b in g[d] ==> b in done
  }

  ghost function Available(g: Graph, done: set<nat>): (r: set<nat>) {
    set d | d in g && Unblocked(g, done, d)
  }

  /** The tasks whose last missing blocker is t. */
  ghost function NewlyReady(g: Graph, done: set<nat>, t: nat): (r: set<nat>) {
    set d | d in g && t in g[d] && Unblocked(g, done + {t}, d)
  }

  /** The queue holds, without repeats, exactly the unblocked tasks not yet output. */
  ghost predicate Frontier(g: Graph, done: set<nat>, queue: seq<nat>) {
    && done <= Available(g, done)
    && Distinct(queue)
    && (forall d :: d in queue <==> d in Available(g, done) && d !in done)
  }

  lemma FrontierStep(g: Graph, done: set<nat>, queue: seq<nat>)
    requires Frontier(g, done, queue) && queue != []
    ensures queue[0] in g && queue[0] !in done
    ensures Frontier(g, done + {queue[0]}, queue[1..] + Ascending(NewlyReady(g, done, queue[0])))
  {
    var t := queue[0];
    var added := Ascending(NewlyReady(g, done, t));
    var next := queue[1..] + added;
    assert t in queue;
    forall d
      ensures d in next <==> d in Available(g, done + {t}) && d !in done + {t}
    {
      assert d in added <==> d in NewlyReady(g, done, t);
      assert d in queue <==> d == t || d in queue[1..];
      if Unblocked(g, done + {t}, d) && t !in g[d] {
        assert Unblocked(g, done, d);
      }
      if d in done {
        assert Unblocked(g, done, d);
      }
    }
    forall i, j | 0 <= i < j < |next|
      ensures next[i] != next[j]
    {
      if i < |queue| - 1 <= j {
        assert next[i] in queue && Unblocked(g, done, next[i]);
        assert next[j] in NewlyReady(g, done, t);
      }
    }
  }

  /** Pop the head, append its newly ready dependents in ascending order, continue. */
  ghost function OrderFrom(g: Graph, done: set<nat>, queue: seq<nat>): (r: seq<nat>)
    requires Frontier(g, done, queue)
    decreases g.Keys - done
  {
    if queue == [] then []
    else
      FrontierStep(g, done, queue);
      [queue[0]] + OrderFrom(g, done + {queue[0]}, queue[1..] + Ascending(NewlyReady(g, done, queue[0])))
  }

  lemma StartFrontier(g: Graph)
    ensures Frontier(g, {}, Ascending(Available(g, {})))
  {
    assert forall d :: d in Ascending(Available(g, {})) <==> d in Elems(Ascending(Available(g, {})));
  }

  ghost function Order(g: Graph): (r: seq<nat>) {
    StartFrontier(g);
    OrderFrom(g, {}, Ascending(Available(g, {})))
  }

  // ---------------------------------------------------------------- which tasks come out

  /** The output is free of repeats, and together with what was already output it is
      closed: nothing outside it is unblocked. */
  lemma {:induction false} OrderFromExhausts(g: Graph, done: set<nat>, queue: seq<nat>)
    requires Frontier(g, done, queue)
    ensures var o := OrderFrom(g, done, queue);
      && Distinct(o)
      && (forall d :: d in o ==> d in g && d !in done)
      && (forall d :: Unblocked(g, done + Elems(o), d) ==> d in done + Elems(o))
    decreases g.Keys - done
  {
    if queue == [] {
      assert done + Elems([]) == done;
    } else {
      FrontierStep(g, done, queue);
      var t := queue[0];
      var next := queue[1..] + Ascending(NewlyReady(g, done, t));
      OrderFromExhausts(g, done + {t}, next);
      var rest := OrderFrom(g, done + {t}, next);
      assert forall d :: d in [t] + rest <==> d == t || d in rest;
      assert done + Elems([t] + rest) == done + {t} + Elems(rest);
    }
  }

  /** Each task comes out after all its blockers. */
  lemma {:induction false} OrderFromRespects(g: Graph, done: set<nat>, queue: seq<nat>, i: nat, b: nat)
    requires Frontier(g, done, queue)
    requires i < |OrderFrom(g, done, queue)| && OrderFrom(g, done, queue)[i] in g
    requires b in g[OrderFrom(g, done, queue)[i]]
    ensures b in done || b in OrderFrom(g, done, queue)[..i]
    decreases g.Keys - done
  {
    FrontierStep(g, done, queue);
    var t := queue[0];
    if i == 0 {
      assert t in queue;
    } else {
      var next := queue[1..] + Ascending(NewlyReady(g, done, t));
      OrderFromRespects(g, done + {t}, next, i - 1, b);
      var rest := OrderFrom(g, done + {t}, next);
      assert ([t] + rest)[..i] == [t] + rest[..i - 1];
    }
  }

  /** A member of a stuck set never comes out. */
  lemma {:induction false} StuckNeverOutput(g: Graph, s: set<nat>, i: nat)
    requires Stuck(g, s) && i < |Order(g)|
    ensures Order(g)[i] !in s
  {
    StartFrontier(g);
    var d := Order(g)[i];
    if d in s {
      assert WaitsIn(g, d, s);
      var b :| b in g[d] && b in s;
      OrderFromRespects(g, {}, Ascending(Available(g, {})), i, b);
      var k :| 0 <= k < i && Order(g)[..i][k] == b;
      StuckNeverOutput(g, s, k);
    }
  }

  /** What is left over is the largest set of tasks that wait for each other. */
  lemma LeftoverIsLargestStuck(g: Graph)
    requires Closed(g)
    ensures LargestStuck(g, g.Keys - Elems(Order(g)))
  {
    StartFrontier(g);
    OrderFromExhausts(g, {}, Ascending(Available(g, {})));
    var o := Order(g);
    assert {} + Elems(o) == Elems(o);
    var left := g.Keys - Elems(o);
    forall d | d in left
      ensures WaitsIn(g, d, left)
    {
      assert !Unblocked(g, Elems(o), d);
      var b :| b in g[d] && b !in Elems(o);
      assert b in left;
    }
    forall q | Stuck(g, q)
      ensures q <= left
    {
      forall d | d in q
        ensures d in left
      {
        assert WaitsIn(g, d, q);
        if d in o {
          var i :| 0 <= i < |o| && o[i] == d;
          StuckNeverOutput(g, q, i);
        }
      }
    }
  }

  /** Every blocker of every listed task is listed earlier. */
  ghost predicate BlockersFirst(g: Graph, order: seq<nat>) {
    forall i, b :: 0 <= i < |order| && order[i] in g && b in g[order[i]] ==> b in order[..i]
  }

  lemma OrderBlockersFirst(g: Graph)
    ensures BlockersFirst(g, Order(g))
  {
    StartFrontier(g);
    var o := Order(g);
    forall i, b | 0 <= i < |o| && o[i] in g && b in g[o[i]]
      ensures b in o[..i]
    {
      OrderFromRespects(g, {}, Ascending(Available(g, {})), i, b);
    }
  }

  lemma OrderDistinct(g: Graph)
    ensures Distinct(Order(g)) && Elems(Order(g)) <= g.Keys
  {
    StartFrontier(g);
    OrderFromExhausts(g, {}, Ascending(Available(g, {})));
  }

  /** All tasks come out exactly when the graph is acyclic. */
  lemma OrderComplete(g: Graph)
    requires Closed(g)
    ensures Acyclic(g) <==> Elems(Order(g)) == g.Keys
  {
    var taken := Elems(Order(g));
    OrderDistinct(g);
    LeftoverIsLargestStuck(g);
    AcyclicIffNothingStuck(g, g.Keys - taken);
    NothingLeft(g.Keys, taken);
  }

  // ---------------------------------------------------------------- first in, first out

  /** Place of x in the order, -1 if it is not there. */
  function PlaceOf(order: seq<nat>, x: nat): (r: int) {
    if order == [] then -1
    else if order[|order| - 1] == x then |order| - 1
    else PlaceOf(order[..|order| - 1], x)
  }

  /** Place of the last of the blockers in the order, -1 if there is none. */
  function LastBlocker(order: seq<nat>, blockers: seq<nat>): (r: int) {
    if blockers == [] then -1
    else
      var first, rest := PlaceOf(order, blockers[0]), LastBlocker(order, blockers[1..]);
      if first > rest then first else rest
  }

  /** a comes before b: its last blocker came out earlier, or the same one released both and
      a has the smaller id. */
  predicate Precedes(order: seq<nat>, a: nat, blockersOfA: seq<nat>, b: nat, blockersOfB: seq<nat>) {
    || LastBlocker(order, blockersOfA) < LastBlocker(order, blockersOfB)
    || (LastBlocker(order, blockersOfA) == LastBlocker(order, blockersOfB) && a < b)
  }

  /** Every listed task precedes all later ones, places being counted in the order. */
  ghost predicate FirstInFirstOut(g: Graph, order: seq<nat>, listed: seq<nat>) {
    forall i, j :: 0 <= i < j < |listed| && listed[i] in g && listed[j] in g ==>
      Precedes(order, listed[i], g[listed[i]], listed[j], g[listed[j]])
  }

  lemma PlaceAppend(order: seq<nat>, t: nat, x: nat)
    ensures PlaceOf(order + [t], x) == if x == t then |order| else PlaceOf(order, x)
  {
    assert (order + [t])[..|order + [t]| - 1] == order;
  }

  lemma {:induction false} PlaceBelow(order: seq<nat>, x: nat)
    ensures -1 <= PlaceOf(order, x) < |order|
    ensures PlaceOf(order, x) >= 0 ==> order[PlaceOf(order, x)] == x
  {
    if order != [] {
      PlaceBelow(order[..|order| - 1], x);
    }
  }

  lemma {:induction false} LastBlockerBelow(order: seq<nat>, blockers: seq<nat>)
    ensures -1 <= LastBlocker(order, blockers) < |order| || (order == [] && LastBlocker(order, blockers) == -1)
  {
    if blockers != [] {
      PlaceBelow(order, blockers[0]);
      LastBlockerBelow(order, blockers[1..]);
    }
  }

  lemma {:induction false} LastBlockerAppend(order: seq<nat>, t: nat, blockers: seq<nat>)
    ensures LastBlocker(order + [t], blockers) == if t in blockers then |order| else LastBlocker(order, blockers)
  {
    if blockers != [] {
      PlaceAppend(order, t, blockers[0]);
      PlaceBelow(order, blockers[0]);
      LastBlockerAppend(order, t, blockers[1..]);
      LastBlockerBelow(order, blockers[1..]);
    }
  }

  /** What waits only for tasks already out keeps its place. */
  lemma SettledKeeps(g: Graph, out: seq<nat>, t: nat, listed: seq<nat>)
    requires t !in out && FirstInFirstOut(g, out, listed)
    requires forall d :: d in listed ==> Unblocked(g, Elems(out), d)
    ensures FirstInFirstOut(g, out + [t], listed)
  {
    forall i, j | 0 <= i < j < |listed| && listed[i] in g && listed[j] in g
      ensures Precedes(out + [t], listed[i], g[listed[i]], listed[j], g[listed[j]])
    {
      assert listed[i] in listed && listed[j] in listed;
      LastBlockerAppend(out, t, g[listed[i]]);
      LastBlockerAppend(out, t, g[listed[j]]);
    }
  }

  /** What t releases is put behind everything listed so far, in ascending order. */
  lemma ReleasedComesLast(g: Graph, out: seq<nat>, t: nat, listed: seq<nat>, added: seq<nat>)
    requires FirstInFirstOut(g, out + [t], listed) && Increasing(added)
    requires forall d :: d in listed ==> d in g && t !in g[d]
    requires forall d :: d in added ==> d in g && t in g[d]
    ensures FirstInFirstOut(g, out + [t], listed + added)
  {
    var all := listed + added;
    forall i, j | 0 <= i < j < |all| && all[i] in g && all[j] in g
      ensures Precedes(out + [t], all[i], g[all[i]], all[j], g[all[j]])
    {
      LastBlockerAppend(out, t, g[all[i]]);
      LastBlockerAppend(out, t, g[all[j]]);
      if j < |listed| {
        assert all[i] == listed[i] && all[j] == listed[j];
      } else {
        assert all[j] == added[j - |listed|] && all[j] in added;
        if i < |listed| {
          assert all[i] == listed[i] && all[i] in listed;
          LastBlockerBelow(out, g[all[i]]);
        } else {
          assert all[i] == added[i - |listed|] && all[i] in added;
        }
      }
    }
  }

  lemma ElemsAppend(out: seq<nat>, t: nat)
    ensures Elems(out + [t]) == Elems(out) + {t}
  {
  }

  /** Output and queue are free to go. */
  lemma ListedUnblocked(g: Graph, out: seq<nat>, queue: seq<nat>)
    requires Frontier(g, Elems(out), queue)
    ensures forall d :: d in out + queue ==> Unblocked(g, Elems(out), d)
  {
    forall d | d in out + queue
      ensures Unblocked(g, Elems(out), d)
    {
      if d in out {
        assert d in Elems(out) && d in Available(g, Elems(out));
      }
    }
  }

  lemma FifoStep(g: Graph, out: seq<nat>, queue: seq<nat>)
    requires Frontier(g, Elems(out), queue) && queue != []
    requires FirstInFirstOut(g, out, out + queue)
    ensures FirstInFirstOut(g, out + [queue[0]],
      (out + [queue[0]]) + (queue[1..] + Ascending(NewlyReady(g, Elems(out), queue[0]))))
  {
    var t := queue[0];
    var listed := out + queue;
    var added := Ascending(NewlyReady(g, Elems(out), t));
    FrontierStep(g, Elems(out), queue);
    ListedUnblocked(g, out, queue);
    assert t !in out by {
      assert t in out ==> t in Elems(out);
    }
    SettledKeeps(g, out, t, listed);
    forall d | d in listed
      ensures d in g && t !in g[d]
    {
      assert Unblocked(g, Elems(out), d);
    }
    forall d | d in added
      ensures d in g && t in g[d]
    {
      assert d in Elems(added);
    }
    ReleasedComesLast(g, out, t, listed, added);
    assert queue == [t] + queue[1..];
    assert listed + added == (out + [t]) + (queue[1..] + added);
  }

  lemma {:induction false} OrderFromFifo(g: Graph, out: seq<nat>, queue: seq<nat>)
    requires Frontier(g, Elems(out), queue) && FirstInFirstOut(g, out, out + queue)
    ensures var o := out + OrderFrom(g, Elems(out), queue);
      FirstInFirstOut(g, o, o)
    decreases g.Keys - Elems(out)
  {
    if queue == [] {
      assert out + [] == out;
    } else {
      var t := queue[0];
      var next := queue[1..] + Ascending(NewlyReady(g, Elems(out), t));
      FrontierStep(g, Elems(out), queue);
      FifoStep(g, out, queue);
      ElemsAppend(out, t);
      OrderFromFifo(g, out + [t], next);
      Assoc(out, [t], OrderFrom(g, Elems(out + [t]), next));
    }
  }

  lemma NothingBlocksFirst(g: Graph, queue: seq<nat>)
    requires queue == Ascending(Available(g, {}))
    ensures FirstInFirstOut(g, [], queue)
  {
    forall i, j | 0 <= i < j < |queue| && queue[i] in g && queue[j] in g
      ensures Precedes([], queue[i], g[queue[i]], queue[j], g[queue[j]])
    {
      LastBlockerBelow([], g[queue[i]]);
      LastBlockerBelow([], g[queue[j]]);
    }
  }

  /** Tasks come out in the order in which their last blockers did, by id among those that one
      blocker released, and the free ones first. */
  lemma OrderIsFirstInFirstOut(g: Graph)
    ensures FirstInFirstOut(g, Order(g), Order(g))
  {
    StartFrontier(g);
    var queue := Ascending(Available(g, {}));
    NothingBlocksFirst(g, queue);
    var none: seq<nat> := [];
    assert Elems(none) == {} && none + queue == queue;
    OrderFromFifo(g, none, queue);
    assert none + OrderFrom(g, {}, queue) == Order(g);
  }

  lemma {:induction false} PlaceInPrefix(order: seq<nat>, n: nat, x: nat)
    requires n <= |order| && Distinct(order) && x in order[..n]
    ensures PlaceOf(order, x) == PlaceOf(order[..n], x)
    decreases |order|
  {
    if n < |order| {
      var m := |order| - 1;
      assert order[..m][..n] == order[..n];
      var k :| 0 <= k < n && order[..n][k] == x;
      assert order[k] == x && order[m] != x;
      PlaceInPrefix(order[..m], n, x);
    } else {
      assert order[..n] == order;
    }
  }

  lemma {:induction false} LastBlockerInPrefix(order: seq<nat>, n: nat, blockers: seq<nat>)
    requires n <= |order| && Distinct(order) && forall b :: b in blockers ==> b in order[..n]
    ensures LastBlocker(order, blockers) == LastBlocker(order[..n], blockers)
  {
    if blockers != [] {
      PlaceInPrefix(order, n, blockers[0]);
      LastBlockerInPrefix(order, n, blockers[1..]);
    }
  }

  lemma NotEarlier(a: seq<nat>, b: seq<nat>, n: nat, j: nat)
    requires j < |a| && n < |a| && n < |b| && a[..n] == b[..n] && Distinct(b) && a[j] == b[n]
    ensures j >= n
  {
    assert forall k :: 0 <= k < n ==> a[k] == a[..n][k] && b[k] == b[..n][k];
  }

  /** Where two such orders agree on the first n, neither can have the other's next task later. */
  lemma NextIsLeast(g: Graph, a: seq<nat>, b: seq<nat>, n: nat)
    requires Distinct(a) && BlockersFirst(g, a) && FirstInFirstOut(g, a, a)
    requires Distinct(b) && BlockersFirst(g, b)
    requires n < |a| && n < |b| && a[..n] == b[..n] && a[n] in g && b[n] in g && b[n] in a
    ensures a[n] == b[n] || Precedes(a[..n], a[n], g[a[n]], b[n], g[b[n]])
  {
    var j :| 0 <= j < |a| && a[j] == b[n];
    LastBlockerInPrefix(a, n, g[a[n]]);
    LastBlockerInPrefix(a, n, g[b[n]]);
    NotEarlier(a, b, n, j);
  }

  /** There is only one such order: it fixes the sequence completely. */
  lemma {:induction false} FifoIsUnique(g: Graph, a: seq<nat>, b: seq<nat>, n: nat)
    requires Distinct(a) && Distinct(b) && BlockersFirst(g, a) && BlockersFirst(g, b)
    requires FirstInFirstOut(g, a, a) && FirstInFirstOut(g, b, b)
    requires |a| == |b| && forall d :: d in a ==> d in b && d in g
    requires forall d :: d in b ==> d in a
    requires n <= |a|
    ensures a[..n] == b[..n]
  {
    if n > 0 {
      var m: nat := n - 1;
      FifoIsUnique(g, a, b, m);
      assert a[m] in a && b[m] in b;
      NextIsLeast(g, a, b, m);
      NextIsLeast(g, b, a, m);
      assert a[..n] == a[..m] + [a[m]] && b[..n] == b[..m] + [b[m]];
    }
  }

  // ---------------------------------------------------------------- waves

  /** d is at most one level deeper than e. */
  ghost predicate AtMostOneDeeper(g: Graph, d: nat, e: nat) {
    forall n: nat :: HasChain(g, d, n + 1) ==> HasChain(g, e, n)
  }

  /** The queue is sorted by depth, spans at most two levels, and nothing output so far
      is deeper than anything queued. */
  ghost predicate Layered(g: Graph, done: set<nat>, queue: seq<nat>) {
    && (forall d, i :: d in done && 0 <= i < |queue| ==> NoDeeper(g, d, queue[i]))
    && (forall i, j :: 0 <= i <= j < |queue| ==> NoDeeper(g, queue[i], queue[j]))
    && (forall i :: 0 <= i < |queue| ==> AtMostOneDeeper(g, queue[i], queue[0]))
  }

  lemma FreshIsOneDeeper(g: Graph, done: set<nat>, queue: seq<nat>, x: nat)
    requires Frontier(g, done, queue) && queue != [] && Layered(g, done, queue)
    requires x in NewlyReady(g, done, queue[0])
    ensures forall n: nat :: n >= 1 ==> (HasChain(g, x, n + 1) <==> HasChain(g, queue[0], n))
  {
    var t := queue[0];
    forall n: nat | n >= 1
      ensures HasChain(g, x, n + 1) <==> HasChain(g, t, n)
    {
      if HasChain(g, x, n + 1) {
        var b :| b in g[x] && HasChain(g, b, n);
        assert b in done || b == t;
        assert NoDeeper(g, b, t);
      }
    }
  }

  lemma LayeredStep(g: Graph, done: set<nat>, queue: seq<nat>)
    requires Frontier(g, done, queue) && queue != [] && Layered(g, done, queue)
    ensures Layered(g, done + {queue[0]}, queue[1..] + Ascending(NewlyReady(g, done, queue[0])))
  {
    var t := queue[0];
    var added := Ascending(NewlyReady(g, done, t));
    var next := queue[1..] + added;
    assert forall x :: x in added ==> x in NewlyReady(g, done, t) by {
      assert forall x :: x in added ==> x in Elems(added);
    }
    FrontierStep(g, done, queue);
    forall i | 0 <= i < |next|
      ensures NoDeeper(g, t, next[i]) && AtMostOneDeeper(g, next[i], t)
    {
      if i < |queue| - 1 {
        assert next[i] == queue[i + 1];
      } else {
        assert next[i] in added;
        FreshDeeper(g, done, queue, next[i]);
      }
    }
    forall i, j | 0 <= i <= j < |next|
      ensures NoDeeper(g, next[i], next[j])
    {
      if j < |queue| - 1 {
        assert next[i] == queue[i + 1] && next[j] == queue[j + 1];
      } else {
        assert next[j] in added;
        AboveFresh(g, done, queue, next[i], next[j]);
      }
    }
    forall i | 0 <= i < |next|
      ensures AtMostOneDeeper(g, next[i], next[0])
    {
      assert NoDeeper(g, t, next[0]) && AtMostOneDeeper(g, next[i], t);
    }
    forall d, i | d in done + {t} && 0 <= i < |next|
      ensures NoDeeper(g, d, next[i])
    {
      assert NoDeeper(g, d, t) && NoDeeper(g, t, next[i]);
    }
  }

  lemma FreshDeeper(g: Graph, done: set<nat>, queue: seq<nat>, x: nat)
    requires Frontier(g, done, queue) && queue != [] && Layered(g, done, queue)
    requires x in NewlyReady(g, done, queue[0])
    ensures NoDeeper(g, queue[0], x) && AtMostOneDeeper(g, x, queue[0])
  {
    FreshIsOneDeeper(g, done, queue, x);
    var t := queue[0];
    assert t in queue && t in g;
    forall n: nat | HasChain(g, t, n)
      ensures HasChain(g, x, n)
    {
      if n >= 1 {
        ShorterChain(g, x, n);
      }
    }
    forall n: nat | HasChain(g, x, n + 1)
      ensures HasChain(g, t, n)
    {
      if n == 0 { assert t in g; }
    }
  }

  lemma AboveFresh(g: Graph, done: set<nat>, queue: seq<nat>, d: nat, x: nat)
    requires Frontier(g, done, queue) && queue != [] && Layered(g, done, queue)
    requires x in NewlyReady(g, done, queue[0])
    requires AtMostOneDeeper(g, d, queue[0])
    ensures NoDeeper(g, d, x)
  {
    FreshIsOneDeeper(g, done, queue, x);
    forall n: nat | HasChain(g, d, n)
      ensures HasChain(g, x, n)
    {
      if n >= 2 {
        assert HasChain(g, queue[0], n - 1);
      }
    }
  }

  lemma {:induction false} OrderFromInWaves(g: Graph, done: set<nat>, queue: seq<nat>, d: nat, i: nat)
    requires Frontier(g, done, queue) && Layered(g, done, queue)
    requires i < |OrderFrom(g, done, queue)|
    requires d in done || d in OrderFrom(g, done, queue)[..i]
    ensures NoDeeper(g, d, OrderFrom(g, done, queue)[i])
    decreases g.Keys - done
  {
    FrontierStep(g, done, queue);
    LayeredStep(g, done, queue);
    var t := queue[0];
    if i > 0 {
      var next := queue[1..] + Ascending(NewlyReady(g, done, t));
      var rest := OrderFrom(g, done + {t}, next);
      assert ([t] + rest)[..i] == [t] + rest[..i - 1];
      OrderFromInWaves(g, done + {t}, next, d, i - 1);
    }
  }

  /** Depth, measured by the longest chain of blockers, never decreases along the order. */
  lemma OrderInWaves(g: Graph, i: nat, j: nat)
    requires i < j < |Order(g)|
    ensures NoDeeper(g, Order(g)[i], Order(g)[j])
  {
    StartFrontier(g);
    var queue := Ascending(Available(g, {}));
    forall k | 0 <= k < |queue|
      ensures forall n: nat :: HasChain(g, queue[k], n) <==> n <= 1
    {
      assert queue[k] in Elems(queue);
    }
    assert Layered(g, {}, queue);
    assert Order(g)[i] in Order(g)[..j];
    OrderFromInWaves(g, {}, queue, Order(g)[i], j);
  }
}
