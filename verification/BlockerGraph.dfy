/** The blocker graph of a worklist: who waits for whom, when that is cyclic, and how
    long the chains of blockers are. */
module BlockerGraph {
  import opened IdOrder

  /** Task id to the ids it waits for, in list order and with repeats. */
  type Graph = map<nat, seq<nat>>

  ghost predicate Closed(g: Graph) {
    forall d, b {:trigger b in g[d]} :: d in g && b in g[d] ==> b in g
  }

  ghost predicate WaitsIn(g: Graph, d: nat, s: set<nat>) {
    d in g && exists b :: b in g[d] && b in s
  }

  /** A set in which every task waits for another member: none of them can ever start. */
  ghost predicate Stuck(g: Graph, s: set<nat>) {
    forall d {:trigger WaitsIn(g, d, s)} :: d in s ==> WaitsIn(g, d, s)
  }

  ghost predicate LargestStuck(g: Graph, s: set<nat>) {
    Stuck(g, s) && forall q :: Stuck(g, q) ==> q <= s
  }

  /** Each task of the walk waits for the next one. */
  ghost predicate Walk(g: Graph, p: seq<nat>) {
    p != [] && p[0] in g && (|p| > 1 ==> p[1] in g[p[0]] && Walk(g, p[1..]))
  }

  ghost predicate Cycle(g: Graph, p: seq<nat>) {
    Walk(g, p) && |p| >= 2 && p[0] == p[|p| - 1]
  }

  ghost predicate Acyclic(g: Graph) {
    forall p :: !Cycle(g, p)
  }

  /** A chain of n tasks, each a blocker of the next, ends at d. */
  ghost predicate HasChain(g: Graph, d: nat, n: nat)
    decreases n
  {
    d in g && (n > 1 ==> exists b :: b in g[d] && HasChain(g, b, n - 1))
  }

  /** d's longest chain is no longer than e's. */
  ghost predicate NoDeeper(g: Graph, d: nat, e: nat) {
    forall n: nat :: HasChain(g, d, n) ==> HasChain(g, e, n)
  }

  lemma {:induction false} ShorterChain(g: Graph, d: nat, n: nat)
    requires HasChain(g, d, n + 1)
    ensures HasChain(g, d, n)
    decreases n
  {
    if n > 1 {
      var b :| b in g[d] && HasChain(g, b, n);
      ShorterChain(g, b, n - 1);
    }
  }

  lemma {:induction false} WalkStep(g: Graph, p: seq<nat>, i: nat)
    requires Walk(g, p) && i < |p|
    ensures p[i] in g
    ensures i + 1 < |p| ==> p[i + 1] in g[p[i]]
  {
    if i > 0 {
      WalkStep(g, p[1..], i - 1);
    }
  }

  lemma {:induction false} WalkSlice(g: Graph, p: seq<nat>, i: nat, j: nat)
    requires Walk(g, p) && i < j <= |p|
    ensures Walk(g, p[i..j])
    decreases j
  {
    if i > 0 {
      WalkSlice(g, p[1..], i - 1, j - 1);
      assert p[i..j] == p[1..][i - 1..j - 1];
    } else if j > 1 {
      WalkSlice(g, p[1..], 0, j - 1);
      assert p[..j][1..] == p[1..][..j - 1];
    }
  }

  /** A stuck set contains walks of any length. */
  lemma {:induction false} StuckWalk(g: Graph, s: set<nat>, d: nat, n: nat) returns (p: seq<nat>)
    requires Stuck(g, s) && d in s
    ensures Walk(g, p) && |p| == n + 1 && p[0] == d && Elems(p) <= s
    decreases n
  {
    p := [d];
    assert WaitsIn(g, d, s);
    if n > 0 {
      var b :| b in g[d] && b in s;
      var q := StuckWalk(g, s, b, n - 1);
      p := [d] + q;
      assert p[1..] == q;
      assert forall x :: x in p ==> x == d || x in Elems(q);
    }
  }

  lemma StuckGivesCycle(g: Graph, s: set<nat>)
    requires Stuck(g, s) && s != {}
    ensures !Acyclic(g)
  {
    var p := StuckWalk(g, s, Pick(s), |s|);
    Pigeonhole(p, s);
    var i, j :| 0 <= i < j < |p| && p[i] == p[j];
    WalkSlice(g, p, i, j + 1);
    assert Cycle(g, p[i..j + 1]);
  }

  lemma CycleGivesStuck(g: Graph, p: seq<nat>)
    requires Cycle(g, p)
    ensures Stuck(g, Elems(p)) && Elems(p) != {}
  {
    assert p[0] in Elems(p);
    forall d | d in Elems(p)
      ensures WaitsIn(g, d, Elems(p))
    {
      var i :| 0 <= i < |p| && p[i] == d;
      var k := if i < |p| - 1 then i else 0;
      WalkStep(g, p, k);
      var b := p[k + 1];
      assert b in g[d] && b in Elems(p);
    }
  }

  /** A graph is acyclic exactly when its largest stuck set is empty. */
  lemma AcyclicIffNothingStuck(g: Graph, s: set<nat>)
    requires LargestStuck(g, s)
    ensures Acyclic(g) <==> s == {}
  {
    if s != {} {
      StuckGivesCycle(g, s);
    } else {
      forall p
        ensures !Cycle(g, p)
      {
        if Cycle(g, p) {
          CycleGivesStuck(g, p);
        }
      }
    }
  }
}
