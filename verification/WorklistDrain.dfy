/** One agent that claims and completes in a loop: it drains an acyclic worklist, in the
    least order the blockers allow. */
module WorklistDrain {
  import opened Options
  import opened IdOrder
  import opened BlockerGraph
  import opened WorklistTable
  import R = WorklistRuns
  import S = WorklistSeed

  ghost function QueuedIds(t: Table): (r: set<nat>) {
    set id | id in t && t[id].status == Queued
  }

  /** Claim the next task and complete it at once. */
  ghost function Turn(t: Table, agent: string): (r: Table)
    requires NextId(t).Some?
  {
    Apply(Apply(t, ClaimNext(agent, 0)), Finish(NextId(t).value, agent, "", 0))
  }

  /** Every task is queued or done: nobody else is working. */
  ghost predicate Idle(t: Table) {
    forall id :: id in t ==> t[id].status in {Queued, Done}
  }

  lemma TurnEffect(t: Table, agent: string)
    requires NextId(t).Some?
    ensures var id := NextId(t).value; var t' := Turn(t, agent);
      && Claimable(t, id)
      && t'.Keys == t.Keys
      && t'[id].status == Done && t'[id].blockers == t[id].blockers
      && (forall k :: k in t && k != id ==> t'[k] == t[k])
      && QueuedIds(t') == QueuedIds(t) - {id} && id in QueuedIds(t)
      && Deps(t') == Deps(t)
  {
    NextIdMeaning(t);
    var id := NextId(t).value;
    var t' := Turn(t, agent);
    assert forall k :: k in QueuedIds(t') <==> k in QueuedIds(t) - {id};
  }

  /** The order in which the loop completes the tasks, and the table it leaves. */
  ghost function ClaimOrder(t: Table, agent: string): (r: seq<nat>)
    decreases QueuedIds(t)
  {
    if NextId(t).None? then []
    else
      TurnEffect(t, agent);
      [NextId(t).value] + ClaimOrder(Turn(t, agent), agent)
  }

  ghost function Drained(t: Table, agent: string): (r: Table)
    decreases QueuedIds(t)
  {
    if NextId(t).None? then t
    else
      TurnEffect(t, agent);
      Drained(Turn(t, agent), agent)
  }

  /** Every task gets done. */
  lemma {:induction false} DrainsEverything(t: Table, agent: string, id: nat)
    requires Idle(t) && Acyclic(Deps(t)) && id in t
    ensures id in Drained(t, agent) && Drained(t, agent)[id].status == Done
    decreases QueuedIds(t)
  {
    if NextId(t).None? {
      if R.Unfinished(t, id) {
        R.NoDeadlock(t, id);
      }
    } else {
      TurnEffect(t, agent);
      DrainsEverything(Turn(t, agent), agent, id);
    }
  }

  /** p lists the queued tasks without repeats, each after its existing blockers that are
      not done: a linear extension of what is left of the blocker graph. */
  ghost predicate Extension(t: Table, p: seq<nat>) {
    && Distinct(p)
    && (forall id :: id in p <==> id in QueuedIds(t))
    && (forall i, b {:trigger b in t[p[i]].blockers} ::
          0 <= i < |p| && p[i] in t && b in t[p[i]].blockers && b in t ==> t[b].status == Done || b in p[..i])
  }

  /** Lexicographic order on lists of ids. */
  ghost predicate LexAtMost(a: seq<nat>, b: seq<nat>) {
    a == [] || (b != [] && (a[0] < b[0] || (a[0] == b[0] && LexAtMost(a[1..], b[1..]))))
  }

  lemma ExtensionTail(t: Table, agent: string, p: seq<nat>)
    requires Extension(t, p) && p != [] && NextId(t) == Some(p[0])
    ensures Extension(Turn(t, agent), p[1..])
  {
    TurnEffect(t, agent);
    var t' := Turn(t, agent);
    var q := p[1..];
    forall id
      ensures id in q <==> id in QueuedIds(t')
    {
      assert id in p <==> id == p[0] || id in q;
    }
    forall i, b | 0 <= i < |q| && q[i] in t' && b in t'[q[i]].blockers && b in t'
      ensures t'[b].status == Done || b in q[..i]
    {
      assert q[i] == p[i + 1] && b in t[p[i + 1]].blockers;
      assert p[..i + 1] == [p[0]] + q[..i];
    }
  }

  lemma ExtensionStartsClaimable(t: Table, p: seq<nat>)
    requires Extension(t, p) && p != [] && Idle(t)
    ensures Claimable(t, p[0])
  {
    assert p[0] in p && p[0] in t;
    forall b | b in t[p[0]].blockers && b in t
      ensures t[b].status == Done
    {
      assert p[..0] == [];
    }
  }

  lemma TurnKeepsIdle(t: Table, agent: string)
    requires Idle(t) && NextId(t).Some?
    ensures Idle(Turn(t, agent))
  {
    TurnEffect(t, agent);
  }

  /** No linear extension is lexicographically smaller than the order of the claims. */
  lemma {:induction false} ClaimOrderIsLeast(t: Table, agent: string, p: seq<nat>)
    requires Idle(t) && Extension(t, p)
    ensures LexAtMost(ClaimOrder(t, agent), p)
    decreases QueuedIds(t)
  {
    NextIdMeaning(t);
    if NextId(t).Some? {
      var id := NextId(t).value;
      assert id in QueuedIds(t) && id in p;
      ExtensionStartsClaimable(t, p);
      TurnEffect(t, agent);
      if id == p[0] {
        ExtensionTail(t, agent, p);
        TurnKeepsIdle(t, agent);
        ClaimOrderIsLeast(Turn(t, agent), agent, p[1..]);
      }
    }
  }

  lemma ExtensionPrepend(t: Table, agent: string, q: seq<nat>)
    requires NextId(t).Some? && Extension(Turn(t, agent), q)
    ensures Extension(t, [NextId(t).value] + q)
  {
    TurnEffect(t, agent);
    var t' := Turn(t, agent);
    var id := NextId(t).value;
    var p := [id] + q;
    assert id !in q;
    forall i, b | 0 <= i < |p| && p[i] in t && b in t[p[i]].blockers && b in t
      ensures t[b].status == Done || b in p[..i]
    {
      if i > 0 {
        assert b in t'[q[i - 1]].blockers;
        assert p[..i] == [id] + q[..i - 1];
      }
    }
    assert forall k :: k in p <==> k == id || k in q;
  }

  /** On an acyclic worklist the order of the claims is itself a linear extension, so it is
      the least one. */
  lemma {:induction false} ClaimOrderIsExtension(t: Table, agent: string)
    requires Idle(t) && Acyclic(Deps(t))
    ensures Extension(t, ClaimOrder(t, agent))
    decreases QueuedIds(t)
  {
    if NextId(t).None? {
      forall id
        ensures id !in QueuedIds(t)
      {
        if id in QueuedIds(t) {
          R.NoDeadlock(t, id);
        }
      }
    } else {
      TurnEffect(t, agent);
      TurnKeepsIdle(t, agent);
      ClaimOrderIsExtension(Turn(t, agent), agent);
      ExtensionPrepend(t, agent, ClaimOrder(Turn(t, agent), agent));
    }
  }

  // ---------------------------------------------------------------- the sort predicts the drain

  lemma {:induction false} LeftoverWaits(t: Table, agent: string)
    requires Idle(t)
    ensures Drained(t, agent).Keys == t.Keys && Idle(Drained(t, agent))
    ensures Stuck(Deps(t), QueuedIds(Drained(t, agent)))
    decreases QueuedIds(t)
  {
    if NextId(t).None? {
      NextIdMeaning(t);
      forall d | d in QueuedIds(t)
        ensures WaitsIn(Deps(t), d, QueuedIds(t))
      {
        assert !Claimable(t, d);
        var b :| b in t[d].blockers && b in t && t[b].status != Done;
        assert b in QueuedIds(t);
      }
    } else {
      TurnEffect(t, agent);
      TurnKeepsIdle(t, agent);
      LeftoverWaits(Turn(t, agent), agent);
    }
  }

  lemma StuckIsNotClaimable(t: Table, s: set<nat>, d: nat)
    requires Stuck(Deps(t), s) && s <= QueuedIds(t) && d in s
    ensures !Claimable(t, d)
  {
    assert WaitsIn(Deps(t), d, s);
    var b :| b in t[d].blockers && b in s;
    assert b in QueuedIds(t);
  }

  lemma {:induction false} StuckIsNeverDrained(t: Table, agent: string, s: set<nat>, id: nat)
    requires Stuck(Deps(t), s) && s <= QueuedIds(t) && id in s
    ensures id in QueuedIds(Drained(t, agent))
    decreases QueuedIds(t)
  {
    if NextId(t).Some? {
      TurnEffect(t, agent);
      if NextId(t).value in s {
        StuckIsNotClaimable(t, s, NextId(t).value);
      }
      StuckIsNeverDrained(Turn(t, agent), agent, s, id);
    }
  }

  /** A worklist with nothing claimed yet and the blocker graph of the sorted list: after the
      loop has run dry, the tasks still queued are exactly those the sort reports as a cycle, and
      none are left when the sort succeeds. */
  lemma GraphPredictsDrain(tasks: seq<S.Task>, r: S.SortResult, t: Table, agent: string, id: nat)
    requires S.Correct(tasks, r) && !r.UnknownBlocker?
    requires Deps(t) == S.GraphOf(tasks) && QueuedIds(t) == t.Keys && id in t
    ensures id in Drained(t, agent)
    ensures Drained(t, agent)[id].status == Queued <==> r.CycleAmong? && id in r.ids
    ensures Drained(t, agent)[id].status == Done <==> r.Sorted? || id !in r.ids
  {
    assert Idle(t) by {
      assert forall k :: k in t ==> k in QueuedIds(t);
    }
    LeftoverWaits(t, agent);
    if r.Sorted? {
      DrainsEverything(t, agent, id);
    } else {
      var s := Elems(r.ids);
      assert QueuedIds(Drained(t, agent)) <= s;
      if id in s {
        StuckMembersHaveRows(Deps(t), s);
        StuckIsNeverDrained(t, agent, s, id);
      }
    }
  }

  /** From a worklist with nothing claimed yet, the loop gets everything done exactly when no
      blockers form a cycle. */
  lemma AllDrainedExactly(t: Table, agent: string)
    requires QueuedIds(t) == t.Keys
    ensures (forall id :: id in t ==> id in Drained(t, agent) && Drained(t, agent)[id].status == Done) <==> Acyclic(Deps(t))
  {
    assert Idle(t) by {
      assert forall k :: k in t ==> k in QueuedIds(t);
    }
    if Acyclic(Deps(t)) {
      forall id | id in t
        ensures id in Drained(t, agent) && Drained(t, agent)[id].status == Done
      {
        DrainsEverything(t, agent, id);
      }
    } else {
      var p: seq<nat> :| Cycle(Deps(t), p);
      CycleGivesStuck(Deps(t), p);
      StuckMembersHaveRows(Deps(t), Elems(p));
      var id := p[0];
      assert id in Elems(p) && id in t;
      StuckIsNeverDrained(t, agent, Elems(p), id);
    }
  }

  lemma StuckMembersHaveRows(g: Graph, s: set<nat>)
    requires Stuck(g, s)
    ensures s <= g.Keys
  {
    forall d | d in s
      ensures d in g
    {
      assert WaitsIn(g, d, s);
    }
  }
}
