/** Properties of whole runs of the worklist by any number of agents. */
module WorklistRuns {
  import opened Options
  import opened BlockerGraph
  import opened WorklistTable

  // ---------------------------------------------------------------- claims are final

  /** The call at position i of the run is a claim that returns id. */
  ghost predicate ClaimsAt(t: Table, steps: seq<Step>, i: nat, id: nat) {
    i < |steps| && steps[i].ClaimNext? && NextId(Run(t, steps[..i])) == Some(id)
  }

  lemma RunPrefix(t: Table, steps: seq<Step>, i: nat, j: nat)
    requires i <= j <= |steps|
    ensures Run(t, steps[..j]) == Run(Run(t, steps[..i]), steps[i..j])
  {
    assert steps[..j] == steps[..i] + steps[i..j];
    RunSplit(t, steps[..i], steps[i..j]);
  }

  lemma RunOneStep(t: Table, steps: seq<Step>, i: nat)
    requires i < |steps|
    ensures Run(t, steps[..i + 1]) == Apply(Run(t, steps[..i]), steps[i])
  {
    RunPrefix(t, steps, i, i + 1);
    assert steps[i..i + 1] == [steps[i]];
    assert Run(Run(t, steps[..i]), [steps[i]]) == Run(Apply(Run(t, steps[..i]), steps[i]), []);
  }

  /** In any run, disciplined or not: a task is claimed only when all its existing blockers
      are done and no smaller id could be; from then on it is never queued again, its owner
      never changes, and no later claim returns it. */
  lemma ClaimIsFinal(t: Table, steps: seq<Step>, i: nat, id: nat, j: nat)
    requires ClaimsAt(t, steps, i, id) && i < j <= |steps|
    ensures Claimable(Run(t, steps[..i]), id)
    ensures forall k :: Claimable(Run(t, steps[..i]), k) ==> id <= k
    ensures id in Run(t, steps[..j])
    ensures Run(t, steps[..j])[id].status != Queued
    ensures Run(t, steps[..j])[id].claimedBy == Some(steps[i].agent)
    ensures !ClaimsAt(t, steps, j, id)
  {
    var before := Run(t, steps[..i]);
    NextIdMeaning(before);
    RunOneStep(t, steps, i);
    RunPrefix(t, steps, i + 1, j);
    RunKeeps(Run(t, steps[..i + 1]), steps[i + 1..j], id);
    NextIdMeaning(Run(t, steps[..j]));
  }

  // ---------------------------------------------------------------- finished tasks and discipline

  /** The call changes the status of a task its owner has already finished. */
  ghost predicate ReopensFinished(t: Table, step: Step, id: nat)
    requires id in t
  {
    match step
    case StartWork(k, agent) => k == id && Owned(t, k, agent)
    case GiveUp(k, agent, _, _) => k == id && Owned(t, k, agent) && t[id].status == Done
    case Finish(k, agent, _, _) => k == id && Owned(t, k, agent) && t[id].status == Failed
    case _ => false
  }

  /** Finished is not absorbing: the updates check the owner and not the status. A finished
      task keeps its status exactly when the call is none of the owner's contrary updates. */
  lemma FinishedKeptExactly(t: Table, step: Step, id: nat)
    requires id in t && t[id].status in {Done, Failed}
    ensures id in Apply(t, step)
    ensures Apply(t, step)[id].status == t[id].status <==> !ReopensFinished(t, step, id)
  {
    NextIdMeaning(t);
  }

  /** Every task that ever left the queue has all its blockers done. */
  ghost predicate Consistent(t: Table) {
    && QueuedUnowned(t)
    && (forall id, b {:trigger b in t[id].blockers} ::
          id in t && t[id].status != Queued && b in t[id].blockers ==> b in t && t[b].status == Done)
  }

  /** A freshly seeded table. */
  lemma FreshIsConsistent(t: Table)
    requires forall id :: id in t ==> t[id].status == Queued && t[id].claimedBy == None
    ensures Consistent(t)
  {
  }

  lemma QueuedLeavesByClaim(t: Table, step: Step, id: nat)
    requires id in t && t[id].status == Queued && t[id].claimedBy == None
    requires id in Apply(t, step) && Apply(t, step)[id].status != Queued
    ensures step.ClaimNext? && NextId(t) == Some(id) && BlockersDone(t, id)
  {
    NextIdMeaning(t);
  }

  lemma RowsAppearQueued(t: Table, step: Step, id: nat)
    requires id !in t && id in Apply(t, step)
    ensures Apply(t, step)[id].status == Queued
  {
    NextIdMeaning(t);
  }

  /** Some task out of the queue lists id as a blocker. */
  ghost predicate ReliedOn(t: Table, id: nat) {
    exists k :: k in t && t[k].status != Queued && id in t[k].blockers
  }

  /** The claim hands out a task with a blocker that has no row. */
  ghost predicate ClaimsUnknown(t: Table) {
    NextId(t).Some? && NextId(t).value in t && exists b :: b in t[NextId(t).value].blockers && b !in t
  }

  /** The two ways to get a task out of the queue ahead of a blocker: its owner starts or
      fails a done task on which some task out of the queue relies, or a claim goes past a
      blocker without a row. */
  ghost predicate Breaks(t: Table, step: Step) {
    match step
    case ClaimNext(_, _) => ClaimsUnknown(t)
    case StartWork(id, agent) => Undoes(t, id, agent)
    case GiveUp(id, agent, _, _) => Undoes(t, id, agent)
    case _ => false
  }

  ghost predicate Undoes(t: Table, id: nat, agent: string) {
    Owned(t, id, agent) && t[id].status == Done && ReliedOn(t, id)
  }

  /** A done task stays done under any step that is not its owner starting or failing it. */
  lemma DoneStaysDone(t: Table, step: Step, b: nat)
    requires b in t && t[b].status == Done && (b in Apply(t, step) ==> Apply(t, step)[b].status != Done)
    ensures (step.StartWork? || step.GiveUp?) && step.id == b && Owned(t, b, step.agent)
  {
    NextIdMeaning(t);
  }

  lemma {:induction false} UnbrokenKeepsConsistent(t: Table, step: Step)
    requires Consistent(t) && !Breaks(t, step)
    ensures Consistent(Apply(t, step))
  {
    var t' := Apply(t, step);
    StepKeepsQueuedUnowned(t, step);
    forall id, b | id in t' && t'[id].status != Queued && b in t'[id].blockers
      ensures b in t' && t'[b].status == Done
    {
      if id !in t {
        RowsAppearQueued(t, step, id);
      }
      StepKeeps(t, step, id);
      if t[id].status == Queued {
        QueuedLeavesByClaim(t, step, id);
        assert b in t;
      }
      StepKeeps(t, step, b);
      if t'[b].status != Done {
        DoneStaysDone(t, step, b);
        ReliedOnBefore(t, step, id, b);
      }
    }
  }

  /** Only a claim takes a task out of the queue, so what relies on b after any other step
      relied on it before. */
  lemma ReliedOnBefore(t: Table, step: Step, id: nat, b: nat)
    requires QueuedUnowned(t) && id in t && !step.ClaimNext?
    requires id in Apply(t, step) && Apply(t, step)[id].status != Queued && b in Apply(t, step)[id].blockers
    ensures ReliedOn(t, b)
  {
    StepKeeps(t, step, id);
    if t[id].status == Queued {
      QueuedLeavesByClaim(t, step, id);
    }
  }

  lemma UndoingBreaks(t: Table, step: Step, id: nat, agent: string)
    requires Undoes(t, id, agent) && (step == StartWork(id, agent) || (step.GiveUp? && step.id == id && step.agent == agent))
    ensures !Consistent(Apply(t, step))
  {
    var t' := Apply(t, step);
    var k :| k in t && t[k].status != Queued && id in t[k].blockers;
    StepKeeps(t, step, k);
    assert id in t'[k].blockers && t'[id].status != Done;
  }

  lemma UnknownClaimBreaks(t: Table, agent: string, now: int)
    requires ClaimsUnknown(t)
    ensures !Consistent(Claim(t, agent, now))
  {
    NextIdMeaning(t);
    var id := NextId(t).value;
    var b :| b in t[id].blockers && b !in t;
    var t' := Claim(t, agent, now);
    assert b in t'[id].blockers && b !in t';
  }

  /** A step keeps it so that every task out of the queue has done blockers only, exactly when
      it is neither of the two. */
  lemma ConsistentKeptExactly(t: Table, step: Step)
    requires Consistent(t)
    ensures Consistent(Apply(t, step)) <==> !Breaks(t, step)
  {
    if !Breaks(t, step) {
      UnbrokenKeepsConsistent(t, step);
    } else {
      match step
      case ClaimNext(agent, now) => UnknownClaimBreaks(t, agent, now);
      case StartWork(id, agent) => UndoingBreaks(t, step, id, agent);
      case GiveUp(id, agent, _, _) => UndoingBreaks(t, step, id, agent);
    }
  }

  ghost predicate UnbrokenRun(t: Table, steps: seq<Step>)
    decreases |steps|
  {
    steps != [] ==> !Breaks(t, steps[0]) && UnbrokenRun(Apply(t, steps[0]), steps[1..])
  }

  ghost predicate ConsistentThroughout(t: Table, steps: seq<Step>)
    decreases |steps|
  {
    Consistent(t) && (steps != [] ==> ConsistentThroughout(Apply(t, steps[0]), steps[1..]))
  }

  /** A run is consistent at every moment exactly when none of its steps breaks it. */
  lemma {:induction false} RunConsistentExactly(t: Table, steps: seq<Step>)
    requires Consistent(t)
    ensures ConsistentThroughout(t, steps) <==> UnbrokenRun(t, steps)
    decreases |steps|
  {
    if steps != [] {
      ConsistentKeptExactly(t, steps[0]);
      if Consistent(Apply(t, steps[0])) {
        RunConsistentExactly(Apply(t, steps[0]), steps[1..]);
      } else {
        BrokenIsNotThroughout(Apply(t, steps[0]), steps[1..]);
      }
    }
  }

  lemma BrokenIsNotThroughout(t: Table, steps: seq<Step>)
    requires !Consistent(t)
    ensures !ConsistentThroughout(t, steps)
  {
  }

  /** p leads from its first task through blockers to a failed one. */
  ghost predicate LeadsToFailure(t: Table, p: seq<nat>) {
    |p| > 1 && Walk(Deps(t), p) && p[|p| - 1] in t && t[p[|p| - 1]].status == Failed
  }

  lemma {:induction false} BehindFailureIsQueued(t: Table, p: seq<nat>)
    requires Consistent(t) && LeadsToFailure(t, p)
    ensures p[0] in t && t[p[0]].status == Queued
    decreases |p|
  {
    var d, b := p[0], p[1];
    assert d in Deps(t) && b in t[d].blockers;
    if |p| > 2 {
      BehindFailureIsQueued(t, p[1..]);
    }
  }

  function TwoTasks(first: Status, second: Status): (t: Table) {
    map[1 := Row("A", "one", [], first, if first == Queued then None else Some("a"),
                 if first == Queued then None else Some(0),
                 if first == Done then Some(1) else if first == Failed then Some(3) else None,
                 if first == Done then Some("url") else if first == Failed then Some("FAILED: " + "late") else None),
        2 := Row("A", "two", [1], second, if second == Queued then None else Some("b"),
                 if second == Queued then None else Some(2), None, None)]
  }

  /** a claims 1 and finishes it, b claims its dependent 2, then a fails 1 after all. */
  const LATE_FAILURE: seq<Step> :=
    [ClaimNext("a", 0)] + ([Finish(1, "a", "url", 1)] + ([ClaimNext("b", 2)] + ([GiveUp(1, "a", "late", 3)] + [])))

  lemma LateFailureSteps()
    ensures Apply(TwoTasks(Queued, Queued), ClaimNext("a", 0)) == TwoTasks(Claimed, Queued)
    ensures Apply(TwoTasks(Claimed, Queued), Finish(1, "a", "url", 1)) == TwoTasks(Done, Queued)
    ensures Apply(TwoTasks(Done, Queued), ClaimNext("b", 2)) == TwoTasks(Done, Claimed)
    ensures Apply(TwoTasks(Done, Claimed), GiveUp(1, "a", "late", 3)) == TwoTasks(Failed, Claimed)
  {
    NextIdIs(TwoTasks(Queued, Queued), 1);
    NextIdIs(TwoTasks(Done, Queued), 2);
  }

  lemma LateFailureRun()
    ensures Run(TwoTasks(Queued, Queued), LATE_FAILURE) == TwoTasks(Failed, Claimed)
  {
    LateFailureSteps();
    var last := [GiveUp(1, "a", "late", 3)] + [];
    var third := [ClaimNext("b", 2)] + last;
    RunCons(TwoTasks(Done, Claimed), GiveUp(1, "a", "late", 3), []);
    RunCons(TwoTasks(Done, Queued), ClaimNext("b", 2), last);
    RunCons(TwoTasks(Claimed, Queued), Finish(1, "a", "url", 1), third);
    RunCons(TwoTasks(Queued, Queued), ClaimNext("a", 0), [Finish(1, "a", "url", 1)] + third);
  }

  /** Without the discipline it fails: the dependent of a failed task is claimed. */
  lemma UndisciplinedOwnerBreaksIt()
    ensures Consistent(TwoTasks(Queued, Queued))
    ensures LeadsToFailure(Run(TwoTasks(Queued, Queued), LATE_FAILURE), [2, 1])
    ensures Run(TwoTasks(Queued, Queued), LATE_FAILURE)[2].status == Claimed
  {
    LateFailureRun();
    var g := Deps(TwoTasks(Failed, Claimed));
    assert [2, 1][1..] == [1] && g[2] == [1];
    assert Walk(g, [1]);
    assert 1 in g[2];
  }

  /** A row as the next run leaves it: owned from the moment it is claimed. */
  function Held(title: string, blockers: seq<nat>, owner: string, at: int): (r: Row) {
    Row("A", title, blockers, Claimed, Some(owner), Some(at), None, None)
  }

  function Lost(row: Row, reason: string, at: int): (r: Row) {
    row.(status := Failed, completedAt := Some(at), prUrl := Some("FAILED: " + reason))
  }

  const FORWARD: Row := NewRow("A", "one", [2])

  /** a claims 1, whose blocker 2 has no row yet; 2 is seeded, claimed by b, and fails. */
  const MISSING_BLOCKER: seq<Step> :=
    [ClaimNext("a", 0)] + ([Add(2, "A", "two", [])] + ([ClaimNext("b", 1)] + ([GiveUp(2, "b", "no", 2)] + [])))

  lemma MissingBlockerSteps()
    ensures Apply(map[1 := FORWARD], ClaimNext("a", 0)) == map[1 := Held("one", [2], "a", 0)]
    ensures Apply(map[1 := Held("one", [2], "a", 0)], Add(2, "A", "two", []))
         == map[1 := Held("one", [2], "a", 0), 2 := NewRow("A", "two", [])]
  {
    NextIdIs(map[1 := FORWARD], 1);
    assert "one"[0] != "two"[0];
  }

  lemma MissingBlockerLastSteps()
    ensures var one := Held("one", [2], "a", 0);
      var two := Held("two", [], "b", 1);
      && Apply(map[1 := one, 2 := NewRow("A", "two", [])], ClaimNext("b", 1)) == map[1 := one, 2 := two]
      && Apply(map[1 := one, 2 := two], GiveUp(2, "b", "no", 2)) == map[1 := one, 2 := Lost(two, "no", 2)]
  {
    NextIdIs(map[1 := Held("one", [2], "a", 0), 2 := NewRow("A", "two", [])], 2);
  }

  lemma MissingBlockerRun()
    ensures Run(map[1 := FORWARD], MISSING_BLOCKER)
      == map[1 := Held("one", [2], "a", 0), 2 := Lost(Held("two", [], "b", 1), "no", 2)]
  {
    MissingBlockerSteps();
    MissingBlockerLastSteps();
    var one := Held("one", [2], "a", 0);
    var two := Held("two", [], "b", 1);
    var last := [GiveUp(2, "b", "no", 2)] + [];
    var third := [ClaimNext("b", 1)] + last;
    var second := [Add(2, "A", "two", [])] + third;
    RunCons(map[1 := one, 2 := two], GiveUp(2, "b", "no", 2), []);
    RunCons(map[1 := one, 2 := NewRow("A", "two", [])], ClaimNext("b", 1), last);
    RunCons(map[1 := one], Add(2, "A", "two", []), third);
    RunCons(map[1 := FORWARD], ClaimNext("a", 0), second);
  }

  /** Although no owner touches a finished task, a blocker seeded too late breaks it as well:
      the dependent of a failed task has been claimed. */
  lemma MissingBlockerBreaksIt()
    ensures Consistent(map[1 := FORWARD])
    ensures LeadsToFailure(Run(map[1 := FORWARD], MISSING_BLOCKER), [1, 2])
    ensures Run(map[1 := FORWARD], MISSING_BLOCKER)[1].status == Claimed
  {
    MissingBlockerRun();
    var g := Deps(Run(map[1 := FORWARD], MISSING_BLOCKER));
    assert [1, 2][1..] == [2] && g[1] == [2];
    assert Walk(g, [2]);
    assert 2 in g[1];
  }

  // ---------------------------------------------------------------- deadlock freedom

  ghost predicate Unfinished(t: Table, id: nat) {
    id in t && t[id].status != Done
  }

  /** Somebody is working, somebody failed, or claim_next will hand out a task. */
  ghost predicate CanMove(t: Table) {
    || (exists id :: id in t && t[id].status in {Claimed, InProgress, Failed})
    || NextId(t).Some?
  }

  lemma NoDeadlock(t: Table, id: nat)
    requires Acyclic(Deps(t)) && Unfinished(t, id)
    ensures CanMove(t)
  {
    if !CanMove(t) {
      var s := set k | k in t && t[k].status == Queued;
      NextIdMeaning(t);
      forall d | d in s
        ensures WaitsIn(Deps(t), d, s)
      {
        assert !Claimable(t, d);
        var b :| b in t[d].blockers && b in t && t[b].status != Done;
        assert b in s;
      }
      assert id in s;
      StuckGivesCycle(Deps(t), s);
    }
  }

  /** Tasks that wait for each other are never claimed, in any run whatever. */
  lemma {:induction false} CycleIsNeverClaimed(t: Table, steps: seq<Step>, s: set<nat>, id: nat)
    requires QueuedUnowned(t) && Stuck(Deps(t), s) && id in s
    requires forall k :: k in s ==> k in t && t[k].status == Queued
    ensures id in Run(t, steps) && Run(t, steps)[id].status == Queued
    decreases |steps|
  {
    if steps != [] {
      var t' := Apply(t, steps[0]);
      StepKeepsQueuedUnowned(t, steps[0]);
      forall k | k in s
        ensures k in t' && t'[k].status == Queued && WaitsIn(Deps(t'), k, s)
      {
        StepKeeps(t, steps[0], k);
        assert WaitsIn(Deps(t), k, s);
        var b :| b in t[k].blockers && b in s;
        if t'[k].status != Queued {
          QueuedLeavesByClaim(t, steps[0], k);
        }
      }
      CycleIsNeverClaimed(t', steps[1..], s, id);
    }
  }
}
