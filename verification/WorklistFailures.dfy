/** The containment of failures: when a run keeps every transitive dependent of a failed task
    in the queue, as an exact condition on its steps. */
module WorklistFailures {
  import opened IdOrder
  import opened BlockerGraph
  import opened Options
  import opened WorklistTable
  import opened WorklistRuns

  /** No task out of the queue waits, through any chain of blockers, for a failed one. */
  ghost predicate FailuresContained(t: Table) {
    forall p :: LeadsToFailure(t, p) ==> p[0] in t && t[p[0]].status == Queued
  }

  // ---------------------------------------------------------------- walks

  lemma {:induction false} WalkJoin(g: Graph, p: seq<nat>, q: seq<nat>)
    requires Walk(g, p) && Walk(g, q) && p[|p| - 1] in g && q[0] in g[p[|p| - 1]]
    ensures Walk(g, p + q)
  {
    if |p| == 1 {
      assert (p + q)[1..] == q;
    } else {
      assert (p + q)[1..] == p[1..] + q;
      WalkJoin(g, p[1..], q);
    }
  }

  ghost predicate Extends(g: Graph, h: Graph) {
    forall d :: d in g ==> d in h && h[d] == g[d]
  }

  lemma {:induction false} WalkLift(g: Graph, h: Graph, p: seq<nat>)
    requires Extends(g, h) && Walk(g, p)
    ensures Walk(h, p)
  {
    if |p| > 1 {
      WalkLift(g, h, p[1..]);
    }
  }

  lemma {:induction false} WalkRestrict(g: Graph, h: Graph, id: nat, p: seq<nat>)
    requires Extends(g, h) && (forall d :: d in h ==> d == id || d in g)
    requires Walk(h, p) && id !in p
    ensures Walk(g, p)
  {
    assert p[0] in g;
    if |p| > 1 {
      assert p[1] in g[p[0]];
      WalkRestrict(g, h, id, p[1..]);
    }
  }

  lemma {:induction false} FirstPlace(p: seq<nat>, x: nat) returns (i: nat)
    requires x in p
    ensures i < |p| && p[i] == x && x !in p[..i]
  {
    if p[0] == x {
      i := 0;
    } else {
      var k := FirstPlace(p[1..], x);
      i := k + 1;
      assert p[..i] == [p[0]] + p[1..][..k];
    }
  }

  lemma {:induction false} LastPlace(p: seq<nat>, x: nat) returns (i: nat)
    requires x in p
    ensures i < |p| && p[i] == x && x !in p[i + 1..]
  {
    if x in p[1..] {
      var k := LastPlace(p[1..], x);
      i := k + 1;
      assert p[i + 1..] == p[1..][k + 1..];
    } else {
      i := 0;
    }
  }

  // ---------------------------------------------------------------- steps that fail nothing

  lemma SameDeps(t: Table, step: Step)
    requires !step.Add?
    ensures Deps(Apply(t, step)) == Deps(t)
  {
    NextIdMeaning(t);
    SameEntries(Deps(Apply(t, step)), Deps(t));
  }

  /** A task that a step takes out of the queue waits for nothing that failed. */
  lemma NotTakenOut(t: Table, step: Step, p: seq<nat>)
    requires QueuedUnowned(t) && FailuresContained(t) && LeadsToFailure(t, p)
    requires p[0] in t && p[0] in Apply(t, step)
    ensures Apply(t, step)[p[0]].status == Queued
  {
    assert t[p[0]].status == Queued;
    if Apply(t, step)[p[0]].status != Queued {
      QueuedLeavesByClaim(t, step, p[0]);
      assert p[1] in Deps(t)[p[0]] && p[1] in t && t[p[1]].status == Done;
      if |p| > 2 {
        assert LeadsToFailure(t, p[1..]);
      }
    }
  }

  lemma QuietStepContains(t: Table, step: Step)
    requires QueuedUnowned(t) && FailuresContained(t) && (step.ClaimNext? || step.StartWork? || step.Finish?)
    ensures FailuresContained(Apply(t, step))
  {
    var t' := Apply(t, step);
    SameDeps(t, step);
    NextIdMeaning(t);
    forall p | LeadsToFailure(t', p)
      ensures p[0] in t' && t'[p[0]].status == Queued
    {
      assert p[0] in Deps(t');
      assert LeadsToFailure(t, p);
      NotTakenOut(t, step, p);
    }
  }

  // ---------------------------------------------------------------- failing a task

  /** A task out of the queue waits for id, through any chain of blockers. */
  ghost predicate AwaitedBy(t: Table, id: nat, p: seq<nat>) {
    |p| > 1 && Walk(Deps(t), p) && p[|p| - 1] == id && p[0] in t && t[p[0]].status != Queued
  }

  ghost predicate Awaited(t: Table, id: nat) {
    exists p :: AwaitedBy(t, id, p)
  }

  lemma GiveUpSpoils(t: Table, id: nat, agent: string, reason: string, now: int)
    requires QueuedUnowned(t) && Owned(t, id, agent) && Awaited(t, id)
    ensures !FailuresContained(Fail(t, id, agent, reason, now))
  {
    var p :| AwaitedBy(t, id, p);
    var t' := Fail(t, id, agent, reason, now);
    SameDeps(t, GiveUp(id, agent, reason, now));
    assert LeadsToFailure(t', p) && t'[p[0]].status != Queued;
  }

  lemma GiveUpContains(t: Table, id: nat, agent: string, reason: string, now: int)
    requires QueuedUnowned(t) && FailuresContained(t) && Owned(t, id, agent) && !Awaited(t, id)
    ensures FailuresContained(Fail(t, id, agent, reason, now))
  {
    var t' := Fail(t, id, agent, reason, now);
    SameDeps(t, GiveUp(id, agent, reason, now));
    forall p | LeadsToFailure(t', p)
      ensures p[0] in t' && t'[p[0]].status == Queued
    {
      assert p[0] in Deps(t');
      if p[|p| - 1] == id {
        assert !AwaitedBy(t, id, p);
      } else {
        assert LeadsToFailure(t, p);
      }
    }
  }

  // ---------------------------------------------------------------- adding a row

  /** p leads from a task out of the queue to one that lists id. */
  ghost predicate LeadsTo(t: Table, id: nat, p: seq<nat>) {
    && Walk(Deps(t), p) && p[0] in t && t[p[0]].status != Queued
    && p[|p| - 1] in t && id in t[p[|p| - 1]].blockers
  }

  /** q leads from one of the blockers to a failed task. */
  ghost predicate LeadsOn(t: Table, blockers: seq<nat>, q: seq<nat>) {
    && Walk(Deps(t), q) && q[0] in blockers
    && q[|q| - 1] in t && t[q[|q| - 1]].status == Failed
  }

  /** The new row closes the gap between a task out of the queue and a failed one. */
  ghost predicate Bridges(t: Table, id: nat, blockers: seq<nat>) {
    (exists p :: LeadsTo(t, id, p)) && (exists q :: LeadsOn(t, blockers, q))
  }

  ghost predicate Inserts(t: Table, step: Step) {
    step.Add? && step.id !in t && !Taken(t, step.section, step.title)
  }

  lemma InsertDeps(t: Table, step: Step)
    requires Inserts(t, step)
    ensures var g, h := Deps(t), Deps(Apply(t, step));
      && Extends(g, h) && (forall d :: d in h ==> d == step.id || d in g)
      && step.id in h && h[step.id] == step.blockers
  {
  }

  lemma BridgeWalk(h: Graph, p: seq<nat>, id: nat, q: seq<nat>)
    requires Walk(h, p) && Walk(h, q) && p[|p| - 1] in h && id in h
    requires id in h[p[|p| - 1]] && q[0] in h[id]
    ensures var r := p + ([id] + q);
      Walk(h, r) && |r| > 1 && r[0] == p[0] && r[|r| - 1] == q[|q| - 1]
  {
    WalkJoin(h, [id], q);
    WalkJoin(h, p, [id] + q);
  }

  lemma Leak(t: Table, r: seq<nat>)
    requires LeadsToFailure(t, r) && r[0] in t && t[r[0]].status != Queued
    ensures !FailuresContained(t)
  {
  }

  lemma BridgeEnds(t: Table, step: Step, p: seq<nat>, q: seq<nat>)
    requires Inserts(t, step) && LeadsTo(t, step.id, p) && LeadsOn(t, step.blockers, q)
    ensures var h := Deps(Apply(t, step));
      && Walk(h, p) && Walk(h, q) && p[|p| - 1] in h && step.id in h
      && step.id in h[p[|p| - 1]] && q[0] in h[step.id]
  {
    InsertDeps(t, step);
    WalkLift(Deps(t), Deps(Apply(t, step)), p);
    WalkLift(Deps(t), Deps(Apply(t, step)), q);
    assert p[|p| - 1] in Deps(t);
  }

  lemma BridgeSpoils(t: Table, step: Step)
    requires Inserts(t, step) && Bridges(t, step.id, step.blockers)
    ensures !FailuresContained(Apply(t, step))
  {
    var p :| LeadsTo(t, step.id, p);
    var q :| LeadsOn(t, step.blockers, q);
    BridgeEnds(t, step, p, q);
    BridgeWalk(Deps(Apply(t, step)), p, step.id, q);
    Leak(Apply(t, step), p + ([step.id] + q));
  }

  lemma InsertContains(t: Table, step: Step)
    requires FailuresContained(t) && Inserts(t, step) && !Bridges(t, step.id, step.blockers)
    ensures FailuresContained(Apply(t, step))
  {
    var t' := Apply(t, step);
    forall r | LeadsToFailure(t', r)
      ensures r[0] in t' && t'[r[0]].status == Queued
    {
      assert r[0] in Deps(t');
      if t'[r[0]].status != Queued {
        FailureIsOld(t, step, r);
      }
    }
  }

  /** A chain in the longer table from a task out of the queue to a failed one either is one
      of the shorter table or shows the bridge. */
  lemma FailureIsOld(t: Table, step: Step, r: seq<nat>)
    requires Inserts(t, step) && LeadsToFailure(Apply(t, step), r)
    requires r[0] in Apply(t, step) && Apply(t, step)[r[0]].status != Queued
    ensures (LeadsToFailure(t, r) && r[0] in t && t[r[0]].status != Queued) || Bridges(t, step.id, step.blockers)
  {
    var t' := Apply(t, step);
    InsertDeps(t, step);
    if step.id !in r {
      WalkRestrict(Deps(t), Deps(t'), step.id, r);
    } else {
      var i := FirstPlace(r, step.id);
      var j := LastPlace(r, step.id);
      FrontOfBridge(t, step, r, i);
      BackOfBridge(t, step, r, j);
    }
  }

  lemma FrontOfBridge(t: Table, step: Step, r: seq<nat>, i: nat)
    requires Inserts(t, step) && Walk(Deps(Apply(t, step)), r)
    requires r[0] in Apply(t, step) && Apply(t, step)[r[0]].status != Queued
    requires i < |r| && r[i] == step.id && step.id !in r[..i]
    ensures i > 0 && LeadsTo(t, step.id, r[..i])
  {
    var h := Deps(Apply(t, step));
    InsertDeps(t, step);
    assert i > 0;
    WalkSlice(h, r, 0, i);
    WalkStep(h, r, i - 1);
    assert r[0..i] == r[..i] && r[..i][i - 1] == r[i - 1] && r[i - 1] in r[..i];
    WalkRestrict(Deps(t), h, step.id, r[..i]);
  }

  lemma BackOfBridge(t: Table, step: Step, r: seq<nat>, j: nat)
    requires Inserts(t, step) && LeadsToFailure(Apply(t, step), r)
    requires j < |r| && r[j] == step.id && step.id !in r[j + 1..]
    ensures j + 1 < |r| && LeadsOn(t, step.blockers, r[j + 1..])
  {
    var h := Deps(Apply(t, step));
    InsertDeps(t, step);
    assert j + 1 < |r|;
    var q := r[j + 1..];
    WalkSlice(h, r, j + 1, |r|);
    WalkStep(h, r, j);
    assert r[j + 1..|r|] == q && q[0] == r[j + 1] && q[|q| - 1] == r[|r| - 1];
    WalkRestrict(Deps(t), h, step.id, q);
  }

  // ---------------------------------------------------------------- exactly

  /** The two ways to let a failure out: an owner fails a task for which a task out of the
      queue waits, or a new row bridges the gap to an old failure. */
  ghost predicate Spoils(t: Table, step: Step) {
    match step
    case GiveUp(id, agent, _, _) => Owned(t, id, agent) && Awaited(t, id)
    case Add(id, _, _, blockers) => Inserts(t, step) && Bridges(t, id, blockers)
    case _ => false
  }

  lemma ContainedKeptExactly(t: Table, step: Step)
    requires QueuedUnowned(t) && FailuresContained(t)
    ensures FailuresContained(Apply(t, step)) <==> !Spoils(t, step)
  {
    match step
    case GiveUp(id, agent, reason, now) =>
      if Owned(t, id, agent) {
        if Awaited(t, id) {
          GiveUpSpoils(t, id, agent, reason, now);
        } else {
          GiveUpContains(t, id, agent, reason, now);
        }
      }
    case Add(id, _, _, blockers) =>
      if Inserts(t, step) {
        if Bridges(t, id, blockers) {
          BridgeSpoils(t, step);
        } else {
          InsertContains(t, step);
        }
      }
    case _ =>
      QuietStepContains(t, step);
  }

  ghost predicate UnspoiledRun(t: Table, steps: seq<Step>)
    decreases |steps|
  {
    steps != [] ==> !Spoils(t, steps[0]) && UnspoiledRun(Apply(t, steps[0]), steps[1..])
  }

  ghost predicate ContainedThroughout(t: Table, steps: seq<Step>)
    decreases |steps|
  {
    FailuresContained(t) && (steps != [] ==> ContainedThroughout(Apply(t, steps[0]), steps[1..]))
  }

  lemma {:induction false} RunContainedExactly(t: Table, steps: seq<Step>)
    requires QueuedUnowned(t) && FailuresContained(t)
    ensures ContainedThroughout(t, steps) <==> UnspoiledRun(t, steps)
    decreases |steps|
  {
    if steps != [] {
      ContainedKeptExactly(t, steps[0]);
      StepKeepsQueuedUnowned(t, steps[0]);
      if FailuresContained(Apply(t, steps[0])) {
        RunContainedExactly(Apply(t, steps[0]), steps[1..]);
      } else {
        LeakIsNotContained(Apply(t, steps[0]), steps[1..]);
      }
    }
  }

  lemma LeakIsNotContained(t: Table, steps: seq<Step>)
    requires !FailuresContained(t)
    ensures !ContainedThroughout(t, steps)
  {
  }

  /** From a freshly seeded table: at no moment of a run is a transitive dependent of a failed
      task out of the queue, exactly if none of its steps lets a failure out. */
  lemma DependentsStayQueuedExactly(t: Table, steps: seq<Step>)
    requires forall id :: id in t ==> t[id].status == Queued && t[id].claimedBy == None
    ensures ContainedThroughout(t, steps) <==> UnspoiledRun(t, steps)
  {
    FreshIsConsistent(t);
    assert FailuresContained(t) by {
      forall p | LeadsToFailure(t, p)
        ensures p[0] in t && t[p[0]].status == Queued
      {
        BehindFailureIsQueued(t, p);
      }
    }
    RunContainedExactly(t, steps);
  }

  lemma {:induction false} EndsContained(t: Table, steps: seq<Step>)
    requires ContainedThroughout(t, steps)
    ensures FailuresContained(Run(t, steps))
    decreases |steps|
  {
    if steps != [] {
      EndsContained(Apply(t, steps[0]), steps[1..]);
    }
  }

  /** In such a run no transitive dependent of a task that fails is ever out of the queue, at
      any moment before or after the failure. */
  lemma DependentsOfFailureStayQueued(t: Table, steps: seq<Step>, p: seq<nat>, i: nat)
    requires QueuedUnowned(t) && FailuresContained(t) && UnspoiledRun(t, steps)
    requires LeadsToFailure(Run(t, steps), p) && i <= |steps|
    ensures p[0] in Run(t, steps)
    ensures p[0] in Run(t, steps[..i]) ==> Run(t, steps[..i])[p[0]].status == Queued
  {
    RunContainedExactly(t, steps);
    EndsContained(t, steps);
    assert steps[..|steps|] == steps;
    RunPrefix(t, steps, i, |steps|);
    RunKeeps(Run(t, steps[..i]), steps[i..], p[0]);
  }
}
