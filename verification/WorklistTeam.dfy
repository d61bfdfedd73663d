/** Any number of agents that claim, start and complete tasks in any interleaving, and fail
    none: they drain an acyclic worklist. */
module WorklistTeam {
  import opened IdOrder
  import opened BlockerGraph
  import opened Options
  import opened WorklistTable
  import R = WorklistRuns

  /** Nothing failed, and whatever is being worked on has an owner. */
  ghost predicate Manned(t: Table) {
    forall id :: id in t ==>
      && t[id].status != Failed
      && (t[id].status in {Claimed, InProgress} ==> t[id].claimedBy.Some?)
  }

  /** The call gets on with the work: it claims a task, or its owner starts or completes one. */
  ghost predicate Works(t: Table, step: Step) {
    match step
    case ClaimNext(_, _) => NextId(t).Some?
    case StartWork(id, agent) => Owned(t, id, agent) && t[id].status == Claimed
    case Finish(id, agent, _, _) => Owned(t, id, agent) && t[id].status in {Claimed, InProgress}
    case _ => false
  }

  ghost predicate WorkRun(t: Table, steps: seq<Step>)
    decreases |steps|
  {
    steps != [] ==> Works(t, steps[0]) && WorkRun(Apply(t, steps[0]), steps[1..])
  }

  // ---------------------------------------------------------------- work runs end

  ghost function Open(t: Table): (r: set<nat>) {
    set id | id in t && t[id].status != Done
  }

  ghost function NotStarted(t: Table): (r: set<nat>) {
    set id | id in t && t[id].status in {Queued, Claimed}
  }

  ghost function Waiting(t: Table): (r: set<nat>) {
    set id | id in t && t[id].status == Queued
  }

  /** The steps left at most: up to three for each task. */
  ghost function WorkLeft(t: Table): (n: nat) {
    |Open(t)| + |NotStarted(t)| + |Waiting(t)|
  }

  lemma WorkEffect(t: Table, step: Step)
    requires Manned(t) && Works(t, step)
    ensures Manned(Apply(t, step)) && Apply(t, step).Keys == t.Keys && Deps(Apply(t, step)) == Deps(t)
    ensures Open(Apply(t, step)) <= Open(t) && NotStarted(Apply(t, step)) <= NotStarted(t)
    ensures Waiting(Apply(t, step)) <= Waiting(t)
  {
    NextIdMeaning(t);
    SameEntries(Deps(Apply(t, step)), Deps(t));
  }

  lemma StrictlyLess(a: set<nat>, b: set<nat>, x: nat)
    requires a <= b && x in b && x !in a
    ensures |a| < |b|
  {
    SubsetSize(a, b);
  }

  /** One of the three sets loses the task that the step is about. */
  lemma WorkIsDone(t: Table, step: Step)
    requires Manned(t) && Works(t, step)
    ensures WorkLeft(Apply(t, step)) < WorkLeft(t)
  {
    var t' := Apply(t, step);
    WorkEffect(t, step);
    NextIdMeaning(t);
    SubsetSize(Open(t'), Open(t));
    SubsetSize(NotStarted(t'), NotStarted(t));
    SubsetSize(Waiting(t'), Waiting(t));
    match step
    case ClaimNext(_, _) => StrictlyLess(Waiting(t'), Waiting(t), NextId(t).value);
    case StartWork(id, _) => StrictlyLess(NotStarted(t'), NotStarted(t), id);
    case Finish(id, _, _, _) => StrictlyLess(Open(t'), Open(t), id);
  }

  lemma {:induction false} WorkRunEffect(t: Table, steps: seq<Step>)
    requires Manned(t) && WorkRun(t, steps)
    ensures Manned(Run(t, steps)) && Run(t, steps).Keys == t.Keys && Deps(Run(t, steps)) == Deps(t)
    ensures WorkLeft(Run(t, steps)) + |steps| <= WorkLeft(t)
    decreases |steps|
  {
    if steps != [] {
      WorkEffect(t, steps[0]);
      WorkIsDone(t, steps[0]);
      WorkRunEffect(Apply(t, steps[0]), steps[1..]);
    }
  }

  lemma AtMostThreeEach(t: Table)
    ensures WorkLeft(t) <= 3 * |t|
  {
    SubsetSize(Open(t), t.Keys);
    SubsetSize(NotStarted(t), t.Keys);
    SubsetSize(Waiting(t), t.Keys);
  }

  // ---------------------------------------------------------------- and end with everything done

  ghost predicate AllDone(t: Table) {
    forall id :: id in t ==> t[id].status == Done
  }

  /** As long as a task is unfinished somebody can get on with the work. */
  lemma WorkGoesOn(t: Table, id: nat) returns (step: Step)
    requires Manned(t) && Acyclic(Deps(t)) && R.Unfinished(t, id)
    ensures Works(t, step)
  {
    R.NoDeadlock(t, id);
    if NextId(t).Some? {
      step := ClaimNext("", 0);
    } else {
      var k :| k in t && t[k].status in {Claimed, InProgress, Failed};
      step := Finish(k, t[k].claimedBy.value, "", 0);
    }
  }

  /** Whoever works in whatever order: a run has at most three steps for each task, and it can
      be continued exactly until every task is done. */
  lemma TeamDrains(t: Table, steps: seq<Step>)
    requires Manned(t) && Acyclic(Deps(t)) && WorkRun(t, steps)
    ensures |steps| <= 3 * |t| && Run(t, steps).Keys == t.Keys
    ensures (exists step :: Works(Run(t, steps), step)) <==> !AllDone(Run(t, steps))
  {
    var t' := Run(t, steps);
    WorkRunEffect(t, steps);
    AtMostThreeEach(t);
    if !AllDone(t') {
      var id :| id in t' && t'[id].status != Done;
      var step := WorkGoesOn(t', id);
    } else {
      NextIdMeaning(t');
    }
  }
}
