/** The task table and the single SQL statements that change it. Each statement is one
    atomic step; runs of steps by any number of agents are sequences of them. */
module WorklistTable {
  import opened Options
  import opened IdOrder
  import opened BlockerGraph

  datatype Status = Queued | Claimed | InProgress | Done | Failed

  datatype Row = Row(
    section: string,
    title: string,
    blockers: seq<nat>,
    status: Status,
    claimedBy: Option<string>,
    claimedAt: Option<int>,
    completedAt: Option<int>,
    prUrl: Option<string>)

  type Table = map<nat, Row>

  function NewRow(section: string, title: string, blockers: seq<nat>): (r: Row) {
    Row(section, title, blockers, Queued, None, None, None, None)
  }

  /** The blocker lists of the rows. A listed id need not have a row. */
  ghost function Deps(t: Table): (g: Graph) {
    map id | id in t :: t[id].blockers
  }

  /** The `NOT EXISTS` test: no listed blocker has a row that is not done. */
  predicate BlockersDone(t: Table, id: nat)
    requires id in t
  {
    forall b :: b in t[id].blockers ==> b in t ==> t[b].status == Done
  }

  predicate Claimable(t: Table, id: nat) {
    id in t && t[id].status == Queued && BlockersDone(t, id)
  }

  ghost function ClaimableIds(t: Table): (r: set<nat>) {
    set id | id in t && Claimable(t, id)
  }

  /** `ORDER BY t.id LIMIT 1` over the claimable rows. */
  ghost function NextId(t: Table): (r: Option<nat>) {
    if ClaimableIds(t) == {} then None else Some(Minimum(ClaimableIds(t)))
  }

  ghost function Claim(t: Table, agent: string, now: int): (r: Table) {
    match NextId(t)
    case None => t
    case Some(id) => t[id := t[id].(status := Claimed, claimedBy := Some(agent), claimedAt := Some(now))]
  }

  predicate Owned(t: Table, id: nat, agent: string) {
    id in t && t[id].claimedBy == Some(agent)
  }

  function MarkInProgress(t: Table, id: nat, agent: string): (r: Table) {
    if Owned(t, id, agent) then t[id := t[id].(status := InProgress)] else t
  }

  function Complete(t: Table, id: nat, agent: string, url: string, now: int): (r: Table) {
    if Owned(t, id, agent)
    then t[id := t[id].(status := Done, completedAt := Some(now), prUrl := Some(url))]
    else t
  }

  function Fail(t: Table, id: nat, agent: string, reason: string, now: int): (r: Table) {
    if Owned(t, id, agent)
    then t[id := t[id].(status := Failed, completedAt := Some(now), prUrl := Some("FAILED: " + reason))]
    else t
  }

  /** The `UNIQUE (prd_section, title)` key is already taken. */
  predicate Taken(t: Table, section: string, title: string) {
    exists id :: id in t && t[id].section == section && t[id].title == title
  }

  /** `INSERT OR IGNORE` under a fresh id. */
  function Insert(t: Table, id: nat, section: string, title: string, blockers: seq<nat>): (r: Table) {
    if id in t || Taken(t, section, title) then t else t[id := NewRow(section, title, blockers)]
  }

  datatype Step =
    | ClaimNext(agent: string, now: int)
    | StartWork(id: nat, agent: string)
    | Finish(id: nat, agent: string, url: string, now: int)
    | GiveUp(id: nat, agent: string, reason: string, now: int)
    | Add(id: nat, section: string, title: string, blockers: seq<nat>)

  ghost function Apply(t: Table, step: Step): (r: Table) {
    match step
    case ClaimNext(agent, now) => Claim(t, agent, now)
    case StartWork(id, agent) => MarkInProgress(t, id, agent)
    case Finish(id, agent, url, now) => Complete(t, id, agent, url, now)
    case GiveUp(id, agent, reason, now) => Fail(t, id, agent, reason, now)
    case Add(id, section, title, blockers) => Insert(t, id, section, title, blockers)
  }

  ghost function Run(t: Table, steps: seq<Step>): (r: Table)
    decreases |steps|
  {
    if steps == [] then t else Run(Apply(t, steps[0]), steps[1..])
  }

  lemma {:induction false} RunSplit(t: Table, a: seq<Step>, b: seq<Step>)
    ensures Run(t, a + b) == Run(Run(t, a), b)
    decreases |a|
  {
    if a == [] {
      assert a + b == b;
    } else {
      assert (a + b)[1..] == a[1..] + b;
      RunSplit(Apply(t, a[0]), a[1..], b);
    }
  }

  /** What NextId promises: the lowest claimable id, and None only when there is none. */
  lemma NextIdMeaning(t: Table)
    ensures NextId(t).Some? ==> Claimable(t, NextId(t).value)
    ensures forall id :: Claimable(t, id) ==> NextId(t).Some? && NextId(t).value <= id
  {
    forall id | Claimable(t, id)
      ensures id in ClaimableIds(t)
    {
    }
  }

  lemma NextIdIs(t: Table, id: nat)
    requires Claimable(t, id) && forall k :: 0 <= k < id ==> !Claimable(t, k)
    ensures NextId(t) == Some(id)
  {
    NextIdMeaning(t);
  }

  lemma RunCons(t: Table, step: Step, rest: seq<Step>)
    ensures Run(t, [step] + rest) == Run(Apply(t, step), rest)
  {
    assert ([step] + rest)[1..] == rest;
  }

  // ---------------------------------------------------------------- one step

  /** No step deletes a row, changes what it waits for, requeues it, or takes it from its owner. */
  ghost predicate Kept(before: Table, after: Table, id: nat) {
    id in before ==>
      && id in after
      && after[id].blockers == before[id].blockers
      && after[id].section == before[id].section && after[id].title == before[id].title
      && (before[id].status != Queued ==> after[id].status != Queued && after[id].claimedBy == before[id].claimedBy)
  }

  lemma StepKeeps(t: Table, step: Step, id: nat)
    ensures Kept(t, Apply(t, step), id)
  {
    NextIdMeaning(t);
  }

  lemma {:induction false} RunKeeps(t: Table, steps: seq<Step>, id: nat)
    ensures Kept(t, Run(t, steps), id)
    decreases |steps|
  {
    if steps != [] {
      StepKeeps(t, steps[0], id);
      RunKeeps(Apply(t, steps[0]), steps[1..], id);
    }
  }

  /** Only a claim writes an owner, so a row still queued has none. */
  ghost predicate QueuedUnowned(t: Table) {
    forall id :: id in t && t[id].status == Queued ==> t[id].claimedBy == None
  }

  lemma StepKeepsQueuedUnowned(t: Table, step: Step)
    requires QueuedUnowned(t)
    ensures QueuedUnowned(Apply(t, step))
  {
    NextIdMeaning(t);
  }
}
