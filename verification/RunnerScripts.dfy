/** The three runner scripts as they run from start to end when no other agent's command
    falls in between. */
module RunnerScripts {
  import opened Options
  import opened RunnerQueue

  datatype ClaimResult = QueueEmpty | Unexpected(story: string) | ClaimedStory(story: string, score: real)

  /** The store with no script running. */
  function Quiet(queue: map<string, real>, tasks: map<string, Rec>, held: set<(string, string)>): (r: State) {
    State(queue, tasks, map[], held)
  }

  function ClaimScript(st: State, a: string, s: string): (r: State)
    requires PcOf(st, a).Idle? && IsMin(st.queue, s)
  {
    var read := Do(Do(st, PopMin(a, s)), CheckStatus(a));
    if MayClaim(RecOf(st.tasks, s).status) then Do(read, WriteClaim(a)) else Do(read, PutBack(a))
  }

  lemma {:induction false} SomeStoryIsMin(queue: map<string, real>) returns (s: string)
    requires queue.Keys != {}
    ensures IsMin(queue, s)
    decreases queue.Keys
  {
    s :| s in queue.Keys;
    var rest := queue - {s};
    if rest.Keys != {} {
      var k := SomeStoryIsMin(rest);
      if queue[k] < queue[s] {
        s := k;
      }
    }
    forall j | j in queue
      ensures queue[s] <= queue[j]
    {
      assert j in rest || j !in rest;
    }
  }

  class RedisStore {
    var queue: map<string, real>
    var tasks: map<string, Rec>

    /** claim_task.py */
    method ClaimTask(agent: string, ghost held: set<(string, string)>) returns (r: ClaimResult)
      modifies this
      ensures r.QueueEmpty? <==> old(queue) == map[]
      ensures r.QueueEmpty? ==> queue == old(queue) && tasks == old(tasks)
      ensures !r.QueueEmpty? ==>
        && IsMin(old(queue), r.story)
        && var st := ClaimScript(Quiet(old(queue), old(tasks), held), agent, r.story);
           queue == st.queue && tasks == st.tasks
      ensures !r.QueueEmpty? ==>
        && r.story in old(queue) && forall s :: s in old(queue) ==> old(queue)[r.story] <= old(queue)[s]
      ensures r.Unexpected? ==>
        && queue == old(queue) && tasks == old(tasks)
        && r.story in old(tasks) && old(tasks)[r.story].status !in {None, Some(Pending), Some(NeedsFix)}
      ensures r.ClaimedStory? ==>
        && (r.story in old(tasks) ==> old(tasks)[r.story].status in {None, Some(Pending), Some(NeedsFix)})
        && r.score == old(queue)[r.story] && queue == old(queue) - {r.story}
        && var rec := if r.story in old(tasks) then old(tasks)[r.story] else Rec(None, None, None);
           tasks == old(tasks)[r.story := rec.(status := Some(Claimed), assignee := Some(agent))]
    {
      if queue.Keys == {} {
        assert queue == map[];
        return QueueEmpty;
      }
      ghost var least := SomeStoryIsMin(queue);
      var story :| story in queue && forall s :: s in queue ==> queue[story] <= queue[s];
      var score := queue[story];
      assert queue == (queue - {story})[story := score];
      queue := queue - {story};
      var rec := RecOf(tasks, story);
      if rec.status !in {None, Some(Pending), Some(NeedsFix)} {
        queue := queue[story := score];
        return Unexpected(story);
      }
      tasks := tasks[story := rec.(status := Some(Claimed), assignee := Some(agent))];
      r := ClaimedStory(story, score);
    }

    /** mark_done.py */
    method MarkDone(agent: string, story: string, ghost held: set<(string, string)>) returns (ok: bool)
      modifies this`tasks
      ensures ok <==> story in old(tasks) && old(tasks)[story].status == Some(Claimed)
      ensures tasks == RunnerQueue.MarkDone(Quiet(queue, old(tasks), held), agent, story).tasks
      ensures ok ==> tasks == old(tasks)[story := old(tasks)[story].(status := Some(Done))]
      ensures !ok ==> tasks == old(tasks)
    {
      var rec := RecOf(tasks, story);
      if rec.status != Some(Claimed) {
        return false;
      }
      tasks := tasks[story := rec.(status := Some(Done))];
      ok := true;
    }

    /** mark_failed.py; the reported score is not cut off at zero, the stored one is. */
    method MarkTaskFailed(agent: string, story: string, ghost held: set<(string, string)>) returns (reported: real)
      modifies this
      ensures var st := MarkFailed(Quiet(old(queue), old(tasks), held), agent, story);
        queue == st.queue && tasks == st.tasks
      ensures var rec := if story in old(tasks) then old(tasks)[story] else Rec(None, None, None);
        && tasks == old(tasks)[story := rec.(status := Some(NeedsFix))]
        && reported == (match rec.priority case None => 1.5 case Some(p) => p - 0.5)
      ensures queue == old(queue)[story := if reported > 0.0 then reported else 0.0]
    {
      MarkFailedStore(Quiet(queue, tasks, held), agent, story);
      var rec := RecOf(tasks, story);
      var priority := if rec.priority.Some? then rec.priority.value else 2.0;
      tasks := tasks[story := rec.(status := Some(NeedsFix))];
      queue := queue[story := if priority - 0.5 > 0.0 then priority - 0.5 else 0.0];
      reported := priority - 0.5;
    }
  }
}
