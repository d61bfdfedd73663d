/** `WorklistDB`: each method runs its statements under the lock, so it is one atomic step. */
module WorklistDb {
  import opened Options
  import opened WorklistTable
  import A = AuditRuns

  datatype Item = Item(section: string, title: string, blockers: seq<nat>)

  /** `executemany("INSERT OR IGNORE ...")` on an AUTOINCREMENT table whose next id is n: every
      insert uses up an id, the ignored ones too. */
  function SeedAll(t: Table, n: nat, items: seq<Item>): (r: (Table, nat))
    ensures r.1 == n + |items|
    decreases |items|
  {
    if items == [] then (t, n)
    else
      var item := items[0];
      if Taken(t, item.section, item.title) then SeedAll(t, n + 1, items[1..])
      else SeedAll(t[n := NewRow(item.section, item.title, item.blockers)], n + 1, items[1..])
  }

  /** Ids below n are used up. */
  ghost predicate Below(t: Table, n: nat) {
    forall id :: id in t ==> id < n
  }

  lemma {:induction false} SeedKeepsRows(t: Table, n: nat, items: seq<Item>, id: nat)
    requires Below(t, n)
    ensures Below(SeedAll(t, n, items).0, SeedAll(t, n, items).1)
    ensures id in t ==> id in SeedAll(t, n, items).0 && SeedAll(t, n, items).0[id] == t[id]
    ensures id !in t && id in SeedAll(t, n, items).0 ==> SeedAll(t, n, items).0[id].status == Queued
    decreases |items|
  {
    if items != [] {
      var item := items[0];
      if Taken(t, item.section, item.title) {
        SeedKeepsRows(t, n + 1, items[1..], id);
      } else {
        SeedKeepsRows(t[n := NewRow(item.section, item.title, item.blockers)], n + 1, items[1..], id);
      }
    }
  }

  /** The item names a section and title that no row and no earlier item has. */
  ghost predicate Fresh(t: Table, items: seq<Item>, i: nat)
    requires i < |items|
  {
    && (forall id :: id in t ==> t[id].section != items[i].section || t[id].title != items[i].title)
    && (forall j :: 0 <= j < i ==> items[j].section != items[i].section || items[j].title != items[i].title)
  }

  lemma FreshTail(t: Table, n: nat, items: seq<Item>, i: nat)
    requires 0 < i < |items| && Below(t, n)
    ensures var item := items[0];
      var t' := if Taken(t, item.section, item.title) then t else t[n := NewRow(item.section, item.title, item.blockers)];
      Fresh(t', items[1..], i - 1) <==> Fresh(t, items, i)
  {
    var rest := items[1..];
    assert rest[i - 1] == items[i];
    assert forall j :: 0 <= j < i - 1 ==> rest[j] == items[j + 1];
    assert forall j :: 0 < j < i ==> items[j] == rest[j - 1];
    if Taken(t, items[0].section, items[0].title) {
      var id :| id in t && t[id].section == items[0].section && t[id].title == items[0].title;
    } else {
      var t' := t[n := NewRow(items[0].section, items[0].title, items[0].blockers)];
      assert n in t' && t'[n].section == items[0].section && t'[n].title == items[0].title;
      assert forall id :: id in t ==> id in t' && t'[id] == t[id];
    }
  }

  /** Item i gets the row n + i, and gets one exactly if its section and title are new then; the
      row is queued, unowned, and waits for the item's blockers. */
  lemma {:induction false} SeedRowsExactly(t: Table, n: nat, items: seq<Item>, i: nat)
    requires Below(t, n) && i < |items|
    ensures n + i in SeedAll(t, n, items).0 <==> Fresh(t, items, i)
    ensures Fresh(t, items, i) ==>
      SeedAll(t, n, items).0[n + i] ==
        Row(items[i].section, items[i].title, items[i].blockers, Queued, None, None, None, None)
    decreases |items|
  {
    var item := items[0];
    var t' := if Taken(t, item.section, item.title) then t else t[n := NewRow(item.section, item.title, item.blockers)];
    if i == 0 {
      SeedKeepsRowsBelow(t', n + 1, items[1..], n);
    } else {
      FreshTail(t, n, items, i);
      SeedRowsExactly(t', n + 1, items[1..], i - 1);
    }
  }

  /** Seeding neither changes nor adds rows below the next id. */
  lemma {:induction false} SeedKeepsRowsBelow(t: Table, n: nat, items: seq<Item>, id: nat)
    requires Below(t, n) && id < n
    ensures id in SeedAll(t, n, items).0 <==> id in t
    ensures id in t ==> SeedAll(t, n, items).0[id] == t[id]
    decreases |items|
  {
    if items != [] {
      var item := items[0];
      var t' := if Taken(t, item.section, item.title) then t else t[n := NewRow(item.section, item.title, item.blockers)];
      SeedKeepsRowsBelow(t', n + 1, items[1..], id);
    }
  }

  lemma TakenSurvives(t: Table, n: nat, items: seq<Item>, section: string, title: string)
    requires Below(t, n) && Taken(t, section, title)
    ensures Taken(SeedAll(t, n, items).0, section, title)
  {
    var id :| id in t && t[id].section == section && t[id].title == title;
    SeedKeepsRows(t, n, items, id);
  }

  /** Every seeded item has a row afterwards. */
  lemma {:induction false} SeedCovers(t: Table, n: nat, items: seq<Item>, i: nat)
    requires Below(t, n) && i < |items|
    ensures Taken(SeedAll(t, n, items).0, items[i].section, items[i].title)
    decreases |items|
  {
    var item := items[0];
    if Taken(t, item.section, item.title) {
      if i == 0 {
        TakenSurvives(t, n + 1, items[1..], item.section, item.title);
      } else {
        SeedCovers(t, n + 1, items[1..], i - 1);
      }
    } else {
      var t' := t[n := NewRow(item.section, item.title, item.blockers)];
      if i == 0 {
        assert n in t' && t'[n].section == item.section && t'[n].title == item.title;
        TakenSurvives(t', n + 1, items[1..], item.section, item.title);
      } else {
        SeedCovers(t', n + 1, items[1..], i - 1);
      }
    }
  }

  lemma {:induction false} SeedingTakenItems(t: Table, n: nat, items: seq<Item>)
    requires forall i :: 0 <= i < |items| ==> Taken(t, items[i].section, items[i].title)
    ensures SeedAll(t, n, items).0 == t
    decreases |items|
  {
    if items != [] {
      assert Taken(t, items[0].section, items[0].title);
      SeedingTakenItems(t, n + 1, items[1..]);
    }
  }

  /** Seeding the same list again changes no row; it does use up ids. */
  lemma SeedIdempotent(t: Table, n: nat, items: seq<Item>)
    requires Below(t, n)
    ensures var (t', n') := SeedAll(t, n, items); SeedAll(t', n', items).0 == t' && SeedAll(t', n', items).1 == n' + |items|
  {
    var (t', n') := SeedAll(t, n, items);
    forall i | 0 <= i < |items|
      ensures Taken(t', items[i].section, items[i].title)
    {
      SeedCovers(t, n, items, i);
    }
    SeedingTakenItems(t', n', items);
  }

  /** Seeding is a run of insert steps, so everything proved of runs holds across it. */
  lemma {:induction false} SeedIsARun(t: Table, n: nat, items: seq<Item>) returns (steps: seq<Step>)
    requires Below(t, n)
    ensures Run(t, steps) == SeedAll(t, n, items).0
    ensures forall i :: 0 <= i < |steps| ==> steps[i].Add?
    decreases |items|
  {
    if items == [] {
      steps := [];
    } else {
      var item := items[0];
      if Taken(t, item.section, item.title) {
        steps := SeedIsARun(t, n + 1, items[1..]);
      } else {
        var rest := SeedIsARun(t[n := NewRow(item.section, item.title, item.blockers)], n + 1, items[1..]);
        var first := Add(n, item.section, item.title, item.blockers);
        steps := [first] + rest;
        RunCons(t, first, rest);
      }
    }
  }

  /** A queued row none of whose blockers has a row that is not done. */
  ghost predicate Free(t: Table, id: nat) {
    id in t && t[id].status == Queued && !(exists b :: b in t[id].blockers && b in t && t[b].status != Done)
  }

  class WorklistDB {
    var tasks: Table
    var nextId: nat
    var runs: map<string, A.AuditRun>

    ghost predicate Valid()
      reads this
    {
      Below(tasks, nextId)
    }

    constructor ()
      ensures Valid() && tasks == map[] && runs == map[]
    {
      tasks, nextId, runs := map[], 1, map[];
    }

    /** Claims the lowest claimable id; None when nothing is claimable. */
    method ClaimNextTask(agent: string, now: int) returns (r: Option<(nat, Row)>)
      requires Valid()
      modifies this`tasks
      ensures Valid()
      ensures tasks == Apply(old(tasks), ClaimNext(agent, now))
      ensures r.None? <==> forall id :: !Claimable(old(tasks), id)
      ensures r.None? ==> tasks == old(tasks) && forall id :: !Free(old(tasks), id)
      ensures r.Some? ==>
        var (id, row) := r.value;
        && NextId(old(tasks)) == Some(id)
        && Free(old(tasks), id) && (forall k: nat :: k < id ==> !Free(old(tasks), k))
        && row == old(tasks)[id].(status := Claimed, claimedBy := Some(agent), claimedAt := Some(now))
        && tasks == old(tasks)[id := row]
    {
      assert forall id :: Free(tasks, id) <==> Claimable(tasks, id);
      NextIdMeaning(tasks);
      if exists id :: id in tasks && Claimable(tasks, id) {
        var id :| id in tasks && Claimable(tasks, id) && forall k :: k in tasks ==> Claimable(tasks, k) ==> id <= k;
        NextIdIs(tasks, id);
        var row := tasks[id].(status := Claimed, claimedBy := Some(agent), claimedAt := Some(now));
        tasks := tasks[id := row];
        r := Some((id, row));
      } else {
        r := None;
      }
    }

    method StartTask(id: nat, agent: string)
      requires Valid()
      modifies this`tasks
      ensures Valid() && tasks == Apply(old(tasks), StartWork(id, agent))
      ensures tasks ==
        if id in old(tasks) && old(tasks)[id].claimedBy == Some(agent)
        then old(tasks)[id := old(tasks)[id].(status := InProgress)]
        else old(tasks)
    {
      if id in tasks && tasks[id].claimedBy == Some(agent) {
        tasks := tasks[id := tasks[id].(status := InProgress)];
      }
    }

    method CompleteTask(id: nat, agent: string, url: string, now: int)
      requires Valid()
      modifies this`tasks
      ensures Valid() && tasks == Apply(old(tasks), Finish(id, agent, url, now))
      ensures tasks ==
        if id in old(tasks) && old(tasks)[id].claimedBy == Some(agent)
        then old(tasks)[id := old(tasks)[id].(status := Done, completedAt := Some(now), prUrl := Some(url))]
        else old(tasks)
    {
      if id in tasks && tasks[id].claimedBy == Some(agent) {
        tasks := tasks[id := tasks[id].(status := Done, completedAt := Some(now), prUrl := Some(url))];
      }
    }

    method FailTask(id: nat, agent: string, reason: string, now: int)
      requires Valid()
      modifies this`tasks
      ensures Valid() && tasks == Apply(old(tasks), GiveUp(id, agent, reason, now))
      ensures tasks ==
        if id in old(tasks) && old(tasks)[id].claimedBy == Some(agent)
        then old(tasks)[id := old(tasks)[id].(status := Failed, completedAt := Some(now), prUrl := Some("FAILED: " + reason))]
        else old(tasks)
    {
      if id in tasks && tasks[id].claimedBy == Some(agent) {
        tasks := tasks[id := tasks[id].(status := Failed, completedAt := Some(now), prUrl := Some("FAILED: " + reason))];
      }
    }

    method Seed(items: seq<Item>)
      requires Valid()
      modifies this`tasks, this`nextId
      ensures Valid() && (tasks, nextId) == SeedAll(old(tasks), old(nextId), items)
    {
      for i := 0 to |items|
        invariant Valid()
        invariant SeedAll(tasks, nextId, items[i..]) == SeedAll(old(tasks), old(nextId), items)
      {
        var item := items[i];
        assert items[i..][0] == item && items[i..][1..] == items[i + 1..];
        if !(exists id :: id in tasks && tasks[id].section == item.section && tasks[id].title == item.title) {
          tasks := tasks[nextId := NewRow(item.section, item.title, item.blockers)];
        }
        nextId := nextId + 1;
      }
    }

    method EnsureAuditRun(name: string) returns (r: A.AuditRun)
      modifies this`runs
      ensures name in runs && r == runs[name]
      ensures name in old(runs) ==> runs == old(runs)
      ensures name !in old(runs) ==> runs == old(runs)[name := A.AuditRun(A.Review, 0, None)]
    {
      if name !in runs {
        runs := runs[name := A.AuditRun(A.Review, 0, None)];
      }
      r := runs[name];
    }

    /** None stands for the TypeError raised when no run has this name. */
    method AdvancePhase(name: string, phase: A.Phase) returns (r: Option<A.AuditRun>)
      modifies this`runs
      ensures r.None? <==> name !in old(runs)
      ensures r.None? ==> runs == old(runs)
      ensures r.Some? ==> runs == old(runs)[name := r.value] && r.value == old(runs)[name].(phase := phase)
    {
      if name !in runs {
        return None;
      }
      runs := runs[name := runs[name].(phase := phase)];
      r := Some(runs[name]);
    }

    method Escalate(name: string, reason: string) returns (r: Option<A.AuditRun>)
      modifies this`runs
      ensures r.None? <==> name !in old(runs)
      ensures r.None? ==> runs == old(runs)
      ensures r.Some? ==> runs == old(runs)[name := r.value] && r.value == old(runs)[name].(phase := A.EscalatePhase, stoppedReason := Some(reason))
    {
      if name !in runs {
        return None;
      }
      runs := runs[name := runs[name].(phase := A.EscalatePhase, stoppedReason := Some(reason))];
      r := Some(runs[name]);
    }

    /** With no other thread in between: the begin action followed, at the limit, by the
        finish action of the shared-row protocol. */
    method IncrementIteration(name: string) returns (r: Option<A.AuditRun>)
      modifies this`runs
      ensures r.None? <==> name !in old(runs)
      ensures r.None? ==> runs == old(runs)
      ensures r.Some? ==>
        && runs == old(runs)[name := r.value]
        && A.Shared(r.value, 0) == A.ActAll(A.Shared(old(runs)[name], 0), [A.BeginIncrement, A.FinishIncrement])
        && var count := old(runs)[name].iterationCount + 1;
           r.value ==
             if count >= 5 then A.AuditRun(A.EscalatePhase, count, Some("iteration_count >= MAX_ITERATIONS"))
             else A.AuditRun(A.Review, count, old(runs)[name].stoppedReason)
    {
      if name !in runs {
        return None;
      }
      ghost var before := runs[name];
      TwoActions(before);
      runs := runs[name := runs[name].(iterationCount := runs[name].iterationCount + 1, phase := A.Review)];
      if A.ShouldEscalate(runs[name].iterationCount) {
        r := Escalate(name, A.LIMIT_REASON);
      } else {
        r := Some(runs[name]);
      }
    }
  }

  lemma TwoActions(run: A.AuditRun)
    ensures A.ActAll(A.Shared(run, 0), [A.BeginIncrement, A.FinishIncrement])
         == A.Act(A.Act(A.Shared(run, 0), A.BeginIncrement), A.FinishIncrement)
  {
    assert [A.BeginIncrement, A.FinishIncrement][1..] == [A.FinishIncrement];
    assert [A.FinishIncrement][1..] == [];
    var s := A.Act(A.Shared(run, 0), A.BeginIncrement);
    assert A.ActAll(s, [A.FinishIncrement]) == A.ActAll(A.Act(s, A.FinishIncrement), []);
  }
}
