/** The audit-run row: its phase, its iteration count, and the window between the two
    locked sections of `increment_iteration`. */
module AuditRuns {
  import opened Options

  datatype Phase = Review | Synthesize | ClaimPhase | Implement | Verify | DonePhase | EscalatePhase

  datatype AuditRun = AuditRun(phase: Phase, iterationCount: nat, stoppedReason: Option<string>)

  const MAX_ITERATIONS: nat := 5
  const LIMIT_REASON: string := "iteration_count >= MAX_ITERATIONS"

  predicate ShouldEscalate(iterationCount: nat) {
    iterationCount >= MAX_ITERATIONS
  }

  /** First locked section: count the iteration and start over at review. */
  function Bump(run: AuditRun): (r: AuditRun) {
    run.(iterationCount := run.iterationCount + 1, phase := Review)
  }

  function Escalate(run: AuditRun, reason: string): (r: AuditRun) {
    run.(phase := EscalatePhase, stoppedReason := Some(reason))
  }

  /** The row together with the number of threads that left the first locked section at or
      over the limit and have not yet entered the second. */
  datatype Shared = Shared(run: AuditRun, pending: nat)

  datatype Action = BeginIncrement | FinishIncrement | EscalateCall(reason: string) | AdvancePhase(phase: Phase)

  function Act(s: Shared, a: Action): (r: Shared) {
    match a
    case BeginIncrement =>
      var run := Bump(s.run);
      Shared(run, if ShouldEscalate(run.iterationCount) then s.pending + 1 else s.pending)
    case FinishIncrement =>
      if s.pending == 0 then s else Shared(Escalate(s.run, LIMIT_REASON), s.pending - 1)
    case EscalateCall(reason) => s.(run := Escalate(s.run, reason))
    case AdvancePhase(phase) => s.(run := s.run.(phase := phase))
  }

  function ActAll(s: Shared, actions: seq<Action>): (r: Shared)
    decreases |actions|
  {
    if actions == [] then s else ActAll(Act(s, actions[0]), actions[1..])
  }

  /** Over the limit the run is escalated, or some thread is still about to escalate it. */
  predicate LimitRespected(s: Shared) {
    s.run.iterationCount >= 5 ==> s.run.phase == EscalatePhase || s.pending > 0
  }

  predicate LeavesEscalation(s: Shared, a: Action) {
    a.AdvancePhase? && a.phase != EscalatePhase && s.run.iterationCount >= 5 && s.pending == 0
  }

  /** The only call that breaks the limit is an `advance_phase` away from escalation once no
      increment is in flight: phases are not checked there. */
  lemma LimitKeptExactly(s: Shared, a: Action)
    requires LimitRespected(s)
    ensures LimitRespected(Act(s, a)) <==> !LeavesEscalation(s, a)
  {
    if a.FinishIncrement? && s.pending > 0 {
      assert Act(s, a).run.phase == EscalatePhase;
    }
  }

  predicate NeverLeaves(s: Shared, actions: seq<Action>)
    decreases |actions|
  {
    actions != [] ==> !LeavesEscalation(s, actions[0]) && NeverLeaves(Act(s, actions[0]), actions[1..])
  }

  /** In every interleaving of any number of threads, once the limit is reached and all
      increments have returned, the run is in the escalate phase. */
  lemma {:induction false} LimitHoldsInEveryInterleaving(s: Shared, actions: seq<Action>)
    requires LimitRespected(s) && NeverLeaves(s, actions)
    ensures LimitRespected(ActAll(s, actions))
    ensures ActAll(s, actions).run.iterationCount >= 5 && ActAll(s, actions).pending == 0
            ==> ActAll(s, actions).run.phase == EscalatePhase
    decreases |actions|
  {
    if actions != [] {
      LimitKeptExactly(s, actions[0]);
      LimitHoldsInEveryInterleaving(Act(s, actions[0]), actions[1..]);
    }
  }

  /** Between the two sections a reader can see a run at the limit that is back in review,
      and a second thread can push the count past the limit. */
  lemma WindowIsVisible(reason: Option<string>)
    ensures var s := ActAll(Shared(AuditRun(Verify, 4, reason), 0), [BeginIncrement, BeginIncrement]);
      s.run.phase == Review && s.run.iterationCount == 6 && s.run.stoppedReason == reason && s.pending == 2
  {
    var s := Shared(AuditRun(Verify, 4, reason), 0);
    assert [BeginIncrement, BeginIncrement][1..] == [BeginIncrement];
    assert [BeginIncrement][1..] == [];
    assert ActAll(s, [BeginIncrement, BeginIncrement]) == ActAll(Act(s, BeginIncrement), [BeginIncrement]);
    assert ActAll(Act(s, BeginIncrement), [BeginIncrement]) == ActAll(Act(Act(s, BeginIncrement), BeginIncrement), []);
  }
}
