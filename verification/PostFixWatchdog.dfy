/** The five-minute watchdog after a remediation: which poll decides, how often it polls,
    and by how much it can overrun its time. */
module PostFixWatchdog {
  import opened Options

  datatype Verdict = HealedPod | StillSickPod | DeletedPod | NamespaceDeleted

  /** A pod as one poll sees it. */
  datatype Pod = Pod(
    phase: Option<string>,
    onNode: bool,
    ready: bool,
    recentWarning: bool,
    restartCounts: seq<nat>,
    waitingReasons: seq<string>,
    stuckFinalizer: bool)

  /** The answer to one API read: the pod, a 404, or another API error. */
  datatype Reading = Found(pod: Pod) | NotFound | ApiError

  /** One round: the clock at the loop test, the clock read for the elapsed time, the answer. */
  datatype Poll = Poll(testedAt: real, readAt: real, reading: Reading)

  const SICK_REASONS: set<string> := {"CrashLoopBackOff", "OOMKilled", "Error", "ImagePullBackOff", "ErrImagePull"}

  function Interval(elapsed: real): (r: real) {
    if elapsed < 60.0 then 5.0 else if elapsed < 180.0 then 15.0 else 30.0
  }

  function Sum(counts: seq<nat>): (n: nat) {
    if counts == [] then 0 else counts[0] + Sum(counts[1..])
  }

  lemma {:induction false} SumSnoc(counts: seq<nat>, c: nat)
    ensures Sum(counts + [c]) == Sum(counts) + c
  {
    if counts == [] {
      assert counts + [c] == [c] && [c][1..] == [];
    } else {
      assert (counts + [c])[1..] == counts[1..] + [c];
      SumSnoc(counts[1..], c);
    }
  }

  /** `_sum_restart_counts` */
  method SumRestartCounts(pod: Pod) returns (total: nat)
    ensures total == Sum(pod.restartCounts)
  {
    total := 0;
    for i := 0 to |pod.restartCounts|
      invariant total == Sum(pod.restartCounts[..i])
    {
      SumSnoc(pod.restartCounts[..i], pod.restartCounts[i]);
      assert pod.restartCounts[..i + 1] == pod.restartCounts[..i] + [pod.restartCounts[i]];
      total := total + pod.restartCounts[i];
    }
    assert pod.restartCounts[..|pod.restartCounts|] == pod.restartCounts;
  }

  /** `pod.status.phase or "Unknown"`. The two health tests read the raw phase instead. */
  function ShownPhase(pod: Pod): (r: string) {
    if pod.phase.Some? && pod.phase.value != "" then pod.phase.value else "Unknown"
  }

  predicate IsHealed(pod: Pod, delta: int) {
    pod.phase == Some("Running") && pod.ready && !pod.recentWarning && delta == 0
  }

  predicate IsStillSick(pod: Pod, delta: int) {
    || pod.phase in {Some("Failed"), Some("Unknown")}
    || (exists i :: 0 <= i < |pod.waitingReasons| && pod.waitingReasons[i] in SICK_REASONS)
    || delta > 0
    || pod.stuckFinalizer
  }

  /** What one answer decides; None when it decides nothing. */
  function Decide(reading: Reading, baseline: nat): (r: Option<Verdict>) {
    match reading
    case NotFound => Some(DeletedPod)
    case ApiError => None
    case Found(pod) =>
      var delta := Sum(pod.restartCounts) - baseline;
      if ShownPhase(pod) == "Unknown" && !pod.onNode then Some(NamespaceDeleted)
      else if IsHealed(pod, delta) then Some(HealedPod)
      else if IsStillSick(pod, delta) then Some(StillSickPod)
      else None
  }

  /** The verdicts, told from the answer: a missing phase, or "Unknown", away from any node is a
      deleted namespace; healed is a running, ready pod without recent warnings or new restarts;
      sick is any other pod that failed, lost its node, waits for one of five reasons, restarted
      again or hangs on a finalizer. */
  lemma VerdictExactly(pod: Pod, baseline: nat)
    ensures var v, restarts := Decide(Found(pod), baseline), Sum(pod.restartCounts);
      var gone := !pod.onNode && pod.phase in [None, Some(""), Some("Unknown")];
      var well := pod.phase == Some("Running") && pod.ready && !pod.recentWarning && restarts == baseline;
      var ill :=
        || pod.phase == Some("Failed") || pod.phase == Some("Unknown") || restarts > baseline || pod.stuckFinalizer
        || exists r :: r in pod.waitingReasons
             && r in ["CrashLoopBackOff", "OOMKilled", "Error", "ImagePullBackOff", "ErrImagePull"];
      && (v == Some(NamespaceDeleted) <==> gone)
      && (v == Some(HealedPod) <==> well)
      && (v == Some(StillSickPod) <==> ill && !gone && !well)
      && v != Some(DeletedPod)
    ensures Decide(NotFound, baseline) == Some(DeletedPod)
  {
    assert forall r :: r in SICK_REASONS <==>
      r in ["CrashLoopBackOff", "OOMKilled", "Error", "ImagePullBackOff", "ErrImagePull"];
  }

  /** The loop ends at a poll with this answer, with or without an exception. */
  predicate Ends(reading: Reading, baseline: nat) {
    reading.ApiError? || Decide(reading, baseline).Some?
  }

  /** Clock readings move forward, and each sleep lasts at least its interval. */
  ghost predicate Paced(polls: seq<Poll>, start: real) {
    && (forall i :: 0 <= i < |polls| ==> start <= polls[i].testedAt <= polls[i].readAt)
    && (forall i, j :: 0 <= i < |polls| && j == i + 1 && j < |polls| ==>
          polls[j].testedAt >= polls[i].readAt + Interval(polls[i].readAt - start))
  }

  /** Sleeps last exactly their interval and calls take no time. */
  ghost predicate Exact(polls: seq<Poll>, start: real) {
    && (polls != [] ==> polls[0].testedAt == start)
    && (forall i :: 0 <= i < |polls| ==> polls[i].readAt == polls[i].testedAt)
    && (forall i, j :: 0 <= i < |polls| && j == i + 1 && j < |polls| ==>
          polls[j].testedAt == polls[i].testedAt + Interval(polls[i].testedAt - start))
  }

  /** The restart delta the last pod seen in the first n polls showed. */
  function DeltaAfter(polls: seq<Poll>, n: nat, baseline: int): (r: int)
    requires n <= |polls|
  {
    if n == 0 then 0
    else if polls[n - 1].reading.Found? then Sum(polls[n - 1].reading.pod.restartCounts) - baseline
    else DeltaAfter(polls, n - 1, baseline)
  }

  datatype WatchEnd = Returned(verdict: Verdict, delta: int) | Raised

  /** The poll loop of `run_watchdog`; used is the number of polls made. The last element of
      polls only supplies the clock reading that ends the loop. */
  method PollLoop(baseline: nat, deadline: real, polls: seq<Poll>) returns (r: WatchEnd, used: nat)
    requires polls != [] && polls[|polls| - 1].testedAt >= deadline
    ensures used < |polls| && forall i :: 0 <= i < used ==> polls[i].testedAt < deadline
    ensures r.Returned? ==> r.delta == DeltaAfter(polls, used, baseline)
    ensures forall i :: 0 <= i < used - 1 ==> !Ends(polls[i].reading, baseline)
    ensures used > 0 && Ends(polls[used - 1].reading, baseline) ==>
      if polls[used - 1].reading.ApiError? then r == Raised
      else r.Returned? && Some(r.verdict) == Decide(polls[used - 1].reading, baseline)
    ensures used == 0 || !Ends(polls[used - 1].reading, baseline) ==>
      r.Returned? && r.verdict == StillSickPod && polls[used].testedAt >= deadline
  {
    used := 0;
    var delta: int := 0;
    while polls[used].testedAt < deadline
      invariant used < |polls| && delta == DeltaAfter(polls, used, baseline)
      invariant forall i :: 0 <= i < used ==> polls[i].testedAt < deadline && !Ends(polls[i].reading, baseline)
      decreases |polls| - used
    {
      var reading := polls[used].reading;
      used := used + 1;
      if reading.NotFound? {
        return Returned(DeletedPod, delta), used;
      }
      if reading.ApiError? {
        return Raised, used;
      }
      var current: int := SumRestartCounts(reading.pod);
      delta := current - baseline;
      if ShownPhase(reading.pod) == "Unknown" && !reading.pod.onNode {
        return Returned(NamespaceDeleted, delta), used;
      }
      if IsHealed(reading.pod, delta) {
        return Returned(HealedPod, delta), used;
      }
      if IsStillSick(reading.pod, delta) {
        return Returned(StillSickPod, delta), used;
      }
    }
    r := Returned(StillSickPod, delta);
  }

  /** `run_watchdog`. The `finally` block awaits the event task and lets pass only its
      cancellation: a stream that has failed by then raises in place of any verdict. */
  method RunWatchdog(first: Reading, start: real, timeout: real, polls: seq<Poll>, streamFailed: bool)
    returns (r: WatchEnd, used: nat)
    requires polls != [] && polls[|polls| - 1].testedAt >= start + timeout
    ensures used < |polls| && forall i :: 0 <= i < used ==> polls[i].testedAt < start + timeout
    ensures !first.Found? ==> used == 0 && r == if first.NotFound? then Returned(DeletedPod, 0) else Raised
    ensures first.Found? ==>
      var baseline := Sum(first.pod.restartCounts);
      && (r.Returned? ==> r.delta == DeltaAfter(polls, used, baseline))
      && (forall i :: 0 <= i < used - 1 ==> !Ends(polls[i].reading, baseline))
      && (r == Raised <==> streamFailed || (used > 0 && polls[used - 1].reading.ApiError?))
      && (used > 0 && Ends(polls[used - 1].reading, baseline) && r.Returned? ==>
            Some(r.verdict) == Decide(polls[used - 1].reading, baseline))
      && (used == 0 || !Ends(polls[used - 1].reading, baseline) ==>
            polls[used].testedAt >= start + timeout && (r.Returned? ==> r.verdict == StillSickPod))
  {
    used := 0;
    if first.NotFound? {
      return Returned(DeletedPod, 0), 0;
    }
    if first.ApiError? {
      return Raised, 0;
    }
    var baseline := SumRestartCounts(first.pod);
    r, used := PollLoop(baseline, start + timeout, polls);
    if streamFailed {
      r := Raised;
    }
  }

  // ---------------------------------------------------------------- timing

  /** The earliest elapsed time at which the (n+1)-th poll can start. */
  function Schedule(n: nat): (r: real) {
    if n == 0 then 0.0 else Schedule(n - 1) + Interval(Schedule(n - 1))
  }

  lemma IntervalsPushOn(a: real, b: real)
    requires a <= b
    ensures a + Interval(a) <= b + Interval(b)
  {
  }

  /** No poll starts before its place in the schedule. */
  lemma {:induction false} PollsFollowSchedule(polls: seq<Poll>, start: real, i: nat)
    requires Paced(polls, start) && i < |polls|
    ensures polls[i].testedAt - start >= Schedule(i)
    decreases i
  {
    if i > 0 {
      var k := i - 1;
      PollsFollowSchedule(polls, start, k);
      assert polls[i].testedAt >= polls[k].readAt + Interval(polls[k].readAt - start);
      IntervalsPushOn(Schedule(k), polls[k].readAt - start);
    }
  }

  /** Twelve polls in the first minute, eight in the next two, then one every 30 s. */
  lemma {:induction false} ScheduleInClosedForm(n: nat)
    ensures Schedule(n) ==
      if n <= 12 then 5.0 * n as real
      else if n <= 20 then 60.0 + 15.0 * (n - 12) as real
      else 180.0 + 30.0 * (n - 20) as real
  {
    if n > 0 {
      ScheduleInClosedForm(n - 1);
    }
  }

  /** If each sleep lasts at least its interval, a timeout of T > 180 s allows at most
      12 + 8 + ceil((T - 180) / 30) polls. */
  lemma PollCountBound(polls: seq<Poll>, start: real, timeout: real, used: nat, late: nat)
    requires Paced(polls, start) && used <= |polls| && timeout > 180.0
    requires forall i :: 0 <= i < used ==> polls[i].testedAt < start + timeout
    requires 30.0 * late as real >= timeout - 180.0
    ensures used <= 12 + 8 + late
  {
    if used > 20 + late {
      var i := 20 + late;
      assert polls[i].testedAt < start + timeout;
      PollsFollowSchedule(polls, start, i);
      ScheduleInClosedForm(i);
    }
  }

  /** With exact sleeps and instant calls the loop ends less than 30 s after the timeout. */
  lemma OverrunBelowOneInterval(polls: seq<Poll>, start: real, timeout: real, used: nat)
    requires Exact(polls, start) && used < |polls| && timeout > 0.0
    requires forall i :: 0 <= i < used ==> polls[i].testedAt < start + timeout
    ensures polls[used].testedAt < start + timeout + 30.0
  {
    if used > 0 {
      var k := used - 1;
      assert polls[used].testedAt == polls[k].testedAt + Interval(polls[k].testedAt - start);
    }
  }
}
