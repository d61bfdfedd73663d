/** The ladder's classes: sessions and counters updated in place, each method proved
    against the call it stands for in module Ladder. */
module LadderObjects {
  import opened Options
  import opened Ladder
  import opened LadderVerdicts

  class LadderSession {
    const resource: ResourceRef
    var state: LadderState
    var restartTs: Option<real>
    var healDeadline: Option<real>
    var cycles: nat
    var dpoChosen: Option<string>

    function Snapshot(): (s: Session)
      reads this
    {
      Session(resource, state, restartTs, healDeadline, cycles, dpoChosen)
    }

    constructor (resource: ResourceRef)
      ensures Snapshot() == FreshSession(resource)
    {
      this.resource := resource;
      state, restartTs, healDeadline, cycles, dpoChosen := Idle, None, None, 0, None;
    }
  }

  class NamespaceCircuitBreaker {
    var counts: map<string, int>

    constructor ()
      ensures counts == map[]
    {
      counts := map[];
    }

    /** False stands for NamespaceCircuitOpenError. */
    method TryAcquire(ns: string) returns (ok: bool)
      modifies this
      ensures ok <==> Acquire(old(counts), ns).Some?
      ensures counts == if ok then Acquire(old(counts), ns).value else old(counts)
      ensures ok <==> (ns in old(counts) ==> old(counts)[ns] < 10)
      ensures ok ==> counts == old(counts)[ns := if ns in old(counts) then old(counts)[ns] + 1 else 1]
    {
      var current := if ns in counts then counts[ns] else 0;
      if current >= NAMESPACE_LADDER_CAP {
        return false;
      }
      counts := counts[ns := current + 1];
      ok := true;
    }

    method Free(ns: string)
      modifies this
      ensures counts == Release(old(counts), ns)
      ensures counts == old(counts)[ns := if ns in old(counts) && old(counts)[ns] > 1 then old(counts)[ns] - 1 else 0]
    {
      var current := if ns in counts then counts[ns] else 1;
      counts := counts[ns := if current - 1 > 0 then current - 1 else 0];
    }
  }

  /** A container status: the waiting reason if it waits, and its restart count. */
  datatype Container = Container(waiting: Option<string>, restartCount: nat)

  /** The reason of the last waiting container. */
  function PodReason(containers: seq<Container>): (r: string)
    decreases |containers|
  {
    if containers == [] then ""
    else
      var last := containers[|containers| - 1];
      if last.waiting.Some? then last.waiting.value else PodReason(containers[..|containers| - 1])
  }

  /** The count of the last container that ever restarted. */
  function PodRestarts(containers: seq<Container>): (n: nat)
    decreases |containers|
  {
    if containers == [] then 0
    else
      var last := containers[|containers| - 1];
      if last.restartCount != 0 then last.restartCount else PodRestarts(containers[..|containers| - 1])
  }

  ghost predicate LastWaiting(containers: seq<Container>, i: nat) {
    && i < |containers| && containers[i].waiting.Some?
    && forall j :: i < j < |containers| ==> containers[j].waiting.None?
  }

  ghost predicate LastRestarted(containers: seq<Container>, i: nat) {
    && i < |containers| && containers[i].restartCount != 0
    && forall j :: i < j < |containers| ==> containers[j].restartCount == 0
  }

  /** The reason that counts is that of the last waiting container, "" if none waits. */
  lemma {:induction false} ReasonIsLastWaiting(containers: seq<Container>, i: nat)
    ensures LastWaiting(containers, i) ==> PodReason(containers) == containers[i].waiting.value
    ensures (forall j :: 0 <= j < |containers| ==> containers[j].waiting.None?) ==> PodReason(containers) == ""
    decreases |containers|
  {
    if containers != [] {
      ReasonIsLastWaiting(containers[..|containers| - 1], i);
    }
  }

  /** The restart count that counts is the last one above zero, 0 if none is. */
  lemma {:induction false} RestartsAreLastNonZero(containers: seq<Container>, i: nat)
    ensures LastRestarted(containers, i) ==> PodRestarts(containers) == containers[i].restartCount
    ensures (forall j :: 0 <= j < |containers| ==> containers[j].restartCount == 0) ==> PodRestarts(containers) == 0
    decreases |containers|
  {
    if containers != [] {
      RestartsAreLastNonZero(containers[..|containers| - 1], i);
    }
  }

  datatype DetectResult = NotEligible | CircuitOpen | Started(session: LadderSession)

  /** The deadline is reached while the stream of polls still has clock readings. */
  predicate TimePasses(w: Watching) {
    w.polls != [] && w.polls[|w.polls| - 1].now >= Deadline(w)
  }

  datatype WatchEnd = FoundHealthy | TimedOut | Raised(error: Error)

  /** The loop of `_watchdog`; used is the number of polls made. It ends at the second poll
      of the first healthy pair, at the first poll that raises, or at the deadline, whichever
      comes first. */
  method Watchdog(w: Watching, restartTs: real) returns (end: WatchEnd, used: nat)
    requires TimePasses(w)
    ensures end == FoundHealthy <==> Heals(w.polls, Deadline(w), restartTs)
    ensures end == FoundHealthy ==>
      && 2 <= used && HealthyPair(w.polls, Deadline(w), restartTs, used - 2)
      && (forall i :: 0 <= i < used - 2 ==> !HealthyPair(w.polls, Deadline(w), restartTs, i))
    ensures end.Raised? ==>
      && BreaksOff(w.polls, Deadline(w)) && used == Seen(w.polls, Deadline(w)) + 1
      && PollError(w.polls[used - 1]) == Some(end.error)
    ensures end == TimedOut ==>
      && !BreaksOff(w.polls, Deadline(w)) && used == Seen(w.polls, Deadline(w)) < |w.polls|
      && w.polls[used].now >= Deadline(w)
  {
    used := 0;
    var deadline := Deadline(w);
    SeenMeaning(w.polls, deadline);
    var consecutiveHealthy := 0;
    while w.polls[used].now < deadline
      invariant used <= Seen(w.polls, deadline) < |w.polls|
      invariant consecutiveHealthy == if used > 0 && Healthy(w.polls[used - 1], restartTs) then 1 else 0
      invariant forall i :: 0 <= i < used - 1 ==> !HealthyPair(w.polls, deadline, restartTs, i)
      decreases |w.polls| - used
    {
      if !w.polls[used].answered {
        return Raised(ApiFailure), used + 1;
      }
      if exists i :: 0 <= i < |w.polls[used].events| && w.polls[used].events[i].warning
          && w.polls[used].events[i].lastTimestamp.Some? && w.polls[used].events[i].lastTimestamp.value.zoned {
        return Raised(IncomparableTimes), used + 1;
      }
      if Healthy(w.polls[used], restartTs) {
        consecutiveHealthy := consecutiveHealthy + 1;
      } else {
        consecutiveHealthy := 0;
      }
      used := used + 1;
      if consecutiveHealthy >= 2 {
        assert HealthyPair(w.polls, deadline, restartTs, used - 2);
        return FoundHealthy, used;
      }
    }
    end := TimedOut;
  }

  class RemediationLadder {
    const dryRun: bool
    const breaker: NamespaceCircuitBreaker
    var sent: seq<Effect>

    constructor (dryRun: bool, breaker: NamespaceCircuitBreaker)
      ensures this.dryRun == dryRun && this.breaker == breaker && sent == []
    {
      this.dryRun, this.breaker, sent := dryRun, breaker, [];
    }

    method Detect(resource: ResourceRef, containers: seq<Container>) returns (r: DetectResult)
      modifies breaker
      ensures breaker.counts ==
        AfterCall(old(breaker.counts), BreakerCall.Detect(resource.ns, PodReason(containers), PodRestarts(containers)))
      ensures r.NotEligible? <==> !IsRestartEligible(PodReason(containers), PodRestarts(containers))
      ensures r.Started? <==>
        Starts(old(breaker.counts), BreakerCall.Detect(resource.ns, PodReason(containers), PodRestarts(containers)))
      ensures r.Started? ==> fresh(r.session) && r.session.Snapshot() == FreshSession(resource)
    {
      var reason, restartCount := "", 0;
      for i := 0 to |containers|
        invariant reason == PodReason(containers[..i]) && restartCount == PodRestarts(containers[..i])
      {
        assert containers[..i + 1][..i] == containers[..i];
        if containers[i].waiting.Some? {
          reason := containers[i].waiting.value;
        }
        if containers[i].restartCount != 0 {
          restartCount := containers[i].restartCount;
        }
      }
      assert containers[..|containers|] == containers;
      if !IsRestartEligible(reason, restartCount) {
        return NotEligible;
      }
      var ok := breaker.TryAcquire(resource.ns);
      if !ok {
        return CircuitOpen;
      }
      var session := new LadderSession(resource);
      r := DetectResult.Started(session);
    }

    /** `ok` says whether the patch call succeeds, here and below. */
    method RestartTarget(session: LadderSession, now: real, ok: bool) returns (error: Option<Error>)
      modifies session, this`sent
      ensures old(sent) <= sent
      ensures Outcome(session.Snapshot(), sent[|old(sent)|..], error) == DoRestart(old(session.Snapshot()), dryRun, now, ok)
      ensures error ==
        if OffLimits(session.resource.ns) then Some(ProtectedNamespace)
        else if old(session.cycles) >= 2 then Some(CircuitBreaker)
        else if !dryRun && HasPatchCall(session.resource.kind) && !ok then Some(ApiFailure)
        else None
      ensures error.Some? ==> session.Snapshot() == old(session.Snapshot()) && sent == old(sent)
      ensures error.None? ==>
        && session.state == RestartIssued && session.cycles == old(session.cycles) + 1
        && session.restartTs == Some(now) && session.healDeadline == Some(now + 300.0)
        && session.dpoChosen == old(session.dpoChosen)
        && sent == old(sent) + if !dryRun && HasPatchCall(session.resource.kind) then [RestartPatch(session.resource)] else []
    {
      if session.resource.ns in TRADING_NAMESPACES {
        return Some(ProtectedNamespace);
      }
      if session.cycles >= MAX_CYCLES_PER_HOUR {
        return Some(CircuitBreaker);
      }
      if !dryRun && (session.resource.kind == "Deployment" || session.resource.kind == "StatefulSet"
                     || session.resource.kind == "DaemonSet") {
        if !ok {
          return Some(ApiFailure);
        }
        sent := sent + [RestartPatch(session.resource)];
      }
      session.state := RestartIssued;
      session.restartTs := Some(now);
      session.healDeadline := Some(now + WATCH_TIMEOUT_SECONDS);
      session.cycles := session.cycles + 1;
      error := None;
    }

    /** `watch`: sets the state by the verdict of the loop, or leaves it at WATCH_HEALING
        where the loop raises. */
    method WatchTarget(session: LadderSession, w: Watching) returns (error: Option<Error>)
      requires TimePasses(w)
      modifies session
      ensures Outcome(session.Snapshot(), [], error) == DoWatch(old(session.Snapshot()), w)
      ensures session.restartTs.Some? ==>
        && (session.state == Healed <==> Settles(w, session.restartTs.value))
        && (session.state == WatchHealing <==> error.Some?)
        && (error.Some? <==> !Settles(w, session.restartTs.value) && Disturbed(w))
        && session.state in {Healed, StillSick, WatchHealing}
      ensures session.restartTs.None? ==> session.state == WatchHealing && error == Some(NotRestarted)
      ensures session.Snapshot() == old(session.Snapshot()).(state := session.state)
    {
      session.state := WatchHealing;
      if session.restartTs.None? {
        return Some(NotRestarted);
      }
      HealsExactly(w, session.restartTs.value);
      BreaksOffExactly(w);
      var end, used := Watchdog(w, session.restartTs.value);
      if end.Raised? {
        return Some(end.error);
      }
      session.state := if end == FoundHealthy then Healed else StillSick;
      error := None;
    }

    /** `analyze`; the diagnosis it also returns is left out. */
    method AnalyzeTarget(session: LadderSession, ok: bool) returns (error: Option<Error>)
      modifies session
      ensures Outcome(session.Snapshot(), [], error) == DoAnalyze(old(session.Snapshot()), ok)
      ensures error == if ok then None else Some(ApiFailure)
      ensures session.Snapshot() == old(session.Snapshot()).(state := if ok then ProposeFix else old(session.state))
    {
      if !ok {
        return Some(ApiFailure);
      }
      session.state := ProposeFix;
      error := None;
    }

    method SandboxVerifyTarget(session: LadderSession) returns (error: Option<Error>)
      modifies session
      ensures Outcome(session.Snapshot(), [], error) == DoSandbox(old(session.Snapshot()), dryRun)
      ensures error == if OffLimits(session.resource.ns) then Some(ProtectedNamespace) else None
      ensures error.None? ==> session.state == if dryRun then Escalate else Apply
    {
      if session.resource.ns in TRADING_NAMESPACES {
        return Some(ProtectedNamespace);
      }
      session.state := if dryRun then Escalate else Apply;
      error := None;
    }

    method ApplyFix(session: LadderSession, ok: bool) returns (error: Option<Error>)
      modifies session, this`sent
      ensures old(sent) <= sent
      ensures Outcome(session.Snapshot(), sent[|old(sent)|..], error) == DoApply(old(session.Snapshot()), dryRun, ok)
      ensures error ==
        if OffLimits(session.resource.ns) then Some(ProtectedNamespace)
        else if !dryRun && HasPatchCall(session.resource.kind) && !ok then Some(ApiFailure)
        else None
      ensures error.Some? ==> session.Snapshot() == old(session.Snapshot()) && sent == old(sent)
      ensures error.None? ==>
        && session.Snapshot() == old(session.Snapshot()).(state := Apply)
        && sent == old(sent) + if !dryRun && HasPatchCall(session.resource.kind) then [FixPatch(session.resource)] else []
    {
      if session.resource.ns in TRADING_NAMESPACES {
        return Some(ProtectedNamespace);
      }
      if !dryRun && (session.resource.kind == "Deployment" || session.resource.kind == "StatefulSet"
                     || session.resource.kind == "DaemonSet") {
        if !ok {
          return Some(ApiFailure);
        }
        sent := sent + [FixPatch(session.resource)];
      }
      session.state := Apply;
      error := None;
    }

    method EscalateSession(session: LadderSession)
      modifies session, this`sent
      ensures old(sent) <= sent
      ensures Outcome(session.Snapshot(), sent[|old(sent)|..], None) == DoEscalate(old(session.Snapshot()), dryRun)
      ensures session.state == Escalate && session.dpoChosen == Some("human_escalation")
      ensures sent == old(sent) + if dryRun then [] else [Webhook(session.resource)]
    {
      session.dpoChosen := Some("human_escalation");
      if !dryRun {
        sent := sent + [Webhook(session.resource)];
      }
      session.state := Escalate;
    }

    method AdvanceSession(session: LadderSession, now: real, w: Watching, ok: bool) returns (error: Option<Error>)
      requires TimePasses(w)
      modifies session, this`sent
      ensures old(sent) <= sent
      ensures Outcome(session.Snapshot(), sent[|old(sent)|..], error)
           == Perform(old(session.Snapshot()), dryRun, Call.Advance(now, w, ok))
    {
      error := None;
      if session.state == Idle {
        error := RestartTarget(session, now, ok);
      } else if session.state == RestartIssued {
        error := WatchTarget(session, w);
      } else if session.state == StillSick {
        error := AnalyzeTarget(session, ok);
      } else if session.state == ProposeFix {
        error := SandboxVerifyTarget(session);
      }
    }
  }
}
