/** The restart-first ladder: what each public call does to a session and to the cluster. */
module Ladder {
  import opened Options

  const TRADING_NAMESPACES: set<string> := {"ibkr-live-trader", "daxxon-trading", "brightflow-live"}
  const RESTART_ELIGIBLE_REASONS: set<string> :=
    {"CrashLoopBackOff", "ReadinessProbeConnectionRefused", "LivenessProbeTimeout"}
  const NON_RESTART_REASONS: set<string> :=
    {"ImagePullBackOff", "ErrImagePull", "OOMKilled", "CreateContainerConfigError", "FailedMount", "FailedAttach"}
  const CRASH_LOOP_HIGH_RESTART_THRESHOLD: nat := 5
  const NAMESPACE_LADDER_CAP: nat := 10
  const WATCH_TIMEOUT_SECONDS: real := 300.0
  const MAX_CYCLES_PER_HOUR: nat := 2

  datatype LadderState =
    | Idle | RestartIssued | WatchHealing | Healed | StillSick
    | Analyze | ProposeFix | SandboxVerify | Apply | Escalate

  datatype ResourceRef = ResourceRef(ns: string, kind: string, name: string)

  datatype Session = Session(
    resource: ResourceRef,
    state: LadderState,
    restartTs: Option<real>,
    healDeadline: Option<real>,
    cycles: nat,
    dpoChosen: Option<string>)

  /** What reaches the outside world. */
  datatype Effect = RestartPatch(target: ResourceRef) | FixPatch(target: ResourceRef) | Webhook(target: ResourceRef)

  datatype Error = ProtectedNamespace | CircuitBreaker | NotRestarted | ApiFailure | IncomparableTimes

  predicate IsTrading(ns: string) {
    ns in TRADING_NAMESPACES
  }

  predicate IsRestartEligible(reason: string, restartCount: nat) {
    if reason in NON_RESTART_REASONS then false
    else if reason == "CrashLoopBackOff" && restartCount >= CRASH_LOOP_HIGH_RESTART_THRESHOLD then false
    else reason in RESTART_ELIGIBLE_REASONS
  }

  /** Only these kinds have a patch call; for any other the ladder patches nothing. */
  predicate Patchable(kind: string) {
    kind in {"Deployment", "StatefulSet", "DaemonSet"}
  }

  function FreshSession(resource: ResourceRef): (s: Session) {
    Session(resource, Idle, None, None, 0, None)
  }

  // ---------------------------------------------------------------- the watch loop

  /** A time with or without a time zone. The restart time has none, and Python refuses to
      compare the two kinds. */
  datatype Stamp = Stamp(zoned: bool, at: real)

  datatype PodEvent = PodEvent(warning: bool, lastTimestamp: Option<Stamp>)

  /** One round of the watch loop: the clock at the loop test, whether the API reads succeed
      and what they show. */
  datatype Poll = Poll(now: real, answered: bool, ready: seq<bool>, events: seq<PodEvent>)

  /** Ready containers only (or none at all), and no warning newer than the restart. */
  predicate Healthy(p: Poll, restartTs: real) {
    && (forall i :: 0 <= i < |p.ready| ==> p.ready[i])
    && (forall i :: 0 <= i < |p.events| ==>
          !(p.events[i].warning && p.events[i].lastTimestamp.Some? && p.events[i].lastTimestamp.value.at > restartTs))
  }

  /** No warning carries a time with a zone. */
  predicate Comparable(p: Poll) {
    forall i :: 0 <= i < |p.events| ==>
      !(p.events[i].warning && p.events[i].lastTimestamp.Some? && p.events[i].lastTimestamp.value.zoned)
  }

  /** What a poll raises, if anything. */
  function PollError(p: Poll): (r: Option<Error>) {
    if !p.answered then Some(ApiFailure) else if !Comparable(p) then Some(IncomparableTimes) else None
  }

  /** The number of polls before the first that raises or meets the deadline. */
  function Seen(polls: seq<Poll>, deadline: real): (n: nat)
    ensures n <= |polls|
  {
    if polls == [] || polls[0].now >= deadline || PollError(polls[0]).Some? then 0 else 1 + Seen(polls[1..], deadline)
  }

  /** Polls i and i + 1 are healthy and in time. */
  predicate HealthyPair(polls: seq<Poll>, deadline: real, restartTs: real, i: nat) {
    i + 1 < Seen(polls, deadline) && Healthy(polls[i], restartTs) && Healthy(polls[i + 1], restartTs)
  }

  /** A poll before the deadline raises. */
  predicate BreaksOff(polls: seq<Poll>, deadline: real) {
    var n := Seen(polls, deadline);
    n < |polls| && polls[n].now < deadline
  }

  lemma {:induction false} SeenMeaning(polls: seq<Poll>, deadline: real)
    ensures forall i :: 0 <= i < Seen(polls, deadline) ==> polls[i].now < deadline && PollError(polls[i]).None?
    ensures Seen(polls, deadline) < |polls| ==>
      var next := polls[Seen(polls, deadline)]; next.now >= deadline || PollError(next).Some?
  {
    if polls != [] && polls[0].now < deadline && PollError(polls[0]).None? {
      SeenMeaning(polls[1..], deadline);
      forall i | 0 <= i < Seen(polls, deadline)
        ensures polls[i].now < deadline && PollError(polls[i]).None?
      {
        assert i > 0 ==> polls[i] == polls[1..][i - 1];
      }
    }
  }

  predicate Heals(polls: seq<Poll>, deadline: real, restartTs: real) {
    exists i :: 0 <= i < |polls| && HealthyPair(polls, deadline, restartTs, i)
  }

  // ---------------------------------------------------------------- one call

  /** The watch loop's clock readings: the one that sets the deadline, then one a poll. */
  datatype Watching = Watching(start: real, polls: seq<Poll>)

  function Deadline(w: Watching): (r: real) {
    w.start + WATCH_TIMEOUT_SECONDS
  }

  /** Calls with what the clock and the API contribute: `ok` says that the API call made
      directly, a patch or a pod read, succeeds. */
  datatype Call =
    | Restart(now: real, ok: bool)
    | Watch(w: Watching)
    | AnalyzeCall(ok: bool)
    | SandboxCall
    | ApplyCall(ok: bool)
    | EscalateCall
    | Advance(now: real, w: Watching, ok: bool)

  /** The session afterwards, what was sent out, and the exception if one was raised. */
  datatype Outcome = Outcome(session: Session, effects: seq<Effect>, error: Option<Error>)

  predicate Patches(s: Session, dryRun: bool) {
    !dryRun && Patchable(s.resource.kind)
  }

  function DoRestart(s: Session, dryRun: bool, now: real, ok: bool): (r: Outcome) {
    if IsTrading(s.resource.ns) then Outcome(s, [], Some(ProtectedNamespace))
    else if s.cycles >= MAX_CYCLES_PER_HOUR then Outcome(s, [], Some(CircuitBreaker))
    else if Patches(s, dryRun) && !ok then Outcome(s, [], Some(ApiFailure))
    else
      Outcome(s.(state := RestartIssued, restartTs := Some(now), healDeadline := Some(now + WATCH_TIMEOUT_SECONDS),
                 cycles := s.cycles + 1),
              if Patches(s, dryRun) then [RestartPatch(s.resource)] else [],
              None)
  }

  function DoWatch(s: Session, w: Watching): (r: Outcome) {
    if s.restartTs.None? then Outcome(s.(state := WatchHealing), [], Some(NotRestarted))
    else if Heals(w.polls, Deadline(w), s.restartTs.value) then Outcome(s.(state := Healed), [], None)
    else if BreaksOff(w.polls, Deadline(w))
    then Outcome(s.(state := WatchHealing), [], PollError(w.polls[Seen(w.polls, Deadline(w))]))
    else Outcome(s.(state := StillSick), [], None)
  }

  function DoAnalyze(s: Session, ok: bool): (r: Outcome) {
    if ok then Outcome(s.(state := ProposeFix), [], None) else Outcome(s, [], Some(ApiFailure))
  }

  function DoSandbox(s: Session, dryRun: bool): (r: Outcome) {
    if IsTrading(s.resource.ns) then Outcome(s, [], Some(ProtectedNamespace))
    else Outcome(s.(state := if dryRun then Escalate else Apply), [], None)
  }

  function DoApply(s: Session, dryRun: bool, ok: bool): (r: Outcome) {
    if IsTrading(s.resource.ns) then Outcome(s, [], Some(ProtectedNamespace))
    else if Patches(s, dryRun) && !ok then Outcome(s, [], Some(ApiFailure))
    else Outcome(s.(state := Apply), if Patches(s, dryRun) then [FixPatch(s.resource)] else [], None)
  }

  function DoEscalate(s: Session, dryRun: bool): (r: Outcome) {
    Outcome(s.(state := Escalate, dpoChosen := Some("human_escalation")),
            if dryRun then [] else [Webhook(s.resource)], None)
  }

  function Perform(s: Session, dryRun: bool, c: Call): (r: Outcome) {
    match c
    case Restart(now, ok) => DoRestart(s, dryRun, now, ok)
    case Watch(w) => DoWatch(s, w)
    case AnalyzeCall(ok) => DoAnalyze(s, ok)
    case SandboxCall => DoSandbox(s, dryRun)
    case ApplyCall(ok) => DoApply(s, dryRun, ok)
    case EscalateCall => DoEscalate(s, dryRun)
    case Advance(now, w, ok) =>
      match s.state
      case Idle => DoRestart(s, dryRun, now, ok)
      case RestartIssued => DoWatch(s, w)
      case StillSick => DoAnalyze(s, ok)
      case ProposeFix => DoSandbox(s, dryRun)
      case _ => Outcome(s, [], None)
  }

  /** A caller that catches exceptions and goes on calling. */
  function PerformAll(s: Session, dryRun: bool, calls: seq<Call>): (r: (Session, seq<Effect>))
    decreases |calls|
  {
    if calls == [] then (s, [])
    else
      var o := Perform(s, dryRun, calls[0]);
      var rest := PerformAll(o.session, dryRun, calls[1..]);
      (rest.0, o.effects + rest.1)
  }

  // ---------------------------------------------------------------- any mix of calls

  predicate IsPatch(e: Effect) {
    e.RestartPatch? || e.FixPatch?
  }

  function RestartPatches(effects: seq<Effect>): (n: nat) {
    if effects == [] then 0 else (if effects[0].RestartPatch? then 1 else 0) + RestartPatches(effects[1..])
  }

  lemma {:induction false} RestartPatchesConcat(a: seq<Effect>, b: seq<Effect>)
    ensures RestartPatches(a + b) == RestartPatches(a) + RestartPatches(b)
  {
    if a == [] {
      assert a + b == b;
    } else {
      assert (a + b)[1..] == a[1..] + b;
      RestartPatchesConcat(a[1..], b);
    }
  }

  predicate OffLimits(ns: string) {
    ns == "ibkr-live-trader" || ns == "daxxon-trading" || ns == "brightflow-live"
  }

  predicate HasPatchCall(kind: string) {
    kind == "Deployment" || kind == "StatefulSet" || kind == "DaemonSet"
  }

  /** Neither a dry run nor a trading namespace nor another kind of resource is ever patched. */
  predicate Untouchable(r: ResourceRef, dryRun: bool) {
    dryRun || OffLimits(r.ns) || !HasPatchCall(r.kind)
  }

  ghost predicate NoPatches(effects: seq<Effect>) {
    forall i :: 0 <= i < |effects| ==> !IsPatch(effects[i])
  }

  lemma NoPatchesConcat(a: seq<Effect>, b: seq<Effect>)
    requires NoPatches(a) && NoPatches(b)
    ensures NoPatches(a + b)
  {
  }

  /** What one call may do. */
  ghost predicate WithinLimits(before: Session, after: Session, effects: seq<Effect>, dryRun: bool) {
    && after.resource == before.resource
    && before.cycles <= after.cycles <= 2
    && RestartPatches(effects) <= after.cycles - before.cycles
    && (Untouchable(before.resource, dryRun) ==> NoPatches(effects))
  }

  lemma OneCallPatches(s: Session, dryRun: bool, c: Call)
    requires s.cycles <= 2
    ensures |Perform(s, dryRun, c).effects| <= 1
    ensures WithinLimits(s, Perform(s, dryRun, c).session, Perform(s, dryRun, c).effects, dryRun)
  {
    var o := Perform(s, dryRun, c);
    if o.effects != [] {
      assert o.effects == [o.effects[0]] && o.effects[1..] == [];
    }
  }

  lemma LimitsChain(a: Session, b: Session, c: Session, e1: seq<Effect>, e2: seq<Effect>, dryRun: bool)
    requires WithinLimits(a, b, e1, dryRun) && WithinLimits(b, c, e2, dryRun)
    ensures WithinLimits(a, c, e1 + e2, dryRun)
  {
    RestartPatchesConcat(e1, e2);
    if Untouchable(a.resource, dryRun) {
      NoPatchesConcat(e1, e2);
    }
  }

  /** Whatever is called in whatever order on one session: its cycle count stays within the
      cap, restart patches never exceed the cycles they count, and neither a trading namespace
      nor a dry run ever sees a patch. */
  lemma {:induction false} AnyMixOfCalls(s: Session, dryRun: bool, calls: seq<Call>)
    requires s.cycles <= 2
    ensures WithinLimits(s, PerformAll(s, dryRun, calls).0, PerformAll(s, dryRun, calls).1, dryRun)
    decreases |calls|
  {
    if calls != [] {
      var o := Perform(s, dryRun, calls[0]);
      var rest := PerformAll(o.session, dryRun, calls[1..]);
      OneCallPatches(s, dryRun, calls[0]);
      AnyMixOfCalls(o.session, dryRun, calls[1..]);
      LimitsChain(s, o.session, rest.0, o.effects, rest.1, dryRun);
    }
  }

  // ---------------------------------------------------------------- driving with advance

  predicate Terminal(state: LadderState) {
    state in {Healed, Apply, Escalate}
  }

  predicate AllAdvance(calls: seq<Call>) {
    forall i :: 0 <= i < |calls| ==> calls[i].Advance?
  }

  /** How many further advance calls a driver needs, at the most. */
  function StepsLeft(state: LadderState): (n: nat) {
    match state
    case Idle => 4
    case RestartIssued => 3
    case StillSick => 2
    case ProposeFix => 1
    case _ => 0
  }

  /** Where a session that is only ever advanced can be, apart from a broken-off watch. */
  predicate Driven(state: LadderState) {
    state in {Idle, RestartIssued, StillSick, ProposeFix} || Terminal(state)
  }

  /** A session on its way: not refused by its namespace or its cycle cap. */
  predicate OnItsWay(s: Session) {
    && Driven(s.state) && !IsTrading(s.resource.ns)
    && (s.state == RestartIssued ==> s.restartTs.Some?)
    && (s.state == Idle ==> s.cycles < MAX_CYCLES_PER_HOUR)
  }

  /** Something fails in the advance call: an API call, or a poll of the watch loop. */
  predicate Fails(s: Session, dryRun: bool, c: Call)
    requires c.Advance?
  {
    match s.state
    case Idle => Patches(s, dryRun) && !c.ok
    case RestartIssued =>
      s.restartTs.Some? && BreaksOff(c.w.polls, Deadline(c.w)) && !Heals(c.w.polls, Deadline(c.w), s.restartTs.value)
    case StillSick => !c.ok
    case _ => false
  }

  /** One advance gets a session strictly closer to its end exactly if nothing fails in it. A
      failure leaves the session as it was, so that the call can be made again, unless it
      breaks off a watch. */
  lemma AdvanceProgress(s: Session, dryRun: bool, c: Call)
    requires c.Advance? && OnItsWay(s) && !Terminal(s.state)
    ensures Closer(s, Perform(s, dryRun, c)) <==> !Fails(s, dryRun, c)
    ensures Fails(s, dryRun, c) ==>
      && Perform(s, dryRun, c).session == (if s.state == RestartIssued then s.(state := WatchHealing) else s)
      && Perform(s, dryRun, c).effects == [] && Perform(s, dryRun, c).error.Some?
    ensures !Fails(s, dryRun, c) ==>
      Perform(s, dryRun, c).effects == if s.state == Idle && Patches(s, dryRun) then [RestartPatch(s.resource)] else []
  {
    if s.state == RestartIssued {
      SeenMeaning(c.w.polls, Deadline(c.w));
    }
  }

  /** The call went through and left the session on its way with fewer steps to go. */
  predicate Closer(s: Session, o: Outcome) {
    && o.error == None && OnItsWay(o.session) && o.session.state != Idle
    && StepsLeft(o.session.state) < StepsLeft(s.state) && o.session.resource == s.resource
  }

  /** Nothing fails in the calls of the list. */
  predicate Smooth(calls: seq<Call>) {
    forall i :: 0 <= i < |calls| ==> calls[i].Advance? && calls[i].ok && !BreaksOff(calls[i].w.polls, Deadline(calls[i].w))
  }

  lemma {:induction false} DriveOn(s: Session, dryRun: bool, calls: seq<Call>)
    requires OnItsWay(s) && Smooth(calls)
    ensures |calls| >= StepsLeft(s.state) ==> Terminal(PerformAll(s, dryRun, calls).0.state)
    ensures PerformAll(s, dryRun, calls).1 ==
      if calls != [] && s.state == Idle && Patches(s, dryRun) then [RestartPatch(s.resource)] else []
    decreases |calls|
  {
    if calls != [] {
      assert calls[0].Advance? && calls[0].ok;
      if !Terminal(s.state) {
        AdvanceProgress(s, dryRun, calls[0]);
      }
      var rest := calls[1..];
      assert forall i :: 0 <= i < |rest| ==> rest[i] == calls[i + 1];
      DriveOn(Perform(s, dryRun, calls[0]).session, dryRun, rest);
    }
  }

  /** From a fresh session the first advance raises for trading namespaces; otherwise, if
      nothing fails, four calls reach HEALED, APPLY or ESCALATE, with exactly one patch outside
      dry runs on kinds that can be patched, none elsewhere, and none ever after. */
  lemma FreshSessionRuns(resource: ResourceRef, dryRun: bool, calls: seq<Call>)
    requires Smooth(calls) && calls != []
    ensures Perform(FreshSession(resource), dryRun, calls[0]).error.Some? <==> OffLimits(resource.ns)
    ensures !OffLimits(resource.ns) ==>
      && (|calls| >= 4 ==> Terminal(PerformAll(FreshSession(resource), dryRun, calls).0.state))
      && PerformAll(FreshSession(resource), dryRun, calls).1 ==
         if !dryRun && HasPatchCall(resource.kind) then [RestartPatch(resource)] else []
  {
    assert calls[0].Advance? && calls[0].ok;
    if !OffLimits(resource.ns) {
      DriveOn(FreshSession(resource), dryRun, calls);
    }
  }

  /** Whatever fails on the way, a caller that only advances sends at most one patch. */
  lemma {:induction false} OnePatchByAdvancing(s: Session, dryRun: bool, calls: seq<Call>)
    requires AllAdvance(calls)
    ensures var effects := PerformAll(s, dryRun, calls).1;
      effects == [] || (s.state == Idle && effects == [RestartPatch(s.resource)])
    decreases |calls|
  {
    if calls != [] {
      var o := Perform(s, dryRun, calls[0]);
      assert calls[0].Advance?;
      assert forall i :: 0 <= i < |calls[1..]| ==> calls[1..][i] == calls[i + 1];
      OnePatchByAdvancing(o.session, dryRun, calls[1..]);
    }
  }

  /** A watch that a failure breaks off leaves the session where no advance moves it. */
  lemma {:induction false} BrokenWatchIsStuck(s: Session, dryRun: bool, calls: seq<Call>)
    requires AllAdvance(calls) && s.state == WatchHealing
    ensures PerformAll(s, dryRun, calls).0 == s && PerformAll(s, dryRun, calls).1 == []
    decreases |calls|
  {
    if calls != [] {
      assert calls[0].Advance?;
      assert forall i :: 0 <= i < |calls[1..]| ==> calls[1..][i] == calls[i + 1];
      assert Perform(s, dryRun, calls[0]) == Outcome(s, [], None);
      BrokenWatchIsStuck(s, dryRun, calls[1..]);
    }
  }

  /** A pod that shows a warning with a zoned time at the first poll strands its session. */
  lemma ZonedWarningStrands(s: Session, w: Watching)
    requires s.restartTs.Some? && w.polls != [] && w.polls[0].now < Deadline(w) && w.polls[0].answered
    requires !Comparable(w.polls[0])
    ensures DoWatch(s, w) == Outcome(s.(state := WatchHealing), [], Some(IncomparableTimes))
  {
    assert Seen(w.polls, Deadline(w)) == 0;
  }

  /** Once the first poll of its watch shows such a warning, a restarted session never heals
      and never gets to a fix, however often it is advanced. */
  lemma ZonedWarningNeverEnds(s: Session, dryRun: bool, calls: seq<Call>)
    requires AllAdvance(calls) && calls != [] && s.state == RestartIssued && s.restartTs.Some?
    requires var w := calls[0].w;
      w.polls != [] && w.polls[0].now < Deadline(w) && w.polls[0].answered && !Comparable(w.polls[0])
    ensures PerformAll(s, dryRun, calls).0 == s.(state := WatchHealing) && PerformAll(s, dryRun, calls).1 == []
  {
    assert calls[0].Advance?;
    ZonedWarningStrands(s, calls[0].w);
    assert forall i :: 0 <= i < |calls[1..]| ==> calls[1..][i] == calls[i + 1];
    BrokenWatchIsStuck(s.(state := WatchHealing), dryRun, calls[1..]);
  }

  // ---------------------------------------------------------------- the namespace breaker

  function ActiveSessions(counts: map<string, int>, ns: string): (n: int) {
    if ns in counts then counts[ns] else 0
  }

  function Acquire(counts: map<string, int>, ns: string): (r: Option<map<string, int>>) {
    if ActiveSessions(counts, ns) >= NAMESPACE_LADDER_CAP then None
    else Some(counts[ns := ActiveSessions(counts, ns) + 1])
  }

  function Release(counts: map<string, int>, ns: string): (r: map<string, int>) {
    var current := if ns in counts then counts[ns] else 1;
    counts[ns := if current - 1 > 0 then current - 1 else 0]
  }

  /** A detect call with what the pod showed, or a release. */
  datatype BreakerCall = Detect(ns: string, reason: string, restartCount: nat) | ReleaseCall(ns: string)

  predicate Starts(counts: map<string, int>, c: BreakerCall) {
    c.Detect? && IsRestartEligible(c.reason, c.restartCount) && Acquire(counts, c.ns).Some?
  }

  function AfterCall(counts: map<string, int>, c: BreakerCall): (r: map<string, int>) {
    if c.ReleaseCall? then Release(counts, c.ns)
    else if Starts(counts, c) then Acquire(counts, c.ns).value
    else counts
  }

  function AfterCalls(counts: map<string, int>, calls: seq<BreakerCall>): (r: map<string, int>)
    decreases |calls|
  {
    if calls == [] then counts else AfterCalls(AfterCall(counts, calls[0]), calls[1..])
  }

  function Started(counts: map<string, int>, calls: seq<BreakerCall>, ns: string): (n: nat)
    decreases |calls|
  {
    if calls == [] then 0
    else (if Starts(counts, calls[0]) && calls[0].ns == ns then 1 else 0) + Started(AfterCall(counts, calls[0]), calls[1..], ns)
  }

  function Releases(calls: seq<BreakerCall>, ns: string): (n: nat) {
    if calls == [] then 0 else (if calls[0] == ReleaseCall(ns) then 1 else 0) + Releases(calls[1..], ns)
  }

  /** The counter of a namespace stays within its cap; sessions started never exceed the
      cap by more than the releases, so without releases at most the cap ever start; an
      ineligible detect changes nothing. */
  lemma {:induction false} BreakerHolds(counts: map<string, int>, calls: seq<BreakerCall>, ns: string)
    requires 0 <= ActiveSessions(counts, ns) <= 10
    ensures 0 <= ActiveSessions(AfterCalls(counts, calls), ns) <= 10
    ensures ActiveSessions(counts, ns) + Started(counts, calls, ns) - Releases(calls, ns)
         <= ActiveSessions(AfterCalls(counts, calls), ns)
    ensures Releases(calls, ns) == 0 ==>
      ActiveSessions(AfterCalls(counts, calls), ns) == ActiveSessions(counts, ns) + Started(counts, calls, ns)
    decreases |calls|
  {
    if calls != [] {
      BreakerHolds(AfterCall(counts, calls[0]), calls[1..], ns);
    }
  }

  lemma AtMostCapWithoutReleases(calls: seq<BreakerCall>, ns: string)
    requires Releases(calls, ns) == 0
    ensures Started(map[], calls, ns) <= 10
  {
    BreakerHolds(map[], calls, ns);
  }

  /** A detect leaves the counters alone exactly if it is refused. */
  lemma RefusedDetectChangesNothing(counts: map<string, int>, ns: string, reason: string, restartCount: nat)
    ensures AfterCall(counts, Detect(ns, reason, restartCount)) == counts
        <==> !Starts(counts, Detect(ns, reason, restartCount))
  {
    if AfterCall(counts, Detect(ns, reason, restartCount)) == counts {
      assert ActiveSessions(AfterCall(counts, Detect(ns, reason, restartCount)), ns) == ActiveSessions(counts, ns);
    }
  }

  /** The calls without the detects of resources that may not be restarted. */
  function Eligible(calls: seq<BreakerCall>): (r: seq<BreakerCall>) {
    if calls == [] then []
    else
      (if calls[0].Detect? && !IsRestartEligible(calls[0].reason, calls[0].restartCount) then [] else [calls[0]])
      + Eligible(calls[1..])
  }

  /** Ineligible detects never matter: without them any calls lead to the same counters and
      start the same number of sessions. */
  lemma {:induction false} IneligibleDetectsNeverMatter(counts: map<string, int>, calls: seq<BreakerCall>, ns: string)
    ensures AfterCalls(counts, Eligible(calls)) == AfterCalls(counts, calls)
    ensures Started(counts, Eligible(calls), ns) == Started(counts, calls, ns)
    decreases |calls|
  {
    if calls != [] {
      var c := calls[0];
      IneligibleDetectsNeverMatter(AfterCall(counts, c), calls[1..], ns);
      if c.Detect? && !IsRestartEligible(c.reason, c.restartCount) {
        RefusedDetectChangesNothing(counts, c.ns, c.reason, c.restartCount);
        assert [] + Eligible(calls[1..]) == Eligible(calls[1..]);
      } else {
        assert ([c] + Eligible(calls[1..]))[1..] == Eligible(calls[1..]);
      }
    }
  }
}
