/** Many sessions of one ladder: every detect starts a session of its own, so the cycle cap of
    a session limits neither a resource nor an hour. What does limit them is the breaker. */
module LadderFleet {
  import opened Options
  import opened Ladder

  /** The sessions started so far and the namespace counters. */
  datatype Fleet = Fleet(sessions: seq<Session>, counts: map<string, int>)

  datatype Op =
    | DetectOp(resource: ResourceRef, reason: string, restartCount: nat)
    | CallOp(i: nat, call: Call)
    | ReleaseOp(ns: string)

  function BreakerCallOf(op: Op): (r: Option<BreakerCall>) {
    match op
    case DetectOp(resource, reason, restartCount) => Some(Detect(resource.ns, reason, restartCount))
    case CallOp(_, _) => None
    case ReleaseOp(ns) => Some(ReleaseCall(ns))
  }

  function Next(f: Fleet, dryRun: bool, op: Op): (r: Fleet) {
    var counts := if op.CallOp? then f.counts else AfterCall(f.counts, BreakerCallOf(op).value);
    match op
    case DetectOp(resource, _, _) =>
      if Starts(f.counts, BreakerCallOf(op).value) then Fleet(f.sessions + [FreshSession(resource)], counts) else f
    case CallOp(i, call) =>
      if i < |f.sessions| then f.(sessions := f.sessions[i := Perform(f.sessions[i], dryRun, call).session]) else f
    case ReleaseOp(_) => f.(counts := counts)
  }

  function Sent(f: Fleet, dryRun: bool, op: Op): (r: seq<Effect>) {
    if op.CallOp? && op.i < |f.sessions| then Perform(f.sessions[op.i], dryRun, op.call).effects else []
  }

  function After(f: Fleet, dryRun: bool, ops: seq<Op>): (r: Fleet)
    decreases |ops|
  {
    if ops == [] then f else After(Next(f, dryRun, ops[0]), dryRun, ops[1..])
  }

  function AllSent(f: Fleet, dryRun: bool, ops: seq<Op>): (r: seq<Effect>)
    decreases |ops|
  {
    if ops == [] then [] else Sent(f, dryRun, ops[0]) + AllSent(Next(f, dryRun, ops[0]), dryRun, ops[1..])
  }

  // ---------------------------------------------------------------- counting

  /** A choice of resources: one of them, or a namespace full. */
  datatype Scope = One(resource: ResourceRef) | Whole(ns: string)

  predicate Covers(scope: Scope, r: ResourceRef) {
    match scope
    case One(resource) => r == resource
    case Whole(ns) => r.ns == ns
  }

  function Restarts(effects: seq<Effect>, scope: Scope): (n: nat) {
    if effects == [] then 0
    else (if effects[0].RestartPatch? && Covers(scope, effects[0].target) then 1 else 0) + Restarts(effects[1..], scope)
  }

  function SessionsOf(sessions: seq<Session>, scope: Scope): (n: nat) {
    if sessions == [] then 0 else (if Covers(scope, sessions[0].resource) then 1 else 0) + SessionsOf(sessions[1..], scope)
  }

  function CyclesOf(sessions: seq<Session>, scope: Scope): (n: nat) {
    if sessions == [] then 0
    else (if Covers(scope, sessions[0].resource) then sessions[0].cycles else 0) + CyclesOf(sessions[1..], scope)
  }

  function ReleasesOf(ops: seq<Op>, ns: string): (n: nat) {
    if ops == [] then 0 else (if ops[0] == ReleaseOp(ns) then 1 else 0) + ReleasesOf(ops[1..], ns)
  }

  ghost predicate Capped(sessions: seq<Session>) {
    forall i :: 0 <= i < |sessions| ==> sessions[i].cycles <= 2
  }

  lemma {:induction false} RestartsConcat(a: seq<Effect>, b: seq<Effect>, scope: Scope)
    ensures Restarts(a + b, scope) == Restarts(a, scope) + Restarts(b, scope)
  {
    if a == [] {
      assert a + b == b;
    } else {
      assert (a + b)[1..] == a[1..] + b;
      RestartsConcat(a[1..], b, scope);
    }
  }

  lemma {:induction false} SumsSnoc(sessions: seq<Session>, s: Session, scope: Scope)
    ensures SessionsOf(sessions + [s], scope) == SessionsOf(sessions, scope) + if Covers(scope, s.resource) then 1 else 0
    ensures CyclesOf(sessions + [s], scope) == CyclesOf(sessions, scope) + if Covers(scope, s.resource) then s.cycles else 0
  {
    if sessions == [] {
      assert sessions + [s] == [s] && [s][1..] == [];
    } else {
      assert (sessions + [s])[1..] == sessions[1..] + [s];
      SumsSnoc(sessions[1..], s, scope);
    }
  }

  lemma {:induction false} SumsUpdate(sessions: seq<Session>, i: nat, s: Session, scope: Scope)
    requires i < |sessions| && s.resource == sessions[i].resource
    ensures SessionsOf(sessions[i := s], scope) == SessionsOf(sessions, scope)
    ensures CyclesOf(sessions[i := s], scope)
      == CyclesOf(sessions, scope) + if Covers(scope, s.resource) then s.cycles - sessions[i].cycles else 0
  {
    if i == 0 {
      assert sessions[i := s][1..] == sessions[1..];
    } else {
      assert sessions[i := s][1..] == sessions[1..][i - 1 := s];
      SumsUpdate(sessions[1..], i - 1, s, scope);
    }
  }

  lemma {:induction false} CyclesWithinSessions(sessions: seq<Session>, scope: Scope)
    requires Capped(sessions)
    ensures CyclesOf(sessions, scope) <= 2 * SessionsOf(sessions, scope)
  {
    if sessions != [] {
      assert forall i :: 0 <= i < |sessions[1..]| ==> sessions[1..][i] == sessions[i + 1];
      CyclesWithinSessions(sessions[1..], scope);
    }
  }

  // ---------------------------------------------------------------- the bound over many sessions

  lemma CallStep(f: Fleet, dryRun: bool, i: nat, call: Call, scope: Scope)
    requires Capped(f.sessions) && i < |f.sessions|
    ensures var o := Perform(f.sessions[i], dryRun, call);
      && Capped(f.sessions[i := o.session])
      && o.session.resource == f.sessions[i].resource
      && Restarts(o.effects, scope) <= if Covers(scope, f.sessions[i].resource) then o.session.cycles - f.sessions[i].cycles else 0
  {
    var o := Perform(f.sessions[i], dryRun, call);
    OneCallPatches(f.sessions[i], dryRun, call);
    if o.effects != [] {
      assert o.effects == [o.effects[0]] && o.effects[1..] == [];
    }
  }

  lemma StepBound(f: Fleet, dryRun: bool, op: Op, scope: Scope)
    requires Capped(f.sessions)
    ensures Capped(Next(f, dryRun, op).sessions)
    ensures CyclesOf(f.sessions, scope) + Restarts(Sent(f, dryRun, op), scope) <= CyclesOf(Next(f, dryRun, op).sessions, scope)
  {
    match op
    case DetectOp(resource, _, _) => SumsSnoc(f.sessions, FreshSession(resource), scope);
    case CallOp(i, call) =>
      if i < |f.sessions| {
        CallStep(f, dryRun, i, call, scope);
        SumsUpdate(f.sessions, i, Perform(f.sessions[i], dryRun, call).session, scope);
      }
    case ReleaseOp(_) =>
  }

  lemma {:induction false} RestartsWithinCycles(f: Fleet, dryRun: bool, ops: seq<Op>, scope: Scope)
    requires Capped(f.sessions)
    ensures Capped(After(f, dryRun, ops).sessions)
    ensures CyclesOf(f.sessions, scope) + Restarts(AllSent(f, dryRun, ops), scope) <= CyclesOf(After(f, dryRun, ops).sessions, scope)
    decreases |ops|
  {
    if ops != [] {
      var f' := Next(f, dryRun, ops[0]);
      StepBound(f, dryRun, ops[0], scope);
      RestartsWithinCycles(f', dryRun, ops[1..], scope);
      RestartsConcat(Sent(f, dryRun, ops[0]), AllSent(f', dryRun, ops[1..]), scope);
    }
  }

  lemma StepSessions(f: Fleet, dryRun: bool, op: Op, ns: string)
    requires 0 <= ActiveSessions(f.counts, ns) <= 10
    ensures var f' := Next(f, dryRun, op);
      && 0 <= ActiveSessions(f'.counts, ns) <= 10
      && SessionsOf(f'.sessions, Whole(ns)) - ActiveSessions(f'.counts, ns)
         <= SessionsOf(f.sessions, Whole(ns)) - ActiveSessions(f.counts, ns) + if op == ReleaseOp(ns) then 1 else 0
  {
    match op
    case DetectOp(resource, _, _) => SumsSnoc(f.sessions, FreshSession(resource), Whole(ns));
    case CallOp(i, call) =>
      if i < |f.sessions| {
        var o := Perform(f.sessions[i], dryRun, call);
        assert o.session.resource == f.sessions[i].resource;
        SumsUpdate(f.sessions, i, o.session, Whole(ns));
      }
    case ReleaseOp(_) =>
  }

  lemma {:induction false} SessionsWithinCap(f: Fleet, dryRun: bool, ops: seq<Op>, ns: string)
    requires 0 <= ActiveSessions(f.counts, ns) <= 10
    ensures SessionsOf(After(f, dryRun, ops).sessions, Whole(ns))
      <= SessionsOf(f.sessions, Whole(ns)) - ActiveSessions(f.counts, ns) + 10 + ReleasesOf(ops, ns)
    decreases |ops|
  {
    if ops != [] {
      StepSessions(f, dryRun, ops[0], ns);
      SessionsWithinCap(Next(f, dryRun, ops[0]), dryRun, ops[1..], ns);
    }
  }

  const NO_SESSIONS := Fleet([], map[])

  /** Over any operations on any number of sessions: a resource, or a whole namespace, gets at
      most two restart patches for each session started on it, and a namespace starts at most
      ten sessions plus its releases. */
  lemma FleetBound(dryRun: bool, ops: seq<Op>, scope: Scope, ns: string)
    ensures Restarts(AllSent(NO_SESSIONS, dryRun, ops), scope)
      <= 2 * SessionsOf(After(NO_SESSIONS, dryRun, ops).sessions, scope)
    ensures SessionsOf(After(NO_SESSIONS, dryRun, ops).sessions, Whole(ns)) <= 10 + ReleasesOf(ops, ns)
  {
    RestartsWithinCycles(NO_SESSIONS, dryRun, ops, scope);
    CyclesWithinSessions(After(NO_SESSIONS, dryRun, ops).sessions, scope);
    SessionsWithinCap(NO_SESSIONS, dryRun, ops, ns);
  }

  /** Detect a resource and restart its new session twice. */
  function DetectAndRestart(f: Fleet, resource: ResourceRef, reason: string, restartCount: nat, now: real): (ops: seq<Op>) {
    [DetectOp(resource, reason, restartCount)]
    + ([CallOp(|f.sessions|, Restart(now, true))] + ([CallOp(|f.sessions|, Restart(now, true))] + []))
  }

  lemma AllSentCons(f: Fleet, dryRun: bool, op: Op, rest: seq<Op>)
    ensures AllSent(f, dryRun, [op] + rest) == Sent(f, dryRun, op) + AllSent(Next(f, dryRun, op), dryRun, rest)
  {
    assert ([op] + rest)[1..] == rest;
  }

  /** The bound is reached: as often as the breaker lets a detect through, the same resource
      gets two more restarts, at one and the same moment if need be. */
  lemma EverySessionRestartsTwice(f: Fleet, resource: ResourceRef, reason: string, restartCount: nat, now: real)
    requires Starts(f.counts, Detect(resource.ns, reason, restartCount))
    requires !OffLimits(resource.ns) && HasPatchCall(resource.kind)
    ensures AllSent(f, false, DetectAndRestart(f, resource, reason, restartCount, now))
      == [RestartPatch(resource), RestartPatch(resource)]
  {
    var restart := CallOp(|f.sessions|, Restart(now, true));
    var f1 := Next(f, false, DetectOp(resource, reason, restartCount));
    assert f1.sessions[|f.sessions|] == FreshSession(resource);
    var f2 := Next(f1, false, restart);
    assert f2.sessions[|f.sessions|].cycles == 1 && f2.sessions[|f.sessions|].resource == resource;
    AllSentCons(f, false, DetectOp(resource, reason, restartCount), [restart] + ([restart] + []));
    AllSentCons(f1, false, restart, [restart] + []);
    AllSentCons(f2, false, restart, []);
    assert AllSent(Next(f2, false, restart), false, []) == [];
  }
}
