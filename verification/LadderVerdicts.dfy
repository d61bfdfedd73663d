/** What a ladder session comes to, told from the polls and the calls alone. */
module LadderVerdicts {
  import opened Options
  import opened Ladder

  /** A read fails, or a warning carries a time that cannot be compared. */
  ghost predicate Raises(p: Poll) {
    || !p.answered
    || exists i :: 0 <= i < |p.events|
         && p.events[i].warning && p.events[i].lastTimestamp.Some? && p.events[i].lastTimestamp.value.zoned
  }

  /** Only ready containers, and no warning stamped later than `since`. */
  ghost predicate QuietSince(p: Poll, since: real) {
    && false !in p.ready
    && !(exists i :: 0 <= i < |p.events|
           && p.events[i].warning && p.events[i].lastTimestamp.Some? && since < p.events[i].lastTimestamp.value.at)
  }

  /** The first j + 1 polls fall into the five minutes of the watch. */
  ghost predicate InTime(w: Watching, j: nat) {
    j < |w.polls| && forall k :: 0 <= k <= j ==> w.polls[k].now < w.start + 300.0
  }

  /** Polls i and i + 1 are quiet, and the watch gets that far. */
  ghost predicate SettlesAt(w: Watching, since: real, i: nat) {
    && InTime(w, i + 1) && (forall k :: 0 <= k <= i + 1 ==> !Raises(w.polls[k]))
    && QuietSince(w.polls[i], since) && QuietSince(w.polls[i + 1], since)
  }

  ghost predicate Settles(w: Watching, since: real) {
    exists i: nat :: SettlesAt(w, since, i)
  }

  /** Some poll in time raises. */
  ghost predicate Disturbed(w: Watching) {
    exists j: nat :: InTime(w, j) && Raises(w.polls[j])
  }

  lemma RaisesMeaning(p: Poll)
    ensures Raises(p) <==> PollError(p).Some?
  {
  }

  lemma QuietMeaning(p: Poll, since: real)
    ensures QuietSince(p, since) <==> Healthy(p, since)
  {
    assert false !in p.ready <==> forall i :: 0 <= i < |p.ready| ==> p.ready[i];
  }

  /** The loop sees a poll exactly if none up to it is late or raises. */
  lemma SeenExactly(w: Watching, i: nat)
    requires i < |w.polls|
    ensures i < Seen(w.polls, Deadline(w)) <==> InTime(w, i) && forall k :: 0 <= k <= i ==> !Raises(w.polls[k])
  {
    var n := Seen(w.polls, Deadline(w));
    SeenMeaning(w.polls, Deadline(w));
    forall k | 0 <= k < |w.polls|
      ensures Raises(w.polls[k]) <==> PollError(w.polls[k]).Some?
    {
      RaisesMeaning(w.polls[k]);
    }
  }

  lemma PairExactly(w: Watching, since: real, i: nat)
    ensures HealthyPair(w.polls, Deadline(w), since, i) <==> SettlesAt(w, since, i)
  {
    if i + 1 < |w.polls| {
      SeenExactly(w, i + 1);
      QuietMeaning(w.polls[i], since);
      QuietMeaning(w.polls[i + 1], since);
    }
  }

  lemma HealsExactly(w: Watching, since: real)
    ensures Heals(w.polls, Deadline(w), since) <==> Settles(w, since)
  {
    forall i: nat
      ensures HealthyPair(w.polls, Deadline(w), since, i) <==> SettlesAt(w, since, i)
    {
      PairExactly(w, since, i);
    }
  }

  lemma BreaksOffExactly(w: Watching)
    ensures BreaksOff(w.polls, Deadline(w)) <==> Disturbed(w)
  {
    var n := Seen(w.polls, Deadline(w));
    SeenMeaning(w.polls, Deadline(w));
    if n < |w.polls| {
      RaisesMeaning(w.polls[n]);
      assert w.polls[n].now < Deadline(w) ==> InTime(w, n);
    }
    if j: nat :| InTime(w, j) && Raises(w.polls[j]) {
      SeenExactly(w, j);
    }
  }

  // ---------------------------------------------------------------- the verdict of the watch

  /** A fresh session outside the trading namespaces, advanced at `now` with its patch going
      through and then once more: it is healed exactly if two neighbouring polls within the five
      minutes show only ready containers and no warning stamped later than `now`, before any
      poll raises; it hangs in its watch exactly if one raises first; else it is still sick. */
  lemma SecondAdvanceDecides(resource: ResourceRef, dryRun: bool, now: real, first: Watching,
                             later: real, w: Watching, ok: bool)
    requires !OffLimits(resource.ns)
    ensures var s1 := Perform(FreshSession(resource), dryRun, Advance(now, first, true)).session;
      var s2 := Perform(s1, dryRun, Advance(later, w, ok)).session;
      && (s2.state == Healed <==> Settles(w, now))
      && (s2.state == WatchHealing <==> !Settles(w, now) && Disturbed(w))
      && (s2.state == StillSick <==> !Settles(w, now) && !Disturbed(w))
      && s2 == Session(resource, s2.state, Some(now), Some(now + 300.0), 1, None)
  {
    HealsExactly(w, now);
    BreaksOffExactly(w);
  }

  lemma {:induction false} EndedStays(s: Session, dryRun: bool, calls: seq<Call>)
    requires AllAdvance(calls) && Terminal(s.state)
    ensures PerformAll(s, dryRun, calls).0 == s
    decreases |calls|
  {
    if calls != [] {
      assert calls[0].Advance?;
      assert forall i :: 0 <= i < |calls[1..]| ==> calls[1..][i] == calls[i + 1];
      EndedStays(s, dryRun, calls[1..]);
    }
  }

  /** Every call of the list is an advance whose direct API call succeeds. */
  ghost predicate Answered(calls: seq<Call>) {
    forall i :: 0 <= i < |calls| ==> calls[i].Advance? && calls[i].ok
  }

  function EndState(dryRun: bool, settled: bool): (r: LadderState) {
    if settled then Healed else if dryRun then Escalate else Apply
  }

  /** Where such a session ends, if no poll raises: healed by its restart, or else handed to a
      human in a dry run, or else at the fix. Four calls suffice, and more change nothing. */
  lemma FreshSessionEnds(resource: ResourceRef, dryRun: bool, calls: seq<Call>)
    requires !OffLimits(resource.ns) && Answered(calls) && |calls| >= 4 && !Disturbed(calls[1].w)
    ensures var now := calls[0].now;
      PerformAll(FreshSession(resource), dryRun, calls).0 ==
        Session(resource, EndState(dryRun, Settles(calls[1].w, now)), Some(now), Some(now + 300.0), 1, None)
  {
    var s0 := FreshSession(resource);
    var c0, c1, c2, c3 := calls[0], calls[1], calls[2], calls[3];
    assert c0.Advance? && c1.Advance? && c2.Advance? && c3.Advance? && c0.ok && c2.ok;
    SecondAdvanceDecides(resource, dryRun, c0.now, c0.w, c1.now, c1.w, c1.ok);
    var s1 := Perform(s0, dryRun, c0).session;
    var s2 := Perform(s1, dryRun, c1).session;
    assert c0 == Advance(c0.now, c0.w, true) && c1 == Advance(c1.now, c1.w, c1.ok);
    var s3 := Perform(s2, dryRun, c2).session;
    var s4 := Perform(s3, dryRun, c3).session;
    FourCalls(s0, dryRun, calls);
    var rest := calls[4..];
    assert forall i :: 0 <= i < |rest| ==> rest[i] == calls[i + 4];
    EndedStays(s4, dryRun, rest);
  }

  lemma FourCalls(s: Session, dryRun: bool, calls: seq<Call>)
    requires |calls| >= 4
    ensures var s1 := Perform(s, dryRun, calls[0]).session;
      var s2 := Perform(s1, dryRun, calls[1]).session;
      var s3 := Perform(s2, dryRun, calls[2]).session;
      var s4 := Perform(s3, dryRun, calls[3]).session;
      PerformAll(s, dryRun, calls).0 == PerformAll(s4, dryRun, calls[4..]).0
  {
    var a, b, c := calls[1..], calls[2..], calls[3..];
    assert a[0] == calls[1] && a[1..] == b;
    assert b[0] == calls[2] && b[1..] == c;
    assert c[0] == calls[3] && c[1..] == calls[4..];
    var s1 := Perform(s, dryRun, calls[0]).session;
    var s2 := Perform(s1, dryRun, calls[1]).session;
    var s3 := Perform(s2, dryRun, calls[2]).session;
    assert PerformAll(s, dryRun, calls).0 == PerformAll(s1, dryRun, a).0;
    assert PerformAll(s1, dryRun, a).0 == PerformAll(s2, dryRun, b).0;
    assert PerformAll(s2, dryRun, b).0 == PerformAll(s3, dryRun, c).0;
  }

  // ---------------------------------------------------------------- what is sent out

  /** How many effects of the list are of one sort. */
  function CountOf(effects: seq<Effect>, e: Effect): (n: nat) {
    if effects == [] then 0 else (if effects[0] == e then 1 else 0) + CountOf(effects[1..], e)
  }

  function FixCalls(calls: seq<Call>): (n: nat) {
    if calls == [] then 0 else (if calls[0] == ApplyCall(true) then 1 else 0) + FixCalls(calls[1..])
  }

  function EscalateCalls(calls: seq<Call>): (n: nat) {
    if calls == [] then 0 else (if calls[0].EscalateCall? then 1 else 0) + EscalateCalls(calls[1..])
  }

  /** Patches reach this resource. */
  ghost predicate Reached(r: ResourceRef, dryRun: bool) {
    !dryRun && HasPatchCall(r.kind) && !OffLimits(r.ns)
  }

  lemma OneCallSends(s: Session, dryRun: bool, c: Call)
    ensures var o := Perform(s, dryRun, c);
      && o.session.resource == s.resource && s.cycles <= o.session.cycles
      && CountOf(o.effects, FixPatch(s.resource)) ==
           (if Reached(s.resource, dryRun) && c == ApplyCall(true) then 1 else 0)
      && CountOf(o.effects, RestartPatch(s.resource)) ==
           (if Reached(s.resource, dryRun) then o.session.cycles - s.cycles else 0)
      && CountOf(o.effects, Webhook(s.resource)) == (if !dryRun && c.EscalateCall? then 1 else 0)
      && (forall e :: e in o.effects ==> e.target == s.resource)
  {
    var o := Perform(s, dryRun, c);
    assert |o.effects| <= 1;
    if o.effects != [] {
      assert o.effects[1..] == [];
    }
  }

  lemma {:induction false} CountConcat(a: seq<Effect>, b: seq<Effect>, e: Effect)
    ensures CountOf(a + b, e) == CountOf(a, e) + CountOf(b, e)
  {
    if a == [] {
      assert a + b == b;
    } else {
      assert (a + b)[1..] == a[1..] + b;
      CountConcat(a[1..], b, e);
    }
  }

  /** Any public calls on one session send, to its own resource and no other, one restart patch
      for each cycle counted, one fix patch for each apply call that the API answers, both only
      where patches reach the resource, and one webhook call for each escalation outside dry
      runs. */
  lemma {:induction false} SentExactly(s: Session, dryRun: bool, calls: seq<Call>)
    ensures var end, effects := PerformAll(s, dryRun, calls).0, PerformAll(s, dryRun, calls).1;
      && end.resource == s.resource && s.cycles <= end.cycles
      && CountOf(effects, FixPatch(s.resource)) == (if Reached(s.resource, dryRun) then FixCalls(calls) else 0)
      && CountOf(effects, RestartPatch(s.resource)) ==
           (if Reached(s.resource, dryRun) then end.cycles - s.cycles else 0)
      && CountOf(effects, Webhook(s.resource)) == (if dryRun then 0 else EscalateCalls(calls))
      && (forall e :: e in effects ==> e.target == s.resource)
    decreases |calls|
  {
    if calls != [] {
      var o := Perform(s, dryRun, calls[0]);
      var rest := PerformAll(o.session, dryRun, calls[1..]).1;
      OneCallSends(s, dryRun, calls[0]);
      SentExactly(o.session, dryRun, calls[1..]);
      CountConcat(o.effects, rest, FixPatch(s.resource));
      CountConcat(o.effects, rest, RestartPatch(s.resource));
      CountConcat(o.effects, rest, Webhook(s.resource));
    }
  }

  // ---------------------------------------------------------------- which resources start

  /** What may be restarted. The list of reasons that may not never decides: its reasons are
      not among the eligible ones anyway. */
  lemma EligibleExactly(reason: string, restartCount: nat)
    ensures IsRestartEligible(reason, restartCount) <==>
      || (reason == "CrashLoopBackOff" && restartCount < 5)
      || reason == "ReadinessProbeConnectionRefused"
      || reason == "LivenessProbeTimeout"
  {
  }
}
