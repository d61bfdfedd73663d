/** The Redis runner queue. The scripts run in separate processes, so the commands of
    different agents interleave one by one; each command is one atomic step here. */
module RunnerQueue {
  import opened Options

  datatype Status = Pending | Claimed | NeedsFix | Done | Other(text: string)

  /** The fields of a `task:<story>` hash that the scripts read. */
  datatype Rec = Rec(status: Option<Status>, assignee: Option<string>, priority: Option<real>)

  /** Where an agent's current script stands: the last command it has executed. */
  datatype Pc =
    | Idle
    | Popped(story: string, score: real)
    | Checked(story: string, score: real, status: Option<Status>)
    | DoneChecked(story: string, status: Option<Status>)
    | PriorityRead(story: string, priority: real)
    | FailureMarked(story: string, priority: real)

  datatype State = State(
    queue: map<string, real>,
    tasks: map<string, Rec>,
    pcs: map<string, Pc>,
    held: set<(string, string)>)

  datatype Command =
    | PopMin(agent: string, story: string)
    | CheckStatus(agent: string)
    | WriteClaim(agent: string)
    | PutBack(agent: string)
    | CheckDone(agent: string, story: string)
    | WriteDone(agent: string)
    | ReadPriority(agent: string, story: string)
    | MarkFailure(agent: string)
    | Requeue(agent: string)
    | Crash(agent: string)

  function PcOf(st: State, agent: string): (r: Pc) {
    if agent in st.pcs then st.pcs[agent] else Idle
  }

  function RecOf(tasks: map<string, Rec>, story: string): (r: Rec) {
    if story in tasks then tasks[story] else Rec(None, None, None)
  }

  /** `status not in (None, "pending", "needs_fix")`, negated. */
  predicate MayClaim(status: Option<Status>) {
    status in {None, Some(Pending), Some(NeedsFix)}
  }

  function PriorityOr2(rec: Rec): (r: real) {
    if rec.priority.Some? then rec.priority.value else 2.0
  }

  function RequeueScore(priority: real): (r: real) {
    if priority - 0.5 > 0.0 then priority - 0.5 else 0.0
  }

  predicate IsMin(queue: map<string, real>, story: string) {
    story in queue && forall s :: s in queue ==> queue[story] <= queue[s]
  }

  predicate Enabled(st: State, c: Command) {
    match c
    case PopMin(a, s) => PcOf(st, a).Idle? && IsMin(st.queue, s)
    case CheckStatus(a) => PcOf(st, a).Popped?
    case WriteClaim(a) => PcOf(st, a).Checked? && MayClaim(PcOf(st, a).status)
    case PutBack(a) => PcOf(st, a).Checked? && !MayClaim(PcOf(st, a).status)
    case CheckDone(a, s) => PcOf(st, a).Idle?
    case WriteDone(a) => PcOf(st, a).DoneChecked?
    case ReadPriority(a, s) => PcOf(st, a).Idle?
    case MarkFailure(a) => PcOf(st, a).PriorityRead?
    case Requeue(a) => PcOf(st, a).FailureMarked?
    case Crash(a) => true
  }

  function Do(st: State, c: Command): (r: State)
    requires Enabled(st, c)
  {
    var a := c.agent;
    var pc := PcOf(st, a);
    match c
    case PopMin(_, s) =>
      st.(queue := st.queue - {s}, pcs := st.pcs[a := Popped(s, st.queue[s])])
    case CheckStatus(_) =>
      st.(pcs := st.pcs[a := Checked(pc.story, pc.score, RecOf(st.tasks, pc.story).status)])
    case WriteClaim(_) =>
      st.(tasks := st.tasks[pc.story := RecOf(st.tasks, pc.story).(status := Some(Claimed), assignee := Some(a))],
          pcs := st.pcs[a := Idle],
          held := st.held + {(a, pc.story)})
    case PutBack(_) =>
      st.(queue := st.queue[pc.story := pc.score], pcs := st.pcs[a := Idle])
    case CheckDone(_, s) =>
      st.(pcs := st.pcs[a := DoneChecked(s, RecOf(st.tasks, s).status)])
    case WriteDone(_) =>
      if pc.status != Some(Claimed) then st.(pcs := st.pcs[a := Idle])
      else
        st.(tasks := st.tasks[pc.story := RecOf(st.tasks, pc.story).(status := Some(Done))],
            pcs := st.pcs[a := Idle],
            held := st.held - {(a, pc.story)})
    case ReadPriority(_, s) =>
      st.(pcs := st.pcs[a := PriorityRead(s, PriorityOr2(RecOf(st.tasks, s)))])
    case MarkFailure(_) =>
      st.(tasks := st.tasks[pc.story := RecOf(st.tasks, pc.story).(status := Some(NeedsFix))],
          pcs := st.pcs[a := FailureMarked(pc.story, pc.priority)],
          held := st.held - {(a, pc.story)})
    case Requeue(_) =>
      st.(queue := st.queue[pc.story := RequeueScore(pc.priority)], pcs := st.pcs[a := Idle])
    case Crash(_) =>
      st.(pcs := st.pcs[a := Idle])
  }

  // ---------------------------------------------------------------- where a story is

  datatype Place = InQueue | MidClaim(agent: string) | HeldBy(agent: string) | MidRequeue(agent: string) | Finished

  predicate At(st: State, s: string, p: Place) {
    match p
    case InQueue => s in st.queue
    case MidClaim(a) => (PcOf(st, a).Popped? || PcOf(st, a).Checked?) && PcOf(st, a).story == s
    case HeldBy(a) => (a, s) in st.held
    case MidRequeue(a) => PcOf(st, a).FailureMarked? && PcOf(st, a).story == s
    case Finished => RecOf(st.tasks, s).status == Some(Done)
  }

  /** The status the hash shows for a story in that place. */
  predicate StatusFits(p: Place, status: Option<Status>) {
    match p
    case InQueue => MayClaim(status)
    case MidClaim(_) => MayClaim(status)
    case HeldBy(_) => status == Some(Claimed)
    case MidRequeue(_) => status == Some(NeedsFix)
    case Finished => status == Some(Done)
  }

  ghost predicate AtMostOnePlace(st: State, s: string) {
    forall p, q :: At(st, s, p) && At(st, s, q) ==> p == q
  }

  ghost predicate Fits(st: State, s: string) {
    forall p :: At(st, s, p) ==> StatusFits(p, RecOf(st.tasks, s).status)
  }

  /** What an agent has read is still so, and only a holder is finishing a story. */
  ghost predicate PcAgrees(st: State, a: string) {
    match PcOf(st, a)
    case Checked(s, _, status) => status == RecOf(st.tasks, s).status
    case DoneChecked(s, status) => (a, s) in st.held && status == RecOf(st.tasks, s).status
    case PriorityRead(s, priority) => (a, s) in st.held && priority == PriorityOr2(RecOf(st.tasks, s))
    case FailureMarked(s, priority) => priority == PriorityOr2(RecOf(st.tasks, s))
    case _ => true
  }

  ghost predicate Safe(st: State) {
    && (forall s :: AtMostOnePlace(st, s))
    && (forall s :: Fits(st, s))
    && (forall a :: PcAgrees(st, a))
  }

  /** Only the current holder calls mark_done or mark_failed. */
  predicate Disciplined(st: State, c: Command) {
    (c.CheckDone? || c.ReadPriority?) ==> (c.agent, c.story) in st.held
  }

  /** The story a command is about. */
  function Subject(st: State, c: Command): (r: Option<string>)
    requires Enabled(st, c)
  {
    match c
    case PopMin(_, s) => Some(s)
    case CheckDone(_, s) => Some(s)
    case ReadPriority(_, s) => Some(s)
    case _ => if PcOf(st, c.agent).Idle? then None else Some(PcOf(st, c.agent).story)
  }

  /** Stories a command is not about stay where they are. */
  lemma OthersStay(st: State, c: Command, s: string, p: Place)
    requires Enabled(st, c) && Subject(st, c) != Some(s)
    ensures At(Do(st, c), s, p) <==> At(st, s, p)
    ensures RecOf(Do(st, c).tasks, s) == RecOf(st.tasks, s)
  {
  }

  /** Where a disciplined command takes its story; None when it drops it. */
  function Destination(st: State, c: Command): (r: Option<Place>)
    requires Enabled(st, c)
  {
    var a := c.agent;
    match c
    case PopMin(_, _) => Some(MidClaim(a))
    case CheckStatus(_) => Some(MidClaim(a))
    case WriteClaim(_) => Some(HeldBy(a))
    case PutBack(_) => Some(InQueue)
    case CheckDone(_, _) => Some(HeldBy(a))
    case WriteDone(_) => Some(Finished)
    case ReadPriority(_, _) => Some(HeldBy(a))
    case MarkFailure(_) => Some(MidRequeue(a))
    case Requeue(_) => Some(InQueue)
    case Crash(_) =>
      if PcOf(st, a).DoneChecked? || PcOf(st, a).PriorityRead? then Some(HeldBy(a)) else None
  }

  function Origin(st: State, c: Command): (r: Place)
    requires Enabled(st, c) && Subject(st, c).Some?
  {
    var a := c.agent;
    if c.PopMin? then InQueue
    else if c.CheckDone? || c.ReadPriority? then HeldBy(a)
    else
      match PcOf(st, a)
      case Popped(_, _) => MidClaim(a)
      case Checked(_, _, _) => MidClaim(a)
      case FailureMarked(_, _) => MidRequeue(a)
      case _ => HeldBy(a)
  }

  lemma SubjectStartsAtOrigin(st: State, c: Command)
    requires Safe(st) && Enabled(st, c) && Disciplined(st, c) && Subject(st, c).Some?
    ensures At(st, Subject(st, c).value, Origin(st, c))
  {
    assert PcAgrees(st, c.agent);
  }

  /** The subject is afterwards exactly at its destination. */
  lemma SubjectMoves(st: State, c: Command, p: Place)
    requires Safe(st) && Enabled(st, c) && Disciplined(st, c) && Subject(st, c).Some?
    ensures At(Do(st, c), Subject(st, c).value, p) <==> Destination(st, c) == Some(p)
  {
    var s := Subject(st, c).value;
    SubjectStartsAtOrigin(st, c);
    assert PcAgrees(st, c.agent) && AtMostOnePlace(st, s) && Fits(st, s);
    assert At(st, s, p) ==> p == Origin(st, c);
    assert StatusFits(Origin(st, c), RecOf(st.tasks, s).status);
  }

  lemma SubjectFits(st: State, c: Command)
    requires Safe(st) && Enabled(st, c) && Disciplined(st, c) && Subject(st, c).Some?
    ensures Destination(st, c).Some? ==>
      StatusFits(Destination(st, c).value, RecOf(Do(st, c).tasks, Subject(st, c).value).status)
  {
    var s := Subject(st, c).value;
    SubjectStartsAtOrigin(st, c);
    assert PcAgrees(st, c.agent) && Fits(st, s);
    assert StatusFits(Origin(st, c), RecOf(st.tasks, s).status);
  }

  lemma PcsStayInAgreement(st: State, c: Command, a: string)
    requires Safe(st) && Enabled(st, c) && Disciplined(st, c)
    ensures PcAgrees(Do(st, c), a)
  {
    assert PcAgrees(st, a) && PcAgrees(st, c.agent);
    if Subject(st, c).Some? {
      var s := Subject(st, c).value;
      SubjectStartsAtOrigin(st, c);
      assert AtMostOnePlace(st, s) && Fits(st, s);
      assert StatusFits(Origin(st, c), RecOf(st.tasks, s).status);
      assert a != c.agent ==> !At(st, s, MidClaim(a)) && !At(st, s, HeldBy(a));
    }
  }

  lemma StepKeepsSafe(st: State, c: Command)
    requires Safe(st) && Enabled(st, c) && Disciplined(st, c)
    ensures Safe(Do(st, c))
  {
    var st' := Do(st, c);
    forall s
      ensures AtMostOnePlace(st', s) && Fits(st', s)
    {
      assert AtMostOnePlace(st, s) && Fits(st, s);
      if Subject(st, c) == Some(s) {
        SubjectFits(st, c);
        forall p
          ensures At(st', s, p) <==> Destination(st, c) == Some(p)
        {
          SubjectMoves(st, c, p);
        }
      } else {
        forall p
          ensures At(st', s, p) <==> At(st, s, p)
        {
          OthersStay(st, c, s, p);
        }
        OthersStay(st, c, s, InQueue);
      }
    }
    forall a
      ensures PcAgrees(st', a)
    {
      PcsStayInAgreement(st, c, a);
    }
  }

  // ---------------------------------------------------------------- runs

  ghost predicate Legal(st: State, cs: seq<Command>)
    decreases |cs|
  {
    cs != [] ==> Enabled(st, cs[0]) && Disciplined(st, cs[0]) && Legal(Do(st, cs[0]), cs[1..])
  }

  ghost function Exec(st: State, cs: seq<Command>): (r: State)
    requires Legal(st, cs)
    decreases |cs|
  {
    if cs == [] then st else Exec(Do(st, cs[0]), cs[1..])
  }

  /** Nothing is claimed yet: no script is running and what is queued may be claimed. */
  lemma FreshIsSafe(st: State)
    requires st.pcs == map[] && st.held == {}
    requires forall s :: s in st.queue ==> MayClaim(RecOf(st.tasks, s).status)
    ensures Safe(st)
  {
  }

  /** In every interleaving, crashes included, a story is in at most one place, so no two
      agents ever hold or claim the same one. */
  lemma {:induction false} ExclusiveInEveryRun(st: State, cs: seq<Command>)
    requires Safe(st) && Legal(st, cs)
    ensures Safe(Exec(st, cs))
    decreases |cs|
  {
    if cs != [] {
      StepKeepsSafe(st, cs[0]);
      ExclusiveInEveryRun(Do(st, cs[0]), cs[1..]);
    }
  }

  lemma NoTwoHolders(st: State, s: string, a: string, b: string)
    requires Safe(st) && (a, s) in st.held && (b, s) in st.held
    ensures a == b && s !in st.queue && RecOf(st.tasks, s).status == Some(Claimed)
  {
    assert AtMostOnePlace(st, s) && Fits(st, s);
    assert At(st, s, HeldBy(a)) && At(st, s, HeldBy(b));
    assert At(st, s, InQueue) ==> InQueue == HeldBy(a);
  }

  /** From a store on which no script has run yet: in every interleaving, crashes included, no
      two agents hold one story, and a held story is neither queued nor anything but claimed. */
  lemma NoTwoHoldersEver(st: State, cs: seq<Command>, s: string, a: string, b: string)
    requires st.pcs == map[] && st.held == {} && Legal(st, cs)
    requires forall s :: s in st.queue ==> MayClaim(RecOf(st.tasks, s).status)
    requires (a, s) in Exec(st, cs).held && (b, s) in Exec(st, cs).held
    ensures a == b && s !in Exec(st, cs).queue && RecOf(Exec(st, cs).tasks, s).status == Some(Claimed)
  {
    FreshIsSafe(st);
    ExclusiveInEveryRun(st, cs);
    NoTwoHolders(Exec(st, cs), s, a, b);
  }

  ghost predicate ExactlyOnePlace(st: State, s: string) {
    exists p :: At(st, s, p) && forall q :: At(st, s, q) ==> q == p
  }

  lemma StepConserves(st: State, c: Command, s: string)
    requires Safe(st) && Enabled(st, c) && Disciplined(st, c) && !c.Crash?
    requires ExactlyOnePlace(st, s)
    ensures ExactlyOnePlace(Do(st, c), s)
  {
    var st' := Do(st, c);
    StepKeepsSafe(st, c);
    assert AtMostOnePlace(st', s);
    var p :| At(st, s, p);
    if Subject(st, c) == Some(s) {
      SubjectMoves(st, c, Destination(st, c).value);
      assert At(st', s, Destination(st, c).value);
    } else {
      OthersStay(st, c, s, p);
      assert At(st', s, p);
    }
  }

  ghost predicate CrashFree(cs: seq<Command>) {
    forall i :: 0 <= i < |cs| ==> !cs[i].Crash?
  }

  /** Token conservation: as long as no script dies, every story stays in exactly one of
      the queue, one agent's claim, one agent's hands, one requeue, or done. */
  lemma {:induction false} StoriesAreConserved(st: State, cs: seq<Command>, s: string)
    requires Safe(st) && Legal(st, cs) && CrashFree(cs) && ExactlyOnePlace(st, s)
    ensures ExactlyOnePlace(Exec(st, cs), s)
    decreases |cs|
  {
    if cs != [] {
      StepKeepsSafe(st, cs[0]);
      StepConserves(st, cs[0], s);
      StoriesAreConserved(Do(st, cs[0]), cs[1..], s);
    }
  }

  /** A crash loses a story exactly when the agent was in the middle of claiming or of
      requeueing it. */
  lemma CrashLosesExactly(st: State, a: string, s: string)
    requires Safe(st) && ExactlyOnePlace(st, s)
    ensures ExactlyOnePlace(Do(st, Crash(a)), s) <==> !At(st, s, MidClaim(a)) && !At(st, s, MidRequeue(a))
  {
    var st' := Do(st, Crash(a));
    StepKeepsSafe(st, Crash(a));
    assert AtMostOnePlace(st', s) && AtMostOnePlace(st, s);
    var p :| At(st, s, p);
    forall q
      ensures At(st', s, q) <==> At(st, s, q) && q != MidClaim(a) && q != MidRequeue(a)
    {
    }
  }

  /** The "unexpected status" branch of claim_task is dead code. */
  lemma PutBackNeverRuns(st: State, a: string)
    requires Safe(st)
    ensures !Enabled(st, PutBack(a))
  {
    assert PcAgrees(st, a);
    if PcOf(st, a).Checked? {
      var s := PcOf(st, a).story;
      assert At(st, s, MidClaim(a)) && Fits(st, s);
    }
  }

  /** mark_done never turns down the holder. */
  lemma HolderIsNeverRefused(st: State, a: string)
    requires Safe(st) && PcOf(st, a).DoneChecked?
    ensures PcOf(st, a).status == Some(Claimed)
    ensures At(Do(st, WriteDone(a)), PcOf(st, a).story, Finished)
  {
    assert PcAgrees(st, a);
    var s := PcOf(st, a).story;
    assert At(st, s, HeldBy(a)) && Fits(st, s);
  }

  // ---------------------------------------------------------------- the record of the holder

  /** The hash of every held story names its holder. */
  ghost predicate HoldersRecorded(st: State) {
    forall a, s :: (a, s) in st.held ==> RecOf(st.tasks, s).assignee == Some(a)
  }

  lemma StepKeepsRecords(st: State, c: Command)
    requires Safe(st) && Enabled(st, c) && Disciplined(st, c) && HoldersRecorded(st)
    ensures HoldersRecorded(Do(st, c))
  {
    var st' := Do(st, c);
    forall a, s | (a, s) in st'.held
      ensures RecOf(st'.tasks, s).assignee == Some(a)
    {
      if c.WriteClaim? && PcOf(st, c.agent).story == s {
        assert AtMostOnePlace(st, s);
        assert At(st, s, MidClaim(c.agent)) && (At(st, s, HeldBy(a)) ==> HeldBy(a) == MidClaim(c.agent));
      }
    }
  }

  /** In every interleaving the hash of a story shows who holds it. */
  lemma {:induction false} HoldersRecordedInEveryRun(st: State, cs: seq<Command>)
    requires Safe(st) && Legal(st, cs) && HoldersRecorded(st)
    ensures HoldersRecorded(Exec(st, cs))
    decreases |cs|
  {
    if cs != [] {
      StepKeepsSafe(st, cs[0]);
      StepKeepsRecords(st, cs[0]);
      HoldersRecordedInEveryRun(Do(st, cs[0]), cs[1..]);
    }
  }

  // ---------------------------------------------------------------- scores

  /** Half a point ahead of the priority in the hash, but not below 0; 1.5 if there is none. */
  predicate HalfAhead(priority: Option<real>, score: real) {
    match priority
    case None => score == 1.5
    case Some(p) => if p > 0.5 then score == p - 0.5 else score == 0.0
  }

  /** Failing a story never compounds: it goes back half a point ahead of the priority in its
      hash, however often it failed before. */
  ghost predicate ScoreKnown(st: State, first: map<string, real>, s: string, score: real) {
    (s in first && score == first[s]) || HalfAhead(RecOf(st.tasks, s).priority, score)
  }

  ghost predicate ScoresKnown(st: State, first: map<string, real>) {
    && (forall s :: s in st.queue ==> ScoreKnown(st, first, s, st.queue[s]))
    && (forall a :: PcOf(st, a).Popped? || PcOf(st, a).Checked?
          ==> ScoreKnown(st, first, PcOf(st, a).story, PcOf(st, a).score))
  }

  lemma PriorityNeverChanges(st: State, c: Command, s: string)
    requires Enabled(st, c)
    ensures RecOf(Do(st, c).tasks, s).priority == RecOf(st.tasks, s).priority
  {
  }

  lemma StepKeepsScores(st: State, c: Command, first: map<string, real>)
    requires Safe(st) && Enabled(st, c) && Disciplined(st, c) && ScoresKnown(st, first)
    ensures ScoresKnown(Do(st, c), first)
  {
    var st' := Do(st, c);
    assert PcAgrees(st, c.agent);
    forall s, score | ScoreKnown(st, first, s, score)
      ensures ScoreKnown(st', first, s, score)
    {
      PriorityNeverChanges(st, c, s);
    }
    forall s | s in st'.queue
      ensures ScoreKnown(st', first, s, st'.queue[s])
    {
      if s in st.queue && st'.queue[s] == st.queue[s] {
        assert ScoreKnown(st, first, s, st.queue[s]);
      } else {
        PriorityNeverChanges(st, c, s);
      }
    }
    forall a | PcOf(st', a).Popped? || PcOf(st', a).Checked?
      ensures ScoreKnown(st', first, PcOf(st', a).story, PcOf(st', a).score)
    {
      if c.PopMin? && a == c.agent {
        assert ScoreKnown(st, first, c.story, st.queue[c.story]);
      } else {
        assert ScoreKnown(st, first, PcOf(st, a).story, PcOf(st, a).score);
      }
    }
  }

  lemma {:induction false} ScoresInEveryRun(st: State, cs: seq<Command>, first: map<string, real>)
    requires Safe(st) && Legal(st, cs) && ScoresKnown(st, first)
    ensures ScoresKnown(Exec(st, cs), first)
    decreases |cs|
  {
    if cs != [] {
      StepKeepsSafe(st, cs[0]);
      StepKeepsScores(st, cs[0], first);
      ScoresInEveryRun(Do(st, cs[0]), cs[1..], first);
    }
  }

  /** In every interleaving: while a story that failed is queued, no story queued at its
      priority or behind it is popped, unless that priority is 0 or below. */
  lemma FailedStoryGoesFirst(st: State, cs: seq<Command>, first: map<string, real>, s: string, t: string, b: string)
    requires Safe(st) && Legal(st, cs) && ScoresKnown(st, first) && s !in first
    requires var end := Exec(st, cs);
      && s in end.queue && t in end.queue
      && var p := (match RecOf(end.tasks, s).priority case None => 2.0 case Some(x) => x);
         p > 0.0 && end.queue[t] >= p
    ensures !Enabled(Exec(st, cs), PopMin(b, t))
  {
    ScoresInEveryRun(st, cs, first);
    var end := Exec(st, cs);
    assert ScoreKnown(end, first, s, end.queue[s]);
  }

  // ---------------------------------------------------------------- calls by others

  /** The three commands of mark_failed, uninterrupted, by an agent with nothing else running. */
  function MarkFailed(st: State, a: string, s: string): (r: State)
    requires PcOf(st, a).Idle?
  {
    Do(Do(Do(st, ReadPriority(a, s)), MarkFailure(a)), Requeue(a))
  }

  /** Without the discipline: mark_failed by anybody keeps the story in one place exactly
      when no other agent holds it, is claiming it or is requeueing it. Wherever the story
      was, done included, it is queued again afterwards. */
  lemma MarkFailedByAnybody(st: State, a: string, s: string)
    requires Safe(st) && PcOf(st, a).Idle?
    ensures AtMostOnePlace(MarkFailed(st, a, s), s) <==>
      forall b :: b != a ==> !At(st, s, HeldBy(b)) && !At(st, s, MidClaim(b)) && !At(st, s, MidRequeue(b))
    ensures At(MarkFailed(st, a, s), s, InQueue) && !At(MarkFailed(st, a, s), s, Finished)
  {
    var st' := MarkFailed(st, a, s);
    MarkFailedPlaces(st, a, s);
    assert At(st', s, InQueue);
    forall b | b != a && (At(st, s, HeldBy(b)) || At(st, s, MidClaim(b)) || At(st, s, MidRequeue(b)))
      ensures !AtMostOnePlace(st', s)
    {
      var p := if At(st, s, HeldBy(b)) then HeldBy(b) else if At(st, s, MidClaim(b)) then MidClaim(b) else MidRequeue(b);
      assert At(st', s, p);
    }
  }

  /** The queue and the hash after an uninterrupted mark_failed. */
  lemma MarkFailedStore(st: State, a: string, s: string)
    requires PcOf(st, a).Idle?
    ensures var st' := MarkFailed(st, a, s);
      && s in st'.queue && HalfAhead(RecOf(st.tasks, s).priority, st'.queue[s])
      && st'.queue == st.queue[s := st'.queue[s]]
      && st'.tasks == st.tasks[s := RecOf(st.tasks, s).(status := Some(NeedsFix))]
  {
  }

  lemma MarkFailedPlaces(st: State, a: string, s: string)
    requires PcOf(st, a).Idle?
    ensures var st' := MarkFailed(st, a, s);
      && At(st', s, InQueue) && !At(st', s, Finished)
      && (forall b :: At(st', s, HeldBy(b)) <==> b != a && At(st, s, HeldBy(b)))
      && (forall b :: At(st', s, MidClaim(b)) <==> b != a && At(st, s, MidClaim(b)))
      && (forall b :: At(st', s, MidRequeue(b)) <==> b != a && At(st, s, MidRequeue(b)))
  {
  }

  /** Interleaved with anything: the command that marks a failure keeps the story in one place
      exactly when the story is nowhere but with the caller or done. */
  lemma MarkFailureByAnybody(st: State, a: string)
    requires PcOf(st, a).PriorityRead?
    ensures var s := PcOf(st, a).story;
      AtMostOnePlace(Do(st, MarkFailure(a)), s) <==> forall p :: At(st, s, p) ==> p == HeldBy(a) || p == Finished
  {
    var s := PcOf(st, a).story;
    var st' := Do(st, MarkFailure(a));
    forall p
      ensures At(st', s, p) <==> p == MidRequeue(a) || (At(st, s, p) && p != HeldBy(a) && p != Finished)
    {
    }
    assert At(st', s, MidRequeue(a));
  }

  /** The same for the command that requeues it. */
  lemma RequeueByAnybody(st: State, a: string)
    requires PcOf(st, a).FailureMarked?
    ensures var s := PcOf(st, a).story;
      AtMostOnePlace(Do(st, Requeue(a)), s) <==> forall p :: At(st, s, p) ==> p == MidRequeue(a) || p == InQueue
  {
    var s := PcOf(st, a).story;
    var st' := Do(st, Requeue(a));
    forall p
      ensures At(st', s, p) <==> p == InQueue || (At(st, s, p) && p != MidRequeue(a))
    {
    }
    assert At(st', s, InQueue);
  }

  /** The same for the command that marks a story done after its status has been read. */
  lemma WriteDoneByAnybody(st: State, a: string)
    requires PcOf(st, a).DoneChecked? && PcOf(st, a).status == Some(Claimed)
    ensures var s := PcOf(st, a).story;
      AtMostOnePlace(Do(st, WriteDone(a)), s) <==> forall p :: At(st, s, p) ==> p == HeldBy(a) || p == Finished
  {
    var s := PcOf(st, a).story;
    var st' := Do(st, WriteDone(a));
    forall p
      ensures At(st', s, p) <==> p == Finished || (At(st, s, p) && p != HeldBy(a))
    {
    }
    assert At(st', s, Finished);
  }

  /** The two commands of mark_done, uninterrupted. */
  function MarkDone(st: State, a: string, s: string): (r: State)
    requires PcOf(st, a).Idle?
  {
    Do(Do(st, CheckDone(a, s)), WriteDone(a))
  }

  /** mark_done by anybody, whose only guard is the status, keeps the story in one place
      exactly when no other agent holds it. */
  lemma MarkDoneByAnybody(st: State, a: string, s: string)
    requires Safe(st) && PcOf(st, a).Idle?
    ensures AtMostOnePlace(MarkDone(st, a, s), s) <==> forall b :: b != a ==> !At(st, s, HeldBy(b))
  {
    var read := Do(st, CheckDone(a, s));
    assert AtMostOnePlace(st, s) && Fits(st, s);
    forall p
      ensures At(read, s, p) <==> At(st, s, p)
    {
    }
    if RecOf(st.tasks, s).status == Some(Claimed) {
      WriteDoneByAnybody(read, a);
      OnlyHeldWhileClaimed(st, s);
    } else {
      NothingWritten(st, a, s);
      forall b
        ensures !At(st, s, HeldBy(b))
      {
        assert At(st, s, HeldBy(b)) ==> StatusFits(HeldBy(b), RecOf(st.tasks, s).status);
      }
    }
  }

  lemma OnlyHeldWhileClaimed(st: State, s: string)
    requires Fits(st, s) && RecOf(st.tasks, s).status == Some(Claimed)
    ensures forall p :: At(st, s, p) ==> p.HeldBy?
  {
  }

  lemma NothingWritten(st: State, a: string, s: string)
    requires PcOf(st, a).Idle? && RecOf(st.tasks, s).status != Some(Claimed)
    ensures forall p :: At(MarkDone(st, a, s), s, p) <==> At(st, s, p)
  {
  }
}
