/** The explanation cache and the backend wrapped in it: what a run of cache accesses leaves
    in the table, and why nobody can tell a cached answer from a new one. */
module ExplanationCache {
  import opened IdOrder
  import opened Options

  // ---------------------------------------------------------------- explanations and their stored form

  datatype FixKind = KubectlPatch | ManifestDiff | RolloutRestart | Scale | LabelEdit | Unknown

  function KindValue(k: FixKind): (s: string) {
    match k
    case KubectlPatch => "kubectl_patch"
    case ManifestDiff => "manifest_diff"
    case RolloutRestart => "rollout_restart"
    case Scale => "scale"
    case LabelEdit => "label_edit"
    case Unknown => "unknown"
  }

  /** `FixKind(s)`, which raises for any other text. */
  function ParseKind(s: string): (k: Option<FixKind>)
    ensures forall kind :: KindValue(kind) == s ==> k == Some(kind)
    ensures k.Some? ==> KindValue(k.value) == s
  {
    DistinctKindValues();
    if s == "kubectl_patch" then Some(KubectlPatch)
    else if s == "manifest_diff" then Some(ManifestDiff)
    else if s == "rollout_restart" then Some(RolloutRestart)
    else if s == "scale" then Some(Scale)
    else if s == "label_edit" then Some(LabelEdit)
    else if s == "unknown" then Some(Unknown)
    else None
  }

  lemma DistinctKindValues()
    ensures forall a, b :: KindValue(a) == KindValue(b) ==> a == b
  {
    assert "kubectl_patch"[0] == 'k' && "manifest_diff"[0] == 'm' && "rollout_restart"[0] == 'r';
    assert "scale"[0] == 's' && "label_edit"[0] == 'l' && "unknown"[0] == 'u';
  }

  datatype FixCandidate = FixCandidate(kind: FixKind, commandOrDiff: string, rationale: string, rank: int, source: string)

  datatype Explanation = Explanation(
    findingHash: string, summary: string, fixCandidates: seq<FixCandidate>,
    rawLlmText: Option<string>, fromCache: bool)

  /** The JSON object that is stored: kinds are strings, and `from_cache` is not part of it. */
  datatype StoredFix = StoredFix(kind: string, commandOrDiff: string, rationale: string, rank: int, source: string)
  datatype Payload = Payload(
    findingHash: string, summary: string, fixCandidates: seq<StoredFix>, rawLlmText: Option<string>)

  function EncodeFixes(cs: seq<FixCandidate>): (r: seq<StoredFix>) {
    if cs == [] then []
    else
      var c := cs[0];
      [StoredFix(KindValue(c.kind), c.commandOrDiff, c.rationale, c.rank, c.source)] + EncodeFixes(cs[1..])
  }

  function Encode(e: Explanation): (p: Payload) {
    Payload(e.findingHash, e.summary, EncodeFixes(e.fixCandidates), e.rawLlmText)
  }

  function DecodeFixes(fs: seq<StoredFix>): (r: Option<seq<FixCandidate>>) {
    if fs == [] then Some([])
    else
      var f := fs[0];
      match (ParseKind(f.kind), DecodeFixes(fs[1..]))
      case (Some(kind), Some(rest)) =>
        Some([FixCandidate(kind, f.commandOrDiff, f.rationale, f.rank, f.source)] + rest)
      case _ => None
  }

  /** What a hit turns the stored object into; None where an unknown kind raises. */
  function Decode(p: Payload): (e: Option<Explanation>) {
    match DecodeFixes(p.fixCandidates)
    case Some(cs) => Some(Explanation(p.findingHash, p.summary, cs, p.rawLlmText, true))
    case None => None
  }

  lemma {:induction false} FixesRoundTrip(cs: seq<FixCandidate>)
    ensures DecodeFixes(EncodeFixes(cs)) == Some(cs)
  {
    if cs != [] {
      FixesRoundTrip(cs[1..]);
      assert EncodeFixes(cs)[1..] == EncodeFixes(cs[1..]);
      assert cs == [cs[0]] + cs[1..];
    }
  }

  /** Storing an explanation loses nothing but where it came from. */
  lemma RoundTrip(e: Explanation)
    ensures Decode(Encode(e)) == Some(e.(fromCache := true))
  {
    FixesRoundTrip(e.fixCandidates);
  }

  lemma {:induction false} FixesRoundTripBack(fs: seq<StoredFix>)
    requires DecodeFixes(fs).Some?
    ensures EncodeFixes(DecodeFixes(fs).value) == fs
  {
    if fs != [] {
      FixesRoundTripBack(fs[1..]);
      var cs := DecodeFixes(fs).value;
      assert cs[1..] == DecodeFixes(fs[1..]).value;
      assert fs == [fs[0]] + fs[1..];
    }
  }

  /** Two payloads are read as the same explanation only if they are the same payload. */
  lemma DecodeInjective(p: Payload, q: Payload)
    requires Decode(p).Some? && Decode(p) == Decode(q)
    ensures p == q
  {
    FixesRoundTripBack(p.fixCandidates);
    FixesRoundTripBack(q.fixCandidates);
  }

  // ---------------------------------------------------------------- the table

  /** The fields that the canonical JSON lists; its hash is taken to tell them apart. */
  datatype Finding = Finding(
    componentId: string, kind: string, severity: string, evidence: string,
    diagnosis: string, fixClass: string, proposedFix: string, schemaVersion: int)

  datatype Row = Row(payload: Payload, model: string, createdAt: real, expiresAt: real)

  const TTL_SECONDS: real := 604800.0

  type Table = map<Finding, Row>

  function Lookup(rows: Table, f: Finding, model: string, now: real): (r: Option<Payload>) {
    if f !in rows || now > rows[f].expiresAt || rows[f].model != model then None else Some(rows[f].payload)
  }

  function Replace(rows: Table, f: Finding, payload: Payload, model: string, now: real): (r: Table) {
    rows[f := Row(payload, model, now, now + TTL_SECONDS)]
  }

  function Evict(rows: Table, now: real): (r: Table) {
    map f | f in rows && !(rows[f].expiresAt < now) :: rows[f]
  }

  /** Eviction at one time changes a lookup at another exactly if the row is evicted although
      the lookup's clock still finds it valid. */
  lemma EvictChangesLookupExactly(rows: Table, evictedAt: real, f: Finding, model: string, now: real)
    ensures Lookup(Evict(rows, evictedAt), f, model, now) != Lookup(rows, f, model, now)
      <==> f in rows && rows[f].model == model && now <= rows[f].expiresAt < evictedAt
  {
  }

  // ---------------------------------------------------------------- runs

  /** One access to the table, with the clock as it reads it. A call of `explain` is a Look,
      and on a miss a Store after the backend has answered, with anything in between. */
  datatype Event =
    | Look(now: real, f: Finding, model: string)
    | Store(now: real, f: Finding, payload: Payload, model: string)
    | Sweep(now: real)

  datatype State = State(rows: Table, hits: nat, misses: nat)

  const EMPTY := State(map[], 0, 0)

  function Step(s: State, e: Event): (r: State) {
    match e
    case Look(now, f, model) =>
      if Lookup(s.rows, f, model, now).Some? then s.(hits := s.hits + 1) else s.(misses := s.misses + 1)
    case Store(now, f, payload, model) => s.(rows := Replace(s.rows, f, payload, model, now))
    case Sweep(now) => s.(rows := Evict(s.rows, now))
  }

  function Run(events: seq<Event>): (r: State) {
    if events == [] then EMPTY else Step(Run(events[..|events| - 1]), events[|events| - 1])
  }

  /** The clock never steps back, and reads at most `now` at the end. */
  ghost predicate ClockUpTo(events: seq<Event>, now: real)
    decreases |events|
  {
    events == [] || (events[|events| - 1].now <= now && ClockUpTo(events[..|events| - 1], events[|events| - 1].now))
  }

  // ---------------------------------------------------------------- what a run answers

  /** The latest store for the finding. */
  function Latest(events: seq<Event>, f: Finding): (r: Option<Event>)
    ensures r.Some? ==> r.value.Store? && r.value.f == f
  {
    if events == [] then None
    else
      var e := events[|events| - 1];
      if e.Store? && e.f == f then Some(e) else Latest(events[..|events| - 1], f)
  }

  /** The answer read off the history: the latest store for the finding counts, if it was made
      for this model and is at most seven days old. Evictions do not appear. */
  function LatestStore(events: seq<Event>, f: Finding, model: string, now: real): (r: Option<Payload>) {
    match Latest(events, f)
    case Some(e) => if e.model == model && now - e.now <= 604800.0 then Some(e.payload) else None
    case None => None
  }

  /** An eviction since the latest store for the finding found it more than seven days old. */
  predicate Swept(events: seq<Event>, f: Finding) {
    events != [] &&
    var prefix, e := events[..|events| - 1], events[|events| - 1];
    !(e.Store? && e.f == f)
    && (Swept(prefix, f) || (e.Sweep? && Latest(prefix, f).Some? && e.now - Latest(prefix, f).value.now > 604800.0))
  }

  function RowOf(e: Event): (r: Row)
    requires e.Store?
  {
    Row(e.payload, e.model, e.now, e.now + TTL_SECONDS)
  }

  lemma {:induction false} RowIsLatest(events: seq<Event>, f: Finding)
    ensures var rows := Run(events).rows;
      && (f in rows <==> Latest(events, f).Some? && !Swept(events, f))
      && (f in rows ==> rows[f] == RowOf(Latest(events, f).value))
  {
    if events != [] {
      RowIsLatest(events[..|events| - 1], f);
    }
  }

  /** On any clock, the table answers as the history does exactly unless the answer has been
      evicted too early: by a clock that ran ahead of the one that now finds it valid. */
  lemma LookupIsLatestStoreExactly(events: seq<Event>, f: Finding, model: string, now: real)
    ensures Lookup(Run(events).rows, f, model, now) == LatestStore(events, f, model, now)
      <==> !(LatestStore(events, f, model, now).Some? && Swept(events, f))
  {
    RowIsLatest(events, f);
  }

  lemma {:induction false} SweptMeansOld(events: seq<Event>, f: Finding, now: real)
    requires ClockUpTo(events, now) && Swept(events, f)
    ensures Latest(events, f).Some? && now - Latest(events, f).value.now > 604800.0
  {
    var prefix, e := events[..|events| - 1], events[|events| - 1];
    if Swept(prefix, f) {
      SweptMeansOld(prefix, f, e.now);
    }
  }

  /** Under a clock that never steps back it always does. */
  lemma LookupIsLatestStore(events: seq<Event>, f: Finding, model: string, now: real)
    requires ClockUpTo(events, now)
    ensures Lookup(Run(events).rows, f, model, now) == LatestStore(events, f, model, now)
  {
    LookupIsLatestStoreExactly(events, f, model, now);
    if Swept(events, f) {
      SweptMeansOld(events, f, now);
    }
  }

  /** Where the clock steps back after an eviction, an answer that was still good is gone. */
  lemma ClockSteppingBackLosesAnswers(f: Finding, p: Payload, model: string)
    ensures var events := [Store(0.0, f, p, model), Sweep(604801.0)];
      LatestStore(events, f, model, 1.0) == Some(p) && Lookup(Run(events).rows, f, model, 1.0) == None
  {
    var events := [Store(0.0, f, p, model), Sweep(604801.0)];
    assert events[..1] == [Store(0.0, f, p, model)];
    assert events[..1][..0] == [];
    assert Run(events[..1]) == Step(EMPTY, Store(0.0, f, p, model));
    assert LatestStore(events[..1], f, model, 1.0) == Some(p);
  }

  /** Looks of a run that were answered from the table. */
  ghost function Answered(events: seq<Event>): (n: nat) {
    if events == [] then 0
    else
      var prefix, e := events[..|events| - 1], events[|events| - 1];
      Answered(prefix) + if e.Look? && LatestStore(prefix, e.f, e.model, e.now).Some? then 1 else 0
  }

  ghost function Looks(events: seq<Event>): (n: nat) {
    if events == [] then 0 else Looks(events[..|events| - 1]) + if events[|events| - 1].Look? then 1 else 0
  }

  lemma {:induction false} CountersMeaning(events: seq<Event>, now: real)
    requires ClockUpTo(events, now)
    ensures Run(events).hits == Answered(events) && Run(events).hits + Run(events).misses == Looks(events)
  {
    if events != [] {
      var prefix, e := events[..|events| - 1], events[|events| - 1];
      CountersMeaning(prefix, e.now);
      if e.Look? {
        LookupIsLatestStore(prefix, e.f, e.model, e.now);
      }
    }
  }

  // ---------------------------------------------------------------- transparency

  type Backend = Finding -> Explanation

  /** What `explain` returns if its lookup happens in this state: None if decoding raises. */
  function Explained(s: State, answer: Backend, model: string, f: Finding, now: real): (r: Option<Explanation>) {
    match Lookup(s.rows, f, model, now)
    case Some(p) => Decode(p)
    case None => Some(answer(f))
  }

  /** Whoever stores for this model stores what the backend answers. Other models' stores are free. */
  ghost predicate FaithfulStores(events: seq<Event>, answer: Backend, model: string) {
    forall i :: 0 <= i < |events| && events[i].Store? && events[i].model == model ==>
      events[i].payload == Encode(answer(events[i].f))
  }

  ghost predicate FaithfulRows(rows: Table, answer: Backend, model: string) {
    forall f :: f in rows && rows[f].model == model ==> rows[f].payload == Encode(answer(f))
  }

  lemma {:induction false} RowsStayFaithful(events: seq<Event>, answer: Backend, model: string)
    requires FaithfulStores(events, answer, model)
    ensures FaithfulRows(Run(events).rows, answer, model)
  {
    if events != [] {
      var prefix := events[..|events| - 1];
      assert forall i :: 0 <= i < |prefix| ==> prefix[i] == events[i];
      RowsStayFaithful(prefix, answer, model);
    }
  }

  /** e is x apart from where it came from. */
  predicate SameAnswer(e: Explanation, x: Explanation) {
    e == x.(fromCache := e.fromCache)
  }

  /** In every run, whatever the clock does, `explain` gives the backend's answer. */
  lemma ExplainIsTransparent(events: seq<Event>, answer: Backend, model: string, f: Finding, now: real)
    requires FaithfulStores(events, answer, model)
    ensures var r := Explained(Run(events), answer, model, f, now);
      r.Some? && SameAnswer(r.value, answer(f))
  {
    RowsStayFaithful(events, answer, model);
    RoundTrip(answer(f));
  }

  /** Transparent for a finding at the end of a run exactly if the store that still counts
      for it there, if any, is what the backend's answer encodes to. */
  lemma TransparentExactly(events: seq<Event>, answer: Backend, model: string, f: Finding, now: real)
    requires ClockUpTo(events, now)
    ensures var r := Explained(Run(events), answer, model, f, now);
      (r.Some? && SameAnswer(r.value, answer(f)))
      <==> (LatestStore(events, f, model, now).Some? ==>
              LatestStore(events, f, model, now).value == Encode(answer(f)))
  {
    LookupIsLatestStore(events, f, model, now);
    match LatestStore(events, f, model, now)
    case None =>
    case Some(p) =>
      RoundTrip(answer(f));
      if Decode(p).Some? && SameAnswer(Decode(p).value, answer(f)) {
        DecodeInjective(p, Encode(answer(f)));
      }
  }

  /** What exactly comes back under a clock that never steps back: the backend's answer, marked
      as cached if one for this model is at most seven days old and the latest stored for the
      finding, and as the backend gives it otherwise. */
  lemma ExplainedExactly(events: seq<Event>, answer: Backend, model: string, f: Finding, now: real)
    requires FaithfulStores(events, answer, model) && ClockUpTo(events, now)
    ensures Explained(Run(events), answer, model, f, now) == Some(
      if Latest(events, f).Some? && Latest(events, f).value.model == model
         && now - Latest(events, f).value.now <= 604800.0
      then answer(f).(fromCache := true) else answer(f))
  {
    RowsStayFaithful(events, answer, model);
    RoundTrip(answer(f));
    LookupIsLatestStore(events, f, model, now);
  }

  /** What a miss stores answers the next look for the same model within seven days, and
      hides the finding from every other model. */
  lemma StoreThenLook(events: seq<Event>, f: Finding, p: Payload, model: string, other: string, now: real, later: real)
    requires now <= later <= now + 604800.0 && other != model
    ensures var rows := Run(events + [Store(now, f, p, model)]).rows;
      Lookup(rows, f, model, later) == Some(p) && Lookup(rows, f, other, later) == None
  {
    var all := events + [Store(now, f, p, model)];
    assert all[..|all| - 1] == events;
  }

  /** Models that explain one finding in turn, each storing its own answer. */
  function InTurn(f: Finding, models: seq<string>, answer: string -> Payload, now: real): (r: seq<Event>) {
    if models == [] then []
    else
      var model := models[|models| - 1];
      InTurn(f, models[..|models| - 1], answer, now) + [Look(now, f, model)] + [Store(now, f, answer(model), model)]
  }

  /** If no model has two turns in a row, the cache they share never answers any of them. */
  lemma {:induction false} TakingTurnsNeverHits(f: Finding, models: seq<string>, answer: string -> Payload, now: real)
    requires forall i, j :: 0 <= i < |models| && j == i + 1 && j < |models| ==> models[i] != models[j]
    ensures Run(InTurn(f, models, answer, now)).hits == 0
    ensures Run(InTurn(f, models, answer, now)).misses == |models|
  {
    if models != [] {
      var prefix, model := models[..|models| - 1], models[|models| - 1];
      TakingTurnsNeverHits(f, prefix, answer, now);
      TurnMisses(f, prefix, answer, now, model);
      var before := InTurn(f, prefix, answer, now);
      RunSnoc(before, Look(now, f, model));
      RunSnoc(before + [Look(now, f, model)], Store(now, f, answer(model), model));
    }
  }

  lemma TurnMisses(f: Finding, prefix: seq<string>, answer: string -> Payload, now: real, model: string)
    requires prefix != [] ==> prefix[|prefix| - 1] != model
    ensures Lookup(Run(InTurn(f, prefix, answer, now)).rows, f, model, now) == None
  {
    if prefix != [] {
      var last := prefix[|prefix| - 1];
      var earlier := InTurn(f, prefix[..|prefix| - 1], answer, now) + [Look(now, f, last)];
      StoreThenLook(earlier, f, answer(last), last, model, now, now);
    }
  }

  lemma RunSnoc(events: seq<Event>, e: Event)
    ensures Run(events + [e]) == Step(Run(events), e)
  {
    assert (events + [e])[..|events + [e]| - 1] == events;
  }

  // ---------------------------------------------------------------- the objects

  class FindingCache {
    var rows: Table
    var hitCount: nat
    var missCount: nat

    ghost function View(): State
      reads this
    {
      State(rows, hitCount, missCount)
    }

    constructor ()
      ensures View() == EMPTY
    {
      rows, hitCount, missCount := map[], 0, 0;
    }

    method Get(f: Finding, model: string, now: real) returns (r: Option<Payload>)
      modifies this`hitCount, this`missCount
      ensures r == Lookup(rows, f, model, now) && View() == Step(old(View()), Look(now, f, model))
      ensures r == if f in rows && now <= rows[f].expiresAt && rows[f].model == model then Some(rows[f].payload) else None
      ensures hitCount == old(hitCount) + (if r.Some? then 1 else 0)
      ensures missCount == old(missCount) + (if r.Some? then 0 else 1)
    {
      if f !in rows || now > rows[f].expiresAt || rows[f].model != model {
        missCount := missCount + 1;
        r := None;
      } else {
        hitCount := hitCount + 1;
        r := Some(rows[f].payload);
      }
    }

    method Set(f: Finding, payload: Payload, model: string, now: real)
      modifies this`rows
      ensures View() == Step(old(View()), Store(now, f, payload, model))
      ensures rows == old(rows)[f := Row(payload, model, now, now + 604800.0)]
    {
      rows := rows[f := Row(payload, model, now, now + TTL_SECONDS)];
    }

    method HitRate() returns (r: real)
      ensures 0.0 <= r <= 1.0
      ensures hitCount + missCount > 0 ==> r * (hitCount + missCount) as real == hitCount as real
      ensures hitCount + missCount == 0 ==> r == 0.0
    {
      var total := hitCount + missCount;
      r := if total != 0 then hitCount as real / total as real else 0.0;
      RateBounds(hitCount, total);
    }

    method EvictExpired(now: real) returns (count: nat)
      modifies this`rows
      ensures View() == Step(old(View()), Sweep(now))
      ensures rows == map f | f in old(rows) && old(rows)[f].expiresAt >= now :: old(rows)[f]
      ensures count + |rows| == |old(rows)|
    {
      var before := |rows|;
      EvictShrinks(rows, now);
      rows := Evict(rows, now);
      count := before - |rows|;
    }
  }

  lemma RateBounds(hits: nat, total: nat)
    requires hits <= total
    ensures total > 0 ==> 0.0 <= hits as real / total as real <= 1.0
  {
  }

  lemma EvictShrinks(rows: Table, now: real)
    ensures |Evict(rows, now)| <= |rows|
  {
    var kept := Evict(rows, now);
    assert kept.Keys <= rows.Keys;
    SubsetSize(kept.Keys, rows.Keys);
  }

  class CachedBackend {
    const backend: Backend
    const cache: FindingCache
    const modelId: string

    constructor (backend: Backend, cache: FindingCache, modelId: string)
      ensures this.backend == backend && this.cache == cache && this.modelId == modelId
    {
      this.backend, this.cache, this.modelId := backend, cache, modelId;
    }

    /** `explain`, where the cache is not used by anybody else while the backend works: the
        clock is read once for the lookup and once for the store. None where decoding raises. */
    method Explain(f: Finding, now: real, later: real) returns (r: Option<Explanation>)
      modifies cache
      ensures r == Explained(old(cache.View()), backend, modelId, f, now)
      ensures cache.View() ==
        var looked := Step(old(cache.View()), Look(now, f, modelId));
        if Lookup(old(cache.rows), f, modelId, now).Some? then looked
        else Step(looked, Store(later, f, Encode(backend(f)), modelId))
      ensures var rows := old(cache.rows);
        if f in rows && now <= rows[f].expiresAt && rows[f].model == modelId
        then r == Decode(rows[f].payload) && cache.rows == rows
        else
          && r == Some(backend(f))
          && cache.rows == rows[f := Row(Encode(backend(f)), modelId, later, later + 604800.0)]
    {
      var cached := cache.Get(f, modelId, now);
      if cached.Some? {
        return Decode(cached.value);
      }
      var result := backend(f);
      cache.Set(f, Encode(result), modelId, later);
      r := Some(result);
    }
  }
}
