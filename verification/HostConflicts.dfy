/** Detection of hosts that two ingresses claim for one ingress class, and the removal of
    repeated findings that every analyzer's output goes through afterwards. */
module HostConflicts {
  import opened IdOrder
  import opened JoinedKeys
  import opened Options

  // ---------------------------------------------------------------- findings and their fingerprints

  datatype ResourceRef = ResourceRef(kind: string, ns: string, name: string, uid: string)

  datatype Key = Key(host: string, ingressClass: string)

  datatype Evidence = Other(text: string) | HostConflict(key: Key, conflicting: string)

  datatype Finding = Finding(resource: ResourceRef, severity: string, category: string, evidence: Evidence)

  /** `fingerprint`, before hashing: the hash is taken to tell joined texts apart. */
  function Fingerprint(f: Finding): (r: string) {
    Join([f.resource.kind, f.resource.ns, f.resource.name, f.category], '/')
  }

  predicate PlainRef(r: ResourceRef) {
    '/' !in r.kind && '/' !in r.ns && '/' !in r.name
  }

  /** Same resource kind, namespace, name and category. */
  predicate SameIssue(f: Finding, g: Finding) {
    && f.resource.kind == g.resource.kind && f.resource.ns == g.resource.ns
    && f.resource.name == g.resource.name && f.category == g.category
  }

  lemma FingerprintMeans(f: Finding, g: Finding)
    requires PlainRef(f.resource) && PlainRef(g.resource)
    ensures Fingerprint(f) == Fingerprint(g) <==> SameIssue(f, g)
  {
    var a := [f.resource.kind, f.resource.ns, f.resource.name, f.category];
    var b := [g.resource.kind, g.resource.ns, g.resource.name, g.category];
    if Fingerprint(f) == Fingerprint(g) {
      JoinInjective(a, b, '/');
      assert forall i :: 0 <= i < 4 ==> a[i] == b[i];
    }
  }

  // ---------------------------------------------------------------- run_safe

  /** No earlier finding has this one's fingerprint. */
  predicate IsFirst(fs: seq<Finding>, i: nat)
    requires i < |fs|
  {
    forall j :: 0 <= j < i ==> Fingerprint(fs[j]) != Fingerprint(fs[i])
  }

  /** Places of the findings that are first with their fingerprint. */
  function FirstPlaces(fs: seq<Finding>): (r: seq<nat>)
    ensures forall k :: 0 <= k < |r| ==> r[k] < |fs|
  {
    if fs == [] then []
    else
      var n := |fs| - 1;
      FirstPlaces(fs[..n]) + if IsFirst(fs, n) then [n] else []
  }

  /** The findings at given places. */
  function Select(fs: seq<Finding>, places: seq<nat>): (r: seq<Finding>)
    requires forall k :: 0 <= k < |places| ==> places[k] < |fs|
    ensures |r| == |places| && forall k :: 0 <= k < |r| ==> r[k] == fs[places[k]]
  {
    seq(|places|, k requires 0 <= k < |places| => fs[places[k]])
  }

  function Kept(fs: seq<Finding>): (r: seq<Finding>) {
    Select(fs, FirstPlaces(fs))
  }

  lemma IsFirstInPrefix(fs: seq<Finding>, n: nat, i: nat)
    requires i < n <= |fs|
    ensures IsFirst(fs[..n], i) <==> IsFirst(fs, i)
  {
    assert forall j :: 0 <= j <= i ==> fs[..n][j] == fs[j];
  }

  /** Exactly the first finding of each fingerprint is kept, and the order stays. */
  lemma {:induction false} KeptExactly(fs: seq<Finding>)
    ensures Increasing(FirstPlaces(fs))
    ensures forall i: nat :: i < |fs| ==> (i in FirstPlaces(fs) <==> IsFirst(fs, i))
  {
    if fs != [] {
      var n := |fs| - 1;
      KeptExactly(fs[..n]);
      forall i: nat | i < n
        ensures i in FirstPlaces(fs) <==> IsFirst(fs, i)
      {
        IsFirstInPrefix(fs, n, i);
      }
    }
  }

  ghost predicate NoRepeats(fs: seq<Finding>) {
    forall i, j :: 0 <= i < j < |fs| ==> Fingerprint(fs[i]) != Fingerprint(fs[j])
  }

  lemma KeptNoRepeats(fs: seq<Finding>)
    ensures NoRepeats(Kept(fs))
  {
    KeptExactly(fs);
    var p := FirstPlaces(fs);
    forall i, j | 0 <= i < j < |p|
      ensures Fingerprint(Kept(fs)[i]) != Fingerprint(Kept(fs)[j])
    {
      assert p[j] in p && p[i] < p[j] && IsFirst(fs, p[j]);
    }
  }

  /** Every fingerprint that was found is still represented. */
  lemma {:induction false} KeptCovers(fs: seq<Finding>, i: nat) returns (k: nat)
    requires i < |fs|
    ensures k < |Kept(fs)| && Fingerprint(Kept(fs)[k]) == Fingerprint(fs[i])
    decreases i
  {
    KeptExactly(fs);
    if IsFirst(fs, i) {
      assert i in FirstPlaces(fs);
      k :| 0 <= k < |FirstPlaces(fs)| && FirstPlaces(fs)[k] == i;
    } else {
      var j :| 0 <= j < i && Fingerprint(fs[j]) == Fingerprint(fs[i]);
      k := KeptCovers(fs, j);
    }
  }

  /** Among plainly named resources, a finding is kept exactly if no earlier one is about the
      same resource and category. */
  lemma KeptMeans(fs: seq<Finding>, i: nat)
    requires i < |fs| && forall j :: 0 <= j < |fs| ==> PlainRef(fs[j].resource)
    ensures i in FirstPlaces(fs) <==> forall j :: 0 <= j < i ==> !SameIssue(fs[j], fs[i])
  {
    KeptExactly(fs);
    forall j | 0 <= j < i
      ensures Fingerprint(fs[j]) == Fingerprint(fs[i]) <==> SameIssue(fs[j], fs[i])
    {
      FingerprintMeans(fs[j], fs[i]);
    }
  }

  lemma KeptOfPrefix(fs: seq<Finding>, n: nat)
    requires n < |fs|
    ensures Kept(fs[..n + 1]) == Kept(fs[..n]) + if IsFirst(fs, n) then [fs[n]] else []
  {
    var longer, shorter := fs[..n + 1], fs[..n];
    assert longer[..n] == shorter;
    IsFirstInPrefix(fs, n + 1, n);
    SelectFromPrefix(longer, n, FirstPlaces(shorter));
    assert longer[n] == fs[n];
  }

  lemma SelectFromPrefix(fs: seq<Finding>, n: nat, places: seq<nat>)
    requires n <= |fs| && forall k :: 0 <= k < |places| ==> places[k] < n
    ensures Select(fs, places) == Select(fs[..n], places)
  {
  }

  /** The set holds the fingerprints of the first n findings. */
  ghost predicate Holds(seen: set<string>, fs: seq<Finding>, n: nat)
    requires n <= |fs|
  {
    forall fp :: fp in seen <==> exists j :: 0 <= j < n && Fingerprint(fs[j]) == fp
  }

  lemma HoldsNext(seen: set<string>, fs: seq<Finding>, n: nat)
    requires n < |fs| && Holds(seen, fs, n)
    ensures Fingerprint(fs[n]) in seen <==> !IsFirst(fs, n)
    ensures Holds(seen + {Fingerprint(fs[n])}, fs, n + 1)
  {
  }

  /** The loop of `run_safe` that drops repeats. */
  method DropRepeats(findings: seq<Finding>) returns (deduped: seq<Finding>)
    ensures deduped == Kept(findings)
  {
    var seen: set<string> := {};
    deduped := [];
    for n := 0 to |findings|
      invariant Holds(seen, findings, n)
      invariant deduped == Kept(findings[..n])
    {
      var fp := Fingerprint(findings[n]);
      KeptOfPrefix(findings, n);
      HoldsNext(seen, findings, n);
      if fp !in seen {
        seen := seen + {fp};
        deduped := deduped + [findings[n]];
      } else {
        AddSeen(seen, fp);
      }
    }
    assert findings[..|findings|] == findings;
  }

  /** `run_safe`: None stands for an analysis that raised. */
  method RunSafe(preCheck: bool, analysis: Option<seq<Finding>>) returns (deduped: seq<Finding>)
    ensures deduped == if preCheck && analysis.Some? then Kept(analysis.value) else []
  {
    if !preCheck || analysis.None? {
      return [];
    }
    deduped := DropRepeats(analysis.value);
  }

  lemma AddSeen(seen: set<string>, fp: string)
    requires fp in seen
    ensures seen + {fp} == seen
  {
  }

  // ---------------------------------------------------------------- claims

  datatype Ingress = Ingress(
    ns: string, name: string, uid: Option<string>, className: Option<string>,
    annotations: map<string, string>, hosts: seq<Option<string>>)

  const CLASS_ANNOTATION := "kubernetes.io/ingress.class"

  /** The class field counts unless it is missing or empty; then the annotation, then "default". */
  function IngressClass(ing: Ingress): (r: string) {
    if ing.className.Some? && ing.className.value != "" then ing.className.value
    else if CLASS_ANNOTATION in ing.annotations then ing.annotations[CLASS_ANNOTATION]
    else "default"
  }

  function Ref(ing: Ingress): (r: ResourceRef) {
    ResourceRef("Ingress", ing.ns, ing.name, if ing.uid.Some? then ing.uid.value else "")
  }

  function FullName(ing: Ingress): (r: string) {
    ing.ns + "/" + ing.name
  }

  /** One rule of one ingress. */
  datatype Claim = Claim(owner: ResourceRef, fqn: string, key: Key)

  function ClaimAt(ing: Ingress, i: nat): (c: Claim)
    requires i < |ing.hosts|
  {
    Claim(Ref(ing), FullName(ing), Key(if ing.hosts[i].Some? then ing.hosts[i].value else "", IngressClass(ing)))
  }

  function ClaimsOf(ing: Ingress): (r: seq<Claim>)
    ensures |r| == |ing.hosts| && forall i :: 0 <= i < |r| ==> r[i] == ClaimAt(ing, i)
  {
    seq(|ing.hosts|, i requires 0 <= i < |ing.hosts| => ClaimAt(ing, i))
  }

  function AllClaims(ings: seq<Ingress>): (r: seq<Claim>) {
    if ings == [] then [] else AllClaims(ings[..|ings| - 1]) + ClaimsOf(ings[|ings| - 1])
  }

  /** Who claimed the key first. */
  function FirstClaimant(claims: seq<Claim>, key: Key): (r: Option<string>) {
    if claims == [] then None
    else if claims[0].key == key then Some(claims[0].fqn)
    else FirstClaimant(claims[1..], key)
  }

  function Conflict(c: Claim, first: string): (f: Finding) {
    Finding(c.owner, "high", "host-conflict", HostConflict(c.key, first))
  }

  /** The finding due when c follows the earlier claims: none for the first claimant itself. */
  function Due(earlier: seq<Claim>, c: Claim): (r: seq<Finding>) {
    match FirstClaimant(earlier, c.key)
    case Some(first) => if first != c.fqn then [Conflict(c, first)] else []
    case None => []
  }

  /** All conflict findings, claim by claim, after earlier claims. */
  function ReportAfter(earlier: seq<Claim>, claims: seq<Claim>): (r: seq<Finding>)
    decreases |claims|
  {
    if claims == [] then [] else Due(earlier, claims[0]) + ReportAfter(earlier + [claims[0]], claims[1..])
  }

  function Report(claims: seq<Claim>): (r: seq<Finding>) {
    ReportAfter([], claims)
  }

  lemma {:induction false} FirstClaimantAppend(a: seq<Claim>, c: Claim, key: Key)
    ensures FirstClaimant(a + [c], key)
      == if FirstClaimant(a, key).Some? then FirstClaimant(a, key)
         else if c.key == key then Some(c.fqn) else None
  {
    if a == [] {
      assert [] + [c] == [c];
    } else {
      assert (a + [c])[1..] == a[1..] + [c];
      FirstClaimantAppend(a[1..], c, key);
    }
  }

  lemma {:induction false} FirstClaimantMeans(claims: seq<Claim>, key: Key)
    ensures FirstClaimant(claims, key).Some? <==> exists i :: 0 <= i < |claims| && claims[i].key == key
    ensures forall first :: FirstClaimant(claims, key) == Some(first) ==>
      exists i :: 0 <= i < |claims| && claims[i].key == key && claims[i].fqn == first
  {
    if claims != [] && claims[0].key != key {
      var rest := claims[1..];
      FirstClaimantMeans(rest, key);
      assert forall i :: 0 <= i < |rest| ==> rest[i] == claims[i + 1];
      assert forall i :: 0 < i < |claims| ==> claims[i] == rest[i - 1];
    }
  }

  // ---------------------------------------------------------------- sound and complete

  predicate Reports(fs: seq<Finding>, key: Key) {
    exists i :: 0 <= i < |fs| && About(fs[i], key)
  }

  predicate About(f: Finding, key: Key) {
    f.evidence.HostConflict? && f.evidence.key == key
  }

  /** Two different ingresses claim the key. */
  ghost predicate Contested(claims: seq<Claim>, key: Key) {
    exists i, j :: 0 <= i < |claims| && 0 <= j < |claims|
      && claims[i].key == key && claims[j].key == key && claims[i].fqn != claims[j].fqn
  }

  /** Claims of the key by others than its first claimant. */
  function Rivals(claims: seq<Claim>, key: Key, first: string): (n: nat) {
    if claims == [] then 0
    else (if claims[0].key == key && claims[0].fqn != first then 1 else 0) + Rivals(claims[1..], key, first)
  }

  function CountAbout(fs: seq<Finding>, key: Key): (n: nat) {
    if fs == [] then 0 else (if About(fs[0], key) then 1 else 0) + CountAbout(fs[1..], key)
  }

  lemma {:induction false} CountAboutConcat(a: seq<Finding>, b: seq<Finding>, key: Key)
    ensures CountAbout(a + b, key) == CountAbout(a, key) + CountAbout(b, key)
  {
    if a == [] {
      assert a + b == b;
    } else {
      assert (a + b)[1..] == a[1..] + b;
      CountAboutConcat(a[1..], b, key);
    }
  }

  lemma {:induction false} CountAboutMeans(fs: seq<Finding>, key: Key)
    ensures CountAbout(fs, key) > 0 <==> Reports(fs, key)
  {
    if fs != [] {
      CountAboutMeans(fs[1..], key);
      assert forall i :: 0 < i < |fs| ==> fs[i] == fs[1..][i - 1];
    }
  }

  lemma {:induction false} CountAfter(earlier: seq<Claim>, claims: seq<Claim>, key: Key, first: string)
    requires FirstClaimant(earlier, key) == Some(first)
    ensures CountAbout(ReportAfter(earlier, claims), key) == Rivals(claims, key, first)
    decreases |claims|
  {
    if claims != [] {
      FirstClaimantAppend(earlier, claims[0], key);
      CountAfter(earlier + [claims[0]], claims[1..], key, first);
      CountAboutConcat(Due(earlier, claims[0]), ReportAfter(earlier + [claims[0]], claims[1..]), key);
    }
  }

  /** The number of findings about a key is the number of claims by others than the first claimant. */
  lemma {:induction false} CountExactly(earlier: seq<Claim>, claims: seq<Claim>, key: Key)
    requires FirstClaimant(earlier, key) == None
    ensures CountAbout(ReportAfter(earlier, claims), key)
      == if FirstClaimant(claims, key).Some? then Rivals(claims, key, FirstClaimant(claims, key).value) else 0
    decreases |claims|
  {
    if claims != [] {
      var c := claims[0];
      FirstClaimantAppend(earlier, c, key);
      if c.key == key {
        CountAfter(earlier + [c], claims[1..], key, c.fqn);
      } else {
        CountExactly(earlier + [c], claims[1..], key);
      }
      CountAboutConcat(Due(earlier, c), ReportAfter(earlier + [c], claims[1..]), key);
    }
  }

  lemma {:induction false} RivalsMeans(claims: seq<Claim>, key: Key, first: string)
    ensures Rivals(claims, key, first) > 0 <==> exists i :: 0 <= i < |claims| && claims[i].key == key && claims[i].fqn != first
  {
    if claims != [] {
      RivalsMeans(claims[1..], key, first);
      assert forall i :: 0 < i < |claims| ==> claims[i] == claims[1..][i - 1];
      assert forall i :: 0 <= i < |claims[1..]| ==> claims[1..][i] == claims[i + 1];
    }
  }

  /** A key gets a finding exactly if two different ingresses claim it. */
  lemma ReportedExactly(claims: seq<Claim>, key: Key)
    ensures Reports(Report(claims), key) <==> Contested(claims, key)
  {
    CountExactly([], claims, key);
    CountAboutMeans(Report(claims), key);
    FirstClaimantMeans(claims, key);
    match FirstClaimant(claims, key)
    case None =>
    case Some(first) =>
      RivalsMeans(claims, key, first);
  }

  /** How many findings a key gets does depend on the order. */
  lemma CountDependsOnOrder(x: Claim, y: Claim)
    requires x.key == y.key && x.fqn != y.fqn
    ensures multiset([x, y, y]) == multiset([y, y, x])
    ensures CountAbout(Report([x, y, y]), x.key) == 2 && CountAbout(Report([y, y, x]), x.key) == 1
  {
    CountOfThree(x, y, y);
    CountOfThree(y, y, x);
  }

  lemma CountOfThree(x: Claim, y: Claim, z: Claim)
    requires x.key == y.key == z.key
    ensures CountAbout(Report([x, y, z]), x.key)
      == (if y.fqn != x.fqn then 1 else 0) + (if z.fqn != x.fqn then 1 else 0)
  {
    CountExactly([], [x, y, z], x.key);
    RivalsStep(x, [y, z], x.key, x.fqn);
    RivalsStep(y, [z], x.key, x.fqn);
    RivalsStep(z, [], x.key, x.fqn);
    assert [x] + [y, z] == [x, y, z] && [y] + [z] == [y, z] && [z] + [] == [z];
  }

  lemma RivalsStep(c: Claim, rest: seq<Claim>, key: Key, first: string)
    ensures Rivals([c] + rest, key, first)
      == (if c.key == key && c.fqn != first then 1 else 0) + Rivals(rest, key, first)
  {
    assert ([c] + rest)[1..] == rest;
  }

  // ---------------------------------------------------------------- the scan

  /** The host map records the first claimant of every key claimed so far. */
  ghost predicate Records(hostMap: map<Key, string>, claims: seq<Claim>) {
    forall key :: Recorded(hostMap, claims, key)
  }

  ghost predicate Recorded(hostMap: map<Key, string>, claims: seq<Claim>, key: Key) {
    FirstClaimant(claims, key) == if key in hostMap then Some(hostMap[key]) else None
  }

  lemma ShiftOne<T>(earlier: seq<T>, a: seq<T>)
    requires a != []
    ensures (earlier + [a[0]]) + a[1..] == earlier + a
  {
  }

  lemma {:induction false} ReportAfterConcat(earlier: seq<Claim>, a: seq<Claim>, b: seq<Claim>)
    ensures ReportAfter(earlier, a + b) == ReportAfter(earlier, a) + ReportAfter(earlier + a, b)
    decreases |a|
  {
    if a == [] {
      assert a + b == b && earlier + a == earlier;
    } else {
      var now := earlier + [a[0]];
      ConcatTail(a, b);
      ShiftOne(earlier, a);
      ReportAfterConcat(now, a[1..], b);
      Assoc(Due(earlier, a[0]), ReportAfter(now, a[1..]), ReportAfter(earlier + a, b));
    }
  }

  lemma ReportNext(earlier: seq<Claim>, claims: seq<Claim>, i: nat)
    requires i < |claims|
    ensures ReportAfter(earlier, claims[..i + 1]) == ReportAfter(earlier, claims[..i]) + Due(earlier + claims[..i], claims[i])
    ensures earlier + claims[..i + 1] == (earlier + claims[..i]) + [claims[i]]
  {
    assert claims[..i + 1] == claims[..i] + [claims[i]];
    ReportAfterConcat(earlier, claims[..i], [claims[i]]);
    var now := earlier + claims[..i];
    assert [claims[i]][1..] == [];
    assert ReportAfter(now + [claims[i]], []) == [];
  }

  ghost function WithClaim(hostMap: map<Key, string>, c: Claim): (r: map<Key, string>) {
    if c.key in hostMap then hostMap else hostMap[c.key := c.fqn]
  }

  lemma RecordsNext(hostMap: map<Key, string>, earlier: seq<Claim>, c: Claim)
    requires Records(hostMap, earlier)
    ensures Records(WithClaim(hostMap, c), earlier + [c])
    ensures Due(earlier, c) == if c.key in hostMap && hostMap[c.key] != c.fqn then [Conflict(c, hostMap[c.key])] else []
  {
    assert Recorded(hostMap, earlier, c.key);
    forall key
      ensures Recorded(WithClaim(hostMap, c), earlier + [c], key)
    {
      assert Recorded(hostMap, earlier, key);
      FirstClaimantAppend(earlier, c, key);
    }
  }

  lemma SameEntryAgain<K, V>(m: map<K, V>, k: K, v: V)
    requires k in m && m[k] == v
    ensures m[k := v] == m
  {
  }

  class Scan {
    var hostMap: map<Key, string>
    var findings: seq<Finding>

    constructor ()
      ensures hostMap == map[] && findings == []
    {
      hostMap, findings := map[], [];
    }

    /** `_detect_host_conflicts` */
    method DetectHostConflicts(ing: Ingress, ghost earlier: seq<Claim>)
      requires Records(hostMap, earlier)
      modifies this
      ensures Records(hostMap, earlier + ClaimsOf(ing))
      ensures findings == old(findings) + ReportAfter(earlier, ClaimsOf(ing))
    {
      var fqn := FullName(ing);
      var ic := IngressClass(ing);
      ghost var claims := ClaimsOf(ing);
      ghost var before := findings;
      assert earlier + claims[..0] == earlier;
      for i := 0 to |ing.hosts|
        invariant Records(hostMap, earlier + claims[..i])
        invariant findings == before + ReportAfter(earlier, claims[..i])
      {
        var key := Key(if ing.hosts[i].Some? then ing.hosts[i].value else "", ic);
        ReportNext(earlier, claims, i);
        RecordsNext(hostMap, earlier + claims[..i], claims[i]);
        if key in hostMap && hostMap[key] != fqn {
          findings := findings + [Finding(Ref(ing), "high", "host-conflict", HostConflict(key, hostMap[key]))];
        } else {
          if key in hostMap {
            SameEntryAgain(hostMap, key, fqn);
          }
          hostMap := hostMap[key := fqn];
        }
      }
      assert claims[..|ing.hosts|] == claims;
    }
  }

  type Checks = Ingress -> seq<Finding>

  /** What `analyze` returns; the other checks contribute whatever they find. */
  function Analysis(ings: seq<Ingress>, others: Checks): (r: seq<Finding>) {
    if ings == [] then []
    else
      var prefix, ing := ings[..|ings| - 1], ings[|ings| - 1];
      Analysis(prefix, others) + others(ing) + ReportAfter(AllClaims(prefix), ClaimsOf(ing))
  }

  /** `analyze` */
  method Analyze(ings: seq<Ingress>, others: Checks) returns (findings: seq<Finding>)
    ensures findings == Analysis(ings, others)
  {
    var scan := new Scan();
    for n := 0 to |ings|
      invariant Records(scan.hostMap, AllClaims(ings[..n]))
      invariant scan.findings == Analysis(ings[..n], others)
    {
      assert ings[..n + 1][..n] == ings[..n];
      scan.findings := scan.findings + others(ings[n]);
      scan.DetectHostConflicts(ings[n], AllClaims(ings[..n]));
    }
    assert ings[..|ings|] == ings;
    findings := scan.findings;
  }

  // ---------------------------------------------------------------- from ingresses to kept findings

  function OnlyConflicts(fs: seq<Finding>): (r: seq<Finding>) {
    if fs == [] then []
    else (if fs[0].evidence.HostConflict? then [fs[0]] else []) + OnlyConflicts(fs[1..])
  }

  lemma {:induction false} OnlyConflictsConcat(a: seq<Finding>, b: seq<Finding>)
    ensures OnlyConflicts(a + b) == OnlyConflicts(a) + OnlyConflicts(b)
  {
    if a == [] {
      assert a + b == b;
    } else {
      ConcatTail(a, b);
      OnlyConflictsConcat(a[1..], b);
      Assoc(if a[0].evidence.HostConflict? then [a[0]] else [], OnlyConflicts(a[1..]), OnlyConflicts(b));
    }
  }

  lemma {:induction false} NothingElse(fs: seq<Finding>)
    requires forall i :: 0 <= i < |fs| ==> fs[i].evidence.Other?
    ensures OnlyConflicts(fs) == []
  {
    if fs != [] {
      NothingElse(fs[1..]);
    }
  }

  lemma {:induction false} ReportIsConflicts(earlier: seq<Claim>, claims: seq<Claim>)
    ensures OnlyConflicts(ReportAfter(earlier, claims)) == ReportAfter(earlier, claims)
    decreases |claims|
  {
    if claims != [] {
      var due, rest := Due(earlier, claims[0]), ReportAfter(earlier + [claims[0]], claims[1..]);
      ReportIsConflicts(earlier + [claims[0]], claims[1..]);
      OnlyConflictsConcat(due, rest);
      assert due == [] || due[1..] == [];
      assert OnlyConflicts(due) == due;
    }
  }

  /** The other checks report other things, under other categories. */
  ghost predicate OtherEvidence(others: Checks) {
    forall ing, i :: 0 <= i < |others(ing)| ==>
      others(ing)[i].evidence.Other? && others(ing)[i].category != "host-conflict"
  }

  lemma ConflictsOfParts(a: seq<Finding>, b: seq<Finding>, c: seq<Finding>)
    requires OnlyConflicts(b) == []
    ensures OnlyConflicts(a + b + c) == OnlyConflicts(a) + OnlyConflicts(c)
  {
    OnlyConflictsConcat(a, b);
    OnlyConflictsConcat(a + b, c);
  }

  lemma ReportConcat(a: seq<Claim>, b: seq<Claim>)
    ensures Report(a + b) == Report(a) + ReportAfter(a, b)
  {
    ReportAfterConcat([], a, b);
    assert [] + a == a;
  }

  /** The conflict findings of a whole analysis are the report on all claims, in order. */
  lemma {:induction false} AnalysisReports(ings: seq<Ingress>, others: Checks)
    requires OtherEvidence(others)
    ensures OnlyConflicts(Analysis(ings, others)) == Report(AllClaims(ings))
  {
    if ings != [] {
      var prefix, ing := ings[..|ings| - 1], ings[|ings| - 1];
      AnalysisReports(prefix, others);
      NothingElse(others(ing));
      ReportIsConflicts(AllClaims(prefix), ClaimsOf(ing));
      ConflictsOfParts(Analysis(prefix, others), others(ing), ReportAfter(AllClaims(prefix), ClaimsOf(ing)));
      ReportConcat(AllClaims(prefix), ClaimsOf(ing));
    }
  }

  /** The findings of the other checks, ingress by ingress. */
  function FoundByOthers(ings: seq<Ingress>, others: Checks): (r: seq<Finding>) {
    if ings == [] then [] else FoundByOthers(ings[..|ings| - 1], others) + others(ings[|ings| - 1])
  }

  function NoConflicts(fs: seq<Finding>): (r: seq<Finding>) {
    if fs == [] then []
    else (if fs[0].evidence.HostConflict? then [] else [fs[0]]) + NoConflicts(fs[1..])
  }

  lemma {:induction false} NoConflictsConcat(a: seq<Finding>, b: seq<Finding>)
    ensures NoConflicts(a + b) == NoConflicts(a) + NoConflicts(b)
  {
    if a == [] {
      assert a + b == b;
    } else {
      ConcatTail(a, b);
      NoConflictsConcat(a[1..], b);
      Assoc(if a[0].evidence.HostConflict? then [] else [a[0]], NoConflicts(a[1..]), NoConflicts(b));
    }
  }

  lemma {:induction false} NothingToDrop(fs: seq<Finding>)
    requires forall i :: 0 <= i < |fs| ==> fs[i].evidence.Other?
    ensures NoConflicts(fs) == fs
  {
    if fs != [] {
      NothingToDrop(fs[1..]);
    }
  }

  lemma {:induction false} ReportHasNoOthers(earlier: seq<Claim>, claims: seq<Claim>)
    ensures NoConflicts(ReportAfter(earlier, claims)) == []
    decreases |claims|
  {
    if claims != [] {
      var due, rest := Due(earlier, claims[0]), ReportAfter(earlier + [claims[0]], claims[1..]);
      ReportHasNoOthers(earlier + [claims[0]], claims[1..]);
      NoConflictsConcat(due, rest);
      assert due == [] || due[1..] == [];
    }
  }

  /** What the other checks find is kept, in order. */
  lemma {:induction false} AnalysisKeepsOthers(ings: seq<Ingress>, others: Checks)
    requires OtherEvidence(others)
    ensures NoConflicts(Analysis(ings, others)) == FoundByOthers(ings, others)
  {
    if ings != [] {
      var prefix, ing := ings[..|ings| - 1], ings[|ings| - 1];
      var report := ReportAfter(AllClaims(prefix), ClaimsOf(ing));
      AnalysisKeepsOthers(prefix, others);
      NothingToDrop(others(ing));
      ReportHasNoOthers(AllClaims(prefix), ClaimsOf(ing));
      NoConflictsConcat(Analysis(prefix, others), others(ing));
      NoConflictsConcat(Analysis(prefix, others) + others(ing), report);
    }
  }

  lemma {:induction false} ConflictsCountAlike(fs: seq<Finding>, key: Key)
    ensures CountAbout(OnlyConflicts(fs), key) == CountAbout(fs, key)
  {
    if fs != [] {
      ConflictsCountAlike(fs[1..], key);
      CountAboutConcat(if fs[0].evidence.HostConflict? then [fs[0]] else [], OnlyConflicts(fs[1..]), key);
    }
  }

  /** The class that the ingress names in its field, or else in its annotation, or "default". */
  ghost predicate HasClass(ing: Ingress, ingressClass: string) {
    && (ing.className.Some? && ing.className.value != [] ==> ingressClass == ing.className.value)
    && (ing.className.None? || ing.className.value == [] ==>
          if "kubernetes.io/ingress.class" in ing.annotations
          then ingressClass == ing.annotations["kubernetes.io/ingress.class"]
          else ingressClass == "default")
  }

  /** The rule names the host; a rule for every host counts as one for "". */
  ghost predicate NamesHost(rule: Option<string>, host: string) {
    rule == Some(host) || (rule.None? && host == [])
  }

  ghost predicate ClaimsKey(ing: Ingress, key: Key) {
    HasClass(ing, key.ingressClass) && exists i :: 0 <= i < |ing.hosts| && NamesHost(ing.hosts[i], key.host)
  }

  ghost predicate TwoIngressesClaim(ings: seq<Ingress>, key: Key) {
    exists a, b :: a in ings && b in ings && ClaimsKey(a, key) && ClaimsKey(b, key)
      && a.ns + "/" + a.name != b.ns + "/" + b.name
  }

  /** An ingress of this name in the list claims the key. */
  ghost predicate NameClaims(ings: seq<Ingress>, fqn: string, key: Key) {
    exists a :: a in ings && ClaimsKey(a, key) && FullName(a) == fqn
  }

  ghost predicate ClaimListed(claims: seq<Claim>, fqn: string, key: Key) {
    exists i :: 0 <= i < |claims| && claims[i].fqn == fqn && claims[i].key == key
  }

  lemma ClaimListedConcat(a: seq<Claim>, b: seq<Claim>, fqn: string, key: Key)
    ensures ClaimListed(a + b, fqn, key) <==> ClaimListed(a, fqn, key) || ClaimListed(b, fqn, key)
  {
    var all := a + b;
    assert forall i :: 0 <= i < |a| ==> all[i] == a[i];
    assert forall i :: 0 <= i < |b| ==> all[|a| + i] == b[i];
    assert forall i :: |a| <= i < |all| ==> all[i] == b[i - |a|];
  }

  lemma ClassExactly(ing: Ingress, ingressClass: string)
    ensures HasClass(ing, ingressClass) <==> IngressClass(ing) == ingressClass
  {
  }

  lemma OwnClaims(ing: Ingress, fqn: string, key: Key)
    ensures ClaimListed(ClaimsOf(ing), fqn, key) <==> ClaimsKey(ing, key) && FullName(ing) == fqn
  {
    var claims := ClaimsOf(ing);
    ClassExactly(ing, key.ingressClass);
    forall i | 0 <= i < |ing.hosts|
      ensures claims[i].fqn == FullName(ing)
      ensures claims[i].key == key <==> HasClass(ing, key.ingressClass) && NamesHost(ing.hosts[i], key.host)
    {
      assert claims[i] == ClaimAt(ing, i);
    }
  }

  lemma NameClaimsNext(prefix: seq<Ingress>, ing: Ingress, fqn: string, key: Key)
    ensures NameClaims(prefix + [ing], fqn, key)
      <==> NameClaims(prefix, fqn, key) || (ClaimsKey(ing, key) && FullName(ing) == fqn)
  {
    assert forall a :: a in prefix + [ing] <==> a in prefix || a == ing;
  }

  lemma {:induction false} ClaimsAreListed(ings: seq<Ingress>, fqn: string, key: Key)
    ensures ClaimListed(AllClaims(ings), fqn, key) <==> NameClaims(ings, fqn, key)
  {
    if ings != [] {
      var prefix, ing := ings[..|ings| - 1], ings[|ings| - 1];
      ClaimsAreListed(prefix, fqn, key);
      OwnClaims(ing, fqn, key);
      ClaimListedConcat(AllClaims(prefix), ClaimsOf(ing), fqn, key);
      NameClaimsNext(prefix, ing, fqn, key);
      assert ings == prefix + [ing];
    }
  }

  lemma ContestedMeans(ings: seq<Ingress>, key: Key)
    ensures Contested(AllClaims(ings), key) <==> TwoIngressesClaim(ings, key)
  {
    var claims := AllClaims(ings);
    if Contested(claims, key) {
      var i, j :| 0 <= i < |claims| && 0 <= j < |claims|
        && claims[i].key == key && claims[j].key == key && claims[i].fqn != claims[j].fqn;
      ClaimsAreListed(ings, claims[i].fqn, key);
      ClaimsAreListed(ings, claims[j].fqn, key);
    }
    if TwoIngressesClaim(ings, key) {
      var a, b :| a in ings && b in ings && ClaimsKey(a, key) && ClaimsKey(b, key) && FullName(a) != FullName(b);
      ClaimsAreListed(ings, FullName(a), key);
      ClaimsAreListed(ings, FullName(b), key);
    }
  }

  /** The analysis reports a host exactly if two different ingresses of the list claim it. */
  lemma HostReportedExactly(ings: seq<Ingress>, others: Checks, key: Key)
    requires OtherEvidence(others)
    ensures Reports(Analysis(ings, others), key) <==> TwoIngressesClaim(ings, key)
  {
    AnalysisReports(ings, others);
    ConflictsCountAlike(Analysis(ings, others), key);
    CountAboutMeans(Analysis(ings, others), key);
    CountAboutMeans(Report(AllClaims(ings)), key);
    ReportedExactly(AllClaims(ings), key);
    ContestedMeans(ings, key);
  }

  /** Two ingresses that differ in namespace or name claim the key. */
  ghost predicate DifferentIngressesClaim(ings: seq<Ingress>, key: Key) {
    exists a, b :: a in ings && b in ings && ClaimsKey(a, key) && ClaimsKey(b, key) && (a.ns != b.ns || a.name != b.name)
  }

  /** On namespaces without slashes, which is all of them: a host is reported exactly if two
      ingresses that differ in namespace or name claim it. */
  lemma HostReportedByNames(ings: seq<Ingress>, others: Checks, key: Key)
    requires OtherEvidence(others) && forall a :: a in ings ==> '/' !in a.ns
    ensures Reports(Analysis(ings, others), key) <==> DifferentIngressesClaim(ings, key)
  {
    HostReportedExactly(ings, others, key);
    forall a, b | a in ings && b in ings
      ensures a.ns + "/" + a.name == b.ns + "/" + b.name <==> a.ns == b.ns && a.name == b.name
    {
      SameNames(a.ns, a.name, b.ns, b.name);
    }
  }

  lemma SameNames(ns1: string, name1: string, ns2: string, name2: string)
    requires '/' !in ns1 && '/' !in ns2
    ensures ns1 + "/" + name1 == ns2 + "/" + name2 <==> ns1 == ns2 && name1 == name2
  {
    if ns1 + "/" + name1 == ns2 + "/" + name2 {
      FirstPartsEqual(ns1, name1, ns2, name2, '/');
    }
  }

  /** The order of the list does not matter for which hosts are reported. */
  lemma HostReportedInAnyOrder(a: seq<Ingress>, b: seq<Ingress>, others: Checks, key: Key)
    requires OtherEvidence(others) && multiset(a) == multiset(b)
    ensures Reports(Analysis(a, others), key) <==> Reports(Analysis(b, others), key)
  {
    HostReportedExactly(a, others, key);
    HostReportedExactly(b, others, key);
    assert forall ing :: ing in a <==> ing in multiset(a);
    assert forall ing :: ing in b <==> ing in multiset(b);
  }

  ghost predicate FirstOnItsIssue(fs: seq<Finding>, i: nat)
    requires i < |fs|
  {
    forall j :: 0 <= j < i ==> !SameIssue(fs[j], fs[i])
  }

  /** Every resource and category that was found has exactly one kept finding. */
  lemma OneKeptPerIssue(fs: seq<Finding>, i: nat) returns (k: nat)
    requires i < |fs| && forall j :: 0 <= j < |fs| ==> PlainRef(fs[j].resource)
    ensures k < |Kept(fs)| && SameIssue(Kept(fs)[k], fs[i])
    ensures forall m :: 0 <= m < |Kept(fs)| && SameIssue(Kept(fs)[m], fs[i]) ==> m == k
  {
    k := KeptCovers(fs, i);
    KeptNoRepeats(fs);
    FingerprintMeans(Kept(fs)[k], fs[i]);
    forall m | 0 <= m < |Kept(fs)| && SameIssue(Kept(fs)[m], fs[i])
      ensures m == k
    {
      FingerprintMeans(Kept(fs)[m], Kept(fs)[k]);
    }
  }

  /** A key is still reported after the removal of repeats exactly if some finding about it is
      the first conflict of its ingress. */
  lemma KeySurvivesExactly(fs: seq<Finding>, key: Key)
    requires forall j :: 0 <= j < |fs| ==> PlainRef(fs[j].resource)
    ensures Reports(Kept(fs), key) <==> exists i :: 0 <= i < |fs| && About(fs[i], key) && FirstOnItsIssue(fs, i)
  {
    var p := FirstPlaces(fs);
    if Reports(Kept(fs), key) {
      var k :| 0 <= k < |Kept(fs)| && About(Kept(fs)[k], key);
      assert p[k] in p;
      KeptMeans(fs, p[k]);
      assert FirstOnItsIssue(fs, p[k]);
    }
    if i :| 0 <= i < |fs| && About(fs[i], key) && FirstOnItsIssue(fs, i) {
      KeptMeans(fs, i);
      assert i in p;
      var k :| 0 <= k < |p| && p[k] == i;
      assert About(Kept(fs)[k], key);
    }
  }

  lemma ReportSnoc(claims: seq<Claim>, c: Claim)
    ensures Report(claims + [c]) == Report(claims) + Due(claims, c)
  {
    ReportConcat(claims, [c]);
    assert [c][1..] == [];
    assert ReportAfter(claims + [c], []) == [];
  }

  /** The finding is about claim j, which comes after claim i of another ingress, the first of
      the key, and names both. */
  ghost predicate Accuses(f: Finding, claims: seq<Claim>, i: nat, j: nat) {
    && i < j < |claims| && claims[i].key == claims[j].key && claims[i].fqn != claims[j].fqn
    && (forall h :: 0 <= h < i ==> claims[h].key != claims[j].key)
    && f == Finding(claims[j].owner, "high", "host-conflict", HostConflict(claims[j].key, claims[i].fqn))
  }

  lemma {:induction false} FirstClaimantPlace(claims: seq<Claim>, key: Key) returns (i: nat)
    requires FirstClaimant(claims, key).Some?
    ensures i < |claims| && claims[i].key == key && FirstClaimant(claims, key) == Some(claims[i].fqn)
    ensures forall h :: 0 <= h < i ==> claims[h].key != key
  {
    if claims[0].key == key {
      i := 0;
    } else {
      i := FirstClaimantPlace(claims[1..], key);
      assert forall h :: 0 < h <= i ==> claims[h] == claims[1..][h - 1];
      i := i + 1;
    }
  }

  lemma AccusesInLonger(f: Finding, claims: seq<Claim>, c: Claim, i: nat, j: nat)
    requires Accuses(f, claims, i, j)
    ensures Accuses(f, claims + [c], i, j)
  {
  }

  /** Every finding of the report names a later claimant as its resource, and the first one. */
  lemma {:induction false} EveryFindingAccuses(claims: seq<Claim>, k: nat) returns (i: nat, j: nat)
    requires k < |Report(claims)|
    ensures Accuses(Report(claims)[k], claims, i, j)
    decreases |claims|
  {
    var prefix, c := claims[..|claims| - 1], claims[|claims| - 1];
    assert claims == prefix + [c];
    ReportSnoc(prefix, c);
    if k < |Report(prefix)| {
      i, j := EveryFindingAccuses(prefix, k);
      AccusesInLonger(Report(prefix)[k], prefix, c, i, j);
    } else {
      i := FirstClaimantPlace(prefix, c.key);
      j := |prefix|;
    }
  }

  lemma OwnClaim(ing: Ingress, i: nat)
    requires i < |ing.hosts|
    ensures var c := ClaimsOf(ing)[i];
      && c.owner.kind == "Ingress" && c.owner.ns == ing.ns && c.owner.name == ing.name
      && c.fqn == ing.ns + "/" + ing.name && ClaimsKey(ing, c.key)
  {
    var c := ClaimsOf(ing)[i];
    assert c == ClaimAt(ing, i);
    ClassExactly(ing, c.key.ingressClass);
    assert NamesHost(ing.hosts[i], c.key.host);
  }

  /** Every claim is a rule of some ingress of the list. */
  lemma {:induction false} ClaimComesFrom(ings: seq<Ingress>, j: nat) returns (ing: Ingress)
    requires j < |AllClaims(ings)|
    ensures var c := AllClaims(ings)[j];
      && ing in ings
      && c.owner.kind == "Ingress" && c.owner.ns == ing.ns && c.owner.name == ing.name
      && c.fqn == ing.ns + "/" + ing.name && ClaimsKey(ing, c.key)
  {
    var prefix, last := ings[..|ings| - 1], ings[|ings| - 1];
    if j < |AllClaims(prefix)| {
      ing := ClaimComesFrom(prefix, j);
    } else {
      ing := last;
      OwnClaim(last, j - |AllClaims(prefix)|);
    }
  }

  lemma {:induction false} ConflictIsListed(fs: seq<Finding>, k: nat)
    requires k < |fs| && fs[k].evidence.HostConflict?
    ensures fs[k] in OnlyConflicts(fs)
  {
    if k > 0 {
      ConflictIsListed(fs[1..], k - 1);
    }
  }

  /** Every conflict that an analysis reports: of high severity, about an ingress of the list,
      and naming another that claims the same host and class. */
  lemma FindingNamesBoth(ings: seq<Ingress>, others: Checks, f: Finding) returns (a: Ingress, b: Ingress)
    requires OtherEvidence(others) && f in Analysis(ings, others) && f.evidence.HostConflict?
    ensures a in ings && b in ings && ClaimsKey(a, f.evidence.key) && ClaimsKey(b, f.evidence.key)
    ensures a.ns + "/" + a.name != b.ns + "/" + b.name
    ensures f.resource.kind == "Ingress" && f.resource.ns == a.ns && f.resource.name == a.name
    ensures f.severity == "high" && f.category == "host-conflict" && f.evidence.conflicting == b.ns + "/" + b.name
  {
    var fs := Analysis(ings, others);
    var k :| 0 <= k < |fs| && fs[k] == f;
    AnalysisReports(ings, others);
    ConflictIsListed(fs, k);
    var claims := AllClaims(ings);
    var h :| 0 <= h < |Report(claims)| && Report(claims)[h] == f;
    var i, j := EveryFindingAccuses(claims, h);
    a := ClaimComesFrom(ings, j);
    b := ClaimComesFrom(ings, i);
  }

  // ---------------------------------------------------------------- which hosts survive, by claims

  /** Some finding about the key is the first on its issue. */
  ghost predicate Survives(fs: seq<Finding>, key: Key) {
    exists i :: 0 <= i < |fs| && About(fs[i], key) && FirstOnItsIssue(fs, i)
  }

  ghost predicate IssueSeen(fs: seq<Finding>, f: Finding) {
    exists j :: 0 <= j < |fs| && SameIssue(fs[j], f)
  }

  lemma IssueSeenConcat(a: seq<Finding>, b: seq<Finding>, f: Finding)
    ensures IssueSeen(a + b, f) <==> IssueSeen(a, f) || IssueSeen(b, f)
  {
    var all := a + b;
    assert forall j :: 0 <= j < |a| ==> all[j] == a[j];
    assert forall j :: 0 <= j < |b| ==> all[|a| + j] == b[j];
    assert forall j :: |a| <= j < |all| ==> all[j] == b[j - |a|];
  }

  lemma FirstInLonger(fs: seq<Finding>, f: Finding, i: nat)
    requires i < |fs|
    ensures FirstOnItsIssue(fs + [f], i) <==> FirstOnItsIssue(fs, i)
  {
    assert forall j :: 0 <= j < |fs| ==> (fs + [f])[j] == fs[j];
  }

  lemma SurvivesSnoc(fs: seq<Finding>, f: Finding, key: Key)
    ensures Survives(fs + [f], key) <==> Survives(fs, key) || (About(f, key) && !IssueSeen(fs, f))
  {
    var all := fs + [f];
    forall i: nat | i < |fs|
      ensures FirstOnItsIssue(all, i) <==> FirstOnItsIssue(fs, i)
    {
      FirstInLonger(fs, f, i);
    }
    assert forall j :: 0 <= j < |fs| ==> all[j] == fs[j];
    assert all[|fs|] == f;
    assert FirstOnItsIssue(all, |fs|) <==> !IssueSeen(fs, f);
  }

  /** Conflicts, and nothing else, are filed under their category. */
  ghost predicate WellFiled(fs: seq<Finding>) {
    forall i :: 0 <= i < |fs| ==> (fs[i].evidence.HostConflict? <==> fs[i].category == "host-conflict")
  }

  lemma OnlyConflictsSnoc(fs: seq<Finding>, f: Finding)
    ensures OnlyConflicts(fs + [f]) == if f.evidence.HostConflict? then OnlyConflicts(fs) + [f] else OnlyConflicts(fs)
  {
    OnlyConflictsConcat(fs, [f]);
    assert [f][1..] == [];
    assert OnlyConflicts(fs) + [] == OnlyConflicts(fs);
  }

  lemma {:induction false} SeenAmongConflicts(fs: seq<Finding>, f: Finding)
    requires WellFiled(fs) && f.category == "host-conflict"
    ensures IssueSeen(OnlyConflicts(fs), f) <==> IssueSeen(fs, f)
  {
    if fs != [] {
      var prefix, g := fs[..|fs| - 1], fs[|fs| - 1];
      SeenAmongConflicts(prefix, f);
      assert fs == prefix + [g];
      OnlyConflictsSnoc(prefix, g);
      IssueSeenConcat(prefix, [g], f);
      IssueSeenConcat(OnlyConflicts(prefix), [g], f);
      assert IssueSeen([g], f) <==> SameIssue([g][0], f);
    }
  }

  /** The other findings do not decide which conflicts survive. */
  lemma {:induction false} SurvivesAmongConflicts(fs: seq<Finding>, key: Key)
    requires WellFiled(fs)
    ensures Survives(OnlyConflicts(fs), key) <==> Survives(fs, key)
  {
    if fs != [] {
      var prefix, f := fs[..|fs| - 1], fs[|fs| - 1];
      SurvivesAmongConflicts(prefix, key);
      assert fs == prefix + [f];
      OnlyConflictsSnoc(prefix, f);
      SurvivesSnoc(prefix, f, key);
      if f.evidence.HostConflict? {
        SeenAmongConflicts(prefix, f);
        SurvivesSnoc(OnlyConflicts(prefix), f, key);
      }
    }
  }

  /** Claim j is by another than the first claimant of its key. */
  predicate Disputed(claims: seq<Claim>, j: nat)
    requires j < |claims|
  {
    Due(claims[..j], claims[j]) != []
  }

  predicate SameOwner(a: ResourceRef, b: ResourceRef) {
    a.kind == b.kind && a.ns == b.ns && a.name == b.name
  }

  /** The owner has a disputed claim. */
  ghost predicate HasDispute(claims: seq<Claim>, owner: ResourceRef) {
    exists j :: 0 <= j < |claims| && Disputed(claims, j) && SameOwner(claims[j].owner, owner)
  }

  /** Some disputed claim of the key is the first disputed claim of its owner. */
  ghost predicate FirstDisputeOf(claims: seq<Claim>, key: Key) {
    exists j :: 0 <= j < |claims| && claims[j].key == key && Disputed(claims, j) && !HasDispute(claims[..j], claims[j].owner)
  }

  lemma DisputedInLonger(claims: seq<Claim>, c: Claim)
    ensures forall j: nat :: j < |claims| ==> (Disputed(claims + [c], j) <==> Disputed(claims, j))
    ensures Disputed(claims + [c], |claims|) <==> Due(claims, c) != []
  {
    assert forall j: nat :: j <= |claims| ==> (claims + [c])[..j] == claims[..j];
    assert claims[..|claims|] == claims;
  }

  lemma HasDisputeSnoc(claims: seq<Claim>, c: Claim, owner: ResourceRef)
    ensures HasDispute(claims + [c], owner)
      <==> HasDispute(claims, owner) || (Due(claims, c) != [] && SameOwner(c.owner, owner))
  {
    DisputedInLonger(claims, c);
    assert forall j :: 0 <= j < |claims| ==> (claims + [c])[j] == claims[j];
    assert (claims + [c])[|claims|] == c;
  }

  lemma FirstDisputeSnoc(claims: seq<Claim>, c: Claim, key: Key)
    ensures FirstDisputeOf(claims + [c], key)
      <==> FirstDisputeOf(claims, key) || (c.key == key && Due(claims, c) != [] && !HasDispute(claims, c.owner))
  {
    var all := claims + [c];
    DisputedInLonger(claims, c);
    forall j: nat | j < |claims|
      ensures all[j] == claims[j] && all[..j] == claims[..j]
    {
    }
    assert all[|claims|] == c && all[..|claims|] == claims;
  }

  lemma {:induction false} SeenInReport(claims: seq<Claim>, c: Claim, first: string)
    ensures IssueSeen(Report(claims), Conflict(c, first)) <==> HasDispute(claims, c.owner)
  {
    if claims == [] {
    } else {
      var prefix, last := claims[..|claims| - 1], claims[|claims| - 1];
      SeenInReport(prefix, c, first);
      assert claims == prefix + [last];
      ReportSnoc(prefix, last);
      IssueSeenConcat(Report(prefix), Due(prefix, last), Conflict(c, first));
      HasDisputeSnoc(prefix, last, c.owner);
      SeenInDue(prefix, last, c, first);
    }
  }

  lemma SeenInDue(earlier: seq<Claim>, last: Claim, c: Claim, first: string)
    ensures IssueSeen(Due(earlier, last), Conflict(c, first)) <==> Due(earlier, last) != [] && SameOwner(last.owner, c.owner)
  {
    var due := Due(earlier, last);
    assert due != [] ==> |due| == 1 && SameIssue(due[0], Conflict(c, first)) == SameOwner(last.owner, c.owner);
  }

  lemma {:induction false} ReportSurvives(claims: seq<Claim>, key: Key)
    ensures Survives(Report(claims), key) <==> FirstDisputeOf(claims, key)
  {
    if claims == [] {
    } else {
      var prefix, c := claims[..|claims| - 1], claims[|claims| - 1];
      ReportSurvives(prefix, key);
      assert claims == prefix + [c];
      ReportSnoc(prefix, c);
      FirstDisputeSnoc(prefix, c, key);
      DueSurvives(prefix, c, key);
    }
  }

  lemma DueSurvives(prefix: seq<Claim>, c: Claim, key: Key)
    ensures Survives(Report(prefix) + Due(prefix, c), key)
      <==> Survives(Report(prefix), key) || (c.key == key && Due(prefix, c) != [] && !HasDispute(prefix, c.owner))
  {
    var due := Due(prefix, c);
    if due == [] {
      assert Report(prefix) + due == Report(prefix);
    } else {
      var first := FirstClaimant(prefix, c.key).value;
      SurvivesSnoc(Report(prefix), Conflict(c, first), key);
      SeenInReport(prefix, c, first);
    }
  }

  ghost predicate PlainIngresses(ings: seq<Ingress>, others: Checks) {
    forall i :: 0 <= i < |ings| ==> '/' !in ings[i].ns && '/' !in ings[i].name && PlainFindings(others(ings[i]))
  }

  ghost predicate PlainFindings(fs: seq<Finding>) {
    forall i :: 0 <= i < |fs| ==> PlainRef(fs[i].resource)
  }

  lemma {:induction false} ReportIsPlain(earlier: seq<Claim>, claims: seq<Claim>)
    requires forall i :: 0 <= i < |claims| ==> PlainRef(claims[i].owner)
    ensures PlainFindings(ReportAfter(earlier, claims)) && WellFiled(ReportAfter(earlier, claims))
    decreases |claims|
  {
    if claims != [] {
      assert forall i :: 0 <= i < |claims[1..]| ==> claims[1..][i] == claims[i + 1];
      ReportIsPlain(earlier + [claims[0]], claims[1..]);
    }
  }

  lemma PlainConcat(a: seq<Finding>, b: seq<Finding>)
    requires PlainFindings(a) && PlainFindings(b) && WellFiled(a) && WellFiled(b)
    ensures PlainFindings(a + b) && WellFiled(a + b)
  {
  }

  lemma OwnClaimsPlain(ing: Ingress)
    requires '/' !in ing.ns && '/' !in ing.name
    ensures forall i :: 0 <= i < |ClaimsOf(ing)| ==> PlainRef(ClaimsOf(ing)[i].owner)
  {
    assert '/' !in "Ingress";
  }

  lemma {:induction false} AnalysisIsPlain(ings: seq<Ingress>, others: Checks)
    requires OtherEvidence(others) && PlainIngresses(ings, others)
    ensures PlainFindings(Analysis(ings, others)) && WellFiled(Analysis(ings, others))
  {
    if ings != [] {
      var prefix, ing := ings[..|ings| - 1], ings[|ings| - 1];
      AnalysisIsPlain(prefix, others);
      OwnClaimsPlain(ing);
      ReportIsPlain(AllClaims(prefix), ClaimsOf(ing));
      PlainConcat(Analysis(prefix, others), others(ing));
      PlainConcat(Analysis(prefix, others) + others(ing), ReportAfter(AllClaims(prefix), ClaimsOf(ing)));
    }
  }

  /** After the removal of repeats a host is still reported exactly if, for some ingress, it is
      the first host that the ingress claims after another has claimed it. */
  lemma HostSurvivesExactly(ings: seq<Ingress>, others: Checks, key: Key)
    requires OtherEvidence(others) && PlainIngresses(ings, others)
    ensures Reports(Kept(Analysis(ings, others)), key) <==> FirstDisputeOf(AllClaims(ings), key)
  {
    AnalysisIsPlain(ings, others);
    KeySurvivesExactly(Analysis(ings, others), key);
    SurvivesAmongConflicts(Analysis(ings, others), key);
    AnalysisReports(ings, others);
    ReportSurvives(AllClaims(ings), key);
  }

  /** Two ingresses that share two hosts: both hosts are reported, and the removal of repeats
      drops the second, because both findings are about the same ingress. */
  lemma SecondSharedHostIsLost(x: Claim, y: Claim, other: Key)
    requires x.key == y.key && x.fqn != y.fqn && other != x.key && PlainRef(y.owner)
    ensures var report := Report([x, x.(key := other), y, y.(key := other)]);
      Reports(report, x.key) && Reports(report, other)
      && Reports(Kept(report), x.key) && !Reports(Kept(report), other)
  {
    var x2, y2 := x.(key := other), y.(key := other);
    var claims := [x, x2, y, y2];
    assert claims == (([x] + [x2]) + [y]) + [y2];
    TwoFindings(x, x2, y, y2);
    var fs := [Conflict(y, x.fqn), Conflict(y2, x.fqn)];
    assert About(fs[0], x.key) && About(fs[1], other) && FirstOnItsIssue(fs, 0);
    KeySurvivesExactly(fs, x.key);
    KeySurvivesExactly(fs, other);
    assert SameIssue(fs[0], fs[1]) && !About(fs[0], other);
  }

  lemma TwoFindings(x: Claim, x2: Claim, y: Claim, y2: Claim)
    requires x.key == y.key && x2.key == y2.key && x.key != x2.key
    requires x.fqn == x2.fqn && y.fqn == y2.fqn && x.fqn != y.fqn
    ensures Report([x, x2, y, y2]) == [Conflict(y, x.fqn), Conflict(y2, x.fqn)]
  {
    NoFindingYet(x, x2);
    FirstClaimantAppend([], x, x.key);
    FirstClaimantAppend([], x, x2.key);
    FirstClaimantAppend([x], x2, x.key);
    FirstClaimantAppend([x], x2, x2.key);
    FirstClaimantAppend([x] + [x2], y, x2.key);
    ReportSnoc([x] + [x2], y);
    ReportSnoc([x] + [x2] + [y], y2);
    assert [x] + [x2] + [y] + [y2] == [x, x2, y, y2] && [] + [x] == [x];
  }

  lemma NoFindingYet(x: Claim, x2: Claim)
    requires x.key != x2.key
    ensures Report([x] + [x2]) == []
  {
    ReportSnoc([], x);
    ReportSnoc([x], x2);
    FirstClaimantAppend([], x, x2.key);
    assert [] + [x] == [x];
  }
}
