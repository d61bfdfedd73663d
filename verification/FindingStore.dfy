/** The finding store: one row per fingerprint, with a counter that is incremented on each
    further sighting. */
module FindingStore {
  import opened JoinedKeys
  import opened Options

  datatype Finding = Finding(ns: string, kind: string, name: string, severity: string, rootCauseHash: string)

  datatype Sighting = Sighting(finding: Finding, now: int)

  datatype Row = Row(fingerprint: string, firstSeen: int, lastSeen: int, occurrenceCount: nat, finding: Finding, status: string)

  function Fields(f: Finding): (r: seq<string>) {
    [f.ns, f.kind, f.name, f.severity, f.rootCauseHash]
  }

  /** `_fingerprint`, before hashing: the hash is taken to tell joined texts apart. */
  function Fingerprint(f: Finding): (r: string) {
    Join(Fields(f), '|')
  }

  const SEVERITIES: seq<string> := ["critical", "high", "medium", "low", "info"]

  /** Place of the row with this fingerprint, or the end of the table. */
  function Position(rows: seq<Row>, key: string): (i: nat)
    ensures i <= |rows|
    ensures i < |rows| ==> rows[i].fingerprint == key
    ensures forall j :: 0 <= j < i ==> rows[j].fingerprint != key
  {
    if rows == [] || rows[0].fingerprint == key then 0 else 1 + Position(rows[1..], key)
  }

  /** The insert-or-increment statement. A severity outside the list fails the table's check. */
  function Upsert(rows: seq<Row>, s: Sighting): (r: seq<Row>) {
    var key := Fingerprint(s.finding);
    var i := Position(rows, key);
    if s.finding.severity !in SEVERITIES then rows
    else if i < |rows| then rows[i := rows[i].(lastSeen := s.now, occurrenceCount := rows[i].occurrenceCount + 1)]
    else rows + [Row(key, s.now, s.now, 1, s.finding, "open")]
  }

  function Run(sightings: seq<Sighting>): (rows: seq<Row>) {
    if sightings == [] then [] else Upsert(Run(sightings[..|sightings| - 1]), sightings[|sightings| - 1])
  }

  // ---------------------------------------------------------------- rows and the history

  predicate Accepted(s: Sighting, key: string) {
    s.finding.severity in SEVERITIES && Fingerprint(s.finding) == key
  }

  /** The accepted sightings with this fingerprint, in order. */
  function Sought(sightings: seq<Sighting>, key: string): (r: seq<Sighting>)
    ensures forall i :: 0 <= i < |r| ==> Accepted(r[i], key)
  {
    if sightings == [] then []
    else
      var last := sightings[|sightings| - 1];
      Sought(sightings[..|sightings| - 1], key) + if Accepted(last, key) then [last] else []
  }

  /** The row that stands for a list of sightings of one fingerprint. */
  function RowFor(key: string, seen: seq<Sighting>): (r: Row)
    requires seen != []
  {
    Row(key, seen[0].now, seen[|seen| - 1].now, |seen|, seen[0].finding, "open")
  }

  ghost predicate OneRowPerKey(rows: seq<Row>) {
    forall i, j :: 0 <= i < j < |rows| ==> rows[i].fingerprint != rows[j].fingerprint
  }

  ghost predicate Reflects(row: Row, sightings: seq<Sighting>) {
    var seen := Sought(sightings, row.fingerprint);
    seen != [] && row == RowFor(row.fingerprint, seen)
  }

  ghost predicate Listed(rows: seq<Row>, sightings: seq<Sighting>, key: string) {
    Position(rows, key) < |rows| <==> Sought(sightings, key) != []
  }

  lemma ExtendSought(prefix: seq<Sighting>, s: Sighting, key: string)
    ensures Sought(prefix + [s], key) == Sought(prefix, key) + if Accepted(s, key) then [s] else []
  {
    assert (prefix + [s])[..|prefix + [s]| - 1] == prefix;
  }

  lemma UpsertListed(rows: seq<Row>, prefix: seq<Sighting>, s: Sighting, key: string)
    requires Listed(rows, prefix, key)
    ensures Listed(Upsert(rows, s), prefix + [s], key)
  {
    ExtendSought(prefix, s, key);
    var own := Fingerprint(s.finding);
    PositionAfter(rows, s, key);
  }

  lemma PositionAfter(rows: seq<Row>, s: Sighting, key: string)
    ensures Position(Upsert(rows, s), key) < |Upsert(rows, s)|
      <==> Position(rows, key) < |rows| || Accepted(s, key)
  {
    var after := Upsert(rows, s);
    var p, q, own := Position(rows, key), Position(after, key), Position(rows, Fingerprint(s.finding));
    if p < |rows| {
      assert after[p].fingerprint == key;
    } else if Accepted(s, key) {
      assert after[|rows|].fingerprint == key;
    } else {
      assert forall j :: 0 <= j < |after| ==> after[j].fingerprint != key;
    }
  }

  /** A row is bumped by a sighting of its fingerprint. */
  lemma BumpReflects(row: Row, prefix: seq<Sighting>, s: Sighting)
    requires Reflects(row, prefix) && Accepted(s, row.fingerprint)
    ensures Reflects(row.(lastSeen := s.now, occurrenceCount := row.occurrenceCount + 1), prefix + [s])
  {
    ExtendSought(prefix, s, row.fingerprint);
  }

  lemma OtherReflects(row: Row, prefix: seq<Sighting>, s: Sighting)
    requires Reflects(row, prefix) && !Accepted(s, row.fingerprint)
    ensures Reflects(row, prefix + [s])
  {
    ExtendSought(prefix, s, row.fingerprint);
  }

  lemma NewReflects(prefix: seq<Sighting>, s: Sighting)
    requires s.finding.severity in SEVERITIES && Sought(prefix, Fingerprint(s.finding)) == []
    ensures Reflects(Row(Fingerprint(s.finding), s.now, s.now, 1, s.finding, "open"), prefix + [s])
  {
    ExtendSought(prefix, s, Fingerprint(s.finding));
  }

  lemma UpsertReflects(rows: seq<Row>, prefix: seq<Sighting>, s: Sighting, i: nat)
    requires i < |Upsert(rows, s)| && OneRowPerKey(rows)
    requires Listed(rows, prefix, Fingerprint(s.finding))
    requires i < |rows| ==> Reflects(rows[i], prefix)
    ensures Reflects(Upsert(rows, s)[i], prefix + [s])
  {
    var key := Fingerprint(s.finding);
    if i == |rows| {
      NewReflects(prefix, s);
    } else if Accepted(s, rows[i].fingerprint) {
      assert Position(rows, key) == i;
      BumpReflects(rows[i], prefix, s);
    } else {
      OtherReflects(rows[i], prefix, s);
    }
  }

  ghost predicate AllReflect(rows: seq<Row>, sightings: seq<Sighting>) {
    forall i :: 0 <= i < |rows| ==> Reflects(rows[i], sightings)
  }

  ghost predicate AllListed(rows: seq<Row>, sightings: seq<Sighting>) {
    forall key :: Listed(rows, sightings, key)
  }

  lemma StepListed(rows: seq<Row>, prefix: seq<Sighting>, s: Sighting)
    requires AllListed(rows, prefix)
    ensures AllListed(Upsert(rows, s), prefix + [s])
  {
    forall key
      ensures Listed(Upsert(rows, s), prefix + [s], key)
    {
      assert Listed(rows, prefix, key);
      UpsertListed(rows, prefix, s, key);
    }
  }

  lemma StepReflects(rows: seq<Row>, prefix: seq<Sighting>, s: Sighting)
    requires OneRowPerKey(rows) && AllListed(rows, prefix) && AllReflect(rows, prefix)
    ensures AllReflect(Upsert(rows, s), prefix + [s])
  {
    assert Listed(rows, prefix, Fingerprint(s.finding));
    forall i | 0 <= i < |Upsert(rows, s)|
      ensures Reflects(Upsert(rows, s)[i], prefix + [s])
    {
      UpsertReflects(rows, prefix, s, i);
    }
  }

  lemma StepUnique(rows: seq<Row>, s: Sighting)
    requires OneRowPerKey(rows)
    ensures OneRowPerKey(Upsert(rows, s))
  {
  }

  /** The rows after any number of sightings: one for each fingerprint seen, with its first
      and last time, its number of sightings and the finding that came first. */
  lemma {:induction false} RowsReflectHistory(sightings: seq<Sighting>)
    ensures var rows := Run(sightings);
      OneRowPerKey(rows) && AllReflect(rows, sightings) && AllListed(rows, sightings)
  {
    if sightings != [] {
      var prefix, s := sightings[..|sightings| - 1], sightings[|sightings| - 1];
      RowsReflectHistory(prefix);
      StepUnique(Run(prefix), s);
      StepReflects(Run(prefix), prefix, s);
      StepListed(Run(prefix), prefix, s);
      assert sightings == prefix + [s];
    }
  }

  // ---------------------------------------------------------------- counting

  ghost function TotalCount(rows: seq<Row>): (n: nat) {
    if rows == [] then 0 else TotalCount(rows[..|rows| - 1]) + rows[|rows| - 1].occurrenceCount
  }

  ghost function AcceptedTotal(sightings: seq<Sighting>): (n: nat) {
    if sightings == [] then 0
    else
      AcceptedTotal(sightings[..|sightings| - 1])
      + if sightings[|sightings| - 1].finding.severity in SEVERITIES then 1 else 0
  }

  lemma {:induction false} BumpOne(rows: seq<Row>, i: nat, row: Row)
    requires i < |rows| && row.occurrenceCount == rows[i].occurrenceCount + 1
    ensures TotalCount(rows[i := row]) == TotalCount(rows) + 1
  {
    var n := |rows| - 1;
    if i == n {
      assert rows[i := row][..n] == rows[..n];
    } else {
      assert rows[i := row][..n] == rows[..n][i := row];
      BumpOne(rows[..n], i, row);
    }
  }

  lemma AddOne(rows: seq<Row>, row: Row)
    ensures TotalCount(rows + [row]) == TotalCount(rows) + row.occurrenceCount
  {
    assert (rows + [row])[..|rows + [row]| - 1] == rows;
  }

  /** The counts add up to the number of accepted sightings. */
  lemma {:induction false} CountsAddUp(sightings: seq<Sighting>)
    ensures TotalCount(Run(sightings)) == AcceptedTotal(sightings)
  {
    if sightings != [] {
      var prefix, s := sightings[..|sightings| - 1], sightings[|sightings| - 1];
      CountsAddUp(prefix);
      var rows := Run(prefix);
      var i := Position(rows, Fingerprint(s.finding));
      if s.finding.severity in SEVERITIES {
        if i < |rows| {
          BumpOne(rows, i, rows[i].(lastSeen := s.now, occurrenceCount := rows[i].occurrenceCount + 1));
        } else {
          AddOne(rows, Row(Fingerprint(s.finding), s.now, s.now, 1, s.finding, "open"));
        }
      }
    }
  }

  /** How often this very finding was sighted. */
  function Multiplicity(sightings: seq<Sighting>, f: Finding): (n: nat) {
    if sightings == [] then 0
    else
      Multiplicity(sightings[..|sightings| - 1], f) + if sightings[|sightings| - 1].finding == f then 1 else 0
  }

  /** Some other accepted finding in the history has the same fingerprint. */
  ghost predicate Confused(sightings: seq<Sighting>, f: Finding) {
    exists i :: 0 <= i < |sightings| && Accepted(sightings[i], Fingerprint(f)) && sightings[i].finding != f
  }

  lemma ConfusedGrows(prefix: seq<Sighting>, s: Sighting, f: Finding)
    ensures Confused(prefix + [s], f)
      <==> Confused(prefix, f) || (Accepted(s, Fingerprint(f)) && s.finding != f)
  {
    var all := prefix + [s];
    if Confused(prefix, f) {
      var i :| 0 <= i < |prefix| && Accepted(prefix[i], Fingerprint(f)) && prefix[i].finding != f;
      assert all[i] == prefix[i];
    }
    assert all[|prefix|] == s;
  }

  /** A finding's row counts its own sightings, and more exactly if another one is confused with it. */
  lemma {:induction false} CountIsMultiplicityExactly(sightings: seq<Sighting>, f: Finding)
    requires f.severity in SEVERITIES
    ensures |Sought(sightings, Fingerprint(f))| >= Multiplicity(sightings, f)
    ensures |Sought(sightings, Fingerprint(f))| == Multiplicity(sightings, f) <==> !Confused(sightings, f)
  {
    if sightings != [] {
      var prefix, s := sightings[..|sightings| - 1], sightings[|sightings| - 1];
      CountIsMultiplicityExactly(prefix, f);
      assert sightings == prefix + [s];
      ConfusedGrows(prefix, s, f);
    }
  }

  /** The first three fields contain no separator. */
  predicate PlainFields(f: Finding) {
    '|' !in f.ns && '|' !in f.kind && '|' !in f.name
  }

  lemma SeverityIsPlain(f: Finding)
    requires PlainFields(f) && f.severity in SEVERITIES
    ensures Separable(Fields(f), '|')
  {
    assert '|' !in "critical" && '|' !in "high" && '|' !in "medium" && '|' !in "low" && '|' !in "info";
  }

  lemma FingerprintInjective(f: Finding, g: Finding)
    requires PlainFields(f) && PlainFields(g) && f.severity in SEVERITIES && g.severity in SEVERITIES
    requires Fingerprint(f) == Fingerprint(g)
    ensures f == g
  {
    SeverityIsPlain(f);
    SeverityIsPlain(g);
    JoinInjective(Fields(f), Fields(g), '|');
    assert forall i :: 0 <= i < 5 ==> Fields(f)[i] == Fields(g)[i];
  }

  ghost predicate AllPlain(sightings: seq<Sighting>) {
    forall i :: 0 <= i < |sightings| ==> PlainFields(sightings[i].finding)
  }

  lemma {:induction false} SoughtIsPlain(sightings: seq<Sighting>, key: string)
    requires AllPlain(sightings)
    ensures AllPlain(Sought(sightings, key))
  {
    if sightings != [] {
      SoughtIsPlain(sightings[..|sightings| - 1], key);
    }
  }

  lemma PlainNotConfused(sightings: seq<Sighting>, f: Finding)
    requires AllPlain(sightings) && PlainFields(f) && f.severity in SEVERITIES
    ensures !Confused(sightings, f)
  {
    forall i | 0 <= i < |sightings| && Accepted(sightings[i], Fingerprint(f))
      ensures sightings[i].finding == f
    {
      FingerprintInjective(sightings[i].finding, f);
    }
  }

  /** Without separators in the names, every sighted finding has a row of its own that counts
      exactly its sightings. */
  lemma EveryFindingCounted(sightings: seq<Sighting>, f: Finding)
    requires AllPlain(sightings) && PlainFields(f) && f.severity in SEVERITIES
    ensures var rows := Run(sightings);
      var i := Position(rows, Fingerprint(f));
      && (i < |rows| <==> Multiplicity(sightings, f) > 0)
      && (i < |rows| ==> rows[i].finding == f && rows[i].occurrenceCount == Multiplicity(sightings, f))
  {
    var key := Fingerprint(f);
    PlainNotConfused(sightings, f);
    CountIsMultiplicityExactly(sightings, f);
    RowsReflectHistory(sightings);
    var rows := Run(sightings);
    assert Listed(rows, sightings, key);
    var i := Position(rows, key);
    if i < |rows| {
      assert Reflects(rows[i], sightings);
      SoughtIsPlain(sightings, key);
      FingerprintInjective(Sought(sightings, key)[0].finding, f);
    }
  }

  lemma RegroupFields(x: string, y: string, z: string, t: string)
    ensures (x + ['|'] + y) + ['|'] + (z + ['|'] + t) == x + ['|'] + ((y + ['|'] + z) + ['|'] + t)
  {
  }

  /** A separator inside a namespace or kind: two findings share a fingerprint, and so one row. */
  lemma SeparatorInNameConfuses(x: string, y: string, z: string, name: string, severity: string, hash: string)
    ensures var f := Finding(x + ['|'] + y, z, name, severity, hash);
      var g := Finding(x, y + ['|'] + z, name, severity, hash);
      f != g && Fingerprint(f) == Fingerprint(g)
  {
    var f := Finding(x + ['|'] + y, z, name, severity, hash);
    var g := Finding(x, y + ['|'] + z, name, severity, hash);
    var tail: seq<string> := [name, severity, hash];
    assert Fields(f) == [f.ns, f.kind] + tail && Fields(g) == [g.ns, g.kind] + tail;
    JoinTwo(f.ns, f.kind, tail);
    JoinTwo(g.ns, g.kind, tail);
    RegroupFields(x, y, z, Join(tail, '|'));
    assert |f.ns| > |g.ns|;
  }

  lemma JoinTwo(x: string, y: string, tail: seq<string>)
    requires tail != []
    ensures Join([x, y] + tail, '|') == x + ['|'] + (y + ['|'] + Join(tail, '|'))
  {
    assert ([x, y] + tail)[1..] == [y] + tail;
    assert ([y] + tail)[1..] == tail;
  }

  // ---------------------------------------------------------------- the store

  class FindingStore {
    var rows: seq<Row>

    constructor ()
      ensures rows == []
    {
      rows := [];
    }

    /** `upsert_finding`; None where the table's severity check raises. */
    method UpsertFinding(f: Finding, now: int) returns (fp: Option<string>)
      modifies this
      ensures rows == Upsert(old(rows), Sighting(f, now))
      ensures fp == if f.severity in ["critical", "high", "medium", "low", "info"] then Some(Fingerprint(f)) else None
      ensures fp.Some? ==> Position(rows, fp.value) < |rows|
    {
      var key := Fingerprint(f);
      PositionAfter(rows, Sighting(f, now), key);
      var i := Position(rows, key);
      if f.severity !in SEVERITIES {
        return None;
      }
      if i < |rows| {
        rows := rows[i := rows[i].(lastSeen := now, occurrenceCount := rows[i].occurrenceCount + 1)];
      } else {
        rows := rows + [Row(key, now, now, 1, f, "open")];
      }
      fp := Some(key);
    }
  }
}
