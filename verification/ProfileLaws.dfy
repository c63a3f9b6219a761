/** What holds in every reachable state of a profile, over every run of operations. */
module ProfileLaws {
  import opened Common
  import opened Ordering
  import opened Profiles

  // ---------------------------------------------------------------- the invariant

  /** Confirmed versions are numbered 1..n, their aggregate versions rise and never pass the
      profile version. */
  ghost predicate Numbered(s: Profile) {
    && (forall i :: 0 <= i < |s.versions| ==> s.versions[i].number == i + 1 && s.versions[i].aggregate <= s.version)
    && (forall i, j :: 0 <= i < j < |s.versions| ==> s.versions[i].aggregate < s.versions[j].aggregate)
  }

  ghost predicate ActiveKnown(s: Profile) {
    s.active.None? || VersionKnown(s.versions, s.active.value)
  }

  /** Every import, evidence and decision row has its parent. */
  ghost predicate Parented(s: Profile) {
    && (forall i :: i in s.imports ==> s.imports[i].asset in s.assets)
    && (forall i :: 0 <= i < |s.evidence| ==> s.evidence[i].importId in s.imports)
    && (forall i :: 0 <= i < |s.decisions| ==> EvidenceKnown(s.evidence, s.decisions[i].evidenceId))
  }

  ghost predicate Identified(s: Profile) {
    && (forall i :: i in s.assets ==> i < s.nextId)
    && (forall i :: i in s.imports ==> i < s.nextId)
    && (forall i :: 0 <= i < |s.evidence| ==> s.evidence[i].id < s.nextId)
    && (forall i, j :: 0 <= i < j < |s.evidence| ==> s.evidence[i].id != s.evidence[j].id)
    && (forall i :: 0 <= i < |s.versions| ==> s.versions[i].id < s.nextId)
    && (forall i, j :: 0 <= i < j < |s.versions| ==> s.versions[i].id != s.versions[j].id)
  }

  /** Within one import the sequence numbers rise. */
  ghost predicate Sequenced(evidence: seq<Evidence>) {
    forall i, j :: 0 <= i < j < |evidence| && evidence[i].importId == evidence[j].importId
                   ==> evidence[i].sequence < evidence[j].sequence
  }

  /** Decision timestamps rise, and exactly corrections carry a value. */
  ghost predicate Stamped(decisions: seq<Decision>, clock: nat) {
    && (forall i :: 0 <= i < |decisions| ==> decisions[i].createdAt < clock)
    && (forall i, j :: 0 <= i < j < |decisions| ==> decisions[i].createdAt < decisions[j].createdAt)
    && (forall i :: 0 <= i < |decisions| ==> ((decisions[i].action == Correct) == decisions[i].resolved.Some?))
  }

  ghost predicate Inv(s: Profile) {
    && Numbered(s) && ActiveKnown(s) && Parented(s) && Identified(s)
    && Sequenced(s.evidence) && Stamped(s.decisions, s.clock)
  }

  // ---------------------------------------------------------------- decisions

  function Decided(s: Profile, d: DecisionInput): Profile {
    s.(decisions := s.decisions + [Record(d, s.clock)], clock := s.clock + 1)
  }

  lemma DecideOneKeeps(s: Profile, d: DecisionInput)
    requires Inv(s) && Refusal(s.evidence, d).None?
    ensures Inv(Decided(s, d))
  {
    var t := Decided(s, d);
    assert Stamped(t.decisions, t.clock);
    assert Parented(t);
    assert Numbered(t) && ActiveKnown(t) && Identified(t);
  }

  lemma {:induction false} DecideKeeps(s: Profile, ds: seq<DecisionInput>)
    requires Inv(s) && Decide(s, ds).Ok?
    ensures var t := Decide(s, ds).value;
            Inv(t) && t.(decisions := s.decisions, clock := s.clock) == s && s.decisions <= t.decisions
  {
    if ds == [] {
    } else {
      DecideKeeps(s, Init(ds));
      var t := Decide(s, Init(ds)).value;
      assert Decide(s, ds).value == Decided(t, Last(ds));
      DecideOneKeeps(t, Last(ds));
    }
  }

  // ---------------------------------------------------------------- confirming and activating

  lemma {:induction false} MaxNumberIs(s: Profile, n: nat)
    requires Numbered(s) && n <= |s.versions|
    ensures MaxNumber(s.versions[..n]) == n
  {
    if n == 0 {
    } else {
      MaxNumberIs(s, n - 1);
      assert Init(s.versions[..n]) == s.versions[..n - 1];
    }
  }

  /** Appending a version with the next number and the next aggregate version. */
  lemma VersionAppended(versions: seq<Version>, v: Version, version: nat, nextId: Id)
    requires forall i :: 0 <= i < |versions| ==> versions[i].number == i + 1 && versions[i].aggregate <= version
    requires forall i, j :: 0 <= i < j < |versions| ==> versions[i].aggregate < versions[j].aggregate
    requires forall i :: 0 <= i < |versions| ==> versions[i].id < nextId
    requires forall i, j :: 0 <= i < j < |versions| ==> versions[i].id != versions[j].id
    requires v.number == |versions| + 1 && v.aggregate == version + 1 && v.id == nextId
    ensures var all := versions + [v];
            && (forall i :: 0 <= i < |all| ==> all[i].number == i + 1 && all[i].aggregate <= version + 1)
            && (forall i, j :: 0 <= i < j < |all| ==> all[i].aggregate < all[j].aggregate)
            && (forall i :: 0 <= i < |all| ==> all[i].id < nextId + 1)
            && (forall i, j :: 0 <= i < j < |all| ==> all[i].id != all[j].id)
            && VersionKnown(all, v.id)
  {
    assert (versions + [v])[|versions|].id == v.id;
  }

  lemma ConfirmKeeps(s: Profile, expected: nat, importId: Id)
    requires Inv(s) && ConfirmVersion(s, expected, importId).Ok?
    ensures Inv(ConfirmVersion(s, expected, importId).value)
  {
    var t := ConfirmVersion(s, expected, importId).value;
    MaxNumberIs(s, |s.versions|);
    assert s.versions[..|s.versions|] == s.versions;
    VersionAppended(s.versions, Last(t.versions), s.version, s.nextId);
    assert t.versions == s.versions + [Last(t.versions)];
    assert Numbered(t) && ActiveKnown(t) && Parented(t);
  }

  // ---------------------------------------------------------------- processing and deleting

  lemma OfImportIs(evidence: seq<Evidence>, importId: Id)
    ensures forall e :: e in OfImport(evidence, importId) <==> e in evidence && e.importId == importId
  {
    KeptAre(evidence, (e: Evidence) => e.importId == importId);
  }

  /** The ordered query returns exactly the rows of the import, by ascending sequence. */
  lemma ImportEvidenceIs(evidence: seq<Evidence>, importId: Id)
    ensures forall e :: e in ImportEvidence(evidence, importId) <==> e in evidence && e.importId == importId
    ensures InSequence(ImportEvidence(evidence, importId))
  {
    var rank := (e: Evidence) => e.sequence;
    var rows := OfImport(evidence, importId);
    OfImportIs(evidence, importId);
    SortBySorts(rows, rank);
    var sorted := SortBy(rows, rank);
    forall i, j | 0 <= i < j < |sorted| ensures sorted[i].sequence <= sorted[j].sequence {
      assert rank(sorted[i]) <= rank(sorted[j]);
    }
  }

  ghost predicate InSequence(rows: seq<Evidence>) {
    forall i, j :: 0 <= i < j < |rows| ==> rows[i].sequence <= rows[j].sequence
  }

  lemma AppendKeepsSequenced(evidence: seq<Evidence>, importId: Id, firstId: Id, fields: seq<(string, Value)>)
    requires Sequenced(evidence) && (fields != [] ==> ImportEvidence(evidence, importId) == [])
    ensures Sequenced(evidence + NewEvidence(importId, firstId, fields))
  {
    var all := evidence + NewEvidence(importId, firstId, fields);
    ImportEvidenceIs(evidence, importId);
    forall i | 0 <= i < |evidence| && fields != [] ensures evidence[i].importId != importId {
      assert evidence[i] in evidence;
      assert evidence[i] !in ImportEvidence(evidence, importId);
    }
  }

  lemma KnownGrows(evidence: seq<Evidence>, more: seq<Evidence>, id: Id)
    requires EvidenceKnown(evidence, id)
    ensures EvidenceKnown(evidence + more, id)
  {
    var i :| 0 <= i < |evidence| && evidence[i].id == id;
    assert (evidence + more)[i].id == id;
  }

  lemma ProcessKeeps(s: Profile, importId: Id, parsed: Parsed)
    requires Inv(s) && ProcessImport(s, importId, parsed).Ok?
    ensures Inv(ProcessImport(s, importId, parsed).value)
  {
    var t := ProcessImport(s, importId, parsed).value;
    match parsed
    case Candidates(fields) =>
      AppendKeepsSequenced(s.evidence, importId, s.nextId, fields);
      forall i | 0 <= i < |s.decisions| ensures EvidenceKnown(t.evidence, s.decisions[i].evidenceId) {
        if s.imports[importId].asset in s.assets {
          KnownGrows(s.evidence, NewEvidence(importId, s.nextId, fields), s.decisions[i].evidenceId);
        }
      }
    case _ =>
  }

  /** Keeping evidence rows keeps their order. */
  lemma KeepEvidenceIs(evidence: seq<Evidence>, gone: set<Id>) returns (at: seq<nat>)
    ensures |at| == |KeepEvidence(evidence, gone)|
    ensures forall i :: 0 <= i < |at| ==> at[i] < |evidence| && KeepEvidence(evidence, gone)[i] == evidence[at[i]]
    ensures forall i, j :: 0 <= i < j < |at| ==> at[i] < at[j]
    ensures forall e :: e in KeepEvidence(evidence, gone) <==> e in evidence && e.importId !in gone
  {
    at := KeptFrom(evidence, (e: Evidence) => e.importId !in gone);
    KeptAre(evidence, (e: Evidence) => e.importId !in gone);
  }

  lemma KeepDecisionsIs(decisions: seq<Decision>, gone: set<Id>) returns (at: seq<nat>)
    ensures |at| == |KeepDecisions(decisions, gone)|
    ensures forall i :: 0 <= i < |at| ==> at[i] < |decisions| && KeepDecisions(decisions, gone)[i] == decisions[at[i]]
    ensures forall i, j :: 0 <= i < j < |at| ==> at[i] < at[j]
    ensures forall d :: d in KeepDecisions(decisions, gone) <==> d in decisions && d.evidenceId !in gone
  {
    at := KeptFrom(decisions, (d: Decision) => d.evidenceId !in gone);
    KeptAre(decisions, (d: Decision) => d.evidenceId !in gone);
  }

  lemma DeleteKeepsParents(s: Profile, assetId: Id)
    requires Inv(s) && assetId in s.assets
    ensures Parented(DeleteAsset(s, assetId).value)
  {
    var imports := ImportsOf(s, assetId);
    var t := DeleteAsset(s, assetId).value;
    var kept := KeepEvidenceIs(s.evidence, imports);
    var left := KeepDecisionsIs(s.decisions, EvidenceOf(s.evidence, imports));
    forall i | 0 <= i < |t.evidence| ensures t.evidence[i].importId in t.imports {
      assert t.evidence[i] in t.evidence;
    }
    forall i | 0 <= i < |t.decisions| ensures EvidenceKnown(t.evidence, t.decisions[i].evidenceId) {
      assert t.decisions[i] in t.decisions;
      KeptParent(s.evidence, imports, s.decisions[left[i]].evidenceId);
    }
  }

  lemma KeptParent(evidence: seq<Evidence>, imports: set<Id>, id: Id)
    requires EvidenceKnown(evidence, id) && id !in EvidenceOf(evidence, imports)
    ensures EvidenceKnown(KeepEvidence(evidence, imports), id)
  {
    var kept := KeepEvidenceIs(evidence, imports);
    var n :| 0 <= n < |evidence| && evidence[n].id == id;
    assert evidence[n] in evidence && evidence[n].importId !in imports;
    assert evidence[n] in KeepEvidence(evidence, imports);
  }

  lemma KeptEvidenceOrder(evidence: seq<Evidence>, gone: set<Id>, bound: Id)
    requires Sequenced(evidence) && forall i :: 0 <= i < |evidence| ==> evidence[i].id < bound
    requires forall i, j :: 0 <= i < j < |evidence| ==> evidence[i].id != evidence[j].id
    ensures var kept := KeepEvidence(evidence, gone);
            && Sequenced(kept) && (forall i :: 0 <= i < |kept| ==> kept[i].id < bound)
            && forall i, j :: 0 <= i < j < |kept| ==> kept[i].id != kept[j].id
  {
    var at := KeepEvidenceIs(evidence, gone);
  }

  lemma KeptDecisionOrder(decisions: seq<Decision>, gone: set<Id>, clock: nat)
    requires Stamped(decisions, clock)
    ensures Stamped(KeepDecisions(decisions, gone), clock)
  {
    var at := KeepDecisionsIs(decisions, gone);
  }

  lemma DeleteKeeps(s: Profile, assetId: Id)
    requires Inv(s) && DeleteAsset(s, assetId).Ok?
    ensures Inv(DeleteAsset(s, assetId).value)
  {
    DeleteKeepsParents(s, assetId);
    KeptEvidenceOrder(s.evidence, ImportsOf(s, assetId), s.nextId);
    KeptDecisionOrder(s.decisions, EvidenceOf(s.evidence, ImportsOf(s, assetId)), s.clock);
  }

  // ---------------------------------------------------------------- every operation, every run

  /** Every operation keeps the invariant. */
  lemma NextKeeps(s: Profile, lawful: (string, string) -> bool, op: Op)
    requires Inv(s)
    ensures Inv(Next(s, lawful, op))
  {
    if Perform(s, lawful, op).Ok? {
      match op
      case DecideOp(expected, ds) => DecideKeeps(s, ds);
      case ConfirmOp(expected, importId) => ConfirmKeeps(s, expected, importId);
      case DeleteOp(assetId) => DeleteKeeps(s, assetId);
      case ProcessOp(importId, parsed) => ProcessKeeps(s, importId, parsed);
      case _ =>
    }
  }

  /** Every reachable state satisfies the invariant. */
  lemma {:induction false} RunKeeps(lawful: (string, string) -> bool, ops: seq<Op>)
    ensures Inv(Run(EMPTY_PROFILE, lawful, ops))
  {
    if ops == [] {
    } else {
      RunKeeps(lawful, Init(ops));
      NextKeeps(Run(EMPTY_PROFILE, lawful, Init(ops)), lawful, Last(ops));
    }
  }

  // ---------------------------------------------------------------- the version counts the writes

  ghost predicate Commits(s: Profile, lawful: (string, string) -> bool, ops: seq<Op>, i: nat)
    requires i < |ops|
  {
    Perform(Run(s, lawful, ops[..i]), lawful, ops[i]).Ok?
  }

  /** The number of mutating operations of a run that committed. */
  ghost function Writes(s: Profile, lawful: (string, string) -> bool, ops: seq<Op>): nat {
    if ops == [] then 0
    else Writes(s, lawful, Init(ops))
         + if Mutating(Last(ops)) && Perform(Run(s, lawful, Init(ops)), lawful, Last(ops)).Ok? then 1 else 0
  }

  lemma {:induction false} DecideKeepsVersion(s: Profile, ds: seq<DecisionInput>)
    ensures Decide(s, ds).Ok? ==> Decide(s, ds).value.version == s.version
  {
    if ds == [] {
    } else {
      DecideKeepsVersion(s, Init(ds));
    }
  }

  lemma NextVersion(s: Profile, lawful: (string, string) -> bool, op: Op)
    ensures Next(s, lawful, op).version == s.version + if Mutating(op) && Perform(s, lawful, op).Ok? then 1 else 0
    ensures Guarded(op) && Perform(s, lawful, op).Ok? ==> op.expected == s.version
  {
    if op.DecideOp? {
      DecideKeepsVersion(s, op.decisions);
    }
  }

  /** The profile version is its start value plus the number of committed mutating writes. */
  lemma {:induction false} VersionCountsWrites(s: Profile, lawful: (string, string) -> bool, ops: seq<Op>)
    ensures Run(s, lawful, ops).version == s.version + Writes(s, lawful, ops)
  {
    if ops == [] {
    } else {
      VersionCountsWrites(s, lawful, Init(ops));
      NextVersion(Run(s, lawful, Init(ops)), lawful, Last(ops));
    }
  }

  lemma {:induction false} VersionRises(s: Profile, lawful: (string, string) -> bool, ops: seq<Op>, i: nat, j: nat)
    requires i <= j <= |ops|
    ensures Run(s, lawful, ops[..i]).version <= Run(s, lawful, ops[..j]).version
  {
    if i == j {
    } else {
      VersionRises(s, lawful, ops, i, j - 1);
      assert Init(ops[..j]) == ops[..j - 1];
      NextVersion(Run(s, lawful, ops[..j - 1]), lawful, ops[j - 1]);
    }
  }

  /** Of all guarded writers of a run that hold the same expected version, at most one commits. */
  lemma OneWriterPerVersion(s: Profile, lawful: (string, string) -> bool, ops: seq<Op>, i: nat, j: nat)
    requires i < j < |ops| && Guarded(ops[i]) && Guarded(ops[j]) && ops[i].expected == ops[j].expected
    ensures !(Commits(s, lawful, ops, i) && Commits(s, lawful, ops, j))
  {
    NextVersion(Run(s, lawful, ops[..i]), lawful, ops[i]);
    NextVersion(Run(s, lawful, ops[..j]), lawful, ops[j]);
    assert Init(ops[..i + 1]) == ops[..i];
    VersionRises(s, lawful, ops, i + 1, j);
  }

  // ---------------------------------------------------------------- confirmed versions are immutable

  lemma {:induction false} DecideKeepsVersions(s: Profile, ds: seq<DecisionInput>)
    ensures Decide(s, ds).Ok? ==> Decide(s, ds).value.versions == s.versions
  {
    if ds == [] {
    } else {
      DecideKeepsVersions(s, Init(ds));
    }
  }

  /** No operation changes or removes a confirmed version, not even deleting its asset. */
  lemma {:induction false} VersionsOnlyGrow(s: Profile, lawful: (string, string) -> bool, ops: seq<Op>, i: nat)
    requires i <= |ops|
    ensures Run(s, lawful, ops[..i]).versions <= Run(s, lawful, ops).versions
    decreases |ops| - i
  {
    if i == |ops| {
      assert ops[..i] == ops;
    } else {
      VersionsOnlyGrow(s, lawful, ops, i + 1);
      assert Init(ops[..i + 1]) == ops[..i];
      if ops[i].DecideOp? {
        DecideKeepsVersions(Run(s, lawful, ops[..i]), ops[i].decisions);
      }
    }
  }

  // ---------------------------------------------------------------- what a snapshot holds

  lemma {:induction false} LatestIs(decisions: seq<Decision>, evidenceId: Id)
    ensures LatestDecision(decisions, evidenceId).None? <==> forall d :: d in decisions ==> d.evidenceId != evidenceId
    ensures LatestDecision(decisions, evidenceId).Some? ==>
              && LatestDecision(decisions, evidenceId).value in decisions
              && LatestDecision(decisions, evidenceId).value.evidenceId == evidenceId
              && forall d :: d in decisions && d.evidenceId == evidenceId
                             ==> d.createdAt <= LatestDecision(decisions, evidenceId).value.createdAt
  {
    if decisions == [] {
    } else {
      LatestIs(Init(decisions), evidenceId);
      assert decisions == Init(decisions) + [Last(decisions)];
    }
  }

  /** Evidence that contributes to a snapshot: decided, and not ignored. */
  predicate Counted(decisions: seq<Decision>, e: Evidence) {
    LatestDecision(decisions, e.id).Some? && LatestDecision(decisions, e.id).value.action != Ignore
  }

  ghost predicate CountedOfPath(rows: seq<Evidence>, decisions: seq<Decision>, path: string, i: int) {
    0 <= i < |rows| && rows[i].path == path && Counted(decisions, rows[i])
  }

  /** The snapshot has a field path exactly when a row contributes to it, and then holds what the
      last contributing row resolves to. */
  lemma {:induction false} FactsHold(rows: seq<Evidence>, decisions: seq<Decision>, path: string) returns (last: int)
    ensures path in Facts(rows, decisions) <==> last >= 0
    ensures last >= 0 ==>
              && CountedOfPath(rows, decisions, path, last)
              && Facts(rows, decisions)[path] == Resolved(LatestDecision(decisions, rows[last].id).value, rows[last])
    ensures forall j :: CountedOfPath(rows, decisions, path, j) ==> j <= last
  {
    last := -1;
    if rows == [] {
    } else {
      var front := Init(rows);
      last := FactsHold(front, decisions, path);
      forall j | CountedOfPath(rows, decisions, path, j) && j < |front| ensures j <= last {
        assert CountedOfPath(front, decisions, path, j);
      }
      if CountedOfPath(rows, decisions, path, |front|) {
        last := |front|;
      }
    }
  }

  /** A row's reference is in the snapshot exactly when the row contributes. */
  lemma {:induction false} RefsHold(rows: seq<Evidence>, decisions: seq<Decision>, e: Evidence)
    requires forall a :: a in rows && a.id == e.id ==> a == e
    ensures e.id in Refs(rows, decisions) <==> e in rows && Counted(decisions, e)
    ensures e in rows && Counted(decisions, e) ==>
              Refs(rows, decisions)[e.id] == EvidenceRef(LatestDecision(decisions, e.id).value.action, e.path)
  {
    if rows == [] {
    } else {
      assert rows == Init(rows) + [Last(rows)];
      assert Last(rows) in rows;
      RefsHold(Init(rows), decisions, e);
    }
  }

  lemma {:induction false} RefsKnown(rows: seq<Evidence>, decisions: seq<Decision>, id: Id)
    requires id in Refs(rows, decisions)
    ensures exists e :: e in rows && e.id == id
  {
    if id in Refs(Init(rows), decisions) {
      RefsKnown(Init(rows), decisions, id);
      var e :| e in Init(rows) && e.id == id;
      assert e in rows;
    } else {
      assert Last(rows) in rows;
    }
  }

  /** A row of the import that contributes to its snapshot. */
  ghost predicate Contributes(s: Profile, importId: Id, e: Evidence) {
    e in s.evidence && e.importId == importId && Counted(s.decisions, e)
  }

  lemma SameRow(s: Profile, a: Evidence, b: Evidence)
    requires Identified(s) && Sequenced(s.evidence) && a in s.evidence && b in s.evidence
    ensures a.id == b.id ==> a == b
    ensures a.importId == b.importId && a.sequence == b.sequence ==> a == b
  {
    var i :| 0 <= i < |s.evidence| && s.evidence[i] == a;
    var j :| 0 <= j < |s.evidence| && s.evidence[j] == b;
  }

  /** A confirmed version exists only if every row of the import is decided, and its next number,
      aggregate version and activation are those of the new profile version. */
  lemma ConfirmedOnlyIfDecided(s: Profile, expected: nat, importId: Id)
    requires Inv(s)
    ensures var r := ConfirmVersion(s, expected, importId);
            && (r.Ok? <==> importId in s.imports && s.version == expected
                           && forall e :: e in s.evidence && e.importId == importId
                                          ==> exists d :: d in s.decisions && d.evidenceId == e.id)
            && (r.Ok? ==> Last(r.value.versions).number == |s.versions| + 1
                          && Last(r.value.versions).aggregate == r.value.version == s.version + 1
                          && r.value.active == Some(Last(r.value.versions).id)
                          && Init(r.value.versions) == s.versions)
  {
    var rows := ImportEvidence(s.evidence, importId);
    ImportEvidenceIs(s.evidence, importId);
    forall e | e in rows
      ensures LatestDecision(s.decisions, e.id).Some? <==> exists d :: d in s.decisions && d.evidenceId == e.id
    {
      LatestIs(s.decisions, e.id);
    }
    forall i | 0 <= i < |rows| ensures rows[i] in rows {}
    MaxNumberIs(s, |s.versions|);
    assert s.versions[..|s.versions|] == s.versions;
    var r := ConfirmVersion(s, expected, importId);
    if r.Ok? {
      forall e | e in s.evidence && e.importId == importId
        ensures exists d :: d in s.decisions && d.evidenceId == e.id
      {
        assert e in rows;
      }
    }
  }

  /** The row of the import that is last in sequence among those contributing to a field path. */
  ghost predicate Highest(s: Profile, importId: Id, path: string, e: Evidence) {
    && Contributes(s, importId, e) && e.path == path
    && forall o :: Contributes(s, importId, o) && o.path == path ==> o.sequence <= e.sequence
  }

  /** A contributing row is counted somewhere in the ordered rows of its import. */
  lemma ContributesAt(s: Profile, importId: Id, e: Evidence) returns (j: int)
    requires Contributes(s, importId, e)
    ensures CountedOfPath(ImportEvidence(s.evidence, importId), s.decisions, e.path, j)
    ensures ImportEvidence(s.evidence, importId)[j] == e
  {
    var rows := ImportEvidence(s.evidence, importId);
    ImportEvidenceIs(s.evidence, importId);
    assert e in rows;
    j :| 0 <= j < |rows| && rows[j] == e;
  }

  lemma CountedContributes(s: Profile, importId: Id, path: string, j: int)
    requires CountedOfPath(ImportEvidence(s.evidence, importId), s.decisions, path, j)
    ensures Contributes(s, importId, ImportEvidence(s.evidence, importId)[j])
  {
    ImportEvidenceIs(s.evidence, importId);
    assert ImportEvidence(s.evidence, importId)[j] in ImportEvidence(s.evidence, importId);
  }

  /** The snapshot has a field path exactly when a row contributes to it. */
  lemma SnapshotKeys(s: Profile, importId: Id, path: string)
    ensures path in Facts(ImportEvidence(s.evidence, importId), s.decisions)
            <==> exists e :: Contributes(s, importId, e) && e.path == path
  {
    var last := FactsHold(ImportEvidence(s.evidence, importId), s.decisions, path);
    if last >= 0 {
      CountedContributes(s, importId, path, last);
    }
    if e :| Contributes(s, importId, e) && e.path == path {
      var j := ContributesAt(s, importId, e);
    }
  }

  /** Under a field path the snapshot holds what the highest contributing row resolves to. */
  lemma SnapshotValue(s: Profile, importId: Id, path: string, e: Evidence)
    requires Identified(s) && Sequenced(s.evidence) && Highest(s, importId, path, e)
    ensures var facts := Facts(ImportEvidence(s.evidence, importId), s.decisions);
            path in facts && facts[path] == Resolved(LatestDecision(s.decisions, e.id).value, e)
  {
    var rows := ImportEvidence(s.evidence, importId);
    var last := FactsHold(rows, s.decisions, path);
    var j := ContributesAt(s, importId, e);
    LastIsHighest(s, importId, path, e, j, last);
  }

  /** The last counted row of a path, which is not before the highest one, is that one. */
  lemma LastIsHighest(s: Profile, importId: Id, path: string, e: Evidence, j: int, last: int)
    requires Identified(s) && Sequenced(s.evidence) && Highest(s, importId, path, e)
    requires CountedOfPath(ImportEvidence(s.evidence, importId), s.decisions, path, j)
    requires CountedOfPath(ImportEvidence(s.evidence, importId), s.decisions, path, last)
    requires ImportEvidence(s.evidence, importId)[j] == e && j <= last
    ensures ImportEvidence(s.evidence, importId)[last] == e
  {
    var rows := ImportEvidence(s.evidence, importId);
    CountedContributes(s, importId, path, last);
    ImportEvidenceIs(s.evidence, importId);
    assert rows[j].sequence <= rows[last].sequence;
    SameRow(s, e, rows[last]);
  }

  /** What a decision makes of the value of a row: a correction replaces it, a confirmation keeps it. */
  predicate Says(d: Decision, e: Evidence, value: Option<Value>) {
    match d.action
    case Correct => d.resolved.Some? && value == d.resolved
    case Confirm => value == Some(e.value)
    case Ignore => false
  }

  lemma ResolvedSays(s: Profile, importId: Id, e: Evidence)
    requires Inv(s) && Contributes(s, importId, e)
    ensures Says(LatestDecision(s.decisions, e.id).value, e, Resolved(LatestDecision(s.decisions, e.id).value, e))
  {
    LatestIs(s.decisions, e.id);
    var d := LatestDecision(s.decisions, e.id).value;
    var i :| 0 <= i < |s.decisions| && s.decisions[i] == d;
  }

  /** For each field path, the snapshot holds what the newest decision on the contributing row with the
      highest sequence says, and no other field path. */
  lemma SnapshotHolds(s: Profile, expected: nat, importId: Id, path: string)
    requires Inv(s) && ConfirmVersion(s, expected, importId).Ok?
    ensures var facts := Last(ConfirmVersion(s, expected, importId).value.versions).facts;
            && (path in facts <==> exists e :: Contributes(s, importId, e) && e.path == path)
            && forall e :: Highest(s, importId, path, e)
                           ==> Says(LatestDecision(s.decisions, e.id).value, e, facts[path])
  {
    SnapshotKeys(s, importId, path);
    forall e | Highest(s, importId, path, e)
      ensures var facts := Facts(ImportEvidence(s.evidence, importId), s.decisions);
              path in facts && Says(LatestDecision(s.decisions, e.id).value, e, facts[path])
    {
      SnapshotValue(s, importId, path, e);
      ResolvedSays(s, importId, e);
    }
  }

  /** The evidence references of the snapshot are exactly the contributing rows, each with its
      newest action and its field path. */
  lemma SnapshotRefs(s: Profile, expected: nat, importId: Id)
    requires Inv(s) && ConfirmVersion(s, expected, importId).Ok?
    ensures var refs := Last(ConfirmVersion(s, expected, importId).value.versions).refs;
            && (forall e :: Contributes(s, importId, e) ==>
                  && e.id in refs
                  && refs[e.id] == EvidenceRef(LatestDecision(s.decisions, e.id).value.action, e.path))
            && (forall id :: id in refs ==> exists e :: Contributes(s, importId, e) && e.id == id)
  {
    var rows := ImportEvidence(s.evidence, importId);
    ImportEvidenceIs(s.evidence, importId);
    forall e | e in s.evidence
      ensures e in rows && Counted(s.decisions, e) <==> e.id in Refs(rows, s.decisions)
      ensures e in rows && Counted(s.decisions, e) ==>
                Refs(rows, s.decisions)[e.id] == EvidenceRef(LatestDecision(s.decisions, e.id).value.action, e.path)
    {
      forall a | a in rows && a.id == e.id ensures a == e {
        SameRow(s, a, e);
      }
      RefsHold(rows, s.decisions, e);
    }
    forall id | id in Refs(rows, s.decisions) ensures exists e :: Contributes(s, importId, e) && e.id == id {
      RefsKnown(rows, s.decisions, id);
      var e :| e in rows && e.id == id;
      assert Contributes(s, importId, e);
    }
  }

  /** Operation `i` of the run confirmed the version `v`. */
  ghost predicate Confirmed(lawful: (string, string) -> bool, ops: seq<Op>, i: nat, v: Version) {
    && i < |ops| && ops[i].ConfirmOp?
    && var r := ConfirmVersion(Run(EMPTY_PROFILE, lawful, ops[..i]), ops[i].expected, ops[i].importId);
       r.Ok? && Last(r.value.versions) == v
  }

  lemma ConfirmedLonger(lawful: (string, string) -> bool, ops: seq<Op>, i: nat, v: Version)
    requires ops != [] && Confirmed(lawful, Init(ops), i, v)
    ensures Confirmed(lawful, ops, i, v)
  {
    assert ops[..i] == Init(ops)[..i] && ops[i] == Init(ops)[i];
  }

  /** What an operation does to the versions: confirming appends one, nothing else touches them. */
  lemma NextVersions(s: Profile, lawful: (string, string) -> bool, op: Op)
    ensures op.ConfirmOp? && Perform(s, lawful, op).Ok? ==>
              Next(s, lawful, op).versions == s.versions + [Last(Perform(s, lawful, op).value.versions)]
    ensures !(op.ConfirmOp? && Perform(s, lawful, op).Ok?) ==> Next(s, lawful, op).versions == s.versions
  {
    if op.DecideOp? {
      DecideKeepsVersions(s, op.decisions);
    }
  }

  /** Every version of a reachable state was made by a committed confirmation of the run. */
  lemma {:induction false} VersionsAreConfirmed(lawful: (string, string) -> bool, ops: seq<Op>, v: Version)
    requires v in Run(EMPTY_PROFILE, lawful, ops).versions
    ensures exists i: nat :: Confirmed(lawful, ops, i, v)
  {
    if ops == [] {
      assert false;
    } else {
      var s, op := Run(EMPTY_PROFILE, lawful, Init(ops)), Last(ops);
      NextVersions(s, lawful, op);
      if v in s.versions {
        VersionsAreConfirmed(lawful, Init(ops), v);
        var i: nat :| Confirmed(lawful, Init(ops), i, v);
        ConfirmedLonger(lawful, ops, i, v);
      } else {
        assert ops[..|ops| - 1] == Init(ops);
        assert Confirmed(lawful, ops, |ops| - 1, v);
      }
    }
  }

  /** The highest row of an import under a field path, in the state of a run before operation `i`. */
  ghost predicate HighestBefore(lawful: (string, string) -> bool, ops: seq<Op>, i: nat, path: string, e: Evidence)
    requires i < |ops| && ops[i].ConfirmOp?
  {
    Highest(Run(EMPTY_PROFILE, lawful, ops[..i]), ops[i].importId, path, e)
  }

  /** So every confirmed version of a reachable state, however much later, holds under each field path
      what the newest decision on the highest row of its import said when it was confirmed, and every
      row of that import had been decided. */
  lemma ReachableSnapshot(lawful: (string, string) -> bool, ops: seq<Op>, v: Version, path: string) returns (i: nat)
    requires v in Run(EMPTY_PROFILE, lawful, ops).versions
    ensures Confirmed(lawful, ops, i, v)
    ensures var s := Run(EMPTY_PROFILE, lawful, ops[..i]);
            && (forall e :: e in s.evidence && e.importId == ops[i].importId
                            ==> exists d :: d in s.decisions && d.evidenceId == e.id)
            && (path in v.facts <==> exists e :: Contributes(s, ops[i].importId, e) && e.path == path)
            && forall e :: HighestBefore(lawful, ops, i, path, e)
                           ==> Says(LatestDecision(s.decisions, e.id).value, e, v.facts[path])
  {
    VersionsAreConfirmed(lawful, ops, v);
    i :| Confirmed(lawful, ops, i, v);
    var s := Run(EMPTY_PROFILE, lawful, ops[..i]);
    RunKeeps(lawful, ops[..i]);
    ConfirmedOnlyIfDecided(s, ops[i].expected, ops[i].importId);
    SnapshotHolds(s, ops[i].expected, ops[i].importId, path);
  }

  // ---------------------------------------------------------------- what a batch of decisions does

  /** The last input of a batch on one piece of evidence. */
  function LastInput(ds: seq<DecisionInput>, evidenceId: Id): Option<DecisionInput> {
    if ds == [] then None
    else if Last(ds).evidenceId == evidenceId then Some(Last(ds))
    else LastInput(Init(ds), evidenceId)
  }

  lemma LatestAfter(decisions: seq<Decision>, clock: nat, d: Decision, evidenceId: Id)
    requires Stamped(decisions, clock) && d.createdAt == clock
    ensures LatestDecision(decisions + [d], evidenceId)
            == if d.evidenceId == evidenceId then Some(d) else LatestDecision(decisions, evidenceId)
  {
    assert Init(decisions + [d]) == decisions;
    LatestIs(decisions, evidenceId);
    var best := LatestDecision(decisions, evidenceId);
    if best.Some? {
      var i :| 0 <= i < |decisions| && decisions[i] == best.value;
    }
  }

  /** After a batch commits, the newest decision on each piece of evidence is the batch's last
      word on it, and evidence the batch does not mention keeps the decision it had. */
  lemma {:induction false} BatchHasLastWord(s: Profile, ds: seq<DecisionInput>, evidenceId: Id)
    requires Inv(s) && Decide(s, ds).Ok?
    ensures var was, now := LatestDecision(s.decisions, evidenceId),
                            LatestDecision(Decide(s, ds).value.decisions, evidenceId);
            match LastInput(ds, evidenceId)
            case None => now == was
            case Some(d) => now.Some? && now.value.action == d.action && now.value.resolved == d.corrected
  {
    if ds == [] {
    } else {
      var t := Decide(s, Init(ds)).value;
      BatchHasLastWord(s, Init(ds), evidenceId);
      DecideKeeps(s, Init(ds));
      assert Decide(s, ds).value.decisions == t.decisions + [Record(Last(ds), t.clock)];
      LatestAfter(t.decisions, t.clock, Record(Last(ds), t.clock), evidenceId);
    }
  }

  // ---------------------------------------------------------------- when decision stamps tie

  /** The rows that the latest-decision query may return: it keeps any row with the newest stamp. */
  ghost predicate MayBeLatest(decisions: seq<Decision>, evidenceId: Id, d: Decision) {
    && d in decisions && d.evidenceId == evidenceId
    && forall e :: e in decisions && e.evidenceId == evidenceId ==> e.createdAt <= d.createdAt
  }

  ghost predicate SameWord(a: Decision, b: Decision) {
    a.action == b.action && a.resolved == b.resolved
  }

  /** Stamps never fall, but may tie. */
  ghost predicate NeverFalls(decisions: seq<Decision>) {
    forall i, j :: 0 <= i < j < |decisions| ==> decisions[i].createdAt <= decisions[j].createdAt
  }

  /** The last row on some evidence. */
  function LastRow(decisions: seq<Decision>, evidenceId: Id): Option<Decision> {
    if decisions == [] then None
    else if Last(decisions).evidenceId == evidenceId then Some(Last(decisions))
    else LastRow(Init(decisions), evidenceId)
  }

  lemma LastStampIsNewest(decisions: seq<Decision>)
    requires NeverFalls(decisions) && decisions != []
    ensures NeverFalls(Init(decisions))
    ensures forall d :: d in Init(decisions) ==> d.createdAt <= Last(decisions).createdAt
  {
    var front, last := Init(decisions), |decisions| - 1;
    forall i, j | 0 <= i < j < |front| ensures front[i].createdAt <= front[j].createdAt {
      assert decisions[i].createdAt <= decisions[j].createdAt;
    }
    forall d | d in front ensures d.createdAt <= decisions[last].createdAt {
      var i :| 0 <= i < |front| && front[i] == d;
      assert decisions[i].createdAt <= decisions[last].createdAt;
    }
  }

  lemma {:induction false} LastRowIs(decisions: seq<Decision>, evidenceId: Id)
    requires NeverFalls(decisions)
    ensures LastRow(decisions, evidenceId).None? <==> forall d :: d in decisions ==> d.evidenceId != evidenceId
    ensures var w := LastRow(decisions, evidenceId); w.Some? ==> MayBeLatest(decisions, evidenceId, w.value)
  {
    if decisions == [] {
    } else {
      var front, last := Init(decisions), Last(decisions);
      LastStampIsNewest(decisions);
      LastRowIs(front, evidenceId);
      assert forall d :: d in decisions <==> d in front || d == last by {
        assert decisions == front + [last];
      }
    }
  }

  /** With stamps that may tie, the query is sure to return the last word on some evidence exactly
      when every row with the stamp of the last one says the same. */
  lemma LastWordIsSureIff(decisions: seq<Decision>, evidenceId: Id)
    requires NeverFalls(decisions) && LastRow(decisions, evidenceId).Some?
    ensures var w := LastRow(decisions, evidenceId).value;
            (forall d :: MayBeLatest(decisions, evidenceId, d) ==> SameWord(d, w))
            <==> forall d :: d in decisions && d.evidenceId == evidenceId && d.createdAt == w.createdAt
                             ==> SameWord(d, w)
  {
    LastRowIs(decisions, evidenceId);
  }

  /** In every reachable state stamps do not tie: whatever row the query may return on some evidence
      is its last one. */
  lemma LatestIsLastRow(lawful: (string, string) -> bool, ops: seq<Op>, evidenceId: Id, d: Decision)
    requires MayBeLatest(Run(EMPTY_PROFILE, lawful, ops).decisions, evidenceId, d)
    ensures var decisions := Run(EMPTY_PROFILE, lawful, ops).decisions;
            LatestDecision(decisions, evidenceId) == Some(d) == LastRow(decisions, evidenceId)
  {
    var s := Run(EMPTY_PROFILE, lawful, ops);
    RunKeeps(lawful, ops);
    LatestIs(s.decisions, evidenceId);
    LastRowIs(s.decisions, evidenceId);
    OneRowPerStamp(s.decisions, s.clock, d, LatestDecision(s.decisions, evidenceId).value);
    OneRowPerStamp(s.decisions, s.clock, d, LastRow(s.decisions, evidenceId).value);
  }

  lemma OneRowPerStamp(decisions: seq<Decision>, clock: nat, a: Decision, b: Decision)
    requires Stamped(decisions, clock) && a in decisions && b in decisions && a.createdAt == b.createdAt
    ensures a == b
  {
    var i :| 0 <= i < |decisions| && decisions[i] == a;
    var j :| 0 <= j < |decisions| && decisions[j] == b;
  }

  /** A batch goes through exactly when none of its inputs is refused. */
  lemma {:induction false} DecideIff(s: Profile, ds: seq<DecisionInput>)
    ensures Decide(s, ds).Ok? <==> forall d :: d in ds ==> Refusal(s.evidence, d).None?
    ensures Decide(s, ds).Ok? ==> Decide(s, ds).value.evidence == s.evidence
  {
    if ds == [] {
    } else {
      DecideIff(s, Init(ds));
      assert ds == Init(ds) + [Last(ds)];
    }
  }

  // ---------------------------------------------------------------- what deleting an asset leaves

  /** Deleting an asset removes exactly its imports, their evidence and the decisions on it. */
  lemma DeleteIsExact(s: Profile, assetId: Id)
    requires assetId in s.assets
    ensures var t := DeleteAsset(s, assetId).value;
            && t.assets == s.assets - {assetId} && t.versions == s.versions && t.active == s.active
            && (forall i :: i in t.imports <==> i in s.imports && s.imports[i].asset != assetId)
            && (forall i :: i in t.imports ==> t.imports[i] == s.imports[i])
            && (forall e :: e in t.evidence <==> e in s.evidence && e.importId !in ImportsOf(s, assetId))
            && (forall d :: d in t.decisions <==>
                  && d in s.decisions
                  && forall e :: e in s.evidence && e.id == d.evidenceId ==> e.importId !in ImportsOf(s, assetId))
  {
    var imports := ImportsOf(s, assetId);
    var kept := KeepEvidenceIs(s.evidence, imports);
    var left := KeepDecisionsIs(s.decisions, EvidenceOf(s.evidence, imports));
    var t := DeleteAsset(s, assetId).value;
    forall d ensures d in t.decisions <==>
                && d in s.decisions
                && forall e :: e in s.evidence && e.id == d.evidenceId ==> e.importId !in imports {
      if d.evidenceId in EvidenceOf(s.evidence, imports) {
        var e :| e in s.evidence && e.importId in imports && e.id == d.evidenceId;
      }
    }
  }
}
