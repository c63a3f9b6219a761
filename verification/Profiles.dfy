/** The profile aggregate of one user: its tables, and every operation as one transaction that
    either yields the committed state or an error that leaves the state as it was. */
module Profiles {
  import opened Common
  import opened Ordering

  type Id = nat
  type Value = string

  datatype AssetStatus = PendingUpload | Ready | UploadFailed

  datatype ImportStatus = Pending | Parsing | AwaitingConfirmation | NeedsManualEntry | Failed

  datatype Action = Confirm | Correct | Ignore

  datatype Import = Import(asset: Id, status: ImportStatus)

  datatype Evidence = Evidence(id: Id, importId: Id, path: string, value: Value, sequence: nat)

  datatype Decision = Decision(evidenceId: Id, action: Action, resolved: Option<Value>, createdAt: nat)

  datatype EvidenceRef = EvidenceRef(action: Action, path: string)

  datatype Version = Version(id: Id, number: nat, aggregate: nat, facts: map<string, Option<Value>>,
                             refs: map<Id, EvidenceRef>, references: map<string, string>)

  /** `nextId` stands for fresh identifiers, `clock` for the decision timestamps, which increase. */
  datatype Profile = Profile(version: nat, references: map<string, string>, active: Option<Id>,
                             assets: map<Id, AssetStatus>, imports: map<Id, Import>,
                             evidence: seq<Evidence>, decisions: seq<Decision>, versions: seq<Version>,
                             nextId: Id, clock: nat)

  const EMPTY_PROFILE := Profile(0, map[], None, map[], map[], [], [], [], 0, 0)

  datatype Error = StaleVersion | NotFound | InvalidOperation | StateConflict | BadReference | IntegrityError

  // ---------------------------------------------------------------- queries

  predicate EvidenceKnown(evidence: seq<Evidence>, id: Id) {
    exists i :: 0 <= i < |evidence| && evidence[i].id == id
  }

  predicate VersionKnown(versions: seq<Version>, id: Id) {
    exists i :: 0 <= i < |versions| && versions[i].id == id
  }

  function OfImport(evidence: seq<Evidence>, importId: Id): seq<Evidence> {
    Kept(evidence, (e: Evidence) => e.importId == importId)
  }

  /** The evidence of one import, in the order of its sequence numbers. */
  function ImportEvidence(evidence: seq<Evidence>, importId: Id): seq<Evidence> {
    SortBy(OfImport(evidence, importId), (e: Evidence) => e.sequence)
  }

  /** The newest decision on one piece of evidence. */
  function LatestDecision(decisions: seq<Decision>, evidenceId: Id): Option<Decision> {
    if decisions == [] then None
    else
      var best := LatestDecision(Init(decisions), evidenceId);
      var d := Last(decisions);
      if d.evidenceId == evidenceId && (best.None? || best.value.createdAt <= d.createdAt) then Some(d) else best
  }

  // ---------------------------------------------------------------- decisions

  datatype DecisionInput = DecisionInput(evidenceId: Id, action: Action, corrected: Option<Value>)

  /** Why a decision is refused, if it is: first its shape, then its evidence. */
  function Refusal(evidence: seq<Evidence>, d: DecisionInput): Option<Error> {
    if (d.action == Correct) != d.corrected.Some? then Some(InvalidOperation)
    else if !EvidenceKnown(evidence, d.evidenceId) then Some(NotFound)
    else None
  }

  function Record(d: DecisionInput, now: nat): Decision {
    Decision(d.evidenceId, d.action, d.corrected, now)
  }

  /** Appends the decisions one after the other; the first refused one aborts them all. */
  function Decide(s: Profile, ds: seq<DecisionInput>): Result<Profile, Error> {
    if ds == [] then Ok(s)
    else match Decide(s, Init(ds))
      case Err(e) => Err(e)
      case Ok(t) =>
        match Refusal(t.evidence, Last(ds))
        case Some(e) => Err(e)
        case None => Ok(t.(decisions := t.decisions + [Record(Last(ds), t.clock)], clock := t.clock + 1))
  }

  function ApplyDecisions(s: Profile, expected: nat, ds: seq<DecisionInput>): Result<Profile, Error> {
    if s.version != expected then Err(StaleVersion)
    else match Decide(s, ds)
      case Err(e) => Err(e)
      case Ok(t) => Ok(t.(version := t.version + 1))
  }

  // ---------------------------------------------------------------- confirmed versions

  function Resolved(d: Decision, e: Evidence): Option<Value> {
    if d.action == Correct then d.resolved else Some(e.value)
  }

  /** The snapshot of some rows: later rows overwrite earlier ones of the same field path. */
  function Facts(rows: seq<Evidence>, decisions: seq<Decision>): map<string, Option<Value>> {
    if rows == [] then map[]
    else
      var before, e := Facts(Init(rows), decisions), Last(rows);
      match LatestDecision(decisions, e.id)
      case None => before
      case Some(d) => if d.action == Ignore then before else before[e.path := Resolved(d, e)]
  }

  function Refs(rows: seq<Evidence>, decisions: seq<Decision>): map<Id, EvidenceRef> {
    if rows == [] then map[]
    else
      var before, e := Refs(Init(rows), decisions), Last(rows);
      match LatestDecision(decisions, e.id)
      case None => before
      case Some(d) => if d.action == Ignore then before else before[e.id := EvidenceRef(d.action, e.path)]
  }

  predicate AllDecided(rows: seq<Evidence>, decisions: seq<Decision>) {
    forall i :: 0 <= i < |rows| ==> LatestDecision(decisions, rows[i].id).Some?
  }

  function MaxNumber(versions: seq<Version>): nat {
    if versions == [] then 0
    else
      var m := MaxNumber(Init(versions));
      if Last(versions).number > m then Last(versions).number else m
  }

  function ConfirmVersion(s: Profile, expected: nat, importId: Id): Result<Profile, Error> {
    if importId !in s.imports then Err(NotFound)
    else if s.version != expected then Err(StaleVersion)
    else
      var rows := ImportEvidence(s.evidence, importId);
      if !AllDecided(rows, s.decisions) then Err(InvalidOperation)
      else
        var v := Version(s.nextId, MaxNumber(s.versions) + 1, s.version + 1,
                         Facts(rows, s.decisions), Refs(rows, s.decisions), s.references);
        Ok(s.(versions := s.versions + [v], active := Some(v.id), version := s.version + 1, nextId := s.nextId + 1))
  }

  function Activate(s: Profile, versionId: Id): Result<Profile, Error> {
    if VersionKnown(s.versions, versionId) then Ok(s.(active := Some(versionId))) else Err(NotFound)
  }

  /** `lawful` is the reference check; the stored text stands for the reference and its time. */
  function UpdateReference(s: Profile, lawful: (string, string) -> bool, expected: nat, category: string,
                           reference: string): Result<Profile, Error> {
    if !lawful(category, reference) then Err(BadReference)
    else if s.version != expected then Err(StaleVersion)
    else Ok(s.(references := s.references[category := reference], version := s.version + 1))
  }

  // ---------------------------------------------------------------- assets and imports

  function CreateAsset(s: Profile): Result<Profile, Error> {
    Ok(s.(assets := s.assets[s.nextId := PendingUpload], nextId := s.nextId + 1))
  }

  function FinishUpload(s: Profile, assetId: Id, stored: bool): Result<Profile, Error> {
    if assetId !in s.assets then Err(NotFound)
    else Ok(s.(assets := s.assets[assetId := if stored then Ready else UploadFailed]))
  }

  function StartImport(s: Profile, assetId: Id): Result<Profile, Error> {
    if assetId !in s.assets then Err(NotFound)
    else if s.assets[assetId] != Ready then Err(StateConflict)
    else Ok(s.(imports := s.imports[s.nextId := Import(assetId, Pending)], nextId := s.nextId + 1))
  }

  /** What reading and parsing the stored document yields. */
  datatype Parsed = ReadFailed | Unsupported | Manual | Candidates(fields: seq<(string, Value)>)

  /** The rows of freshly extracted candidates: numbered from 1, with fresh identifiers. */
  function NewEvidence(importId: Id, firstId: Id, fields: seq<(string, Value)>): seq<Evidence> {
    seq(|fields|, i requires 0 <= i < |fields| => Evidence(firstId + i, importId, fields[i].0, fields[i].1, i + 1))
  }

  function WithStatus(s: Profile, importId: Id, status: ImportStatus): Profile
    requires importId in s.imports
  {
    s.(imports := s.imports[importId := s.imports[importId].(status := status)])
  }

  /** Processing an import. A second run that extracts candidates again collides with the unique
      key on import and sequence, and so fails as a whole. */
  function ProcessImport(s: Profile, importId: Id, parsed: Parsed): Result<Profile, Error> {
    if importId !in s.imports then Err(NotFound)
    else if s.imports[importId].asset !in s.assets then Ok(WithStatus(s, importId, Failed))
    else match parsed
      case ReadFailed => Ok(WithStatus(s, importId, Failed))
      case Unsupported => Ok(WithStatus(s, importId, Failed))
      case Manual => Ok(WithStatus(s, importId, NeedsManualEntry))
      case Candidates(fields) =>
        if fields != [] && ImportEvidence(s.evidence, importId) != [] then Err(IntegrityError)
        else
          var t := WithStatus(s, importId, AwaitingConfirmation);
          Ok(t.(evidence := s.evidence + NewEvidence(importId, s.nextId, fields), nextId := s.nextId + |fields|))
  }

  function KeepEvidence(evidence: seq<Evidence>, gone: set<Id>): seq<Evidence> {
    Kept(evidence, (e: Evidence) => e.importId !in gone)
  }

  function KeepDecisions(decisions: seq<Decision>, gone: set<Id>): seq<Decision> {
    Kept(decisions, (d: Decision) => d.evidenceId !in gone)
  }

  function ImportsOf(s: Profile, assetId: Id): set<Id> {
    set i | i in s.imports && s.imports[i].asset == assetId
  }

  function EvidenceOf(evidence: seq<Evidence>, imports: set<Id>): set<Id> {
    set e | e in evidence && e.importId in imports :: e.id
  }

  function DeleteAsset(s: Profile, assetId: Id): Result<Profile, Error> {
    if assetId !in s.assets then Err(NotFound)
    else
      var imports := ImportsOf(s, assetId);
      Ok(s.(assets := s.assets - {assetId}, imports := s.imports - imports,
            evidence := KeepEvidence(s.evidence, imports),
            decisions := KeepDecisions(s.decisions, EvidenceOf(s.evidence, imports)),
            version := s.version + 1))
  }

  // ---------------------------------------------------------------- runs

  datatype Op =
    | DecideOp(expected: nat, decisions: seq<DecisionInput>)
    | ConfirmOp(expected: nat, importId: Id)
    | ReferenceOp(expected: nat, category: string, reference: string)
    | ActivateOp(versionId: Id)
    | DeleteOp(assetId: Id)
    | CreateAssetOp
    | FinishUploadOp(assetId: Id, stored: bool)
    | StartImportOp(assetId: Id)
    | ProcessOp(importId: Id, parsed: Parsed)

  function Perform(s: Profile, lawful: (string, string) -> bool, op: Op): Result<Profile, Error> {
    match op
    case DecideOp(expected, ds) => ApplyDecisions(s, expected, ds)
    case ConfirmOp(expected, importId) => ConfirmVersion(s, expected, importId)
    case ReferenceOp(expected, category, reference) => UpdateReference(s, lawful, expected, category, reference)
    case ActivateOp(versionId) => Activate(s, versionId)
    case DeleteOp(assetId) => DeleteAsset(s, assetId)
    case CreateAssetOp => CreateAsset(s)
    case FinishUploadOp(assetId, stored) => FinishUpload(s, assetId, stored)
    case StartImportOp(assetId) => StartImport(s, assetId)
    case ProcessOp(importId, parsed) => ProcessImport(s, importId, parsed)
  }

  /** A failed operation is rolled back. */
  function Next(s: Profile, lawful: (string, string) -> bool, op: Op): Profile {
    match Perform(s, lawful, op)
    case Ok(t) => t
    case Err(_) => s
  }

  function Run(s: Profile, lawful: (string, string) -> bool, ops: seq<Op>): Profile {
    if ops == [] then s else Next(Run(s, lawful, Init(ops)), lawful, Last(ops))
  }

  /** The operations that count as a write of the aggregate. */
  predicate Mutating(op: Op) {
    op.DecideOp? || op.ConfirmOp? || op.ReferenceOp? || op.DeleteOp?
  }

  /** The operations guarded by an expected version. */
  predicate Guarded(op: Op) {
    op.DecideOp? || op.ConfirmOp? || op.ReferenceOp?
  }
}
