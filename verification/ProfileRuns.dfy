/** What every run of operations leaves in a profile, said of what the operations asked for: the rows
    that were extracted, what the user last said of each, and what was confirmed, selected or set. */
module ProfileRuns {
  import opened Common
  import opened Profiles
  import opened ProfileLaws

  type Check = (string, string) -> bool

  function After(lawful: Check, ops: seq<Op>): Profile {
    Run(EMPTY_PROFILE, lawful, ops)
  }

  /** The last operation of the run committed. */
  predicate LastCommits(lawful: Check, ops: seq<Op>)
    requires ops != []
  {
    Perform(After(lawful, Init(ops)), lawful, Last(ops)).Ok?
  }

  // ---------------------------------------------------------------- what the user last said

  /** The last input on some evidence among all batches that committed. */
  function LastSaid(lawful: Check, ops: seq<Op>, evidenceId: Id): Option<DecisionInput> {
    if ops == [] then None
    else if Last(ops).DecideOp? && LastCommits(lawful, ops) && LastInput(Last(ops).decisions, evidenceId).Some?
    then LastInput(Last(ops).decisions, evidenceId)
    else LastSaid(lawful, Init(ops), evidenceId)
  }

  /** The decision says what the input asked for. */
  predicate Tells(d: Option<Decision>, said: Option<DecisionInput>) {
    match said
    case None => d.None?
    case Some(w) => d.Some? && d.value.action == w.action && d.value.resolved == w.corrected
  }

  lemma {:induction false} LastInputIs(ds: seq<DecisionInput>, evidenceId: Id)
    ensures LastInput(ds, evidenceId).None? <==> forall d :: d in ds ==> d.evidenceId != evidenceId
    ensures LastInput(ds, evidenceId).Some? ==>
              LastInput(ds, evidenceId).value in ds && LastInput(ds, evidenceId).value.evidenceId == evidenceId
  {
    if ds == [] {
    } else {
      LastInputIs(Init(ds), evidenceId);
      assert ds == Init(ds) + [Last(ds)];
    }
  }

  /** Only existing evidence is ever decided. */
  lemma {:induction false} SaidOfOldRows(lawful: Check, ops: seq<Op>, evidenceId: Id)
    ensures LastSaid(lawful, ops, evidenceId).Some? ==> evidenceId < After(lawful, ops).nextId
  {
    if ops == [] {
    } else {
      var s, op := After(lawful, Init(ops)), Last(ops);
      SaidOfOldRows(lawful, Init(ops), evidenceId);
      RunKeeps(lawful, Init(ops));
      NextIdRises(s, lawful, op);
      if op.DecideOp? && LastCommits(lawful, ops) {
        DecideIff(s, op.decisions);
        LastInputIs(op.decisions, evidenceId);
      }
    }
  }

  lemma NextIdRises(s: Profile, lawful: Check, op: Op)
    ensures s.nextId <= Next(s, lawful, op).nextId
  {
    if op.DecideOp? {
      DecideOnlyDecides(s, op.decisions);
    }
  }

  lemma {:induction false} DecideOnlyDecides(s: Profile, ds: seq<DecisionInput>)
    ensures var r := Decide(s, ds); r.Ok? ==> r.value.(decisions := s.decisions, clock := s.clock) == s
  {
    if ds == [] {
    } else {
      DecideOnlyDecides(s, Init(ds));
    }
  }

  lemma LatestGrows(decisions: seq<Decision>, d: Decision, evidenceId: Id)
    ensures var best := LatestDecision(decisions, evidenceId);
            LatestDecision(decisions + [d], evidenceId) ==
            if d.evidenceId == evidenceId && (best.None? || best.value.createdAt <= d.createdAt) then Some(d) else best
  {
    assert Init(decisions + [d]) == decisions;
  }

  lemma {:induction false} LatestOfKept(decisions: seq<Decision>, gone: set<Id>, evidenceId: Id)
    requires evidenceId !in gone
    ensures LatestDecision(KeepDecisions(decisions, gone), evidenceId) == LatestDecision(decisions, evidenceId)
  {
    if decisions == [] {
    } else {
      var front, d := Init(decisions), Last(decisions);
      LatestOfKept(front, gone, evidenceId);
      LatestGrows(KeepDecisions(front, gone), d, evidenceId);
      assert KeepDecisions(decisions, gone) ==
             if d.evidenceId !in gone then KeepDecisions(front, gone) + [d] else KeepDecisions(front, gone);
    }
  }

  /** Deleting an asset leaves the decisions on rows that stay. */
  lemma DeleteLeavesWord(s: Profile, assetId: Id, e: Evidence)
    requires Inv(s) && DeleteAsset(s, assetId).Ok? && e in DeleteAsset(s, assetId).value.evidence
    ensures e in s.evidence
    ensures LatestDecision(DeleteAsset(s, assetId).value.decisions, e.id) == LatestDecision(s.decisions, e.id)
  {
    var imports := ImportsOf(s, assetId);
    DeleteIsExact(s, assetId);
    if o :| o in s.evidence && o.importId in imports && o.id == e.id {
      SameRow(s, o, e);
    }
    LatestOfKept(s.decisions, EvidenceOf(s.evidence, imports), e.id);
  }

  lemma NewRowIsUndecided(s: Profile, id: Id)
    requires Inv(s) && id >= s.nextId
    ensures LatestDecision(s.decisions, id).None?
  {
    LatestIs(s.decisions, id);
    forall d | d in s.decisions ensures d.evidenceId != id {
      var i :| 0 <= i < |s.decisions| && s.decisions[i] == d;
      assert EvidenceKnown(s.evidence, d.evidenceId);
    }
  }

  /** What one operation makes of the newest decision on a row of its outcome. */
  lemma NextTells(s: Profile, lawful: Check, op: Op, e: Evidence)
    requires Inv(s) && e in Next(s, lawful, op).evidence
    ensures var was, now := LatestDecision(s.decisions, e.id), LatestDecision(Next(s, lawful, op).decisions, e.id);
            if op.DecideOp? && Perform(s, lawful, op).Ok? && LastInput(op.decisions, e.id).Some?
            then Tells(now, LastInput(op.decisions, e.id))
            else now == was
    ensures e !in s.evidence ==> e.id >= s.nextId && LatestDecision(s.decisions, e.id).None?
  {
    if Perform(s, lawful, op).Ok? {
      match op
      case DecideOp(_, ds) =>
        DecideOnlyDecides(s, ds);
        BatchHasLastWord(s, ds, e.id);
      case DeleteOp(assetId) =>
        DeleteLeavesWord(s, assetId, e);
      case ProcessOp(importId, parsed) =>
        ProcessAdds(s, importId, parsed, e);
      case _ =>
    }
  }

  /** Processing leaves the decisions, and a row it adds is new. */
  lemma ProcessAdds(s: Profile, importId: Id, parsed: Parsed, e: Evidence)
    requires Inv(s) && ProcessImport(s, importId, parsed).Ok? && e in ProcessImport(s, importId, parsed).value.evidence
    ensures ProcessImport(s, importId, parsed).value.decisions == s.decisions
    ensures e !in s.evidence ==> e.id >= s.nextId && LatestDecision(s.decisions, e.id).None?
  {
    if e !in s.evidence {
      assert e.id >= s.nextId;
      NewRowIsUndecided(s, e.id);
    }
  }

  /** In every reachable state the newest decision on an evidence row is what the last committed input
      on it asked for, and there is none exactly when there was no such input. */
  lemma {:induction false} NewestIsLastSaid(lawful: Check, ops: seq<Op>, e: Evidence)
    requires e in After(lawful, ops).evidence
    ensures Tells(LatestDecision(After(lawful, ops).decisions, e.id), LastSaid(lawful, ops, e.id))
  {
    if ops == [] {
      assert false;
    } else {
      var s, op := After(lawful, Init(ops)), Last(ops);
      RunKeeps(lawful, Init(ops));
      NextTells(s, lawful, op, e);
      if e in s.evidence {
        NewestIsLastSaid(lawful, Init(ops), e);
      } else {
        SaidOfOldRows(lawful, Init(ops), e.id);
      }
    }
  }

  // ---------------------------------------------------------------- what a confirmed version holds

  /** A row of the import on which the user's last word is not to ignore it. */
  ghost predicate Counts(lawful: Check, ops: seq<Op>, importId: Id, e: Evidence) {
    && e in After(lawful, ops).evidence && e.importId == importId
    && LastSaid(lawful, ops, e.id).Some? && LastSaid(lawful, ops, e.id).value.action != Ignore
  }

  /** The counting row of a field path with the highest sequence. */
  ghost predicate Tops(lawful: Check, ops: seq<Op>, importId: Id, e: Evidence) {
    && Counts(lawful, ops, importId, e)
    && forall o :: Counts(lawful, ops, importId, o) && o.path == e.path ==> o.sequence <= e.sequence
  }

  lemma CountsIs(lawful: Check, ops: seq<Op>, importId: Id)
    ensures forall e :: Counts(lawful, ops, importId, e) <==> Contributes(After(lawful, ops), importId, e)
  {
    forall e: Evidence | e in After(lawful, ops).evidence
      ensures Counts(lawful, ops, importId, e) <==> Contributes(After(lawful, ops), importId, e)
    {
      NewestIsLastSaid(lawful, ops, e);
    }
  }

  /** Every version of a reachable state was confirmed when the user had decided every row of its
      import. Under each field path it holds what the user last said of the highest counting row, the
      correction or the extracted value, and no other path; it refers to exactly the counting rows; and
      it keeps the references of that moment. */
  lemma VersionTellsUser(lawful: Check, ops: seq<Op>, v: Version) returns (i: nat)
    requires v in After(lawful, ops).versions
    ensures Confirmed(lawful, ops, i, v)
    ensures var importId, before := ops[i].importId, ops[..i];
            && (forall e :: e in After(lawful, before).evidence && e.importId == importId
                            ==> LastSaid(lawful, before, e.id).Some?)
            && (forall path :: path in v.facts <==> exists e :: Counts(lawful, before, importId, e) && e.path == path)
            && (forall e :: Tops(lawful, before, importId, e) ==> Holds(lawful, before, v, e))
            && (forall e :: Counts(lawful, before, importId, e) ==> Cites(lawful, before, v, e))
            && (forall id :: id in v.refs ==> exists e :: Counts(lawful, before, importId, e) && e.id == id)
            && v.references == After(lawful, before).references
  {
    VersionsAreConfirmed(lawful, ops, v);
    i :| Confirmed(lawful, ops, i, v);
    RunKeeps(lawful, ops[..i]);
    ConfirmTellsUser(lawful, ops[..i], ops[i].expected, ops[i].importId);
  }

  /** The version holds what the user last said of the row. */
  predicate Holds(lawful: Check, ops: seq<Op>, v: Version, e: Evidence) {
    match LastSaid(lawful, ops, e.id)
    case None => false
    case Some(said) =>
      && e.path in v.facts
      && match said.action
         case Correct => said.corrected.Some? && v.facts[e.path] == said.corrected
         case Confirm => v.facts[e.path] == Some(e.value)
         case Ignore => false
  }

  predicate Cites(lawful: Check, ops: seq<Op>, v: Version, e: Evidence) {
    match LastSaid(lawful, ops, e.id)
    case None => false
    case Some(said) => e.id in v.refs && v.refs[e.id].action == said.action && v.refs[e.id].path == e.path
  }

  lemma ConfirmTellsUser(lawful: Check, ops: seq<Op>, expected: nat, importId: Id)
    requires Inv(After(lawful, ops)) && ConfirmVersion(After(lawful, ops), expected, importId).Ok?
    ensures var v := Last(ConfirmVersion(After(lawful, ops), expected, importId).value.versions);
            && (forall e :: e in After(lawful, ops).evidence && e.importId == importId
                            ==> LastSaid(lawful, ops, e.id).Some?)
            && (forall path :: path in v.facts <==> exists e :: Counts(lawful, ops, importId, e) && e.path == path)
            && (forall e :: Tops(lawful, ops, importId, e) ==> Holds(lawful, ops, v, e))
            && (forall e :: Counts(lawful, ops, importId, e) ==> Cites(lawful, ops, v, e))
            && (forall id :: id in v.refs ==> exists e :: Counts(lawful, ops, importId, e) && e.id == id)
            && v.references == After(lawful, ops).references
  {
    var s := After(lawful, ops);
    var v := Last(ConfirmVersion(s, expected, importId).value.versions);
    CountsIs(lawful, ops, importId);
    SnapshotRefs(s, expected, importId);
    forall e | e in s.evidence && e.importId == importId ensures LastSaid(lawful, ops, e.id).Some? {
      RowIsDecided(lawful, ops, expected, importId, e);
    }
    forall path ensures path in v.facts <==> exists e :: Counts(lawful, ops, importId, e) && e.path == path {
      SnapshotHolds(s, expected, importId, path);
    }
    forall e | Tops(lawful, ops, importId, e) ensures Holds(lawful, ops, v, e) {
      TopIsHeld(lawful, ops, expected, importId, e);
    }
    forall e | Counts(lawful, ops, importId, e) ensures Cites(lawful, ops, v, e) {
      NewestIsLastSaid(lawful, ops, e);
    }
  }

  lemma RowIsDecided(lawful: Check, ops: seq<Op>, expected: nat, importId: Id, e: Evidence)
    requires Inv(After(lawful, ops)) && ConfirmVersion(After(lawful, ops), expected, importId).Ok?
    requires e in After(lawful, ops).evidence && e.importId == importId
    ensures LastSaid(lawful, ops, e.id).Some?
  {
    var s := After(lawful, ops);
    ConfirmedOnlyIfDecided(s, expected, importId);
    NewestIsLastSaid(lawful, ops, e);
    LatestIs(s.decisions, e.id);
  }

  lemma TopIsHeld(lawful: Check, ops: seq<Op>, expected: nat, importId: Id, e: Evidence)
    requires Inv(After(lawful, ops)) && ConfirmVersion(After(lawful, ops), expected, importId).Ok?
    requires Tops(lawful, ops, importId, e)
    ensures Holds(lawful, ops, Last(ConfirmVersion(After(lawful, ops), expected, importId).value.versions), e)
  {
    var s := After(lawful, ops);
    CountsIs(lawful, ops, importId);
    NewestIsLastSaid(lawful, ops, e);
    SnapshotHolds(s, expected, importId, e.path);
    assert Highest(s, importId, e.path, e);
  }

  // ---------------------------------------------------------------- references and the active version

  /** The reference that the last committed update of a category set. */
  function LastReference(lawful: Check, ops: seq<Op>, category: string): Option<string> {
    if ops == [] then None
    else match Last(ops)
      case ReferenceOp(_, c, reference) =>
        if c == category && LastCommits(lawful, ops) then Some(reference)
        else LastReference(lawful, Init(ops), category)
      case _ => LastReference(lawful, Init(ops), category)
  }

  /** The version that the last committed confirmation or selection made active. */
  function LastSelected(lawful: Check, ops: seq<Op>): Option<Id> {
    if ops == [] then None
    else match Last(ops)
      case ActivateOp(id) => if LastCommits(lawful, ops) then Some(id) else LastSelected(lawful, Init(ops))
      case ConfirmOp(_, _) =>
        if LastCommits(lawful, ops) && After(lawful, ops).versions != [] then Some(Last(After(lawful, ops).versions).id)
        else LastSelected(lawful, Init(ops))
      case _ => LastSelected(lawful, Init(ops))
  }

  /** In every reachable state each category has the reference that was set last. */
  lemma {:induction false} HoldsLastReference(lawful: Check, ops: seq<Op>, category: string)
    ensures var references := After(lawful, ops).references;
            match LastReference(lawful, ops, category)
            case None => category !in references
            case Some(reference) => category in references && references[category] == reference
  {
    if ops == [] {
    } else {
      HoldsLastReference(lawful, Init(ops), category);
      if Last(ops).DecideOp? {
        DecideOnlyDecides(After(lawful, Init(ops)), Last(ops).decisions);
      }
    }
  }

  /** In every reachable state the version that was confirmed or selected last is active. */
  lemma {:induction false} LastSelectedIsActive(lawful: Check, ops: seq<Op>)
    ensures After(lawful, ops).active == LastSelected(lawful, ops)
  {
    if ops == [] {
    } else {
      LastSelectedIsActive(lawful, Init(ops));
      if Last(ops).DecideOp? {
        DecideOnlyDecides(After(lawful, Init(ops)), Last(ops).decisions);
      }
    }
  }

  // ---------------------------------------------------------------- extracted rows

  /** Operation `i` of the run extracted the row: it processed its import and found the row's path and
      value as the field with the row's sequence number. */
  ghost predicate Extracted(lawful: Check, ops: seq<Op>, i: nat, e: Evidence) {
    && i < |ops| && LastCommits(lawful, ops[..i + 1])
    && ops[i].ProcessOp? && ops[i].importId == e.importId && ops[i].parsed.Candidates?
    && 1 <= e.sequence <= |ops[i].parsed.fields|
    && ops[i].parsed.fields[e.sequence - 1] == (e.path, e.value)
  }

  /** Every evidence row of a reachable state was extracted by an operation of the run. */
  lemma {:induction false} RowsAreExtracted(lawful: Check, ops: seq<Op>, e: Evidence)
    requires e in After(lawful, ops).evidence
    ensures exists i: nat :: Extracted(lawful, ops, i, e)
  {
    if ops == [] {
      assert false;
    } else {
      var s, op, n := After(lawful, Init(ops)), Last(ops), |ops| - 1;
      RunKeeps(lawful, Init(ops));
      if e in s.evidence {
        RowsAreExtracted(lawful, Init(ops), e);
        var i: nat :| Extracted(lawful, Init(ops), i, e);
        assert Init(ops)[..i + 1] == ops[..i + 1];
        assert Extracted(lawful, ops, i, e);
      } else {
        NextTells(s, lawful, op, e);
        assert ops[..n + 1] == ops;
        NewRow(s, lawful, op, e);
        assert Extracted(lawful, ops, n, e);
      }
    }
  }

  lemma NewRow(s: Profile, lawful: Check, op: Op, e: Evidence)
    requires Inv(s) && e in Next(s, lawful, op).evidence && e !in s.evidence
    ensures Perform(s, lawful, op).Ok? && op.ProcessOp? && op.importId == e.importId && op.parsed.Candidates?
    ensures 1 <= e.sequence <= |op.parsed.fields| && op.parsed.fields[e.sequence - 1] == (e.path, e.value)
  {
    if Perform(s, lawful, op).Ok? {
      match op
      case DecideOp(_, ds) => DecideOnlyDecides(s, ds);
      case DeleteOp(assetId) => DeleteLeavesWord(s, assetId, e);
      case _ =>
    }
  }

  /** A committed extraction leaves one row for each field found, and keeps all earlier rows. */
  lemma ExtractionIsStored(lawful: Check, ops: seq<Op>, k: nat)
    requires ops != [] && LastCommits(lawful, ops) && Last(ops).ProcessOp? && Last(ops).parsed.Candidates?
    requires k < |Last(ops).parsed.fields|
    ensures After(lawful, Init(ops)).evidence <= After(lawful, ops).evidence
    ensures exists e :: e in After(lawful, ops).evidence && e.importId == Last(ops).importId
                        && e.sequence == k + 1 && Last(ops).parsed.fields[k] == (e.path, e.value)
  {
    var s, op := After(lawful, Init(ops)), Last(ops);
    RunKeeps(lawful, Init(ops));
    var rows := NewEvidence(op.importId, s.nextId, op.parsed.fields);
    assert After(lawful, ops).evidence == s.evidence + rows;
    assert rows[k] in After(lawful, ops).evidence;
  }

  // ---------------------------------------------------------------- statuses

  function StatusOf(parsed: Parsed): ImportStatus {
    match parsed
    case ReadFailed => Failed
    case Unsupported => Failed
    case Manual => NeedsManualEntry
    case Candidates(_) => AwaitingConfirmation
  }

  /** The status that the last committed processing of an import gave it. */
  function LastStatus(lawful: Check, ops: seq<Op>, importId: Id): ImportStatus {
    if ops == [] then Pending
    else if Last(ops).ProcessOp? && Last(ops).importId == importId && LastCommits(lawful, ops)
    then StatusOf(Last(ops).parsed)
    else LastStatus(lawful, Init(ops), importId)
  }

  /** How the last committed upload of an asset ended. */
  function LastUpload(lawful: Check, ops: seq<Op>, assetId: Id): AssetStatus {
    if ops == [] then PendingUpload
    else if Last(ops).FinishUploadOp? && Last(ops).assetId == assetId && LastCommits(lawful, ops)
    then if Last(ops).stored then Ready else UploadFailed
    else LastUpload(lawful, Init(ops), assetId)
  }

  lemma NextStatus(s: Profile, lawful: Check, op: Op, id: Id)
    requires Inv(s) && id in Next(s, lawful, op).imports
    ensures Next(s, lawful, op).imports[id].status ==
            if op.ProcessOp? && op.importId == id && Perform(s, lawful, op).Ok? then StatusOf(op.parsed)
            else if id in s.imports then s.imports[id].status else Pending
    ensures id !in s.imports ==> id >= s.nextId
  {
    if op.DecideOp? {
      DecideOnlyDecides(s, op.decisions);
    }
  }

  lemma NextUpload(s: Profile, lawful: Check, op: Op, id: Id)
    requires Inv(s) && id in Next(s, lawful, op).assets
    ensures Next(s, lawful, op).assets[id] ==
            if op.FinishUploadOp? && op.assetId == id && Perform(s, lawful, op).Ok?
            then if op.stored then Ready else UploadFailed
            else if id in s.assets then s.assets[id] else PendingUpload
    ensures id !in s.assets ==> id >= s.nextId
  {
    if op.DecideOp? {
      DecideOnlyDecides(s, op.decisions);
    }
  }

  lemma ConcernsOld(s: Profile, lawful: Check, op: Op)
    requires Inv(s) && Perform(s, lawful, op).Ok?
    ensures op.ProcessOp? ==> op.importId < s.nextId
    ensures op.FinishUploadOp? ==> op.assetId < s.nextId
  {}

  /** An operation that commits concerns what exists. */
  lemma LastConcernsOld(lawful: Check, ops: seq<Op>)
    requires ops != []
    ensures After(lawful, Init(ops)).nextId <= After(lawful, ops).nextId
    ensures LastCommits(lawful, ops) && Last(ops).ProcessOp? ==> Last(ops).importId < After(lawful, ops).nextId
    ensures LastCommits(lawful, ops) && Last(ops).FinishUploadOp? ==> Last(ops).assetId < After(lawful, ops).nextId
  {
    RunKeeps(lawful, Init(ops));
    NextIdRises(After(lawful, Init(ops)), lawful, Last(ops));
    if LastCommits(lawful, ops) {
      ConcernsOld(After(lawful, Init(ops)), lawful, Last(ops));
    }
  }

  lemma {:induction false} NoStatusEarlier(lawful: Check, ops: seq<Op>, id: Id)
    requires id >= After(lawful, ops).nextId
    ensures LastStatus(lawful, ops, id) == Pending
  {
    if ops == [] {
    } else {
      LastConcernsOld(lawful, ops);
      NoStatusEarlier(lawful, Init(ops), id);
    }
  }

  lemma {:induction false} NoUploadEarlier(lawful: Check, ops: seq<Op>, id: Id)
    requires id >= After(lawful, ops).nextId
    ensures LastUpload(lawful, ops, id) == PendingUpload
  {
    if ops == [] {
    } else {
      LastConcernsOld(lawful, ops);
      NoUploadEarlier(lawful, Init(ops), id);
    }
  }

  /** In every reachable state an import has the status its last processing gave it, or is pending. */
  lemma {:induction false} ImportStatusIs(lawful: Check, ops: seq<Op>, id: Id)
    requires id in After(lawful, ops).imports
    ensures After(lawful, ops).imports[id].status == LastStatus(lawful, ops, id)
  {
    if ops == [] {
      assert false;
    } else {
      var s := After(lawful, Init(ops));
      RunKeeps(lawful, Init(ops));
      NextStatus(s, lawful, Last(ops), id);
      if id in s.imports {
        ImportStatusIs(lawful, Init(ops), id);
      } else {
        NoStatusEarlier(lawful, Init(ops), id);
      }
    }
  }

  /** And an asset is ready, or its upload failed, as its last upload ended. */
  lemma {:induction false} AssetStatusIs(lawful: Check, ops: seq<Op>, id: Id)
    requires id in After(lawful, ops).assets
    ensures After(lawful, ops).assets[id] == LastUpload(lawful, ops, id)
  {
    if ops == [] {
      assert false;
    } else {
      var s := After(lawful, Init(ops));
      RunKeeps(lawful, Init(ops));
      NextUpload(s, lawful, Last(ops), id);
      if id in s.assets {
        AssetStatusIs(lawful, Init(ops), id);
      } else {
        NoUploadEarlier(lawful, Init(ops), id);
      }
    }
  }

  /** Every import was started on an asset that was ready then. */
  lemma {:induction false} ImportsStartReady(lawful: Check, ops: seq<Op>, importId: Id)
    requires importId in After(lawful, ops).imports
    ensures exists i: nat :: StartedReady(lawful, ops, i, importId)
  {
    if ops == [] {
      assert false;
    } else {
      var s, op, n := After(lawful, Init(ops)), Last(ops), |ops| - 1;
      if importId in s.imports {
        ImportsStartReady(lawful, Init(ops), importId);
        var i: nat :| StartedReady(lawful, Init(ops), i, importId);
        assert Init(ops)[..i] == ops[..i];
        StartedLonger(lawful, ops, i, importId);
      } else {
        assert ops[..n] == Init(ops);
        if op.DecideOp? {
          DecideOnlyDecides(s, op.decisions);
        }
        assert StartedReady(lawful, ops, n, importId);
      }
    }
  }

  ghost predicate StartedReady(lawful: Check, ops: seq<Op>, i: nat, importId: Id) {
    && i < |ops| && ops[i].StartImportOp? && After(lawful, ops[..i]).nextId == importId
    && ops[i].assetId in After(lawful, ops[..i]).assets && After(lawful, ops[..i]).assets[ops[i].assetId] == Ready
    && (importId in After(lawful, ops).imports ==> After(lawful, ops).imports[importId].asset == ops[i].assetId)
  }

  lemma StartedLonger(lawful: Check, ops: seq<Op>, i: nat, importId: Id)
    requires ops != [] && StartedReady(lawful, Init(ops), i, importId) && Init(ops)[..i] == ops[..i]
    requires importId in After(lawful, Init(ops)).imports
    ensures StartedReady(lawful, ops, i, importId)
  {
    RunKeeps(lawful, Init(ops));
    assert ops[i] == Init(ops)[i];
    if importId in After(lawful, ops).imports {
      NextKeepsAsset(After(lawful, Init(ops)), lawful, Last(ops), importId);
    }
  }

  lemma NextKeepsAsset(s: Profile, lawful: Check, op: Op, id: Id)
    requires Inv(s) && id in s.imports && id in Next(s, lawful, op).imports
    ensures Next(s, lawful, op).imports[id].asset == s.imports[id].asset
  {
    if op.DecideOp? {
      DecideOnlyDecides(s, op.decisions);
    }
  }

  // ---------------------------------------------------------------- refusals

  /** When an operation is refused and with which error; an earlier reason hides a later one. */
  lemma Refusals(s: Profile, lawful: Check, op: Op)
    requires Inv(s) && Perform(s, lawful, op).Err?
    ensures var error := Perform(s, lawful, op).error;
            match op
            case DecideOp(expected, ds) => if s.version != expected then error == StaleVersion
                                           else FirstRefused(s, ds, error)
            case ConfirmOp(expected, importId) =>
              if importId !in s.imports then error == NotFound
              else if s.version != expected then error == StaleVersion
              else error == InvalidOperation && SomeUndecided(s, importId)
            case ReferenceOp(expected, category, reference) =>
              if !lawful(category, reference) then error == BadReference
              else error == StaleVersion && s.version != expected
            case ActivateOp(id) => error == NotFound && forall v :: v in s.versions ==> v.id != id
            case DeleteOp(id) => error == NotFound && id !in s.assets
            case CreateAssetOp => false
            case FinishUploadOp(id, _) => error == NotFound && id !in s.assets
            case StartImportOp(id) =>
              if id !in s.assets then error == NotFound else error == StateConflict && s.assets[id] != Ready
            case ProcessOp(id, parsed) =>
              if id !in s.imports then error == NotFound
              else
                && error == IntegrityError && parsed.Candidates? && parsed.fields != []
                && exists e :: e in s.evidence && e.importId == id
  {
    match op
    case DecideOp(expected, ds) =>
      if s.version == expected {
        DecideRefuses(s, ds);
      }
    case ConfirmOp(expected, importId) =>
      ConfirmedOnlyIfDecided(s, expected, importId);
    case ActivateOp(id) =>
      forall v | v in s.versions ensures v.id != id {
        var i :| 0 <= i < |s.versions| && s.versions[i] == v;
      }
    case ProcessOp(id, parsed) =>
      ImportEvidenceIs(s.evidence, id);
      if ImportEvidence(s.evidence, id) != [] {
        assert ImportEvidence(s.evidence, id)[0] in ImportEvidence(s.evidence, id);
      }
    case _ =>
  }

  ghost predicate SomeUndecided(s: Profile, importId: Id) {
    exists e :: e in s.evidence && e.importId == importId && forall d :: d in s.decisions ==> d.evidenceId != e.id
  }

  predicate WellFormed(d: DecisionInput) {
    match d.action
    case Correct => d.corrected.Some?
    case Confirm => d.corrected.None?
    case Ignore => d.corrected.None?
  }

  /** The first input that is malformed or of no known row gives the error, and all before it are fine. */
  ghost predicate FirstRefused(s: Profile, ds: seq<DecisionInput>, error: Error) {
    exists i :: 0 <= i < |ds| && (forall j :: 0 <= j < i ==> Acceptable(s, ds[j])) && RefusedWith(s, ds[i], error)
  }

  ghost predicate Acceptable(s: Profile, d: DecisionInput) {
    WellFormed(d) && exists e :: e in s.evidence && e.id == d.evidenceId
  }

  ghost predicate RefusedWith(s: Profile, d: DecisionInput, error: Error) {
    if !WellFormed(d) then error == InvalidOperation
    else error == NotFound && forall e :: e in s.evidence ==> e.id != d.evidenceId
  }

  lemma KnownIs(s: Profile, id: Id)
    ensures EvidenceKnown(s.evidence, id) <==> exists e :: e in s.evidence && e.id == id
  {
    if e :| e in s.evidence && e.id == id {
      var i :| 0 <= i < |s.evidence| && s.evidence[i] == e;
    }
  }

  lemma {:induction false} DecideRefuses(s: Profile, ds: seq<DecisionInput>)
    ensures match Decide(s, ds)
            case Ok(_) => forall i :: 0 <= i < |ds| ==> Acceptable(s, ds[i])
            case Err(error) => FirstRefused(s, ds, error)
  {
    if ds == [] {
    } else {
      var n := |ds| - 1;
      DecideRefuses(s, Init(ds));
      DecideOnlyDecides(s, Init(ds));
      KnownIs(s, Last(ds).evidenceId);
      match Decide(s, Init(ds))
      case Err(error) =>
        var i :| && 0 <= i < n && (forall j :: 0 <= j < i ==> Acceptable(s, Init(ds)[j]))
                 && RefusedWith(s, Init(ds)[i], error);
        assert forall j :: 0 <= j < i ==> Acceptable(s, ds[j]) by {
          assert forall j :: 0 <= j < i ==> ds[j] == Init(ds)[j];
        }
        assert RefusedWith(s, ds[i], error);
      case Ok(_) =>
        forall j | 0 <= j < n ensures Acceptable(s, ds[j]) {
          assert Acceptable(s, Init(ds)[j]);
        }
        assert ds[n] == Last(ds);
    }
  }

  /** The reasons for which an operation is refused. */
  ghost predicate Refusable(s: Profile, lawful: Check, op: Op) {
    match op
    case DecideOp(expected, ds) => s.version != expected || exists i :: 0 <= i < |ds| && !Acceptable(s, ds[i])
    case ConfirmOp(expected, importId) => importId !in s.imports || s.version != expected || SomeUndecided(s, importId)
    case ReferenceOp(expected, category, reference) => !lawful(category, reference) || s.version != expected
    case ActivateOp(id) => forall v :: v in s.versions ==> v.id != id
    case DeleteOp(id) => id !in s.assets
    case CreateAssetOp => false
    case FinishUploadOp(id, _) => id !in s.assets
    case StartImportOp(id) => id !in s.assets || s.assets[id] != Ready
    case ProcessOp(id, parsed) =>
      || id !in s.imports
      || (parsed.Candidates? && parsed.fields != [] && exists e :: e in s.evidence && e.importId == id)
  }

  /** An operation is refused exactly for these reasons. */
  lemma RefusedIff(s: Profile, lawful: Check, op: Op)
    requires Inv(s)
    ensures Perform(s, lawful, op).Err? <==> Refusable(s, lawful, op)
  {
    match op
    case DecideOp(expected, ds) => DecideRefusedIff(s, ds);
    case ConfirmOp(expected, importId) => ConfirmedOnlyIfDecided(s, expected, importId);
    case ActivateOp(id) => ActivateRefusedIff(s, id);
    case ProcessOp(id, parsed) => ProcessRefusedIff(s, id, parsed);
    case _ =>
  }

  lemma DecideRefusedIff(s: Profile, ds: seq<DecisionInput>)
    ensures Decide(s, ds).Err? <==> exists i :: 0 <= i < |ds| && !Acceptable(s, ds[i])
  {
    DecideRefuses(s, ds);
    match Decide(s, ds)
    case Ok(_) =>
    case Err(error) =>
      var i :| && 0 <= i < |ds| && (forall j :: 0 <= j < i ==> Acceptable(s, ds[j])) && RefusedWith(s, ds[i], error);
      assert !Acceptable(s, ds[i]);
  }

  lemma ActivateRefusedIff(s: Profile, id: Id)
    ensures Activate(s, id).Err? <==> forall v :: v in s.versions ==> v.id != id
  {
    if v :| v in s.versions && v.id == id {
      var i :| 0 <= i < |s.versions| && s.versions[i] == v;
    }
  }

  lemma ProcessRefusedIff(s: Profile, id: Id, parsed: Parsed)
    requires Inv(s)
    ensures ProcessImport(s, id, parsed).Err? <==>
              || id !in s.imports
              || (parsed.Candidates? && parsed.fields != [] && exists e :: e in s.evidence && e.importId == id)
  {
    var rows := ImportEvidence(s.evidence, id);
    ImportEvidenceIs(s.evidence, id);
    if rows != [] {
      assert rows[0] in rows;
    }
  }

  // ---------------------------------------------------------------- what a committed operation adds

  /** Creating an asset adds one pending upload under an identifier that was not in use. */
  lemma CreatesAsset(s: Profile)
    requires Inv(s)
    ensures var t := CreateAsset(s).value;
            exists id: Id :: id !in s.assets && t.assets == s.assets[id := PendingUpload] && t.imports == s.imports
  {
    assert s.nextId !in s.assets;
  }

  /** Starting an import adds one pending import of the asset under an identifier that was not in use. */
  lemma StartsImport(s: Profile, assetId: Id)
    requires Inv(s) && StartImport(s, assetId).Ok?
    ensures var t := StartImport(s, assetId).value;
            exists id: Id :: id !in s.imports && t.imports == s.imports[id := Import(assetId, Pending)]
  {
    assert s.nextId !in s.imports;
  }

  /** In any state, processing an import whose asset is gone marks it failed and adds nothing. */
  lemma ProcessWithoutAsset(s: Profile, importId: Id, parsed: Parsed)
    requires importId in s.imports && s.imports[importId].asset !in s.assets
    ensures var r := ProcessImport(s, importId, parsed);
            && r.Ok? && r.value.imports == s.imports[importId := s.imports[importId].(status := Failed)]
            && r.value.(imports := s.imports) == s
  {}

  lemma {:induction false} MaxNumberBounds(versions: seq<Version>)
    ensures forall v :: v in versions ==> v.number <= MaxNumber(versions)
    ensures MaxNumber(versions) == 0 || exists v :: v in versions && v.number == MaxNumber(versions)
  {
    if versions == [] {
    } else {
      MaxNumberBounds(Init(versions));
      assert versions == Init(versions) + [Last(versions)];
    }
  }

  /** In any state, a confirmed version has the smallest number above all others. */
  lemma ConfirmsAbove(s: Profile, expected: nat, importId: Id)
    requires ConfirmVersion(s, expected, importId).Ok?
    ensures var n := Last(ConfirmVersion(s, expected, importId).value.versions).number;
            && (forall v :: v in s.versions ==> v.number < n)
            && (n == 1 || exists v :: v in s.versions && v.number + 1 == n)
  {
    MaxNumberBounds(s.versions);
  }
}
