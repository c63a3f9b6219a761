/** The profile service as it runs: rows updated step by step inside a transaction that the
    caller rolls back when an operation fails. */
module ProfileStore {
  import opened Common
  import P = Profiles

  /** How a transaction ends: committed with the new state, or rolled back with an error. */
  predicate Ended(before: P.Profile, result: Result<P.Profile, P.Error>, error: Option<P.Error>, after: P.Profile) {
    match result
    case Ok(t) => error.None? && after == t
    case Err(e) => error == Some(e) && after == before
  }

  lemma {:induction false} RefusedPrefix(s: P.Profile, ds: seq<P.DecisionInput>, n: nat, e: P.Error)
    requires n <= |ds| && P.Decide(s, ds[..n]) == Err(e)
    ensures P.Decide(s, ds) == Err(e)
    decreases |ds| - n
  {
    if n == |ds| {
      assert ds[..n] == ds;
    } else {
      assert Init(ds[..n + 1]) == ds[..n];
      RefusedPrefix(s, ds, n + 1, e);
    }
  }

  class Store {
    var version: nat
    var references: map<string, string>
    var active: Option<P.Id>
    var assets: map<P.Id, P.AssetStatus>
    var imports: map<P.Id, P.Import>
    var evidence: seq<P.Evidence>
    var decisions: seq<P.Decision>
    var versions: seq<P.Version>
    var nextId: P.Id
    var clock: nat

    function State(): P.Profile
      reads this
    {
      P.Profile(version, references, active, assets, imports, evidence, decisions, versions, nextId, clock)
    }

    constructor ()
      ensures State() == P.EMPTY_PROFILE
    {
      version, references, active := 0, map[], None;
      assets, imports := map[], map[];
      evidence, decisions, versions := [], [], [];
      nextId, clock := 0, 0;
    }

    /** Appends one decision row, stamped with the current time. */
    method AppendDecision(d: P.DecisionInput)
      modifies `decisions, `clock
      ensures State() == old(State()).(decisions := old(decisions) + [P.Record(d, old(clock))], clock := old(clock) + 1)
    {
      decisions := decisions + [P.Record(d, clock)];
      clock := clock + 1;
    }

    method ApplyDecisions(expected: nat, ds: seq<P.DecisionInput>) returns (error: Option<P.Error>)
      modifies this
      ensures Ended(old(State()), P.ApplyDecisions(old(State()), expected, ds), error, State())
    {
      if version != expected {
        return Some(P.StaleVersion);
      }
      var savedDecisions, savedClock := decisions, clock;
      for i := 0 to |ds|
        invariant P.Decide(old(State()), ds[..i]) == Ok(State())
        invariant State() == old(State()).(decisions := decisions, clock := clock)
      {
        var d := ds[i];
        assert Init(ds[..i + 1]) == ds[..i];
        var refusal := P.Refusal(evidence, d);
        if refusal.Some? {
          RefusedPrefix(old(State()), ds, i + 1, refusal.value);
          decisions, clock := savedDecisions, savedClock;
          return refusal;
        }
        AppendDecision(d);
      }
      assert ds[..|ds|] == ds;
      version := version + 1;
      return None;
    }

    method ConfirmVersion(expected: nat, importId: P.Id) returns (error: Option<P.Error>)
      modifies this
      ensures Ended(old(State()), P.ConfirmVersion(old(State()), expected, importId), error, State())
    {
      if importId !in imports {
        return Some(P.NotFound);
      }
      var rows := P.ImportEvidence(evidence, importId);
      if version != expected {
        return Some(P.StaleVersion);
      }
      if !P.AllDecided(rows, decisions) {
        return Some(P.InvalidOperation);
      }
      var facts: map<string, Option<P.Value>> := map[];
      var refs: map<P.Id, P.EvidenceRef> := map[];
      for i := 0 to |rows|
        invariant facts == P.Facts(rows[..i], decisions) && refs == P.Refs(rows[..i], decisions)
        invariant State() == old(State())
      {
        assert Init(rows[..i + 1]) == rows[..i];
        var e := rows[i];
        var d := P.LatestDecision(decisions, e.id).value;
        if d.action == P.Ignore {
          continue;
        }
        if d.action == P.Correct {
          facts := facts[e.path := d.resolved];
        } else {
          facts := facts[e.path := Some(e.value)];
        }
        refs := refs[e.id := P.EvidenceRef(d.action, e.path)];
      }
      assert rows[..|rows|] == rows;
      var v := P.Version(nextId, P.MaxNumber(versions) + 1, version + 1, facts, refs, references);
      versions := versions + [v];
      nextId := nextId + 1;
      active := Some(v.id);
      version := version + 1;
      return None;
    }

    method Activate(versionId: P.Id) returns (error: Option<P.Error>)
      modifies `active
      ensures Ended(old(State()), P.Activate(old(State()), versionId), error, State())
    {
      if !P.VersionKnown(versions, versionId) {
        return Some(P.NotFound);
      }
      active := Some(versionId);
      return None;
    }

    method UpdateReference(lawful: (string, string) -> bool, expected: nat, category: string, reference: string)
      returns (error: Option<P.Error>)
      modifies `references, `version
      ensures Ended(old(State()), P.UpdateReference(old(State()), lawful, expected, category, reference),
                    error, State())
    {
      if !lawful(category, reference) {
        return Some(P.BadReference);
      }
      if version != expected {
        return Some(P.StaleVersion);
      }
      references := references[category := reference];
      version := version + 1;
      return None;
    }

    method DeleteAsset(assetId: P.Id) returns (error: Option<P.Error>)
      modifies `assets, `imports, `evidence, `decisions, `version
      ensures Ended(old(State()), P.DeleteAsset(old(State()), assetId), error, State())
    {
      if assetId !in assets {
        return Some(P.NotFound);
      }
      var gone := P.ImportsOf(State(), assetId);
      decisions := P.KeepDecisions(decisions, P.EvidenceOf(evidence, gone));
      evidence := P.KeepEvidence(evidence, gone);
      imports := imports - gone;
      assets := assets - {assetId};
      version := version + 1;
      return None;
    }

    method StartImport(assetId: P.Id) returns (error: Option<P.Error>)
      modifies `imports, `nextId
      ensures Ended(old(State()), P.StartImport(old(State()), assetId), error, State())
    {
      if assetId !in assets {
        return Some(P.NotFound);
      }
      if assets[assetId] != P.Ready {
        return Some(P.StateConflict);
      }
      imports := imports[nextId := P.Import(assetId, P.Pending)];
      nextId := nextId + 1;
      return None;
    }

    method SetStatus(importId: P.Id, status: P.ImportStatus)
      requires importId in imports
      modifies `imports
      ensures State() == P.WithStatus(old(State()), importId, status)
    {
      imports := imports[importId := imports[importId].(status := status)];
    }

    method ProcessImport(importId: P.Id, parsed: P.Parsed) returns (error: Option<P.Error>)
      modifies `imports, `evidence, `nextId
      ensures Ended(old(State()), P.ProcessImport(old(State()), importId, parsed), error, State())
    {
      if importId !in imports {
        return Some(P.NotFound);
      }
      var saved := imports;
      SetStatus(importId, P.Parsing);
      if imports[importId].asset !in assets || parsed.ReadFailed? || parsed.Unsupported? {
        SetStatus(importId, P.Failed);
        return None;
      }
      if parsed.Manual? {
        SetStatus(importId, P.NeedsManualEntry);
        return None;
      }
      if parsed.fields != [] && P.ImportEvidence(evidence, importId) != [] {
        imports := saved;
        return Some(P.IntegrityError);
      }
      evidence := evidence + P.NewEvidence(importId, nextId, parsed.fields);
      nextId := nextId + |parsed.fields|;
      SetStatus(importId, P.AwaitingConfirmation);
      return None;
    }
  }
}
