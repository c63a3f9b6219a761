/** The collector of job evidence: the records it keeps of the payloads it is fed, the expected
    count, and what a total that cannot be converted to an integer leaves out. */
module EvidenceCollector {
  import opened Common
  import opened EvidenceWalk

  const TOTAL_KEYS := ["total", "totalCount", "totalElements", "count"]
  const LARGEST_TOTAL := 10000

  /** What converting a value to an integer does: it yields a number, is refused with one of the
      errors the loop goes on after, or overflows, as for infinity, which ends the payload. */
  datatype Parsed = Number(value: int) | Refused | Overflow

  /** The conversion, the job record of a job-shaped mapping, and the identity of a record. */
  datatype Rules<!R> = Rules(parse: Tree -> Parsed, record: Tree -> Option<R>, identity: R -> string)

  /** The value under a key of a mapping. */
  function Get(fields: seq<Field>, name: string): Option<Tree> {
    if fields == [] then None
    else if Last(fields).name == name then Some(Last(fields).value) else Get(Init(fields), name)
  }

  function TotalAt<R>(r: Rules<R>, m: Tree, key: string): Parsed {
    if !m.Mapping? then Refused
    else match Get(m.fields, key) case None => Refused case Some(v) => r.parse(v)
  }

  /** The numbers read, and whether an overflow ended the reading. */
  datatype Reading = Reading(numbers: seq<int>, stopped: bool)

  function ReadTo<R>(r: Rules<R>, m: Tree, n: nat): Reading
    requires n <= |TOTAL_KEYS|
  {
    if n == 0 then Reading([], false)
    else
      var before := ReadTo(r, m, n - 1);
      if before.stopped then before
      else match TotalAt(r, m, TOTAL_KEYS[n - 1])
        case Number(v) => Reading(before.numbers + [v], false)
        case Refused => before
        case Overflow => Reading(before.numbers, true)
  }

  function Read<R>(r: Rules<R>, m: Tree): Reading {
    ReadTo(r, m, |TOTAL_KEYS|)
  }

  /** The largest in-range number so far. */
  function Larger(best: Option<int>, n: int): Option<int> {
    if !(0 < n <= LARGEST_TOTAL) then best
    else if best.None? || n > best.value then Some(n) else best
  }

  function LargestOf(best: Option<int>, ns: seq<int>): Option<int> {
    if ns == [] then best else Larger(LargestOf(best, Init(ns)), Last(ns))
  }

  function RecordOf<R>(r: Rules<R>, m: Tree): seq<R> {
    match r.record(m) case None => [] case Some(record) => [record]
  }

  /** What a payload yields: the numbers and records of its mappings up to the one that stops it,
      of which only the numbers before the overflow are read. */
  datatype Yield<R> = Yield(numbers: seq<int>, records: seq<R>, stopped: bool)

  function YieldOf<R>(r: Rules<R>, mappings: seq<Tree>): Yield<R> {
    if mappings == [] then Yield([], [], false)
    else
      var before, m := YieldOf(r, Init(mappings)), Last(mappings);
      if before.stopped then before
      else
        var reading := Read(r, m);
        Yield(before.numbers + reading.numbers,
              if reading.stopped then before.records else before.records + RecordOf(r, m), reading.stopped)
  }

  function PayloadYield<R>(r: Rules<R>, payload: Tree): Yield<R> {
    YieldOf(r, Visit([payload]))
  }

  /** The numbers and records of all payloads; an overflow ends only its own payload. */
  function AllNumbers<R>(r: Rules<R>, payloads: seq<Tree>): seq<int> {
    if payloads == [] then [] else AllNumbers(r, Init(payloads)) + PayloadYield(r, Last(payloads)).numbers
  }

  function AllRecords<R>(r: Rules<R>, payloads: seq<Tree>): seq<R> {
    if payloads == [] then [] else AllRecords(r, Init(payloads)) + PayloadYield(r, Last(payloads)).records
  }

  lemma {:induction false} LargestConcat(best: Option<int>, a: seq<int>, b: seq<int>)
    ensures LargestOf(best, a + b) == LargestOf(LargestOf(best, a), b)
  {
    if b == [] {
      assert a + b == a;
    } else {
      LargestConcat(best, a, Init(b));
      assert Init(a + b) == a + Init(b);
    }
  }

  lemma LargestNext(best: Option<int>, ns: seq<int>, n: int)
    ensures LargestOf(best, ns + [n]) == Larger(LargestOf(best, ns), n)
  {
    assert Init(ns + [n]) == ns;
  }

  lemma ReadNext<R>(r: Rules<R>, m: Tree, i: nat)
    requires i < |TOTAL_KEYS| && !ReadTo(r, m, i).stopped
    ensures ReadTo(r, m, i + 1) == match TotalAt(r, m, TOTAL_KEYS[i])
                                   case Number(v) => Reading(ReadTo(r, m, i).numbers + [v], false)
                                   case Refused => ReadTo(r, m, i)
                                   case Overflow => Reading(ReadTo(r, m, i).numbers, true)
  {}

  class PublicJobEvidenceCollector<R(!new)> {
    var records: seq<R>
    var expectedCount: Option<int>
    var seen: set<string>

    /** The collector holds what these numbers and records leave. */
    ghost predicate Holds(r: Rules<R>, numbers: seq<int>, found: seq<R>)
      reads this
    {
      && seen == KeySet(records, r.identity)
      && records == FirstByKey(found, r.identity)
      && expectedCount == LargestOf(None, numbers)
    }

    constructor ()
      ensures records == [] && expectedCount == None && seen == {}
    {
      records, expectedCount, seen := [], None, {};
    }

    /** Reads the totals of a mapping until one overflows. */
    method RaiseExpected(r: Rules<R>, m: Tree) returns (stopped: bool)
      modifies `expectedCount
      ensures stopped == Read(r, m).stopped
      ensures expectedCount == LargestOf(old(expectedCount), Read(r, m).numbers)
    {
      stopped := false;
      for i := 0 to |TOTAL_KEYS|
        invariant !stopped && !ReadTo(r, m, i).stopped
        invariant expectedCount == LargestOf(old(expectedCount), ReadTo(r, m, i).numbers)
      {
        var parsed := TotalAt(r, m, TOTAL_KEYS[i]);
        ReadNext(r, m, i);
        match parsed
        case Overflow =>
          StoppedStays(r, m, i + 1, |TOTAL_KEYS|);
          return true;
        case Refused =>
        case Number(number) =>
          LargestNext(old(expectedCount), ReadTo(r, m, i).numbers, number);
          if 0 < number <= LARGEST_TOTAL {
            expectedCount :=
              if expectedCount.None? || number > expectedCount.value then Some(number) else expectedCount;
          }
      }
    }

    /** Adds a record whose identity is new. */
    method AddRecord(r: Rules<R>, record: R, ghost numbers: seq<int>, ghost found: seq<R>)
      requires Holds(r, numbers, found)
      modifies `records, `seen
      ensures Holds(r, numbers, found + [record])
    {
      assert Init(found + [record]) == found;
      var identity := r.identity(record);
      if identity !in seen {
        KeySetOfConcat(records, [record], r.identity);
        assert KeySet([record], r.identity) == {identity} by {
          assert r.identity([record][0]) in KeySet([record], r.identity);
        }
        seen := seen + {identity};
        records := records + [record];
      }
    }

    /** Takes in one mapping: its totals, then its record, unless a total overflows. */
    method FeedMapping(r: Rules<R>, m: Tree, ghost numbers: seq<int>, ghost found: seq<R>) returns (stopped: bool)
      requires Holds(r, numbers, found)
      modifies this
      ensures stopped == Stops(r, m)
      ensures Holds(r, numbers + Read(r, m).numbers, if stopped then found else found + RecordOf(r, m))
    {
      LargestConcat(None, numbers, Read(r, m).numbers);
      stopped := RaiseExpected(r, m);
      if stopped {
        return;
      }
      var record := r.record(m);
      if record.Some? {
        AddRecord(r, record.value, numbers + Read(r, m).numbers, found);
      } else {
        assert found + [] == found;
      }
    }

    /** Feeds one payload after what was fed before, up to the mapping that stops it. */
    method FeedPayload(r: Rules<R>, payload: Tree, ghost numbers: seq<int>, ghost found: seq<R>)
      requires Holds(r, numbers, found)
      modifies this
      ensures Holds(r, numbers + PayloadYield(r, payload).numbers, found + PayloadYield(r, payload).records)
    {
      var mappings := WalkJsonMappings(payload);
      ghost var y: Yield<R> := Yield([], [], false);
      assert numbers + [] == numbers && found + [] == found;
      for i := 0 to |mappings|
        invariant y == YieldOf(r, mappings[..i]) && !y.stopped
        invariant Holds(r, numbers + y.numbers, found + y.records)
      {
        var stopped := FeedMapping(r, mappings[i], numbers + y.numbers, found + y.records);
        YieldNext(r, mappings, i);
        ghost var next := YieldOf(r, mappings[..i + 1]);
        YieldAppends(numbers, found, y, Read(r, mappings[i]).numbers, RecordOf(r, mappings[i]));
        if stopped {
          YieldStays(r, mappings, i + 1, |mappings|);
          assert mappings[..|mappings|] == mappings && PayloadYield(r, payload) == next;
          return;
        }
        y := next;
      }
      assert mappings[..|mappings|] == mappings;
    }
  }

  lemma YieldAppends<R>(numbers: seq<int>, found: seq<R>, y: Yield<R>, ns: seq<int>, rs: seq<R>)
    ensures numbers + y.numbers + ns == numbers + (y.numbers + ns)
    ensures found + y.records + rs == found + (y.records + rs)
  {}

  lemma {:induction false} StoppedStays<R>(r: Rules<R>, m: Tree, i: nat, n: nat)
    requires i <= n <= |TOTAL_KEYS| && ReadTo(r, m, i).stopped
    ensures ReadTo(r, m, n) == ReadTo(r, m, i)
  {
    if i == n {
    } else {
      StoppedStays(r, m, i, n - 1);
    }
  }

  lemma YieldNext<R>(r: Rules<R>, mappings: seq<Tree>, i: nat)
    requires i < |mappings| && !YieldOf(r, mappings[..i]).stopped
    ensures var y, reading := YieldOf(r, mappings[..i]), Read(r, mappings[i]);
            YieldOf(r, mappings[..i + 1])
            == Yield(y.numbers + reading.numbers,
                     if reading.stopped then y.records else y.records + RecordOf(r, mappings[i]), reading.stopped)
  {
    assert Init(mappings[..i + 1]) == mappings[..i];
  }

  lemma {:induction false} YieldStays<R>(r: Rules<R>, mappings: seq<Tree>, i: nat, n: nat)
    requires i <= n <= |mappings| && YieldOf(r, mappings[..i]).stopped
    ensures YieldOf(r, mappings[..n]) == YieldOf(r, mappings[..i])
  {
    if i == n {
    } else {
      YieldStays(r, mappings, i, n - 1);
      assert Init(mappings[..n]) == mappings[..n - 1];
    }
  }

  // ---------------------------------------------------------------- what is read of one mapping

  /** The value under a key is that of its last field. */
  lemma {:induction false} GetIs(fields: seq<Field>, name: string)
    ensures match Get(fields, name)
            case None => forall f :: f in fields ==> f.name != name
            case Some(v) => exists i :: 0 <= i < |fields| && fields[i] == Field(name, v)
                                        && forall j :: i < j < |fields| ==> fields[j].name != name
  {
    if fields == [] {
    } else {
      var n := |fields| - 1;
      GetIs(Init(fields), name);
      assert fields == Init(fields) + [Last(fields)];
      if Last(fields).name == name {
        assert fields[n] == Field(name, Last(fields).value);
      } else if Get(fields, name).Some? {
        var i :| 0 <= i < n && Init(fields)[i] == Field(name, Get(fields, name).value)
                 && forall j :: i < j < n ==> Init(fields)[j].name != name;
        assert fields[i] == Init(fields)[i] && forall j :: i < j < n ==> fields[j] == Init(fields)[j];
      }
    }
  }

  /** The mapping has a value under the key that converts in this way. */
  predicate Converts<R>(r: Rules<R>, m: Tree, key: string, parsed: Parsed) {
    m.Mapping? && Get(m.fields, key).Some? && r.parse(Get(m.fields, key).value) == parsed
  }

  /** One of the four totals converts in this way, and none read before it overflows. */
  predicate TotalReads<R>(r: Rules<R>, m: Tree, parsed: Parsed) {
    || Converts(r, m, "total", parsed)
    || (!Converts(r, m, "total", Overflow)
        && (|| Converts(r, m, "totalCount", parsed)
            || (!Converts(r, m, "totalCount", Overflow)
                && (|| Converts(r, m, "totalElements", parsed)
                    || (!Converts(r, m, "totalElements", Overflow) && Converts(r, m, "count", parsed))))))
  }

  lemma ReadStep<R>(r: Rules<R>, m: Tree, i: nat, n: int)
    requires i < |TOTAL_KEYS|
    ensures ReadTo(r, m, i + 1).stopped <==> ReadTo(r, m, i).stopped || Converts(r, m, TOTAL_KEYS[i], Overflow)
    ensures n in ReadTo(r, m, i + 1).numbers <==>
            || n in ReadTo(r, m, i).numbers
            || (!ReadTo(r, m, i).stopped && Converts(r, m, TOTAL_KEYS[i], Number(n)))
  {}

  /** A mapping stops its payload exactly when one of its four totals overflows, and the numbers read of
      it are those of the totals before that. */
  lemma ReadIs<R>(r: Rules<R>, m: Tree, n: int)
    ensures Read(r, m).stopped <==> TotalReads(r, m, Overflow)
    ensures n in Read(r, m).numbers <==> TotalReads(r, m, Number(n))
  {
    ReadStep(r, m, 0, n);
    ReadStep(r, m, 1, n);
    ReadStep(r, m, 2, n);
    ReadStep(r, m, 3, n);
    assert TOTAL_KEYS[0] == "total" && TOTAL_KEYS[1] == "totalCount";
    assert TOTAL_KEYS[2] == "totalElements" && TOTAL_KEYS[3] == "count";
  }

  // ---------------------------------------------------------------- which mappings are reached

  predicate Stops<R>(r: Rules<R>, m: Tree) {
    Read(r, m).stopped
  }

  /** The mappings of a payload before the first one that stops it. */
  function Reached<R>(r: Rules<R>, mappings: seq<Tree>): (reached: seq<Tree>)
    ensures |reached| <= |mappings|
  {
    if mappings == [] then []
    else
      var front := Reached(r, Init(mappings));
      if |front| < |mappings| - 1 || Stops(r, Last(mappings)) then front else mappings
  }

  /** The reached mappings are the longest prefix in which none stops. */
  lemma {:induction false} ReachedIs<R>(r: Rules<R>, mappings: seq<Tree>)
    ensures Reached(r, mappings) == mappings[..|Reached(r, mappings)|]
    ensures forall m :: m in Reached(r, mappings) ==> !Stops(r, m)
    ensures |Reached(r, mappings)| < |mappings| ==> Stops(r, mappings[|Reached(r, mappings)|])
  {
    if mappings == [] {
    } else {
      ReachedIs(r, Init(mappings));
      assert mappings == Init(mappings) + [Last(mappings)];
    }
  }

  /** The record of some mapping among these has the identity `k`. */
  ghost predicate HasJob<R>(r: Rules<R>, mappings: seq<Tree>, k: string) {
    exists m :: m in mappings && r.record(m).Some? && r.identity(r.record(m).value) == k
  }

  lemma HasJobAdds<R>(r: Rules<R>, a: seq<Tree>, m: Tree, k: string)
    ensures HasJob(r, a + [m], k) <==>
            HasJob(r, a, k) || (r.record(m).Some? && r.identity(r.record(m).value) == k)
  {
    if HasJob(r, a, k) {
      var n :| n in a && r.record(n).Some? && r.identity(r.record(n).value) == k;
      assert n in a + [m];
    }
    assert m in a + [m];
  }

  /** A payload yields exactly the records of its reached mappings, and stops exactly when one of
      its mappings stops it. */
  lemma {:induction false} YieldIs<R(!new)>(r: Rules<R>, mappings: seq<Tree>, k: string)
    ensures k in KeySet(YieldOf(r, mappings).records, r.identity) <==> HasJob(r, Reached(r, mappings), k)
    ensures YieldOf(r, mappings).stopped <==> |Reached(r, mappings)| < |mappings|
  {
    if mappings == [] {
    } else {
      var front, m := Init(mappings), Last(mappings);
      var before := YieldOf(r, front);
      YieldIs(r, front, k);
      if !before.stopped && !Stops(r, m) {
        assert front + [m] == mappings;
        ReachedIs(r, front);
        assert Reached(r, front) == front;
        HasJobAdds(r, front, m, k);
        KeySetOfConcat(before.records, RecordOf(r, m), r.identity);
        RecordKeys(r, m);
      }
    }
  }

  lemma RecordKeys<R>(r: Rules<R>, m: Tree)
    ensures KeySet(RecordOf(r, m), r.identity) == if r.record(m).Some? then {r.identity(r.record(m).value)} else {}
  {
    if r.record(m).Some? {
      assert r.identity(RecordOf(r, m)[0]) in KeySet(RecordOf(r, m), r.identity);
    }
  }

  // ---------------------------------------------------------------- what a sequence of payloads leaves

  lemma {:induction false} LargestIs(ns: seq<int>)
    ensures var best := LargestOf(None, ns);
            && (best.None? <==> forall n :: n in ns ==> !(0 < n <= LARGEST_TOTAL))
            && (best.Some? ==> best.value in ns && 0 < best.value <= LARGEST_TOTAL
                               && forall n :: n in ns && n <= LARGEST_TOTAL ==> n <= best.value)
  {
    if ns == [] {
    } else {
      LargestIs(Init(ns));
      assert ns == Init(ns) + [Last(ns)];
      var best := LargestOf(None, ns);
      if best.Some? {
        assert best.value in ns && 0 < best.value <= LARGEST_TOTAL;
      }
    }
  }

  /** Some payload reaches a job-shaped mapping of the identity `k`. */
  ghost predicate ReachesJob<R>(r: Rules<R>, payloads: seq<Tree>, k: string) {
    exists p :: p in payloads && HasJob(r, Reached(r, Visit([p])), k)
  }

  lemma ReachesJobAdds<R>(r: Rules<R>, front: seq<Tree>, p: Tree, k: string)
    ensures ReachesJob(r, front + [p], k) <==> ReachesJob(r, front, k) || HasJob(r, Reached(r, Visit([p])), k)
  {
    if ReachesJob(r, front, k) {
      var q :| q in front && HasJob(r, Reached(r, Visit([q])), k);
      assert q in front + [p];
    }
    assert p in front + [p];
  }

  lemma RecordKeysAdd<R>(r: Rules<R>, front: seq<Tree>, p: Tree, k: string)
    ensures k in KeySet(AllRecords(r, front + [p]), r.identity) <==>
            k in KeySet(AllRecords(r, front), r.identity) || k in KeySet(PayloadYield(r, p).records, r.identity)
  {
    assert Init(front + [p]) == front;
    KeySetOfConcat(AllRecords(r, front), PayloadYield(r, p).records, r.identity);
  }

  lemma {:induction false} RecordsAre<R(!new)>(r: Rules<R>, payloads: seq<Tree>, k: string)
    ensures k in KeySet(AllRecords(r, payloads), r.identity) <==> ReachesJob(r, payloads, k)
  {
    if payloads == [] {
    } else {
      var front, p := Init(payloads), Last(payloads);
      RecordsAre(r, front, k);
      assert payloads == front + [p];
      ReachesJobAdds(r, front, p, k);
      YieldIs(r, Visit([p]), k);
      RecordKeysAdd(r, front, p, k);
    }
  }

  ghost function Collected<R>(r: Rules<R>, payloads: seq<Tree>): seq<R> {
    FirstByKey(AllRecords(r, payloads), r.identity)
  }

  /** After any payloads, the collected records have distinct identities, which are exactly those
      of the job-shaped mappings that some payload has before the first mapping that stops it. */
  lemma CollectedRecords<R(!new)>(r: Rules<R>, payloads: seq<Tree>)
    ensures DistinctKeys(Collected(r, payloads), r.identity)
    ensures forall k :: k in KeySet(Collected(r, payloads), r.identity) <==> ReachesJob(r, payloads, k)
  {
    FirstByKeyKeys(AllRecords(r, payloads), r.identity);
    forall k ensures k in KeySet(AllRecords(r, payloads), r.identity) <==> ReachesJob(r, payloads, k) {
      RecordsAre(r, payloads, k);
    }
  }

  /** Every job-shaped mapping of the payloads is represented among the collected records. */
  ghost predicate Covers<R>(r: Rules<R>, payloads: seq<Tree>) {
    forall k :: HasJob(r, Preorders(payloads), k) ==> k in KeySet(Collected(r, payloads), r.identity)
  }

  lemma VisitHas(p: Tree, m: Tree)
    ensures m in Visit([p]) <==> m in Preorder(p)
  {
    VisitOne(p);
    assert m in Preorder(p) <==> m in multiset(Preorder(p));
    assert m in Visit([p]) <==> m in multiset(Visit([p]));
  }

  /** The mapping is visited in some payload. */
  ghost predicate InSome(payloads: seq<Tree>, m: Tree) {
    exists p :: p in payloads && m in Visit([p])
  }

  lemma InSomeAdds(front: seq<Tree>, p: Tree, m: Tree)
    ensures InSome(front + [p], m) <==> InSome(front, m) || m in Visit([p])
  {
    assert p in front + [p] && forall q :: q in front ==> q in front + [p];
  }

  lemma {:induction false} MappingsOfPayloads(payloads: seq<Tree>, m: Tree)
    ensures m in Preorders(payloads) <==> InSome(payloads, m)
  {
    if payloads == [] {
    } else {
      var front, p := Init(payloads), Last(payloads);
      MappingsOfPayloads(front, m);
      VisitHas(p, m);
      InSomeAdds(front, p, m);
      assert payloads == front + [p];
    }
  }

  lemma ReachedJobIsThere<R(!new)>(r: Rules<R>, payloads: seq<Tree>, k: string)
    requires ReachesJob(r, payloads, k)
    ensures HasJob(r, Preorders(payloads), k)
  {
    var p :| p in payloads && HasJob(r, Reached(r, Visit([p])), k);
    var m :| m in Reached(r, Visit([p])) && r.record(m).Some? && r.identity(r.record(m).value) == k;
    ReachedIs(r, Visit([p]));
    MappingsOfPayloads(payloads, m);
  }

  /** The records cover exactly the job-shaped mappings of the payloads if and only if every
      job-shaped identity that occurs behind a stopping mapping is also reached somewhere. */
  lemma CoversIff<R(!new)>(r: Rules<R>, payloads: seq<Tree>)
    ensures Covers(r, payloads) <==>
            forall p, k :: p in payloads && BehindStop(r, p, k) ==> ReachesJob(r, payloads, k)
    ensures forall k :: k in KeySet(Collected(r, payloads), r.identity) ==> HasJob(r, Preorders(payloads), k)
  {
    CollectedRecords(r, payloads);
    forall k | k in KeySet(Collected(r, payloads), r.identity) ensures HasJob(r, Preorders(payloads), k) {
      ReachedJobIsThere(r, payloads, k);
    }
    forall p, k | p in payloads && BehindStop(r, p, k) ensures HasJob(r, Preorders(payloads), k) {
      BehindStopIsThere(r, payloads, p, k);
    }
    forall k | HasJob(r, Preorders(payloads), k)
      ensures ReachesJob(r, payloads, k) || exists p :: p in payloads && BehindStop(r, p, k)
    {
      JobIsReachedOrBehind(r, payloads, k);
    }
  }

  /** A job-shaped mapping of the identity `k` is the one that stops the payload, or comes later. */
  ghost predicate BehindStop<R>(r: Rules<R>, p: Tree, k: string) {
    HasJob(r, Visit([p])[|Reached(r, Visit([p]))|..], k)
  }

  lemma BehindStopIsThere<R(!new)>(r: Rules<R>, payloads: seq<Tree>, p: Tree, k: string)
    requires p in payloads && BehindStop(r, p, k)
    ensures HasJob(r, Preorders(payloads), k)
  {
    var rest := Visit([p])[|Reached(r, Visit([p]))|..];
    var m :| m in rest && r.record(m).Some? && r.identity(r.record(m).value) == k;
    assert m in Visit([p]);
    MappingsOfPayloads(payloads, m);
  }

  lemma JobIsReachedOrBehind<R(!new)>(r: Rules<R>, payloads: seq<Tree>, k: string)
    requires HasJob(r, Preorders(payloads), k)
    ensures ReachesJob(r, payloads, k) || exists p :: p in payloads && BehindStop(r, p, k)
  {
    var m :| m in Preorders(payloads) && r.record(m).Some? && r.identity(r.record(m).value) == k;
    MappingsOfPayloads(payloads, m);
    var p :| p in payloads && m in Visit([p]);
    ReachedOrBehind(r, p, m);
    assert HasJob(r, Reached(r, Visit([p])), k) || BehindStop(r, p, k);
  }

  lemma ReachedOrBehind<R>(r: Rules<R>, p: Tree, m: Tree)
    requires m in Visit([p])
    ensures m in Reached(r, Visit([p])) || m in Visit([p])[|Reached(r, Visit([p]))|..]
  {
    var all, n := Visit([p]), |Reached(r, Visit([p]))|;
    ReachedIs(r, all);
    assert all == all[..n] + all[n..];
  }

  /** Where no total overflows, the records cover every job-shaped mapping of the payloads. */
  lemma CoversWhenNothingStops<R(!new)>(r: Rules<R>, payloads: seq<Tree>)
    requires forall m :: m in Preorders(payloads) ==> !Stops(r, m)
    ensures Covers(r, payloads)
  {
    forall p, k | p in payloads ensures !BehindStop(r, p, k) {
      var all := Visit([p]);
      ReachedIs(r, all);
      forall m | m in all ensures !Stops(r, m) {
        MappingsOfPayloads(payloads, m);
      }
    }
    CoversIff(r, payloads);
  }

  // ---------------------------------------------------------------- the order of the payloads

  ghost predicate ReadsNumber<R>(r: Rules<R>, payloads: seq<Tree>, n: int) {
    exists p :: p in payloads && n in PayloadYield(r, p).numbers
  }

  lemma ReadsNumberAdds<R>(r: Rules<R>, front: seq<Tree>, p: Tree, n: int)
    ensures ReadsNumber(r, front + [p], n) <==> ReadsNumber(r, front, n) || n in PayloadYield(r, p).numbers
  {
    assert p in front + [p] && forall q :: q in front ==> q in front + [p];
  }

  lemma {:induction false} NumbersAre<R>(r: Rules<R>, payloads: seq<Tree>, n: int)
    ensures n in AllNumbers(r, payloads) <==> ReadsNumber(r, payloads, n)
  {
    if payloads == [] {
    } else {
      var front, p := Init(payloads), Last(payloads);
      assert payloads == front + [p];
      NumbersAre(r, front, n);
      ReadsNumberAdds(r, front, p, n);
    }
  }

  /** One of the mappings that are reached, or the one that stops them, has this total. */
  ghost predicate TotalAmong<R>(r: Rules<R>, mappings: seq<Tree>, n: int) {
    exists i :: 0 <= i < |mappings| && i <= |Reached(r, mappings)| && TotalReads(r, mappings[i], Number(n))
  }

  lemma TotalAmongAdds<R>(r: Rules<R>, front: seq<Tree>, m: Tree, n: int)
    ensures TotalAmong(r, front + [m], n) <==>
            || TotalAmong(r, front, n)
            || (|Reached(r, front)| == |front| && TotalReads(r, m, Number(n)))
  {
    var all := front + [m];
    assert Init(all) == front && Last(all) == m;
    if TotalAmong(r, front, n) {
      var i :| 0 <= i < |front| && i <= |Reached(r, front)| && TotalReads(r, front[i], Number(n));
      assert all[i] == front[i];
    }
    assert all[|front|] == m;
  }

  lemma {:induction false} NumbersAmong<R(!new)>(r: Rules<R>, mappings: seq<Tree>, n: int)
    ensures n in YieldOf(r, mappings).numbers <==> TotalAmong(r, mappings, n)
  {
    if mappings == [] {
    } else {
      var front, m := Init(mappings), Last(mappings);
      assert mappings == front + [m];
      NumbersAmong(r, front, n);
      YieldIs(r, front, "");
      ReadIs(r, m, n);
      TotalAmongAdds(r, front, m, n);
    }
  }

  /** Some payload has this total in a mapping that is reached or that stops it. */
  ghost predicate HasTotal<R>(r: Rules<R>, payloads: seq<Tree>, n: int) {
    exists p :: p in payloads && TotalAmong(r, Visit([p]), n)
  }

  /** After any payloads the expected count is the largest total from 1 to 10000 that they have, and none
      exactly when they have no such total. */
  lemma ExpectedCountIs<R(!new)>(r: Rules<R>, payloads: seq<Tree>)
    ensures match LargestOf(None, AllNumbers(r, payloads))
            case None => forall n :: 1 <= n <= 10000 ==> !HasTotal(r, payloads, n)
            case Some(best) =>
              && 1 <= best <= 10000 && HasTotal(r, payloads, best)
              && forall n :: best < n <= 10000 ==> !HasTotal(r, payloads, n)
  {
    LargestIs(AllNumbers(r, payloads));
    forall n ensures n in AllNumbers(r, payloads) <==> HasTotal(r, payloads, n) {
      NumbersAre(r, payloads, n);
      forall p | p in payloads ensures n in PayloadYield(r, p).numbers <==> TotalAmong(r, Visit([p]), n) {
        NumbersAmong(r, Visit([p]), n);
      }
    }
  }

  lemma SameMembersSameLargest(a: seq<int>, b: seq<int>)
    requires forall n :: n in a <==> n in b
    ensures LargestOf(None, a) == LargestOf(None, b)
  {
    LargestIs(a);
    LargestIs(b);
  }

  /** The expected count and the set of collected identities do not depend on the order in which
      the payloads arrive. */
  lemma OrderDoesNotMatter<R(!new)>(r: Rules<R>, a: seq<Tree>, b: seq<Tree>)
    requires multiset(a) == multiset(b)
    ensures LargestOf(None, AllNumbers(r, a)) == LargestOf(None, AllNumbers(r, b))
    ensures KeySet(Collected(r, a), r.identity) == KeySet(Collected(r, b), r.identity)
  {
    forall p ensures p in a <==> p in b {
      assert p in multiset(a) <==> p in multiset(b);
    }
    forall n ensures n in AllNumbers(r, a) <==> n in AllNumbers(r, b) {
      NumbersAre(r, a, n);
      NumbersAre(r, b, n);
    }
    SameMembersSameLargest(AllNumbers(r, a), AllNumbers(r, b));
    CollectedRecords(r, a);
    CollectedRecords(r, b);
    forall k ensures ReachesJob(r, a, k) <==> ReachesJob(r, b, k) {}
  }

  // ---------------------------------------------------------------- an infinite total

  lemma FirstStops<R>(r: Rules<R>, mappings: seq<Tree>)
    requires mappings != [] && Read(r, mappings[0]) == Reading([], true)
    ensures YieldOf(r, mappings) == Yield([], [], true)
  {
    var none: seq<Tree> := [];
    assert mappings[..0] == none;
    YieldNext(r, mappings, 0);
    YieldStays(r, mappings, 1, |mappings|);
    assert mappings[..|mappings|] == mappings;
  }

  lemma VisitsFirst(fields: seq<Field>)
    ensures Visit([Mapping(fields)]) != [] && Visit([Mapping(fields)])[0] == Mapping(fields)
  {
    var m := Mapping(fields);
    assert Init([m]) == [] && Visit([m]) == [m] + Visit([] + Values(fields));
  }

  lemma FirstTotalStops<R>(r: Rules<R>, m: Tree)
    requires TotalAt(r, m, TOTAL_KEYS[0]).Overflow?
    ensures Read(r, m) == Reading([], true)
  {
    assert ReadTo(r, m, 0) == Reading([], false);
    ReadNext(r, m, 0);
    StoppedStays(r, m, 1, |TOTAL_KEYS|);
  }

  /** A payload whose outermost mapping has an overflowing total yields nothing at all. */
  lemma OverflowYieldsNothing<R>(r: Rules<R>, fields: seq<Field>)
    requires TotalAt(r, Mapping(fields), TOTAL_KEYS[0]).Overflow?
    ensures PayloadYield(r, Mapping(fields)) == Yield([], [], true)
  {
    VisitsFirst(fields);
    FirstTotalStops(r, Mapping(fields));
    FirstStops(r, Visit([Mapping(fields)]));
  }

  /** The rules on texts: the number 1e999 is read as infinity, other leaves are no numbers; a
      record is the title and description of a mapping whose description has fifty characters. */
  function TextJobs(): Rules<(string, string)> {
    Rules((v: Tree) => if v == Leaf("1e999") then Overflow else Refused, TextJob, (job: (string, string)) => job.0)
  }

  function TextJob(m: Tree): Option<(string, string)> {
    if !m.Mapping? then None
    else match (Get(m.fields, "title"), Get(m.fields, "description"))
      case (Some(Leaf(title)), Some(Leaf(body))) => if title == "" || |body| < 50 then None else Some((title, body))
      case _ => None
  }

  /** A list of one job under an infinite total: the job is not collected. */
  lemma InfiniteTotalHidesJobs(body: string)
    requires |body| >= 50
    ensures var job := Mapping([Field("title", Leaf("Engineer")), Field("description", Leaf(body))]);
            var payload := Mapping([Field("total", Leaf("1e999")), Field("jobs", List([job]))]);
            !Covers(TextJobs(), [payload]) && Collected(TextJobs(), [payload]) == []
  {
    var r := TextJobs();
    var title, text := Field("title", Leaf("Engineer")), Field("description", Leaf(body));
    var job := Mapping([title, text]);
    var total, jobs := Field("total", Leaf("1e999")), Field("jobs", List([job]));
    var payload := Mapping([total, jobs]);
    assert Init([total, jobs]) == [total] && Init([title, text]) == [title];
    assert Get([total], "total") == Some(Leaf("1e999")) && Get([title], "title") == Some(Leaf("Engineer"));
    assert TextJob(job) == Some(("Engineer", body));
    OverflowYieldsNothing(r, [total, jobs]);
    var none: seq<Tree> := [];
    assert Init([payload]) == none && AllRecords(r, none) == [] && AllRecords(r, [payload]) == [] + [] == [];
    JobInPayload(total, job);
    assert HasJob(r, Preorders([payload]), "Engineer");
  }

  lemma JobInPayload(total: Field, job: Tree)
    requires job.Mapping?
    ensures job in Preorders([Mapping([total, Field("jobs", List([job]))])])
  {
    var jobs := Field("jobs", List([job]));
    var none: seq<Tree> := [];
    assert Init([job]) == none && Init([jobs.value]) == none;
    assert job in Own(job) && job in Preorder(job) && Preorders([job]) == Preorders(none) + Preorder(job);
    assert Preorder(jobs.value) == Own(jobs.value) + Preorders([job]);
    assert Init([total, jobs]) == [total] && [total, jobs][1] == jobs;
    var payload := Mapping([total, jobs]);
    assert job in FieldPreorders([total, jobs]) && job in Preorder(payload);
    assert Init([payload]) == none && Preorders([payload]) == Preorders(none) + Preorder(payload);
  }
}
