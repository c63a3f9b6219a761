/** The ledger of processed URLs: an insertion-ordered dictionary that marking updates in place,
    and the two commands that decide from it whether a URL is skipped. */
module StateLedger {
  import opened Common

  datatype EntryId = EntryId(prefix: string, urlHash: string)

  datatype Entry = Entry(contentHash: string, url: string, records: set<string>, updateTime: string,
                         extractedAt: nat, candidates: nat)

  type Ledger = seq<(EntryId, Entry)>

  /** One mark command at the time `now`. */
  datatype Mark = Mark(contentHash: string, url: string, updateTime: string, records: set<string>,
                       candidates: nat, now: nat)

  /** The key of a mark: 16 characters of the content hash and the hash of the URL. */
  function IdOf(urlHash: string -> string, m: Mark): EntryId {
    EntryId(if |m.contentHash| > 16 then m.contentHash[..16] else m.contentHash, urlHash(m.url))
  }

  function KeyBy(urlHash: string -> string): Mark -> EntryId {
    m => IdOf(urlHash, m)
  }

  /** The position of a key, or the length of the ledger. */
  function Find(ledger: Ledger, id: EntryId): (i: nat)
    ensures i <= |ledger| && forall j :: 0 <= j < i ==> ledger[j].0 != id
    ensures i < |ledger| ==> ledger[i].0 == id
  {
    if ledger == [] then 0
    else
      var i := Find(Init(ledger), id);
      if i < |ledger| - 1 || Last(ledger).0 == id then i else |ledger|
  }

  function EntryFor(existing: Option<Entry>, m: Mark): Entry {
    var records := if existing.Some? then existing.value.records else {};
    var known := if existing.Some? then existing.value.candidates else 0;
    var candidates := if m.candidates != 0 then m.candidates else known;
    Entry(m.contentHash, m.url, records + m.records, m.updateTime, m.now, candidates)
  }

  /** Marking under the key that `key` gives the mark. */
  function Marked(key: Mark -> EntryId, ledger: Ledger, m: Mark): Ledger {
    var i := Find(ledger, key(m));
    if i < |ledger| then ledger[i := (key(m), EntryFor(Some(ledger[i].1), m))]
    else ledger + [(key(m), EntryFor(None, m))]
  }

  function LedgerAfter(key: Mark -> EntryId, marks: seq<Mark>): Ledger {
    if marks == [] then [] else Marked(key, LedgerAfter(key, Init(marks)), Last(marks))
  }

  /** The entry of a URL with the newest extraction time, the first among equals. */
  function Newest(ledger: Ledger, url: string): Option<Entry> {
    if ledger == [] then None
    else
      var best, e := Newest(Init(ledger), url), Last(ledger).1;
      if e.url == url && (best.None? || e.extractedAt > best.value.extractedAt) then Some(e) else best
  }

  /** The first entry of a URL in dictionary order. */
  function First(ledger: Ledger, url: string): Option<Entry> {
    if ledger == [] then None
    else
      var before := First(Init(ledger), url);
      if before.Some? then before
      else if Last(ledger).1.url == url then Some(Last(ledger).1) else None
  }

  predicate DiffSkips(ledger: Ledger, url: string, updateTime: string) {
    url != "" && Newest(ledger, url).Some? && Newest(ledger, url).value.updateTime == updateTime
  }

  predicate CheckSkips(ledger: Ledger, url: string, updateTime: string) {
    First(ledger, url).Some? && First(ledger, url).value.updateTime == updateTime
  }

  // ---------------------------------------------------------------- the commands as loops

  /** The table of the diff command: the newest entry of every non-empty URL. */
  method UrlTable(ledger: Ledger) returns (table: map<string, Entry>)
    ensures forall url :: url in table <==> url != "" && Newest(ledger, url).Some?
    ensures forall url :: url in table ==> table[url] == Newest(ledger, url).value
  {
    table := map[];
    for i := 0 to |ledger|
      invariant forall url :: url in table <==> url != "" && Newest(ledger[..i], url).Some?
      invariant forall url :: url in table ==> table[url] == Newest(ledger[..i], url).value
    {
      var e := ledger[i].1;
      assert Init(ledger[..i + 1]) == ledger[..i] && Last(ledger[..i + 1]) == ledger[i];
      if e.url != "" {
        if e.url !in table || e.extractedAt > table[e.url].extractedAt {
          table := table[e.url := e];
        }
      }
    }
    assert ledger[..|ledger|] == ledger;
  }

  predicate Rising(s: seq<int>) {
    forall i, j :: 0 <= i < j < |s| ==> s[i] < s[j]
  }

  /** The diff command: splits tasks into those to skip and those to extract, in order. */
  method Diff(ledger: Ledger, tasks: seq<(string, string)>) returns (skip: seq<int>, extract: seq<int>)
    ensures forall i :: i in skip <==> 0 <= i < |tasks| && DiffSkips(ledger, tasks[i].0, tasks[i].1)
    ensures forall i :: i in extract <==> 0 <= i < |tasks| && !DiffSkips(ledger, tasks[i].0, tasks[i].1)
    ensures Rising(skip) && Rising(extract)
  {
    var table := UrlTable(ledger);
    skip, extract := [], [];
    for n := 0 to |tasks|
      invariant forall i :: i in skip <==> 0 <= i < n && DiffSkips(ledger, tasks[i].0, tasks[i].1)
      invariant forall i :: i in extract <==> 0 <= i < n && !DiffSkips(ledger, tasks[i].0, tasks[i].1)
      invariant Rising(skip) && Rising(extract)
    {
      var (url, updateTime) := tasks[n];
      assert forall j :: 0 <= j < |skip| ==> skip[j] in skip;
      assert forall j :: 0 <= j < |extract| ==> extract[j] in extract;
      if url in table && table[url].updateTime == updateTime {
        skip := skip + [n];
      } else {
        extract := extract + [n];
      }
    }
  }

  /** The check command: it stops at the first entry of the URL. */
  method Check(ledger: Ledger, url: string, updateTime: string) returns (skip: bool)
    ensures skip == CheckSkips(ledger, url, updateTime)
  {
    for i := 0 to |ledger|
      invariant First(ledger[..i], url).None?
    {
      assert Init(ledger[..i + 1]) == ledger[..i] && Last(ledger[..i + 1]) == ledger[i];
      if ledger[i].1.url == url {
        FirstStays(ledger, url, i + 1);
        return ledger[i].1.updateTime == updateTime;
      }
    }
    assert ledger[..|ledger|] == ledger;
    return false;
  }

  lemma {:induction false} FirstStays(ledger: Ledger, url: string, n: nat)
    requires n <= |ledger| && First(ledger[..n], url).Some?
    ensures First(ledger, url) == First(ledger[..n], url)
    decreases |ledger| - n
  {
    if n == |ledger| {
      assert ledger[..n] == ledger;
    } else {
      assert Init(ledger[..n + 1]) == ledger[..n];
      FirstStays(ledger, url, n + 1);
    }
  }

  /** The state object that the mark command updates. */
  class State {
    var processed: Ledger
    var scanned: map<string, Option<nat>>

    method MarkProcessed(urlHash: string -> string, m: Mark, fileId: string)
      modifies this
      ensures processed == Marked(KeyBy(urlHash), old(processed), m)
      ensures scanned == if fileId in old(scanned) then old(scanned)[fileId := Some(m.now)] else old(scanned)
    {
      if fileId in scanned {
        scanned := scanned[fileId := Some(m.now)];
      }
      var id := IdOf(urlHash, m);
      var i := Find(processed, id);
      if i < |processed| {
        processed := processed[i := (id, EntryFor(Some(processed[i].1), m))];
      } else {
        processed := processed + [(id, EntryFor(None, m))];
      }
    }
  }
}

/** What any sequence of marks makes the two commands decide. */
module StateLedgerLaws {
  import opened Common
  import opened StateLedger

  /** The marks carry rising times, and marks that share a key are for one URL. */
  ghost predicate Lawful(key: Mark -> EntryId, marks: seq<Mark>) {
    && (forall i, j :: 0 <= i < j < |marks| ==> marks[i].now < marks[j].now)
    && (forall i, j :: 0 <= i < j < |marks| && key(marks[i]) == key(marks[j])
                       ==> marks[i].url == marks[j].url)
  }

  /** The last mark of a URL. */
  function LastMark(marks: seq<Mark>, url: string): Option<Mark> {
    if marks == [] then None
    else if Last(marks).url == url then Some(Last(marks)) else LastMark(Init(marks), url)
  }

  function FirstMark(marks: seq<Mark>, url: string): Option<Mark> {
    if marks == [] then None
    else
      var before := FirstMark(Init(marks), url);
      if before.Some? then before else if Last(marks).url == url then Some(Last(marks)) else None
  }

  /** The last mark of a key. */
  function LastOfId(key: Mark -> EntryId, marks: seq<Mark>, id: EntryId): Option<Mark> {
    if marks == [] then None
    else if key(Last(marks)) == id then Some(Last(marks)) else LastOfId(key, Init(marks), id)
  }

  /** The record ids of all marks of a key. */
  function RecordsOfId(key: Mark -> EntryId, marks: seq<Mark>, id: EntryId): set<string> {
    if marks == [] then {}
    else RecordsOfId(key, Init(marks), id) + if key(Last(marks)) == id then Last(marks).records else {}
  }

  /** The last count of candidates, other than none, that a mark of a key brought. */
  function CountOfId(key: Mark -> EntryId, marks: seq<Mark>, id: EntryId): nat {
    if marks == [] then 0
    else if key(Last(marks)) == id && Last(marks).candidates != 0 then Last(marks).candidates
    else CountOfId(key, Init(marks), id)
  }

  // ---------------------------------------------------------------- entries and marks

  /** Each key has one entry, which tells the last mark of that key, the records of them all and the last
      count of candidates. */
  ghost predicate Tells(key: Mark -> EntryId, ledger: Ledger, marks: seq<Mark>) {
    OnePerKey(ledger) && AllTell(key, ledger, marks) && AllFound(key, ledger, marks)
  }

  ghost predicate OnePerKey(ledger: Ledger) {
    forall i, j :: 0 <= i < j < |ledger| ==> ledger[i].0 != ledger[j].0
  }

  ghost predicate AllTell(key: Mark -> EntryId, ledger: Ledger, marks: seq<Mark>) {
    forall i :: 0 <= i < |ledger| ==> EntryTells(key, ledger[i], marks)
  }

  ghost predicate AllFound(key: Mark -> EntryId, ledger: Ledger, marks: seq<Mark>) {
    forall m :: m in marks ==> Find(ledger, key(m)) < |ledger|
  }

  ghost predicate EntryTells(key: Mark -> EntryId, e: (EntryId, Entry), marks: seq<Mark>) {
    var m := LastOfId(key, marks, e.0);
    && m.Some? && m.value in marks
    && e.1.url == m.value.url && e.1.updateTime == m.value.updateTime && e.1.extractedAt == m.value.now
    && e.1.contentHash == m.value.contentHash
    && e.1.records == RecordsOfId(key, marks, e.0) && e.1.candidates == CountOfId(key, marks, e.0)
  }

  lemma FindIn(ledger: Ledger, i: nat)
    requires i < |ledger|
    ensures Find(ledger, ledger[i].0) < |ledger|
  {}

  lemma {:induction false} NoMarkOfId(key: Mark -> EntryId, marks: seq<Mark>, id: EntryId)
    requires forall m :: m in marks ==> key(m) != id
    ensures LastOfId(key, marks, id).None? && RecordsOfId(key, marks, id) == {} && CountOfId(key, marks, id) == 0
  {
    if marks == [] {
    } else {
      assert Last(marks) in marks;
      NoMarkOfId(key, Init(marks), id);
    }
  }

  lemma {:induction false} LedgerTells(key: Mark -> EntryId, marks: seq<Mark>)
    ensures Tells(key, LedgerAfter(key, marks), marks)
  {
    if marks == [] {
      assert LedgerAfter(key, marks) == [];
    } else {
      var before, m := Init(marks), Last(marks);
      assert marks == before + [m];
      LedgerGrows(key, before, m);
      LedgerTells(key, before);
      MarkTells(key, LedgerAfter(key, before), before, m);
    }
  }

  lemma LedgerGrows(key: Mark -> EntryId, before: seq<Mark>, m: Mark)
    ensures LedgerAfter(key, before + [m]) == Marked(key, LedgerAfter(key, before), m)
  {
    assert Init(before + [m]) == before;
  }

  lemma MarkTells(key: Mark -> EntryId, ledger: Ledger, marks: seq<Mark>, m: Mark)
    requires Tells(key, ledger, marks)
    ensures Tells(key, Marked(key, ledger, m), marks + [m])
  {
    var i := Find(ledger, key(m));
    var after, all := Marked(key, ledger, m), marks + [m];
    forall j | 0 <= j < |after| ensures EntryTells(key, after[j], all) {
      if j == i {
        OwnEntryTells(key, ledger, marks, m);
      } else {
        assert EntryTells(key, ledger[j], marks);
        OtherEntryTells(key, ledger[j], marks, m);
      }
    }
    MarkFinds(key, ledger, marks, m);
  }

  lemma MarkFinds(key: Mark -> EntryId, ledger: Ledger, marks: seq<Mark>, m: Mark)
    requires Tells(key, ledger, marks)
    ensures OnePerKey(Marked(key, ledger, m)) && AllFound(key, Marked(key, ledger, m), marks + [m])
  {
    var i, after := Find(ledger, key(m)), Marked(key, ledger, m);
    forall n | n in marks + [m] ensures Find(after, key(n)) < |after| {
      var k := if n in marks then Find(ledger, key(n)) else i;
      assert after[k].0 == key(n);
      FindIn(after, k);
    }
  }

  lemma OtherEntryTells(key: Mark -> EntryId, e: (EntryId, Entry), marks: seq<Mark>, m: Mark)
    requires EntryTells(key, e, marks) && e.0 != key(m)
    ensures EntryTells(key, e, marks + [m])
  {
    assert Init(marks + [m]) == marks && Last(marks + [m]) == m;
  }

  lemma NewEntryTells(key: Mark -> EntryId, marks: seq<Mark>, m: Mark)
    requires forall n :: n in marks ==> key(n) != key(m)
    ensures EntryTells(key, (key(m), EntryFor(None, m)), marks + [m])
  {
    assert Init(marks + [m]) == marks && Last(marks + [m]) == m && m in marks + [m];
    NoMarkOfId(key, marks, key(m));
  }

  lemma OldEntryTells(key: Mark -> EntryId, e: (EntryId, Entry), marks: seq<Mark>, m: Mark)
    requires EntryTells(key, e, marks) && e.0 == key(m)
    ensures EntryTells(key, (key(m), EntryFor(Some(e.1), m)), marks + [m])
  {
    assert Init(marks + [m]) == marks && Last(marks + [m]) == m && m in marks + [m];
  }

  lemma OwnEntryTells(key: Mark -> EntryId, ledger: Ledger, marks: seq<Mark>, m: Mark)
    requires Tells(key, ledger, marks)
    ensures EntryTells(key, Marked(key, ledger, m)[Find(ledger, key(m))], marks + [m])
  {
    var i := Find(ledger, key(m));
    if i == |ledger| {
      NewEntryTells(key, marks, m);
    } else {
      assert EntryTells(key, ledger[i], marks);
      OldEntryTells(key, ledger[i], marks, m);
    }
  }

  // ---------------------------------------------------------------- the diff command

  lemma {:induction false} NewestIs(ledger: Ledger, url: string)
    ensures Newest(ledger, url).None? <==> forall i :: 0 <= i < |ledger| ==> ledger[i].1.url != url
    ensures Newest(ledger, url).Some? ==>
              && (exists i :: 0 <= i < |ledger| && ledger[i].1 == Newest(ledger, url).value)
              && Newest(ledger, url).value.url == url
              && forall i :: 0 <= i < |ledger| && ledger[i].1.url == url
                             ==> ledger[i].1.extractedAt <= Newest(ledger, url).value.extractedAt
  {
    if ledger == [] {
    } else {
      NewestIs(Init(ledger), url);
      var best := Newest(ledger, url);
      if best.Some? {
        if best == Newest(Init(ledger), url) {
          var i :| 0 <= i < |Init(ledger)| && Init(ledger)[i].1 == best.value;
          assert ledger[i].1 == best.value;
        } else {
          assert ledger[|ledger| - 1].1 == best.value;
        }
      }
      if forall i :: 0 <= i < |ledger| ==> ledger[i].1.url != url {
        assert ledger[|ledger| - 1].1.url != url;
        forall i | 0 <= i < |Init(ledger)| ensures Init(ledger)[i].1.url != url {
          assert ledger[i].1.url != url;
        }
      }
    }
  }

  /** The newest entry stands before every other one of its URL with the same time. */
  ghost predicate FirstOfNewest(ledger: Ledger, url: string, i: nat) {
    && i < |ledger| && ledger[i].1.url == url
    && (forall j :: 0 <= j < i && ledger[j].1.url == url ==> ledger[j].1.extractedAt < ledger[i].1.extractedAt)
    && (forall j :: i < j < |ledger| && ledger[j].1.url == url ==> ledger[j].1.extractedAt <= ledger[i].1.extractedAt)
  }

  lemma {:induction false} NewestAt(ledger: Ledger, url: string) returns (i: nat)
    requires Newest(ledger, url).Some?
    ensures FirstOfNewest(ledger, url, i) && ledger[i].1 == Newest(ledger, url).value
  {
    var front, n := Init(ledger), |ledger| - 1;
    NewestIs(front, url);
    if Newest(ledger, url) == Newest(front, url) {
      i := NewestAt(front, url);
      assert forall j :: 0 <= j < n ==> ledger[j] == front[j];
    } else {
      i := n;
      forall j | 0 <= j < n && ledger[j].1.url == url ensures ledger[j].1.extractedAt < ledger[n].1.extractedAt {
        assert front[j].1.url == url;
      }
    }
  }

  lemma {:induction false} LastMarkIs(marks: seq<Mark>, url: string)
    requires forall i, j :: 0 <= i < j < |marks| ==> marks[i].now < marks[j].now
    ensures LastMark(marks, url).None? <==> forall m :: m in marks ==> m.url != url
    ensures LastMark(marks, url).Some? ==>
              && LastMark(marks, url).value in marks && LastMark(marks, url).value.url == url
              && forall m :: m in marks && m.url == url && m != LastMark(marks, url).value
                             ==> m.now < LastMark(marks, url).value.now
  {
    if marks == [] {
    } else {
      LastMarkIs(Init(marks), url);
      assert marks == Init(marks) + [Last(marks)];
      forall m | m in Init(marks) ensures m.now < Last(marks).now {
        var i :| 0 <= i < |Init(marks)| && Init(marks)[i] == m;
        assert marks[i].now < marks[|marks| - 1].now;
      }
    }
  }

  lemma {:induction false} LastOfOwnId(key: Mark -> EntryId, marks: seq<Mark>, m: Mark)
    requires Lawful(key, marks) && LastMark(marks, m.url) == Some(m)
    ensures LastOfId(key, marks, key(m)) == Some(m)
  {
    if Last(marks) == m {
    } else {
      LawfulInit(key, marks);
      LastMarkIs(Init(marks), m.url);
      KeysDiffer(key, marks, m);
      LastOfOwnId(key, Init(marks), m);
    }
  }

  lemma KeysDiffer(key: Mark -> EntryId, marks: seq<Mark>, m: Mark)
    requires Lawful(key, marks) && marks != [] && m in Init(marks) && Last(marks).url != m.url
    ensures key(Last(marks)) != key(m)
  {
    var i :| 0 <= i < |marks| - 1 && Init(marks)[i] == m;
    assert marks[i] == m && marks[|marks| - 1].url != m.url;
  }

  /** An entry of a URL tells its last mark, or an older one. */
  lemma EntryAge(key: Mark -> EntryId, e: (EntryId, Entry), marks: seq<Mark>, m: Mark)
    requires Lawful(key, marks) && EntryTells(key, e, marks) && LastMark(marks, e.1.url) == Some(m)
    ensures e.1.extractedAt <= m.now && (e.1.extractedAt == m.now ==> e.1.updateTime == m.updateTime)
  {
    LastMarkIs(marks, e.1.url);
  }

  /** After any sequence of marks with rising times, the newest entry of a URL is that of its last
      mark, however many entries the URL has. */
  lemma NewestIsLastMark(key: Mark -> EntryId, marks: seq<Mark>, url: string)
    requires Lawful(key, marks)
    ensures var e, m := Newest(LedgerAfter(key, marks), url), LastMark(marks, url);
            && (e.Some? <==> m.Some?)
            && (e.Some? ==> e.value.updateTime == m.value.updateTime && e.value.extractedAt == m.value.now)
  {
    var ledger := LedgerAfter(key, marks);
    LedgerTells(key, marks);
    NewestOf(key, ledger, marks, url);
  }

  lemma NewestOf(key: Mark -> EntryId, ledger: Ledger, marks: seq<Mark>, url: string)
    requires Lawful(key, marks) && Tells(key, ledger, marks)
    ensures var e, m := Newest(ledger, url), LastMark(marks, url);
            && (e.Some? <==> m.Some?)
            && (e.Some? ==> e.value.updateTime == m.value.updateTime && e.value.extractedAt == m.value.now)
  {
    NewestIs(ledger, url);
    LastMarkIs(marks, url);
    var e, m := Newest(ledger, url), LastMark(marks, url);
    if m.Some? {
      LastOfOwnId(key, marks, m.value);
      var k := Find(ledger, key(m.value));
      assert EntryTells(key, ledger[k], marks);
      assert ledger[k].1.url == url && ledger[k].1.extractedAt == m.value.now;
      var i :| 0 <= i < |ledger| && ledger[i].1 == e.value;
      EntryAge(key, ledger[i], marks, m.value);
    } else {
      forall i | 0 <= i < |ledger| ensures ledger[i].1.url != url {
        assert EntryTells(key, ledger[i], marks);
      }
    }
  }

  /** The diff command skips a listed URL exactly when it is not empty and the last mark of that
      URL carried the listed update time. */
  lemma DiffSkipsIff(key: Mark -> EntryId, marks: seq<Mark>, url: string, updateTime: string)
    requires Lawful(key, marks)
    ensures DiffSkips(LedgerAfter(key, marks), url, updateTime) <==>
            url != "" && LastMark(marks, url).Some? && LastMark(marks, url).value.updateTime == updateTime
  {
    NewestIsLastMark(key, marks, url);
  }

  // ---------------------------------------------------------------- the check command

  lemma {:induction false} FirstIs(ledger: Ledger, url: string)
    ensures First(ledger, url).None? <==> forall i :: 0 <= i < |ledger| ==> ledger[i].1.url != url
    ensures First(ledger, url).Some? ==> First(ledger, url).value.url == url
  {
    if ledger == [] {
    } else {
      FirstIs(Init(ledger), url);
      if forall i :: 0 <= i < |ledger| ==> ledger[i].1.url != url {
        assert ledger[|ledger| - 1].1.url != url;
        forall i | 0 <= i < |Init(ledger)| ensures Init(ledger)[i].1.url != url {
          assert ledger[i].1.url != url;
        }
      }
      if First(ledger, url).None? {
        forall i | 0 <= i < |ledger| ensures ledger[i].1.url != url {
          assert i < |ledger| - 1 ==> Init(ledger)[i].1.url != url;
        }
      }
    }
  }

  /** The position of the first entry of a URL. */
  function FirstAt(ledger: Ledger, url: string): (i: nat)
    ensures i <= |ledger| && forall j :: 0 <= j < i ==> ledger[j].1.url != url
    ensures i < |ledger| ==> ledger[i].1.url == url
  {
    if ledger == [] then 0
    else
      var i := FirstAt(Init(ledger), url);
      if i < |ledger| - 1 || Last(ledger).1.url == url then i else |ledger|
  }

  lemma {:induction false} FirstAtIs(ledger: Ledger, url: string)
    ensures First(ledger, url) == if FirstAt(ledger, url) < |ledger| then Some(ledger[FirstAt(ledger, url)].1) else None
  {
    if ledger == [] {
    } else {
      FirstAtIs(Init(ledger), url);
    }
  }

  /** The ledger `after` keeps the keys and URLs of `ledger`, and knows the URL of `m` under its
      own key or under one it already had. */
  ghost predicate KeepsUrls(ledger: Ledger, after: Ledger, id: EntryId, url: string) {
    && |ledger| <= |after| <= |ledger| + 1
    && (forall j :: 0 <= j < |ledger| ==> after[j].0 == ledger[j].0 && after[j].1.url == ledger[j].1.url)
    && (|after| > |ledger| ==> after[|ledger|].0 == id && after[|ledger|].1.url == url)
    && (|after| == |ledger| ==> exists j :: 0 <= j < |ledger| && ledger[j].1.url == url)
  }

  /** An entry under the key of a mark has its URL. */
  lemma OwnEntryUrl(key: Mark -> EntryId, ledger: Ledger, before: seq<Mark>, m: Mark)
    requires Tells(key, ledger, before) && Lawful(key, before + [m]) && Find(ledger, key(m)) < |ledger|
    ensures ledger[Find(ledger, key(m))].1.url == m.url
  {
    assert EntryTells(key, ledger[Find(ledger, key(m))], before);
    SameUrl(key, before, m, key(m));
  }

  lemma ReplacedKeepsUrls(ledger: Ledger, i: nat, id: EntryId, e: Entry)
    requires i < |ledger| && ledger[i].0 == id && ledger[i].1.url == e.url
    ensures KeepsUrls(ledger, ledger[i := (id, e)], id, e.url)
  {
  }

  /** Marking changes no URL and no key of an entry. */
  lemma MarkKeepsUrls(key: Mark -> EntryId, ledger: Ledger, m: Mark)
    requires Find(ledger, key(m)) < |ledger| ==> ledger[Find(ledger, key(m))].1.url == m.url
    ensures KeepsUrls(ledger, Marked(key, ledger, m), key(m), m.url)
  {
    var i := Find(ledger, key(m));
    if i < |ledger| {
      ReplacedKeepsUrls(ledger, i, key(m), EntryFor(Some(ledger[i].1), m));
    }
  }

  lemma FirstAtKept(ledger: Ledger, after: Ledger, id: EntryId, marked: string, url: string)
    requires KeepsUrls(ledger, after, id, marked)
    ensures FirstAt(ledger, url) < |ledger| ==> FirstAt(after, url) == FirstAt(ledger, url)
    ensures FirstAt(ledger, url) == |ledger| && url == marked ==> FirstAt(after, url) == |ledger| < |after|
    ensures FirstAt(ledger, url) == |ledger| && url != marked ==> FirstAt(after, url) == |after|
  {
    var i := FirstAt(ledger, url);
    if i < |ledger| {
      assert after[i].1.url == url;
    }
  }

  lemma LawfulInit(key: Mark -> EntryId, marks: seq<Mark>)
    requires Lawful(key, marks) && marks != []
    ensures Lawful(key, Init(marks))
  {
    var before := Init(marks);
    forall i, j | 0 <= i < j < |before|
      ensures before[i].now < before[j].now && (key(before[i]) == key(before[j]) ==> before[i].url == before[j].url)
    {
      assert marks[i].now < marks[j].now;
    }
  }

  /** The first entry of a URL stays under the key of the URL's first mark. */
  lemma {:induction false} FirstKeyIs(key: Mark -> EntryId, marks: seq<Mark>, url: string)
    requires Lawful(key, marks)
    ensures var ledger, m := LedgerAfter(key, marks), FirstMark(marks, url);
            && (m.Some? <==> FirstAt(ledger, url) < |ledger|)
            && (m.Some? ==> ledger[FirstAt(ledger, url)].0 == key(m.value))
  {
    if marks == [] {
    } else {
      var before, m := Init(marks), Last(marks);
      var ledger := LedgerAfter(key, before);
      LawfulInit(key, marks);
      FirstKeyIs(key, before, url);
      LedgerTells(key, before);
      assert before + [m] == marks;
      if Find(ledger, key(m)) < |ledger| {
        OwnEntryUrl(key, ledger, before, m);
      }
      MarkKeepsUrls(key, ledger, m);
      FirstAtKept(ledger, Marked(key, ledger, m), key(m), m.url, url);
    }
  }

  lemma {:induction false} LastOfIdIn(key: Mark -> EntryId, marks: seq<Mark>, id: EntryId)
    ensures LastOfId(key, marks, id).Some? ==>
              LastOfId(key, marks, id).value in marks && key(LastOfId(key, marks, id).value) == id
  {
    if marks == [] {
    } else {
      LastOfIdIn(key, Init(marks), id);
    }
  }

  lemma SameUrl(key: Mark -> EntryId, before: seq<Mark>, m: Mark, id: EntryId)
    requires Lawful(key, before + [m]) && id == key(m) && LastOfId(key, before, id).Some?
    ensures LastOfId(key, before, id).value.url == m.url
  {
    LastOfIdIn(key, before, id);
    var n := LastOfId(key, before, id).value;
    var i :| 0 <= i < |before| && before[i] == n;
    assert (before + [m])[i] == n && (before + [m])[|before|] == m;
  }

  /** The check command decides by the key of the URL's first mark: it skips exactly when the
      last mark of that key carried the asked update time. */
  lemma CheckSkipsIff(key: Mark -> EntryId, marks: seq<Mark>, url: string, updateTime: string)
    requires Lawful(key, marks)
    ensures CheckSkips(LedgerAfter(key, marks), url, updateTime) <==>
            && FirstMark(marks, url).Some?
            && LastOfId(key, marks, key(FirstMark(marks, url).value)).Some?
            && LastOfId(key, marks, key(FirstMark(marks, url).value)).value.updateTime == updateTime
  {
    var ledger := LedgerAfter(key, marks);
    FirstAtIs(ledger, url);
    FirstKeyIs(key, marks, url);
    LedgerTells(key, marks);
    if FirstAt(ledger, url) < |ledger| {
      assert EntryTells(key, ledger[FirstAt(ledger, url)], marks);
    }
  }

  /** The check command skips after the last mark of a URL exactly when the key of the URL's first
      mark was last marked with that same update time. */
  lemma CheckSkipsLastMarkIff(key: Mark -> EntryId, marks: seq<Mark>, url: string)
    requires Lawful(key, marks) && LastMark(marks, url).Some?
    ensures FirstMark(marks, url).Some?
    ensures CheckSkips(LedgerAfter(key, marks), url, LastMark(marks, url).value.updateTime) <==>
            exists m :: LastOfId(key, marks, key(FirstMark(marks, url).value)) == Some(m)
                        && m.updateTime == LastMark(marks, url).value.updateTime
  {
    CheckSkipsIff(key, marks, url, LastMark(marks, url).value.updateTime);
    FirstKeyIs(key, marks, url);
    NewestIsLastMark(key, marks, url);
    NewestIs(LedgerAfter(key, marks), url);
  }

  /** Both commands agree on every update time exactly when the first and the newest entry of a
      non-empty URL carry the same one; with a single entry they always agree. */
  lemma CommandsAgreeIff(ledger: Ledger, url: string)
    requires url != ""
    ensures First(ledger, url).Some? <==> Newest(ledger, url).Some?
    ensures (forall t :: CheckSkips(ledger, url, t) <==> DiffSkips(ledger, url, t)) <==>
            (First(ledger, url).Some? ==> First(ledger, url).value.updateTime == Newest(ledger, url).value.updateTime)
    ensures (forall i, j :: 0 <= i < j < |ledger| ==> ledger[i].1.url != url || ledger[j].1.url != url)
            ==> forall t :: CheckSkips(ledger, url, t) <==> DiffSkips(ledger, url, t)
  {
    FirstIs(ledger, url);
    NewestIs(ledger, url);
    FirstAtIs(ledger, url);
    if First(ledger, url).Some? {
      var t := First(ledger, url).value.updateTime;
      assert CheckSkips(ledger, url, t);
      assert DiffSkips(ledger, url, t) <==> Newest(ledger, url).value.updateTime == t;
      var i :| 0 <= i < |ledger| && ledger[i].1 == Newest(ledger, url).value;
      var k := FirstAt(ledger, url);
      if forall i, j :: 0 <= i < j < |ledger| ==> ledger[i].1.url != url || ledger[j].1.url != url {
        assert i == k;
      }
    }
  }

  /** One URL marked under two content hashes: the check command still asks for extraction of the
      update that was just marked, while the diff command skips it. */
  lemma CheckMissesLastMark()
    ensures var marks := [Mark("a", "u", "1", {}, 1, 0), Mark("b", "u", "2", {}, 1, 1)];
            var ledger := LedgerAfter(KeyBy(u => u), marks);
            !CheckSkips(ledger, "u", "2") && DiffSkips(ledger, "u", "2")
  {
    var first, second := Mark("a", "u", "1", {}, 1, 0), Mark("b", "u", "2", {}, 1, 1);
    var marks := [first, second];
    var h: string -> string := u => u;
    assert Init(marks) == [first] && Init([first]) == [];
    assert KeyBy(h)(first) == EntryId("a", "u") && KeyBy(h)(second) == EntryId("b", "u");
    CheckSkipsIff(KeyBy(h), marks, "u", "2");
    DiffSkipsIff(KeyBy(h), marks, "u", "2");
  }
}
