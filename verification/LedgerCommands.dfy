/** The ledger laws for the key that the program uses, which is made of the URL and of the first sixteen
    characters of the content hash. All that is asked of the marks is that their times rise and that
    the shortened URL hash tells the marked URLs apart. */
module LedgerCommands {
  import opened Common
  import opened StateLedger
  import opened StateLedgerLaws

  ghost predicate Timely(marks: seq<Mark>) {
    forall i, j :: 0 <= i < j < |marks| ==> marks[i].now < marks[j].now
  }

  ghost predicate TellsApart(urlHash: string -> string, marks: seq<Mark>) {
    forall m, n :: m in marks && n in marks && urlHash(m.url) == urlHash(n.url) ==> m.url == n.url
  }

  predicate SameAt(s: string, t: string, k: nat) {
    (k < |s| <==> k < |t|) && (k < |s| && k < |t| ==> s[k] == t[k])
  }

  /** The first sixteen characters agree. */
  predicate SameStart(s: string, t: string) {
    forall k: nat :: k < 16 ==> SameAt(s, t, k)
  }

  /** Marks of one URL whose content hashes start alike. */
  predicate Alike(m: Mark, n: Mark) {
    m.url == n.url && SameStart(m.contentHash, n.contentHash)
  }

  function First16(s: string): string {
    if |s| > 16 then s[..16] else s
  }

  lemma First16Is(s: string, t: string)
    ensures First16(s) == First16(t) <==> SameStart(s, t)
  {
    var a, b := First16(s), First16(t);
    if a == b {
      forall k: nat | k < 16 ensures SameAt(s, t, k) {
        assert k < |a| ==> a[k] == s[k] && b[k] == t[k];
      }
    }
    if SameStart(s, t) {
      assert |a| < 16 ==> SameAt(s, t, |a|);
      assert |b| < 16 ==> SameAt(s, t, |b|);
      forall k | 0 <= k < |a| && k < |b| ensures a[k] == b[k] {
        assert SameAt(s, t, k);
      }
    }
  }

  /** Two marks have one key exactly when they are alike. */
  lemma KeyTells(urlHash: string -> string, m: Mark, n: Mark)
    requires urlHash(m.url) == urlHash(n.url) ==> m.url == n.url
    ensures KeyBy(urlHash)(m) == KeyBy(urlHash)(n) <==> Alike(m, n)
  {
    First16Is(m.contentHash, n.contentHash);
  }

  lemma MarksAreLawful(urlHash: string -> string, marks: seq<Mark>)
    requires Timely(marks) && TellsApart(urlHash, marks)
    ensures Lawful(KeyBy(urlHash), marks)
  {
    forall i, j | 0 <= i < j < |marks| && KeyBy(urlHash)(marks[i]) == KeyBy(urlHash)(marks[j])
      ensures marks[i].url == marks[j].url
    {
      KeyTells(urlHash, marks[i], marks[j]);
    }
  }

  // ---------------------------------------------------------------- the marks alike to one

  function LastAlike(marks: seq<Mark>, m: Mark): Option<Mark> {
    if marks == [] then None
    else if Alike(Last(marks), m) then Some(Last(marks)) else LastAlike(Init(marks), m)
  }

  function RecordsAlike(marks: seq<Mark>, m: Mark): set<string> {
    if marks == [] then {}
    else RecordsAlike(Init(marks), m) + if Alike(Last(marks), m) then Last(marks).records else {}
  }

  function CountAlike(marks: seq<Mark>, m: Mark): nat {
    if marks == [] then 0
    else if Alike(Last(marks), m) && Last(marks).candidates != 0 then Last(marks).candidates
    else CountAlike(Init(marks), m)
  }

  lemma {:induction false} AlikeIs(urlHash: string -> string, marks: seq<Mark>, m: Mark)
    requires TellsApart(urlHash, marks + [m])
    ensures var key := KeyBy(urlHash);
            && LastOfId(key, marks, key(m)) == LastAlike(marks, m)
            && RecordsOfId(key, marks, key(m)) == RecordsAlike(marks, m)
            && CountOfId(key, marks, key(m)) == CountAlike(marks, m)
  {
    if marks == [] {
    } else {
      assert forall n :: n in Init(marks) + [m] ==> n in marks + [m];
      AlikeIs(urlHash, Init(marks), m);
      assert Last(marks) in marks + [m] && m in marks + [m];
      KeyTells(urlHash, Last(marks), m);
    }
  }

  lemma TellsApartMore(urlHash: string -> string, marks: seq<Mark>, m: Mark)
    requires TellsApart(urlHash, marks) && m in marks
    ensures TellsApart(urlHash, marks + [m])
  {
    assert forall n :: n in marks + [m] ==> n in marks;
  }

  /** What an entry says of the marks that are alike to one: the last of them, the records of them all
      and the last count of candidates. */
  ghost predicate Sums(marks: seq<Mark>, m: Mark, e: Entry) {
    var last := LastAlike(marks, m);
    && last.Some? && e.url == last.value.url && e.contentHash == last.value.contentHash
    && e.updateTime == last.value.updateTime && e.extractedAt == last.value.now
    && e.records == RecordsAlike(marks, m) && e.candidates == CountAlike(marks, m)
  }

  lemma EntrySums(urlHash: string -> string, marks: seq<Mark>, m: Mark, i: nat)
    requires TellsApart(urlHash, marks) && m in marks
    requires var ledger := LedgerAfter(KeyBy(urlHash), marks);
             i < |ledger| && ledger[i].0 == KeyBy(urlHash)(m)
    ensures Sums(marks, m, LedgerAfter(KeyBy(urlHash), marks)[i].1)
  {
    var ledger := LedgerAfter(KeyBy(urlHash), marks);
    StateLedgerLaws.LedgerTells(KeyBy(urlHash), marks);
    assert EntryTells(KeyBy(urlHash), ledger[i], marks);
    TellsApartMore(urlHash, marks, m);
    AlikeIs(urlHash, marks, m);
  }

  /** The mark that an entry was last written by. */
  lemma MarkOfEntry(urlHash: string -> string, marks: seq<Mark>, i: nat) returns (m: Mark)
    requires TellsApart(urlHash, marks) && i < |LedgerAfter(KeyBy(urlHash), marks)|
    ensures var (id, e) := LedgerAfter(KeyBy(urlHash), marks)[i];
            && m in marks && KeyBy(urlHash)(m) == id
            && m.url == e.url && m.contentHash == e.contentHash && Sums(marks, m, e)
  {
    var key := KeyBy(urlHash);
    var ledger := LedgerAfter(key, marks);
    StateLedgerLaws.LedgerTells(key, marks);
    assert EntryTells(key, ledger[i], marks);
    m := LastOfId(key, marks, ledger[i].0).value;
    LastOfIdIn(key, marks, ledger[i].0);
    EntrySums(urlHash, marks, m, i);
  }

  /** No two entries of the ledger are of one URL and one start of the content hash. */
  ghost predicate NoneAlike(ledger: Ledger) {
    forall i, j :: 0 <= i < j < |ledger| ==> !EntriesAlike(ledger[i].1, ledger[j].1)
  }

  predicate EntriesAlike(d: Entry, e: Entry) {
    d.url == e.url && SameStart(d.contentHash, e.contentHash)
  }

  lemma EntriesDiffer(urlHash: string -> string, marks: seq<Mark>)
    requires TellsApart(urlHash, marks)
    ensures NoneAlike(LedgerAfter(KeyBy(urlHash), marks))
  {
    var ledger := LedgerAfter(KeyBy(urlHash), marks);
    StateLedgerLaws.LedgerTells(KeyBy(urlHash), marks);
    forall i, j | 0 <= i < j < |ledger| ensures !EntriesAlike(ledger[i].1, ledger[j].1) {
      var m := MarkOfEntry(urlHash, marks, i);
      var n := MarkOfEntry(urlHash, marks, j);
      KeyTells(urlHash, m, n);
    }
  }

  ghost predicate SummedUp(marks: seq<Mark>, m: Mark, ledger: Ledger) {
    exists i :: 0 <= i < |ledger| && Sums(marks, m, ledger[i].1)
  }

  /** The entry sums up the marks alike to some mark. */
  ghost predicate SumsUp(marks: seq<Mark>, e: Entry) {
    exists m :: m in marks && Sums(marks, m, e)
  }

  lemma EntrySumsUp(urlHash: string -> string, marks: seq<Mark>, i: nat)
    requires TellsApart(urlHash, marks) && i < |LedgerAfter(KeyBy(urlHash), marks)|
    ensures SumsUp(marks, LedgerAfter(KeyBy(urlHash), marks)[i].1)
  {
    var m := MarkOfEntry(urlHash, marks, i);
    var e := LedgerAfter(KeyBy(urlHash), marks)[i].1;
    assert m in marks && Sums(marks, m, e);
  }

  lemma MarkIsSummedUp(urlHash: string -> string, marks: seq<Mark>, m: Mark)
    requires TellsApart(urlHash, marks) && m in marks
    ensures SummedUp(marks, m, LedgerAfter(KeyBy(urlHash), marks))
  {
    var ledger := LedgerAfter(KeyBy(urlHash), marks);
    StateLedgerLaws.LedgerTells(KeyBy(urlHash), marks);
    EntrySums(urlHash, marks, m, Find(ledger, KeyBy(urlHash)(m)));
  }

  /** After any marks every mark has the entry that sums up the marks alike to it, every entry sums up
      the marks alike to some mark, and no two entries are of one URL and one start of the hash. */
  lemma LedgerSums(urlHash: string -> string, marks: seq<Mark>)
    requires TellsApart(urlHash, marks)
    ensures var ledger := LedgerAfter(KeyBy(urlHash), marks);
            && (forall m :: m in marks ==> SummedUp(marks, m, ledger))
            && (forall i :: 0 <= i < |ledger| ==> SumsUp(marks, ledger[i].1))
            && NoneAlike(ledger)
  {
    var ledger := LedgerAfter(KeyBy(urlHash), marks);
    forall m | m in marks ensures SummedUp(marks, m, ledger) {
      MarkIsSummedUp(urlHash, marks, m);
    }
    forall i | 0 <= i < |ledger| ensures SumsUp(marks, ledger[i].1) {
      EntrySumsUp(urlHash, marks, i);
    }
    EntriesDiffer(urlHash, marks);
  }

  /** Two marks share their entry exactly when their URLs and the first sixteen characters of their
      content hashes agree. */
  lemma ShareEntryIff(urlHash: string -> string, marks: seq<Mark>, m: Mark, n: Mark)
    requires TellsApart(urlHash, marks) && m in marks && n in marks
    ensures var ledger := LedgerAfter(KeyBy(urlHash), marks);
            Find(ledger, IdOf(urlHash, m)) == Find(ledger, IdOf(urlHash, n)) <==> Alike(m, n)
  {
    KeyTells(urlHash, m, n);
    StateLedgerLaws.LedgerTells(KeyBy(urlHash), marks);
    assert KeyBy(urlHash)(m) == IdOf(urlHash, m) && KeyBy(urlHash)(n) == IdOf(urlHash, n);
  }

  /** Two marks in a row leave one entry exactly when their content hashes start alike and their URLs
      have one shortened hash, be they the same or not. */
  lemma TwoMarksIff(urlHash: string -> string, m: Mark, n: Mark)
    ensures |LedgerAfter(KeyBy(urlHash), [m, n])| ==
            if SameStart(m.contentHash, n.contentHash) && urlHash(m.url) == urlHash(n.url) then 1 else 2
  {
    var key := KeyBy(urlHash);
    var none: seq<Mark>, one := [], [(key(m), EntryFor(None, m))];
    First16Is(m.contentHash, n.contentHash);
    assert none + [m] == [m] && [m] + [n] == [m, n];
    LedgerGrows(key, none, m);
    LedgerGrows(key, [m], n);
    FindInOne(one[0], key(n));
    assert LedgerAfter(key, [m]) == one && LedgerAfter(key, [m, n]) == Marked(key, one, n);
  }

  lemma FindInOne(e: (EntryId, Entry), id: EntryId)
    ensures Find([e], id) == if e.0 == id then 0 else 1
  {
    assert Init([e]) == [] && [e][0] == e;
  }

  // ---------------------------------------------------------------- the commands

  /** After any marks the diff command skips a URL exactly when it is not empty and its last mark
      carried the listed update time. */
  lemma DiffSkipsLastMark(urlHash: string -> string, marks: seq<Mark>, url: string, updateTime: string)
    requires Timely(marks) && TellsApart(urlHash, marks)
    ensures DiffSkips(LedgerAfter(KeyBy(urlHash), marks), url, updateTime) <==>
            url != "" && LastMark(marks, url).Some? && LastMark(marks, url).value.updateTime == updateTime
  {
    MarksAreLawful(urlHash, marks);
    DiffSkipsIff(KeyBy(urlHash), marks, url, updateTime);
  }

  /** After any marks the check command skips exactly when the last mark alike to the first mark of the
      URL carried the asked update time. */
  lemma CheckSkipsLastAlike(urlHash: string -> string, marks: seq<Mark>, url: string, updateTime: string)
    requires Timely(marks) && TellsApart(urlHash, marks)
    ensures CheckSkips(LedgerAfter(KeyBy(urlHash), marks), url, updateTime) <==>
            && FirstMark(marks, url).Some?
            && LastAlike(marks, FirstMark(marks, url).value).Some?
            && LastAlike(marks, FirstMark(marks, url).value).value.updateTime == updateTime
  {
    MarksAreLawful(urlHash, marks);
    CheckSkipsIff(KeyBy(urlHash), marks, url, updateTime);
    if FirstMark(marks, url).Some? {
      FirstMarkIn(marks, url);
      TellsApartMore(urlHash, marks, FirstMark(marks, url).value);
      AlikeIs(urlHash, marks, FirstMark(marks, url).value);
    }
  }

  lemma {:induction false} FirstMarkIn(marks: seq<Mark>, url: string)
    requires FirstMark(marks, url).Some?
    ensures FirstMark(marks, url).value in marks && FirstMark(marks, url).value.url == url
  {
    if FirstMark(Init(marks), url).Some? {
      FirstMarkIn(Init(marks), url);
    }
  }

  /** Hence the commands disagree on the last mark of a URL exactly when no mark alike to the first one
      of that URL carried its update time last: the content changed and so did the update time. */
  lemma CheckAgreesIff(urlHash: string -> string, marks: seq<Mark>, url: string)
    requires Timely(marks) && TellsApart(urlHash, marks) && url != "" && LastMark(marks, url).Some?
    ensures var t := LastMark(marks, url).value.updateTime;
            var ledger := LedgerAfter(KeyBy(urlHash), marks);
            && DiffSkips(ledger, url, t)
            && FirstMark(marks, url).Some?
            && (CheckSkips(ledger, url, t) <==>
                LastAlike(marks, FirstMark(marks, url).value).Some?
                && LastAlike(marks, FirstMark(marks, url).value).value.updateTime == t)
  {
    var t := LastMark(marks, url).value.updateTime;
    MarksAreLawful(urlHash, marks);
    DiffSkipsLastMark(urlHash, marks, url, t);
    CheckSkipsLastAlike(urlHash, marks, url, t);
    CheckSkipsLastMarkIff(KeyBy(urlHash), marks, url);
  }
}
