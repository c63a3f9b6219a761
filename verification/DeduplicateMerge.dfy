/** What merging a whole cluster, one member after the other, leaves in every field. */
module DeduplicateMerge {
  import opened Common
  import opened Deduplicate

  // ---------------------------------------------------------------- text fields

  datatype TextField = Company | ApplyUrl | Responsibilities | Requirements | Description | Department | Deadline

  function TextOf(c: Candidate, f: TextField): string {
    match f
    case Company => c.company
    case ApplyUrl => c.applyUrl
    case Responsibilities => c.responsibilities
    case Requirements => c.requirements
    case Description => c.description
    case Department => c.department
    case Deadline => c.deadline
  }

  /** The fields that are only filled when missing. */
  predicate FilledOnly(f: TextField) {
    f == Company || f == ApplyUrl
  }

  function TextsOf(members: seq<Candidate>, f: TextField): seq<string> {
    seq(|members|, i requires 0 <= i < |members| => TextOf(members[i], f))
  }

  /** The first non-empty text is `t` at position `n`, or there is none and `t` is empty. */
  ghost predicate FirstAt(texts: seq<string>, t: string, n: nat) {
    n <= |texts| && (forall j :: 0 <= j < n ==> texts[j] == "") && if n < |texts| then texts[n] == t != "" else t == ""
  }

  /** The last non-empty text is `t` just before position `n`, or there is none and `t` is empty. */
  ghost predicate LastAt(texts: seq<string>, t: string, n: nat) {
    && n <= |texts| && (forall j :: n <= j < |texts| ==> texts[j] == "")
    && if n > 0 then texts[n - 1] == t != "" else t == ""
  }

  ghost predicate IsFirst(texts: seq<string>, t: string) {
    exists n: nat :: FirstAt(texts, t, n)
  }

  ghost predicate IsLast(texts: seq<string>, t: string) {
    exists n: nat :: LastAt(texts, t, n)
  }

  lemma FirstGrows(texts: seq<string>, t: string, x: string)
    requires IsFirst(texts, t)
    ensures IsFirst(texts + [x], Filled(t, x))
  {
    var n: nat :| FirstAt(texts, t, n);
    assert FirstAt(texts + [x], Filled(t, x), if t != "" || x != "" then n else n + 1);
  }

  lemma LastGrows(texts: seq<string>, t: string, x: string)
    requires IsLast(texts, t)
    ensures IsLast(texts + [x], Newer(t, x))
  {
    var n: nat :| LastAt(texts, t, n);
    assert LastAt(texts + [x], Newer(t, x), if x != "" then |texts| + 1 else n);
  }

  /** What a merged candidate should have of some texts: the first non-empty one in the fields
      that are only filled, the last in the others. */
  ghost predicate Chosen(f: TextField, texts: seq<string>, t: string) {
    if FilledOnly(f) then IsFirst(texts, t) else IsLast(texts, t)
  }

  lemma ChosenOfOne(f: TextField, t: string)
    ensures Chosen(f, [t], t)
  {
    assert FirstAt([t], t, if t != "" then 0 else 1);
    assert LastAt([t], t, if t != "" then 1 else 0);
  }

  lemma ChosenGrows(f: TextField, texts: seq<string>, dst: Candidate, src: Candidate)
    requires Chosen(f, texts, TextOf(dst, f))
    ensures Chosen(f, texts + [TextOf(src, f)], TextOf(Merge(dst, src), f))
  {
    if FilledOnly(f) {
      FirstGrows(texts, TextOf(dst, f), TextOf(src, f));
    } else {
      LastGrows(texts, TextOf(dst, f), TextOf(src, f));
    }
  }

  /** Of its members a merged candidate has the first non-empty company and apply URL, the last
      non-empty text of every content field, and the title of the first member. */
  lemma {:induction false} MergeAllTexts(members: seq<Candidate>, f: TextField)
    requires members != []
    ensures Chosen(f, TextsOf(members, f), TextOf(MergeAll(members), f))
    ensures MergeAll(members).title == members[0].title
  {
    if |members| == 1 {
      assert TextsOf(members, f) == [TextOf(members[0], f)];
      ChosenOfOne(f, TextOf(members[0], f));
    } else {
      var front, last := Init(members), Last(members);
      MergeAllTexts(front, f);
      assert TextsOf(members, f) == TextsOf(front, f) + [TextOf(last, f)];
      ChosenGrows(f, TextsOf(front, f), MergeAll(front), last);
    }
  }

  /** The first non-empty apply URL of some candidates. */
  function FirstUrl(members: seq<Candidate>): string {
    if members == [] then ""
    else if members[0].applyUrl != "" then members[0].applyUrl else FirstUrl(members[1..])
  }

  lemma {:induction false} FirstUrlGrows(members: seq<Candidate>, c: Candidate)
    ensures FirstUrl(members + [c]) == Filled(FirstUrl(members), c.applyUrl)
    decreases |members|
  {
    var all := members + [c];
    if members == [] {
      assert all[1..] == [];
    } else {
      FirstUrlGrows(members[1..], c);
      assert all[1..] == members[1..] + [c];
    }
  }

  lemma {:induction false} MergedUrl(members: seq<Candidate>)
    requires members != []
    ensures MergeAll(members).applyUrl == FirstUrl(members)
  {
    var front, last := Init(members), Last(members);
    assert members == front + [last];
    FirstUrlGrows(front, last);
    if |members| == 1 {
      assert front == [];
    } else {
      MergedUrl(front);
    }
  }

  lemma {:induction false} FirstUrlIs(members: seq<Candidate>)
    ensures FirstUrl(members) == "" <==> forall m :: m in members ==> m.applyUrl == ""
    ensures FirstUrl(members) != "" ==> exists m :: m in members && m.applyUrl == FirstUrl(members)
    decreases |members|
  {
    if members == [] {
    } else {
      FirstUrlIs(members[1..]);
      assert members == [members[0]] + members[1..];
    }
  }

  // ---------------------------------------------------------------- list fields

  datatype ListField = Locations | Recruitment | Industries | Warnings

  function ListOf(c: Candidate, f: ListField): seq<string> {
    match f
    case Locations => c.locations
    case Recruitment => c.recruitment
    case Industries => c.industries
    case Warnings => c.warnings
  }

  function AllListed(members: seq<Candidate>, f: ListField): seq<string> {
    if members == [] then [] else AllListed(Init(members), f) + ListOf(Last(members), f)
  }

  function AllRefs(members: seq<Candidate>): seq<Ref> {
    if members == [] then [] else AllRefs(Init(members)) + Last(members).refs
  }

  /** Merging one by one deduplicates as merging all at once would: every list of a merged
      candidate is the deduplicated concatenation of its members' lists. */
  lemma {:induction false} MergeAllLists(members: seq<Candidate>, f: ListField)
    requires |members| > 1
    ensures ListOf(MergeAll(members), f) == FirstByKey(AllListed(members, f), TextKey)
  {
    var front, last := Init(members), Last(members);
    assert ListOf(MergeAll(members), f) == FirstByKey(ListOf(MergeAll(front), f) + ListOf(last, f), TextKey);
    if |members| == 2 {
      assert Init(front) == [] && AllListed(front, f) == ListOf(front[0], f);
    } else {
      MergeAllLists(front, f);
      FirstByKeyAbsorbs(AllListed(front, f), ListOf(last, f), TextKey);
    }
  }

  lemma {:induction false} MergeAllRefs(members: seq<Candidate>)
    requires |members| > 1
    ensures MergeAll(members).refs == FirstByKey(AllRefs(members), RefKey)
  {
    var front, last := Init(members), Last(members);
    assert MergeAll(members).refs == FirstByKey(MergeAll(front).refs + last.refs, RefKey);
    if |members| == 2 {
      assert Init(front) == [] && AllRefs(front) == front[0].refs;
    } else {
      MergeAllRefs(front);
      FirstByKeyAbsorbs(AllRefs(front), last.refs, RefKey);
    }
  }
}
