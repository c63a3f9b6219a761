/** The pipeline after pass 1: which title-only candidates pass 2 drops, when a second run of the
    whole pipeline changes nothing, and inputs on which the promised laws fail. */
module DeduplicatePipeline {
  import opened Common
  import opened Grouping
  import opened Deduplicate
  import opened DeduplicateLaws
  import opened DeduplicateMerge
  import opened DeduplicatePass1

  // ---------------------------------------------------------------- pass 2

  /** Pass 2 keeps exactly the candidates that have a body, or whose normalised title is empty or
      is the title of no full candidate, whatever the company. */
  lemma Pass2KeepsIff(p: Policy, xs: seq<Candidate>, c: Candidate)
    ensures c in Pass2(p, xs) <==>
            && c in xs
            && (HasBody(p, c) || TitleOf(p, c) == ""
                || forall d :: d in xs && HasBody(p, d) ==> TitleOf(p, d) != TitleOf(p, c))
  {
    KeptAre(xs, NotEcho(p, JdTitles(p, xs)));
    if TitleOf(p, c) in JdTitles(p, xs) {
      var d :| d in xs && HasBody(p, d) && TitleOf(p, d) != "" && TitleOf(p, d) == TitleOf(p, c);
    }
  }

  // ---------------------------------------------------------------- a second run of the pipeline

  lemma ClearedKeepsIdentity(p: Policy, c: Candidate)
    ensures IdentityKey(p, Cleared(c)) == IdentityKey(p, c)
    ensures HasBody(p, Cleared(c)) == HasBody(p, c) && TitleOf(p, Cleared(c)) == TitleOf(p, c)
  {}

  /** Clearing routes changes neither keys nor titles, so equal keys stay together. */
  lemma ClearSharedKeepsKeys(p: Policy, xs: seq<Candidate>)
    ensures |ClearShared(p, xs)| == |xs|
    ensures forall i :: 0 <= i < |xs| ==>
              && KeyBy(p)(ClearShared(p, xs)[i]) == KeyBy(p)(xs[i])
              && HasBody(p, ClearShared(p, xs)[i]) == HasBody(p, xs[i])
              && TitleOf(p, ClearShared(p, xs)[i]) == TitleOf(p, xs[i])
    ensures Contiguous(xs, KeyBy(p)) ==> Contiguous(ClearShared(p, xs), KeyBy(p))
  {
    forall i | 0 <= i < |xs|
      ensures KeyBy(p)(ClearShared(p, xs)[i]) == KeyBy(p)(xs[i])
      ensures HasBody(p, ClearShared(p, xs)[i]) == HasBody(p, xs[i])
      ensures TitleOf(p, ClearShared(p, xs)[i]) == TitleOf(p, xs[i])
    {
      ClearedKeepsIdentity(p, xs[i]);
    }
  }

  lemma ClearedRoute(p: Policy, xs: seq<Candidate>, i: nat)
    requires i < |xs| && Route(p, ClearShared(p, xs)[i]) != ""
    ensures ClearShared(p, xs)[i] == xs[i] && !SharedRoute(p, xs, Route(p, xs[i]))
  {}

  /** After clearing, no route is shared any more. */
  lemma ClearedOnce(p: Policy, xs: seq<Candidate>, i: nat)
    requires i < |xs|
    ensures !SharedRoute(p, ClearShared(p, xs), Route(p, ClearShared(p, xs)[i]))
  {
    var ys := ClearShared(p, xs);
    var url := Route(p, ys[i]);
    if url != "" {
      ClearedRoute(p, xs, i);
      forall c | c in ys && Route(p, c) == url ensures c in xs {
        var j :| 0 <= j < |ys| && ys[j] == c;
        ClearedRoute(p, xs, j);
      }
    }
  }

  lemma ClearSharedIdempotent(p: Policy, xs: seq<Candidate>)
    ensures ClearShared(p, ClearShared(p, xs)) == ClearShared(p, xs)
  {
    forall i | 0 <= i < |xs| ensures ClearShared(p, ClearShared(p, xs))[i] == ClearShared(p, xs)[i] {
      ClearedOnce(p, xs, i);
    }
  }

  /** Where a candidate of the cleared list comes from. */
  lemma ClearedFrom(p: Policy, xs: seq<Candidate>, c: Candidate) returns (d: Candidate)
    requires c in ClearShared(p, xs)
    ensures d in xs && HasBody(p, c) == HasBody(p, d) && TitleOf(p, c) == TitleOf(p, d)
  {
    var i :| 0 <= i < |xs| && ClearShared(p, xs)[i] == c;
    d := xs[i];
    ClearedKeepsIdentity(p, d);
  }

  lemma ClearSharedKeepsTitles(p: Policy, xs: seq<Candidate>)
    ensures JdTitles(p, ClearShared(p, xs)) <= JdTitles(p, xs)
  {
    var ys := ClearShared(p, xs);
    forall t | t in JdTitles(p, ys) ensures t in JdTitles(p, xs) {
      var c :| c in ys && HasBody(p, c) && TitleOf(p, c) != "" && TitleOf(p, c) == t;
      var d := ClearedFrom(p, xs, c);
    }
  }

  /** No candidate echoes a full candidate of the list. */
  ghost predicate EchoFree(p: Policy, xs: seq<Candidate>) {
    forall c :: c in xs ==> !Echo(p, JdTitles(p, xs), c)
  }

  lemma Pass2LeavesNoEcho(p: Policy, xs: seq<Candidate>)
    ensures EchoFree(p, Pass2(p, xs))
  {
    KeptAre(xs, NotEcho(p, JdTitles(p, xs)));
    assert JdTitles(p, Pass2(p, xs)) <= JdTitles(p, xs);
  }

  lemma ClearSharedLeavesNoEcho(p: Policy, xs: seq<Candidate>)
    requires EchoFree(p, xs)
    ensures EchoFree(p, ClearShared(p, xs))
  {
    var ys := ClearShared(p, xs);
    ClearSharedKeepsTitles(p, xs);
    forall c | c in ys ensures !Echo(p, JdTitles(p, ys), c) {
      var d := ClearedFrom(p, xs, c);
      assert !Echo(p, JdTitles(p, xs), d);
    }
  }

  lemma Pass2OfEchoFree(p: Policy, xs: seq<Candidate>)
    requires EchoFree(p, xs)
    ensures Pass2(p, xs) == xs
  {
    KeptAll(xs, NotEcho(p, JdTitles(p, xs)));
  }

  /** Nothing in an output of the pipeline is an echo of a full candidate in it. */
  lemma OutputHasNoEcho(p: Policy, xs: seq<Candidate>)
    ensures Pass2(p, Process(p, xs)) == Process(p, xs)
  {
    Pass2LeavesNoEcho(p, Pass1(p, xs));
    ClearSharedLeavesNoEcho(p, Pass2(p, Pass1(p, xs)));
    Pass2OfEchoFree(p, Process(p, xs));
  }

  lemma OutputContiguous(p: Policy, xs: seq<Candidate>)
    ensures Contiguous(Process(p, xs), KeyBy(p))
  {
    Pass1Groups(p, xs);
    KeptContiguous(Pass1(p, xs), KeyBy(p), NotEcho(p, JdTitles(p, Pass1(p, xs))));
    ClearSharedKeepsKeys(p, Pass2(p, Pass1(p, xs)));
  }

  lemma ProcessShortens(p: Policy, xs: seq<Candidate>)
    ensures |Process(p, xs)| <= |Pass1(p, xs)|
  {
    KeptAll(Pass1(p, xs), NotEcho(p, JdTitles(p, Pass1(p, xs))));
  }

  /** A list that the pipeline produced is left alone exactly when nothing in it can merge. */
  lemma OutputFixedIff(p: Policy, xs: seq<Candidate>)
    ensures Process(p, Process(p, xs)) == Process(p, xs) <==> NoneMergeable(p, Process(p, xs))
  {
    var out := Process(p, xs);
    OutputContiguous(p, xs);
    Pass1OnContiguous(p, out);
    if NoneMergeable(p, out) {
      OutputHasNoEcho(p, xs);
      ClearSharedIdempotent(p, Pass2(p, Pass1(p, xs)));
    } else {
      ProcessShortens(p, out);
    }
  }

  // ---------------------------------------------------------------- what clearing makes mergeable

  /** Two candidates of one key that neither can merge now nor once shared routes are cleared:
      full ones whose titles do not match, or with two different routes that nothing shares. */
  ghost predicate ApartOnceCleared(p: Policy, ys: seq<Candidate>, a: Candidate, b: Candidate) {
    && IdentityKey(p, a).JdKey?
    && ( || !TitlesMatch(TitleOf(p, b), TitleOf(p, a))
         || (&& Route(p, a) != "" && Route(p, b) != "" && Route(p, a) != Route(p, b)
             && !SharedRoute(p, ys, Route(p, a)) && !SharedRoute(p, ys, Route(p, b))))
  }

  ghost predicate AllApartOnceCleared(p: Policy, ys: seq<Candidate>) {
    forall i, j :: 0 <= i < j < |ys| && KeyBy(p)(ys[i]) == KeyBy(p)(ys[j]) ==> ApartOnceCleared(p, ys, ys[i], ys[j])
  }

  /** What clearing makes of one candidate of the list. */
  lemma ClearedAt(p: Policy, ys: seq<Candidate>, i: nat)
    requires i < |ys|
    ensures var c := ClearShared(p, ys)[i];
            && IdentityKey(p, c) == IdentityKey(p, ys[i]) && TitleOf(p, c) == TitleOf(p, ys[i])
            && Route(p, c) == if SharedRoute(p, ys, Route(p, ys[i])) then "" else Route(p, ys[i])
  {
    ClearedKeepsIdentity(p, ys[i]);
  }

  lemma ApartOnceClearedIs(p: Policy, ys: seq<Candidate>, i: nat, j: nat)
    requires i < j < |ys|
    ensures UnmergeableBy(p)(ClearShared(p, ys)[i], ClearShared(p, ys)[j]) <==> ApartOnceCleared(p, ys, ys[i], ys[j])
  {
    ClearedAt(p, ys, i);
    ClearedAt(p, ys, j);
  }

  /** After clearing nothing can merge exactly when, before it, all pairs were that far apart. */
  lemma ClearedMergeableIff(p: Policy, ys: seq<Candidate>)
    ensures NoneMergeable(p, ClearShared(p, ys)) <==> AllApartOnceCleared(p, ys)
  {
    var cs, key, r := ClearShared(p, ys), KeyBy(p), UnmergeableBy(p);
    forall i | 0 <= i < |ys| ensures key(cs[i]) == key(ys[i]) {
      ClearedAt(p, ys, i);
    }
    if NoneMergeable(p, cs) {
      forall i, j | 0 <= i < j < |ys| && key(ys[i]) == key(ys[j]) ensures ApartOnceCleared(p, ys, ys[i], ys[j]) {
        assert r(cs[i], cs[j]);
        ApartOnceClearedIs(p, ys, i, j);
      }
    }
    if AllApartOnceCleared(p, ys) {
      forall i, j | 0 <= i < j < |cs| && key(cs[i]) == key(cs[j]) ensures r(cs[i], cs[j]) {
        assert key(ys[i]) == key(ys[j]);
        ApartOnceClearedIs(p, ys, i, j);
      }
    }
  }

  /** A second run of the pipeline changes nothing exactly when, in the list whose shared routes
      the first run clears, every two candidates of one key are full ones that do not match by
      title or carry two different routes, neither of them shared. */
  lemma ProcessIdempotentIff(p: Policy, xs: seq<Candidate>)
    ensures Process(p, Process(p, xs)) == Process(p, xs) <==> AllApartOnceCleared(p, Pass2(p, Pass1(p, xs)))
  {
    OutputFixedIff(p, xs);
    ClearedMergeableIff(p, Pass2(p, Pass1(p, xs)));
  }

  /** No two candidates of one key with matching titles carry a route that is cleared. */
  ghost predicate ClearsNoMatch(p: Policy, ys: seq<Candidate>) {
    forall i, j :: 0 <= i < j < |ys| && KeyBy(p)(ys[i]) == KeyBy(p)(ys[j])
                   && TitlesMatch(TitleOf(p, ys[j]), TitleOf(p, ys[i]))
                   ==> !SharedRoute(p, ys, Route(p, ys[i])) && !SharedRoute(p, ys, Route(p, ys[j]))
  }

  lemma ApartIffClearsNoMatch(p: Policy, ys: seq<Candidate>)
    requires NoneMergeable(p, ys)
    ensures AllApartOnceCleared(p, ys) <==> ClearsNoMatch(p, ys)
  {
    forall i, j | 0 <= i < j < |ys| && KeyBy(p)(ys[i]) == KeyBy(p)(ys[j])
      ensures IdentityKey(p, ys[i]).JdKey? && Apart(p, ys[i], ys[j])
    {
      assert UnmergeableBy(p)(ys[i], ys[j]);
    }
  }

  /** Where pass 1 is idempotent, the second run changes nothing exactly when the first run clears
      the route of no candidate whose title matches another one of its key. */
  lemma ProcessIdempotentIffClearsNoMatch(p: Policy, xs: seq<Candidate>)
    requires NoneRejoins(p, xs)
    ensures Process(p, Process(p, xs)) == Process(p, xs) <==> ClearsNoMatch(p, Pass2(p, Pass1(p, xs)))
  {
    var deduped := Pass1(p, xs);
    Pass1IdempotentIff(p, xs);
    Pass1FixedIff(p, deduped);
    KeptPairwise(deduped, KeyBy(p), NotEcho(p, JdTitles(p, deduped)), UnmergeableBy(p));
    ProcessIdempotentIff(p, xs);
    ApartIffClearsNoMatch(p, Pass2(p, deduped));
  }

  // ---------------------------------------------------------------- lists the pipeline leaves alone

  ghost predicate NoneShared(p: Policy, xs: seq<Candidate>) {
    forall i :: 0 <= i < |xs| ==> !SharedRoute(p, xs, Route(p, xs[i]))
  }

  lemma ClearSharedFixedIff(p: Policy, xs: seq<Candidate>)
    ensures ClearShared(p, xs) == xs <==> NoneShared(p, xs)
  {
    if ClearShared(p, xs) == xs {
      forall i | 0 <= i < |xs| ensures !SharedRoute(p, xs, Route(p, xs[i])) {
        ClearedOnce(p, xs, i);
      }
    }
  }

  lemma Pass2FixedIff(p: Policy, xs: seq<Candidate>)
    ensures |Pass2(p, xs)| <= |xs|
    ensures |Pass2(p, xs)| == |xs| ==> EchoFree(p, xs)
    ensures EchoFree(p, xs) ==> Pass2(p, xs) == xs
  {
    var keep := NotEcho(p, JdTitles(p, xs));
    KeptAll(xs, keep);
    KeptNone(xs, keep);
  }

  /** The pipeline leaves a list exactly as it is when equal keys stand together, no two candidates
      of one key can merge, none echoes a full candidate and no route is shared; and only then. */
  lemma ProcessFixedIff(p: Policy, xs: seq<Candidate>)
    ensures Process(p, xs) == xs <==>
            Contiguous(xs, KeyBy(p)) && NoneMergeable(p, xs) && EchoFree(p, xs) && NoneShared(p, xs)
  {
    if Process(p, xs) == xs {
      OutputContiguous(p, xs);
      Pass1OnContiguous(p, xs);
      Pass2FixedIff(p, Pass1(p, xs));
      assert Pass1(p, xs) == xs;
      Pass2FixedIff(p, xs);
    } else if Contiguous(xs, KeyBy(p)) && NoneMergeable(p, xs) && EchoFree(p, xs) {
      Pass1OnContiguous(p, xs);
      Pass2FixedIff(p, xs);
    }
    ClearSharedFixedIff(p, xs);
  }

  /** With no whitespace-only route and no shared route to clear, a second run changes nothing. */
  lemma ProcessIdempotentWithoutClearing(p: Policy, xs: seq<Candidate>)
    requires NoBlankRoutes(p, xs)
    requires forall url :: !SharedRoute(p, Pass2(p, Pass1(p, xs)), url)
    ensures Process(p, Process(p, xs)) == Process(p, xs)
  {
    Pass1Idempotent(p, xs);
    Pass1IdempotentIff(p, xs);
    ProcessIdempotentIffClearsNoMatch(p, xs);
  }

  // ---------------------------------------------------------------- which title-only candidates survive

  /** Some output has the candidate's identity key. */
  ghost predicate Survives(p: Policy, xs: seq<Candidate>, c: Candidate) {
    exists d :: d in Process(p, xs) && IdentityKey(p, d) == IdentityKey(p, c)
  }

  /** A full candidate that comes first in its merge group, whose title is thus the merged one. */
  ghost predicate Heads(p: Policy, xs: seq<Candidate>, d: Candidate) {
    HasBody(p, d) && exists i :: 0 <= i < |AllGroups(p, xs)| && AllGroups(p, xs)[i] != [] && AllGroups(p, xs)[i][0] == d
  }

  /** What a merged candidate has in common with the head of its group. */
  lemma MergedLikeHead(p: Policy, out: Candidate, group: seq<Candidate>)
    requires MergedFrom(p, out, group)
    ensures out.title == group[0].title && HasBody(p, out) == HasBody(p, group[0])
    ensures NormText(p, out.company) == NormText(p, group[0].company)
  {
    MergeAllTexts(group, Company);
    assert group[0] in group && KeyBy(p)(group[0]) == IdentityKey(p, out);
  }

  /** The titles of the full outputs of pass 1 are those of the heads. */
  lemma TitlesOfHeads(p: Policy, xs: seq<Candidate>, t: string)
    ensures (exists d :: d in Pass1(p, xs) && HasBody(p, d) && TitleOf(p, d) == t)
            <==> exists d :: Heads(p, xs, d) && TitleOf(p, d) == t
  {
    var ys, groups := Pass1(p, xs), AllGroups(p, xs);
    Pass1Partitions(p, xs);
    forall i | 0 <= i < |ys| ensures TitleOf(p, ys[i]) == TitleOf(p, groups[i][0]) {
      assert MergedFrom(p, ys[i], groups[i]);
      MergedLikeHead(p, ys[i], groups[i]);
    }
    if d :| d in ys && HasBody(p, d) && TitleOf(p, d) == t {
      var i :| 0 <= i < |ys| && ys[i] == d;
      assert MergedFrom(p, ys[i], groups[i]);
      MergedLikeHead(p, ys[i], groups[i]);
      assert Heads(p, xs, groups[i][0]);
    }
    if d :| Heads(p, xs, d) && TitleOf(p, d) == t {
      var i :| 0 <= i < |groups| && groups[i] != [] && groups[i][0] == d;
      assert MergedFrom(p, ys[i], groups[i]);
      MergedLikeHead(p, ys[i], groups[i]);
      assert ys[i] in ys;
    }
  }

  /** Clearing keeps which keys there are. */
  lemma ClearedKeySame(p: Policy, ys: seq<Candidate>, k: Key)
    ensures (exists d :: d in ClearShared(p, ys) && IdentityKey(p, d) == k)
            <==> exists d :: d in ys && IdentityKey(p, d) == k
  {
    var cs := ClearShared(p, ys);
    if d :| d in cs && IdentityKey(p, d) == k {
      var i :| 0 <= i < |cs| && cs[i] == d;
      ClearedAt(p, ys, i);
      assert ys[i] in ys;
    }
    if d :| d in ys && IdentityKey(p, d) == k {
      var i :| 0 <= i < |ys| && ys[i] == d;
      ClearedAt(p, ys, i);
      assert cs[i] in cs;
    }
  }

  /** Pass 1 has an output of every key of its input. */
  lemma Pass1HasKey(p: Policy, xs: seq<Candidate>, c: Candidate)
    requires c in xs
    ensures exists d :: d in Pass1(p, xs) && IdentityKey(p, d) == IdentityKey(p, c)
  {
    KeysAre(xs, KeyBy(p));
    Pass1Groups(p, xs);
    KeysAre(Pass1(p, xs), KeyBy(p));
    assert KeyBy(p)(c) in Keys(Pass1(p, xs), KeyBy(p));
    var d :| d in Pass1(p, xs) && KeyBy(p)(d) == KeyBy(p)(c);
  }

  /** A title-only candidate of a list survives the pipeline exactly when it has no normalised
      title or no head of a merge group of full candidates, of whatever company, has the same. */
  lemma TitleOnlySurvivesIff(p: Policy, xs: seq<Candidate>, c: Candidate)
    requires c in xs && !HasBody(p, c)
    ensures Survives(p, xs, c) <==>
            TitleOf(p, c) == "" || forall d :: Heads(p, xs, d) ==> TitleOf(p, d) != TitleOf(p, c)
  {
    var ys, k := Pass1(p, xs), IdentityKey(p, c);
    Pass1HasKey(p, xs, c);
    TitlesOfHeads(p, xs, TitleOf(p, c));
    ClearedKeySame(p, Pass2(p, ys), k);
    forall d | d in ys && IdentityKey(p, d) == k
      ensures d in Pass2(p, ys) <==>
              TitleOf(p, c) == "" || forall e :: e in ys && HasBody(p, e) ==> TitleOf(p, e) != TitleOf(p, c)
    {
      Pass2KeepsIff(p, ys, d);
    }
    forall d | d in Pass2(p, ys) ensures d in ys {
      Pass2KeepsIff(p, ys, d);
    }
  }

  /** The rule the identity key documents: only a full candidate of the same company may make
      the pipeline drop a title-only one. */
  ghost predicate DroppedOnlyByOwnCompany(p: Policy, xs: seq<Candidate>, c: Candidate) {
    Survives(p, xs, c) || exists d :: Heads(p, xs, d) && Rivals(p, d, c)
  }

  /** Two candidates of one company with the same normalised title. */
  predicate Rivals(p: Policy, d: Candidate, c: Candidate) {
    TitleOf(p, d) == TitleOf(p, c) && NormText(p, d.company) == NormText(p, c.company)
  }

  /** A title-only candidate obeys that rule exactly when, if any head of full candidates has its
      non-empty title, one of its own company does. */
  lemma OwnCompanyRuleIff(p: Policy, xs: seq<Candidate>, c: Candidate)
    requires c in xs && !HasBody(p, c)
    ensures DroppedOnlyByOwnCompany(p, xs, c) <==>
            (TitleOf(p, c) != "" && (exists d :: Heads(p, xs, d) && TitleOf(p, d) == TitleOf(p, c))
             ==> exists d :: Heads(p, xs, d) && Rivals(p, d, c))
  {
    TitleOnlySurvivesIff(p, xs, c);
  }

  lemma HeadsIn(p: Policy, xs: seq<Candidate>, d: Candidate)
    requires Heads(p, xs, d)
    ensures d in xs && HasBody(p, d)
  {
    var groups := AllGroups(p, xs);
    var i :| 0 <= i < |groups| && groups[i] != [] && groups[i][0] == d;
    Pass1Partitions(p, xs);
    FlatCovers(groups, i);
    assert d in multiset(groups[i]);
    assert d in multiset(xs);
  }

  /** When pass 1 leaves a list alone, each full candidate is the head of its own group. */
  lemma FullHeads(p: Policy, xs: seq<Candidate>, d: Candidate)
    requires Pass1(p, xs) == xs && d in xs && HasBody(p, d)
    ensures exists e :: Heads(p, xs, e) && TitleOf(p, e) == TitleOf(p, d)
  {
    TitlesOfHeads(p, xs, TitleOf(p, d));
  }

  // ---------------------------------------------------------------- inputs on which the laws fail

  /** A policy that leaves every text as it is. */
  function Plain(): Policy {
    Policy(s => s, s => s, l => [l], c => c == ' ')
  }

  function Posting(company: string, title: string, url: string, body: string): Candidate {
    Candidate(company, title, url, body, "", "", "", "", [], [], [], [], [])
  }

  lemma PostingFacts(company: string, title: string, url: string, body: string)
    requires |url| <= 1 && |body| <= 1 && url != " " && body != " "
    ensures Route(Plain(), Posting(company, title, url, body)) == url
    ensures HasBody(Plain(), Posting(company, title, url, body)) <==> body != ""
    ensures TitleOf(Plain(), Posting(company, title, url, body)) == title
    ensures NormText(Plain(), company) == company
    ensures body != "" ==> IdentityKey(Plain(), Posting(company, title, url, body)) == JdKey(company, body, "", {}, "")
  {
    var c := Posting(company, title, url, body);
    assert Strip(Plain(), "") == "";
    assert PlaceSet(Plain(), []) == {};
  }

  /** A full posting of company A makes the pipeline drop company B's title-only posting. */
  lemma OtherCompanyDrops()
    ensures var xs := [Posting("A", "t", "", "b"), Posting("B", "t", "", "")];
            !Survives(Plain(), xs, xs[1]) && !DroppedOnlyByOwnCompany(Plain(), xs, xs[1])
  {
    var p := Plain();
    var a, b := Posting("A", "t", "", "b"), Posting("B", "t", "", "");
    var xs := [a, b];
    PostingFacts("A", "t", "", "b");
    PostingFacts("B", "t", "", "");
    assert KeyBy(p)(xs[0]) == IdentityKey(p, a) && KeyBy(p)(xs[1]) == IdentityKey(p, b);
    Pass1FixedIff(p, xs);
    FullHeads(p, xs, a);
    TitleOnlySurvivesIff(p, xs, b);
    forall d | Heads(p, xs, d) ensures d == a {
      HeadsIn(p, xs, d);
    }
  }

  /** Two openings of one template with different routes, the first of which a third posting
      shares: the first run clears that route. */
  lemma FirstRunClears(p: Policy, a: Candidate, b: Candidate, c: Candidate)
    requires HasBody(p, a) && HasBody(p, b) && HasBody(p, c)
    requires IdentityKey(p, a) == IdentityKey(p, b) != IdentityKey(p, c)
    requires TitleOf(p, a) == TitleOf(p, b) && TitleOf(p, a) != "" && TitleOf(p, c) !in ["", TitleOf(p, a)]
    requires Route(p, a) == Route(p, c) && Route(p, a) != "" && Route(p, b) !in ["", Route(p, a)]
    ensures Process(p, [a, b, c]) == [Cleared(a), b, Cleared(c)]
  {
    var xs := [a, b, c];
    assert KeyBy(p)(a) == KeyBy(p)(b) != KeyBy(p)(c);
    UnchangedByPass1(p, a, b, c);
    assert EchoFree(p, xs);
    Pass2OfEchoFree(p, xs);
    ClearsFirstRoute(p, a, b, c);
  }

  lemma UnchangedByPass1(p: Policy, a: Candidate, b: Candidate, c: Candidate)
    requires KeyBy(p)(a) == KeyBy(p)(b) != KeyBy(p)(c) && UnmergeableBy(p)(a, b)
    ensures Pass1(p, [a, b, c]) == [a, b, c]
  {
    Pass1FixedIff(p, [a, b, c]);
  }

  lemma ClearsFirstRoute(p: Policy, a: Candidate, b: Candidate, c: Candidate)
    requires TitleOf(p, a) == TitleOf(p, b) && TitleOf(p, a) != "" && TitleOf(p, c) !in ["", TitleOf(p, a)]
    requires Route(p, a) == Route(p, c) && Route(p, a) != "" && Route(p, b) !in ["", Route(p, a)]
    ensures ClearShared(p, [a, b, c]) == [Cleared(a), b, Cleared(c)]
  {
    var xs := [a, b, c];
    assert a in xs && c in xs && SharedRoute(p, xs, Route(p, a));
    assert !SharedRoute(p, xs, Route(p, b));
  }

  /** Two openings of one template with the routes "u" and "v", where a third posting shares
      "u": the first run clears "u", and the second run merges the two openings. */
  lemma SecondRunMerges()
    ensures var xs := [Posting("A", "t", "u", "b"), Posting("A", "t", "v", "b"), Posting("A", "s", "u", "c")];
            Process(Plain(), Process(Plain(), xs)) != Process(Plain(), xs)
  {
    var p := Plain();
    var a, b, c := Posting("A", "t", "u", "b"), Posting("A", "t", "v", "b"), Posting("A", "s", "u", "c");
    PostingFacts("A", "t", "u", "b");
    PostingFacts("A", "t", "v", "b");
    PostingFacts("A", "s", "u", "c");
    FirstRunClears(p, a, b, c);
    ClearedKeepsIdentity(p, a);
    assert Route(p, Cleared(a)) == "";
    var out := [Cleared(a), b, Cleared(c)];
    assert KeyBy(p)(out[0]) == KeyBy(p)(out[1]) && !UnmergeableBy(p)(out[0], out[1]);
    OutputFixedIff(p, [a, b, c]);
  }

  lemma BlankClusters(p: Policy, a: Candidate, b: Candidate, c: Candidate)
    requires TitleOf(p, a) == TitleOf(p, b) == TitleOf(p, c) && TitleOf(p, a) != ""
    requires Route(p, a) == "" && Route(p, b) != "" && Route(p, c) !in ["", Route(p, b)]
    ensures Clusters(p, [a, b, c]) == [Cluster({TitleOf(p, a)}, [a, b]), Cluster({TitleOf(p, a)}, [c])]
  {
    var t := TitleOf(p, a);
    var one, two := Cluster({t}, [a]), Cluster({t}, [a, b]);
    assert Init([a, b, c]) == [a, b] && Init([a, b]) == [a] && Init([a]) == [];
    assert Clusters(p, [a]) == [one];
    assert Fits(p, b, one) by {
      assert Routes(p, [a]) == {};
      assert t in one.titles && TitlesMatch(t, t);
    }
    assert FirstFit(p, [one], b) == 0;
    assert Joined(p, one, b) == two;
    assert Clusters(p, [a, b]) == [one][0 := two] == [two];
    assert !Fits(p, c, two) by {
      assert b in [a, b] && Route(p, b) in Routes(p, [a, b]);
      assert Route(p, c) !in Routes(p, [a, b]);
    }
    assert FirstFit(p, [two], c) == 1;
  }

  lemma OneGroup(p: Policy, k: Key, xs: seq<Candidate>)
    requires xs != [] && AllKeyed(xs, KeyBy(p), k)
    ensures Pass1(p, xs) == Output(p, k, xs)
  {
    AppendBlock([], xs, KeyBy(p), k);
    assert [] + xs == xs;
    assert Keys(xs, KeyBy(p)) == [k] && MembersIn(xs, KeyBy(p))(k) == xs;
    var block := OutputOf(p, xs);
    assert block(k) == Output(p, k, xs);
    assert Init([k]) == [];
    assert Lay([k], block) == [] + block(k);
  }

  lemma OutputOfTwo(p: Policy, k: Key, t: string, a: Candidate, b: Candidate, c: Candidate)
    requires k.JdKey? && Clusters(p, [a, b, c]) == [Cluster({t}, [a, b]), Cluster({t}, [c])]
    ensures Output(p, k, [a, b, c]) == [Merge(a, b), c]
  {
    assert Groups(p, k, [a, b, c]) == [[a, b], [c]];
    assert Init([a, b]) == [a] && MergeAll([a, b]) == Merge(a, b);
  }

  lemma BlankRun(p: Policy, a: Candidate, b: Candidate, c: Candidate)
    requires HasBody(p, a) && IdentityKey(p, a) == IdentityKey(p, b) == IdentityKey(p, c)
    requires TitleOf(p, a) == TitleOf(p, b) == TitleOf(p, c) && TitleOf(p, a) != ""
    requires Route(p, a) == "" && Route(p, b) != "" && Route(p, c) !in ["", Route(p, b)]
    requires a.applyUrl != ""
    ensures Pass1(p, [a, b, c]) == [Merge(a, b), c]
    ensures Pass1(p, Pass1(p, [a, b, c])) != Pass1(p, [a, b, c])
  {
    var xs, k := [a, b, c], IdentityKey(p, a);
    BlankClusters(p, a, b, c);
    assert forall d :: d in xs ==> KeyBy(p)(d) == k;
    OneGroup(p, k, xs);
    OutputOfTwo(p, k, TitleOf(p, a), a, b, c);
    MergeKeepsKey(p, a, b);
    var out := [Merge(a, b), c];
    assert Pass1(p, xs) == out;
    assert KeyBy(p)(out[0]) == KeyBy(p)(out[1]) && !UnmergeableBy(p)(out[0], out[1]) by {
      assert Route(p, Merge(a, b)) == Route(p, a);
    }
    Pass1FixedIff(p, out);
  }

  /** One opening under three routes, the first of them a single blank: the merged first
      candidate keeps the blank route, so a second run of pass 1 merges again. */
  lemma BlankRouteMergesAgain()
    ensures var xs := [Posting("A", "t", " ", "b"), Posting("A", "t", "u", "b"), Posting("A", "t", "v", "b")];
            Pass1(Plain(), Pass1(Plain(), xs)) != Pass1(Plain(), xs)
  {
    var p := Plain();
    var a, b, c := Posting("A", "t", " ", "b"), Posting("A", "t", "u", "b"), Posting("A", "t", "v", "b");
    PostingFacts("A", "t", "", "b");
    PostingFacts("A", "t", "u", "b");
    PostingFacts("A", "t", "v", "b");
    assert Route(p, a) == "" by {
      assert " "[1..] == "";
    }
    assert IdentityKey(p, a) == IdentityKey(p, Posting("A", "t", "", "b"));
    BlankRun(p, a, b, c);
  }
}
