/** What the keys and the clusters of pass 1 are, said of the raw fields of candidates. */
module DeduplicateFacts {
  import opened Common
  import opened Grouping
  import opened Deduplicate
  import opened DeduplicateLaws
  import opened DeduplicateMerge
  import opened DeduplicatePass1
  import opened DeduplicatePipeline

  // ---------------------------------------------------------------- raw facts

  /** Two texts have the same normal form; a missing text has the empty one. */
  predicate SameNormal(f: string -> string, s: string, t: string) {
    if s == "" || t == "" then (s == "" || f(s) == "") && (t == "" || f(t) == "") else f(s) == f(t)
  }

  /** Some character is no whitespace. */
  predicate Written(p: Policy, s: string) {
    exists i :: 0 <= i < |s| && !p.space(s[i])
  }

  predicate Described(p: Policy, c: Candidate) {
    Written(p, c.responsibilities) || Written(p, c.requirements)
  }

  ghost predicate Located(p: Policy, locations: seq<string>, part: string) {
    exists l :: l in locations && part in p.places(l)
  }

  ghost predicate SamePlaces(p: Policy, a: seq<string>, b: seq<string>) {
    forall part :: Located(p, a, part) <==> Located(p, b, part)
  }

  function Leading(s: seq<string>): string {
    if s == [] then "" else s[0]
  }

  /** One posting: the same company, places and recruitment type, and the same body texts, or the
      same title where neither has a body. */
  ghost predicate OnePosting(p: Policy, a: Candidate, b: Candidate) {
    && SameNormal(p.text, a.company, b.company)
    && SamePlaces(p, a.locations, b.locations)
    && SameNormal(p.text, Leading(a.recruitment), Leading(b.recruitment))
    && (Described(p, a) <==> Described(p, b))
    && if Described(p, a)
       then SameNormal(p.text, a.responsibilities, b.responsibilities)
            && SameNormal(p.text, a.requirements, b.requirements)
       else SameNormal(p.title, a.title, b.title)
  }

  // ---------------------------------------------------------------- trimming

  /** `r` is the text without the whitespace at its ends. */
  ghost predicate Trimmed(p: Policy, s: string, r: string) {
    && (r == "" || (!p.space(r[0]) && !p.space(r[|r| - 1])))
    && exists i: nat :: TrimmedAt(p, s, r, i)
  }

  ghost predicate TrimmedAt(p: Policy, s: string, r: string, i: nat) {
    && i + |r| <= |s| && s[i..i + |r|] == r
    && forall k :: 0 <= k < i || i + |r| <= k < |s| ==> p.space(s[k])
  }

  lemma TrimsMoreFront(p: Policy, s: string, r: string, i: nat)
    requires s != "" && p.space(s[0]) && TrimmedAt(p, s[1..], r, i)
    ensures TrimmedAt(p, s, r, i + 1)
  {
    assert s[i + 1..i + 1 + |r|] == s[1..][i..i + |r|];
    forall k | 0 <= k < i + 1 || i + 1 + |r| <= k < |s| ensures p.space(s[k]) {
      assert k > 0 ==> s[k] == s[1..][k - 1];
    }
  }

  lemma TrimsMoreBack(p: Policy, s: string, r: string, i: nat)
    requires s != "" && p.space(Last(s)) && TrimmedAt(p, Init(s), r, i)
    ensures TrimmedAt(p, s, r, i)
  {
    assert s[i..i + |r|] == Init(s)[i..i + |r|];
    forall k | 0 <= k < i || i + |r| <= k < |s| ensures p.space(s[k]) {
      assert k < |s| - 1 ==> s[k] == Init(s)[k];
    }
  }

  lemma {:induction false} StripTrims(p: Policy, s: string)
    ensures Trimmed(p, s, Strip(p, s))
    decreases |s|
  {
    var r := Strip(p, s);
    if s == "" {
      assert TrimmedAt(p, s, r, 0);
    } else if p.space(s[0]) {
      StripTrims(p, s[1..]);
      var i: nat :| TrimmedAt(p, s[1..], r, i);
      TrimsMoreFront(p, s, r, i);
    } else if p.space(Last(s)) {
      StripTrims(p, Init(s));
      var i: nat :| TrimmedAt(p, Init(s), r, i);
      TrimsMoreBack(p, s, r, i);
    } else {
      assert s[0..0 + |s|] == s;
      assert TrimmedAt(p, s, r, 0);
    }
  }

  /** The trimmed text is empty exactly when nothing is written. */
  lemma StripIsWritten(p: Policy, s: string)
    ensures Strip(p, s) != "" <==> Written(p, s)
  {
    var r := Strip(p, s);
    StripTrims(p, s);
    var i: nat :| TrimmedAt(p, s, r, i);
    if r != "" {
      assert s[i] == s[i..i + |r|][0] == r[0];
    }
  }

  /** There is one trimmed text. */
  lemma TrimmedIsOne(p: Policy, s: string, r: string, t: string)
    requires Trimmed(p, s, r) && Trimmed(p, s, t)
    ensures r == t
  {
    var i: nat :| TrimmedAt(p, s, r, i);
    var j: nat :| TrimmedAt(p, s, t, j);
    if r != "" {
      EndsInside(p, s, r, i, t, j);
    }
    if t != "" {
      EndsInside(p, s, t, j, r, i);
    }
  }

  lemma EndsInside(p: Policy, s: string, r: string, i: nat, t: string, j: nat)
    requires r != "" && !p.space(r[0]) && !p.space(r[|r| - 1]) && TrimmedAt(p, s, r, i) && TrimmedAt(p, s, t, j)
    ensures j <= i && i + |r| <= j + |t|
  {
    assert s[i] == s[i..i + |r|][0] && s[i + |r| - 1] == s[i..i + |r|][|r| - 1];
  }

  /** Two URLs have the same trimmed form. */
  ghost predicate SameTrim(p: Policy, s: string, t: string) {
    exists r :: Trimmed(p, s, r) && Trimmed(p, t, r)
  }

  lemma SameTrimIs(p: Policy, s: string, t: string)
    ensures SameTrim(p, s, t) <==> Strip(p, s) == Strip(p, t)
  {
    StripTrims(p, s);
    StripTrims(p, t);
    if r :| Trimmed(p, s, r) && Trimmed(p, t, r) {
      TrimmedIsOne(p, s, r, Strip(p, s));
      TrimmedIsOne(p, t, r, Strip(p, t));
    }
  }

  // ---------------------------------------------------------------- the identity key

  lemma PlacesTell(p: Policy, a: seq<string>, b: seq<string>)
    ensures PlaceSet(p, a) == PlaceSet(p, b) <==> SamePlaces(p, a, b)
  {
    forall part ensures (part in PlaceSet(p, a) <==> Located(p, a, part))
                && (part in PlaceSet(p, b) <==> Located(p, b, part)) {}
  }

  lemma RecruitTells(p: Policy, a: Candidate, b: Candidate)
    ensures Recruit(p, a) == Recruit(p, b) <==> SameNormal(p.text, Leading(a.recruitment), Leading(b.recruitment))
  {}

  lemma DescribedIs(p: Policy, c: Candidate)
    ensures HasBody(p, c) <==> Described(p, c)
  {
    StripIsWritten(p, c.responsibilities);
    StripIsWritten(p, c.requirements);
  }

  /** Two candidates have one identity key exactly when they are one posting. */
  lemma KeyTells(p: Policy, a: Candidate, b: Candidate)
    ensures IdentityKey(p, a) == IdentityKey(p, b) <==> OnePosting(p, a, b)
    ensures IdentityKey(p, a).JdKey? <==> Described(p, a)
  {
    PlacesTell(p, a.locations, b.locations);
    RecruitTells(p, a, b);
    DescribedIs(p, a);
    DescribedIs(p, b);
  }

  // ---------------------------------------------------------------- the merge groups of pass 1

  /** All members of a merge group and the candidate they become are one posting. */
  lemma GroupsAreOnePosting(p: Policy, xs: seq<Candidate>, i: nat, a: Candidate, b: Candidate)
    requires i < |AllGroups(p, xs)| && i < |Pass1(p, xs)|
    requires a in AllGroups(p, xs)[i] && (b in AllGroups(p, xs)[i] || b == Pass1(p, xs)[i])
    ensures OnePosting(p, a, b)
  {
    Pass1Partitions(p, xs);
    assert MergedFrom(p, Pass1(p, xs)[i], AllGroups(p, xs)[i]);
    assert KeyBy(p)(a) == IdentityKey(p, a) && KeyBy(p)(b) == IdentityKey(p, b);
    KeyTells(p, a, b);
  }

  /** All candidates that are one posting with `a`. */
  ghost function PostingOf(p: Policy, a: Candidate): Candidate -> bool {
    c => OnePosting(p, a, c)
  }

  lemma {:induction false} MembersArePosting(p: Policy, xs: seq<Candidate>, a: Candidate)
    ensures Members(xs, KeyBy(p), IdentityKey(p, a)) == Kept(xs, PostingOf(p, a))
  {
    if xs == [] {
    } else {
      MembersArePosting(p, Init(xs), a);
      KeyTells(p, a, Last(xs));
    }
  }

  lemma {:induction false} LayHas<K, T>(ks: seq<K>, block: K -> seq<T>, k: K, x: T)
    requires k in ks && x in block(k)
    ensures x in Lay(ks, block)
  {
    if k == Last(ks) {
    } else {
      assert ks == Init(ks) + [Last(ks)];
      LayHas(Init(ks), block, k, x);
    }
  }

  /** All inputs that are one posting form one merge group when they are title-only, and the clusters
      that title and route make of them when they have a body. */
  lemma PostingIsGrouped(p: Policy, xs: seq<Candidate>, a: Candidate)
    requires a in xs
    ensures var all := Kept(xs, PostingOf(p, a));
            forall g :: g in (if Described(p, a) then MembersOf(Clusters(p, all)) else [all]) ==> g in AllGroups(p, xs)
  {
    var k, all := IdentityKey(p, a), Kept(xs, PostingOf(p, a));
    KeyTells(p, a, a);
    MembersArePosting(p, xs, a);
    KeysAre(xs, KeyBy(p));
    assert KeyBy(p)(a) == k;
    KeyHasMembers(xs, KeyBy(p), k);
    var groups := if Described(p, a) then MembersOf(Clusters(p, all)) else [all];
    assert groups == Groups(p, k, all) by {
      if |all| == 1 {
        OneCluster(p, all);
      }
    }
    forall g | g in groups ensures g in AllGroups(p, xs) {
      LayHas(Keys(xs, KeyBy(p)), GroupsOf(p, xs), k, g);
    }
  }

  lemma OneCluster(p: Policy, xs: seq<Candidate>)
    requires |xs| == 1
    ensures MembersOf(Clusters(p, xs)) == [xs]
  {
    assert Init(xs) == [] && Clusters(p, Init(xs)) == [];
    assert xs == [Last(xs)] && PlaceIn(p, [], Last(xs)) == [Cluster({TitleOf(p, Last(xs))}, xs)];
  }

  // ---------------------------------------------------------------- clusters

  predicate OccursAt(t: string, u: string, i: nat) {
    i + |t| <= |u| && u[i..i + |t|] == t
  }

  ghost predicate OccursIn(t: string, u: string) {
    exists i: nat :: OccursAt(t, u, i)
  }

  /** Occurring at a later position is occurring in the rest. */
  lemma OccursLater(t: string, u: string, i: nat)
    requires u != ""
    ensures OccursAt(t, u, i + 1) <==> OccursAt(t, u[1..], i)
  {
    if i + 1 + |t| <= |u| {
      assert u[i + 1..i + 1 + |t|] == u[1..][i..i + |t|];
    }
  }

  lemma OccursFirst(t: string, u: string)
    ensures OccursAt(t, u, 0) <==> t <= u
  {
    assert |t| <= |u| ==> u[0..0 + |t|] == u[..|t|];
  }

  lemma {:induction false} WithinOccurs(t: string, u: string)
    ensures Within(t, u) <==> OccursIn(t, u)
    decreases |u|
  {
    OccursFirst(t, u);
    if u != "" {
      WithinOccurs(t, u[1..]);
      if i: nat :| OccursAt(t, u[1..], i) {
        OccursLater(t, u, i);
      }
      if i: nat :| OccursAt(t, u, i) {
        if i > 0 {
          OccursLater(t, u, i - 1);
        }
      }
    }
  }

  /** Both have a title, and the normal form of one occurs in that of the other. */
  ghost predicate TitlesOverlap(p: Policy, a: Candidate, b: Candidate) {
    && a.title != "" && b.title != "" && p.title(a.title) != "" && p.title(b.title) != ""
    && (OccursIn(p.title(a.title), p.title(b.title)) || OccursIn(p.title(b.title), p.title(a.title)))
  }

  /** A candidate joins a cluster when its title overlaps with that of a member, and when its URL, if
      it has one, is that of a member, unless no member has one. */
  ghost predicate Joins(p: Policy, group: seq<Candidate>, m: Candidate) {
    && (exists c :: c in group && TitlesOverlap(p, c, m))
    && (Written(p, m.applyUrl) && (exists c :: c in group && Written(p, c.applyUrl))
        ==> exists c :: c in group && SameTrim(p, c.applyUrl, m.applyUrl))
  }

  ghost predicate TitlesAreMembers(p: Policy, c: Cluster) {
    c.titles == set m | m in c.members :: TitleOf(p, m)
  }

  lemma {:induction false} AllTitlesAreMembers(p: Policy, xs: seq<Candidate>)
    ensures forall i :: 0 <= i < |Clusters(p, xs)| ==> TitlesAreMembers(p, Clusters(p, xs)[i])
  {
    if xs == [] {
    } else {
      AllTitlesAreMembers(p, Init(xs));
    }
  }

  lemma TitlesMatchIs(p: Policy, a: Candidate, b: Candidate)
    ensures TitlesMatch(TitleOf(p, b), TitleOf(p, a)) <==> TitlesOverlap(p, a, b)
  {
    WithinOccurs(TitleOf(p, a), TitleOf(p, b));
    WithinOccurs(TitleOf(p, b), TitleOf(p, a));
  }

  lemma FitsIs(p: Policy, c: Cluster, m: Candidate)
    requires TitlesAreMembers(p, c)
    ensures Fits(p, m, c) <==> Joins(p, c.members, m)
  {
    StripIsWritten(p, m.applyUrl);
    forall a | a in c.members
      ensures TitlesMatch(TitleOf(p, m), TitleOf(p, a)) <==> TitlesOverlap(p, a, m)
      ensures Route(p, a) == Route(p, m) <==> SameTrim(p, a.applyUrl, m.applyUrl)
      ensures Route(p, a) != "" <==> Written(p, a.applyUrl)
    {
      TitlesMatchIs(p, a, m);
      SameTrimIs(p, a.applyUrl, m.applyUrl);
      StripIsWritten(p, a.applyUrl);
    }
    if a :| a in c.members && Written(p, a.applyUrl) {
      assert Route(p, a) in Routes(p, c.members);
    }
  }

  /** Clustering one more candidate: it is appended to the first cluster it joins, and opens a new
      one at the end when it joins none. */
  lemma ClusteredInFirst(p: Policy, front: seq<Candidate>, m: Candidate) returns (i: nat)
    ensures var was, now := MembersOf(Clusters(p, front)), MembersOf(Clusters(p, front + [m]));
            && i <= |was| && (forall j :: 0 <= j < i ==> !Joins(p, was[j], m))
            && if i < |was| then Joins(p, was[i], m) && now == was[i := was[i] + [m]] else now == was + [[m]]
  {
    var cs := Clusters(p, front);
    i := FirstFit(p, cs, m);
    ClustersGrow(p, front, m);
    AllTitlesAreMembers(p, front);
    forall j | 0 <= j < |cs| ensures Fits(p, m, cs[j]) <==> Joins(p, cs[j].members, m) {
      FitsIs(p, cs[j], m);
    }
  }

  // ---------------------------------------------------------------- two candidates

  /** Pass 1 makes one candidate of two exactly when they are one posting and, if they have a body,
      their titles overlap and their URLs do not differ. */
  lemma PairMergesIff(p: Policy, a: Candidate, b: Candidate)
    ensures |Pass1(p, [a, b])| == 1 <==>
            && OnePosting(p, a, b)
            && (Described(p, a) ==>
                  && TitlesOverlap(p, a, b)
                  && (Written(p, a.applyUrl) && Written(p, b.applyUrl) ==> SameTrim(p, a.applyUrl, b.applyUrl)))
  {
    KeyTells(p, a, b);
    TitlesMatchIs(p, a, b);
    SameTrimIs(p, a.applyUrl, b.applyUrl);
    StripIsWritten(p, a.applyUrl);
    StripIsWritten(p, b.applyUrl);
    PairIsContiguous(p, a, b);
    Pass1OnContiguous(p, [a, b]);
    NoneMergeablePair(p, a, b);
    Pass1NotEmpty(p, [a, b]);
  }

  lemma PairIsContiguous(p: Policy, a: Candidate, b: Candidate)
    ensures Contiguous([a, b], KeyBy(p))
  {}

  lemma NoneMergeablePair(p: Policy, a: Candidate, b: Candidate)
    ensures NoneMergeable(p, [a, b]) <==> (IdentityKey(p, a) == IdentityKey(p, b) ==> Unmergeable(p, a, b))
  {
    var xs, key, r := [a, b], KeyBy(p), UnmergeableBy(p);
    assert key(xs[0]) == IdentityKey(p, a) && key(xs[1]) == IdentityKey(p, b);
    assert r(xs[0], xs[1]) == Unmergeable(p, a, b);
  }

  lemma Pass1NotEmpty(p: Policy, xs: seq<Candidate>)
    requires xs != []
    ensures Pass1(p, xs) != []
  {
    Pass1Partitions(p, xs);
    assert xs[0] in multiset(xs);
  }

  // ---------------------------------------------------------------- evidence references

  predicate SameSource(r: Ref, t: Ref) {
    r.url == t.url && r.contentHash == t.contentHash && r.evidenceType == t.evidenceType
  }

  ghost predicate Cites(xs: seq<Candidate>, r: Ref) {
    exists c, t :: c in xs && t in c.refs && SameSource(t, r)
  }

  lemma CitesIs(xs: seq<Candidate>, r: Ref)
    ensures Cites(xs, r) <==> RefKey(r) in RefKeys(xs)
  {
    if c, t :| c in xs && t in c.refs && RefKey(t) == RefKey(r) {
      assert SameSource(t, r);
    }
    if c, t :| c in xs && t in c.refs && SameSource(t, r) {
      assert RefKey(t) in RefKeys(xs);
    }
  }

  /** Pass 1 keeps a reference to every cited source, by URL, content hash and type, and cites no
      other. */
  lemma SourcesStay(p: Policy, xs: seq<Candidate>, r: Ref)
    ensures Cites(Pass1(p, xs), r) <==> Cites(xs, r)
  {
    Pass1KeepsRefs(p, xs);
    CitesIs(xs, r);
    CitesIs(Pass1(p, xs), r);
  }

  /** No two references of a merged candidate are to one source. */
  lemma SourcesOnce(members: seq<Candidate>, i: nat, j: nat)
    requires |members| > 1 && i < j < |MergeAll(members).refs|
    ensures !SameSource(MergeAll(members).refs[i], MergeAll(members).refs[j])
  {
    MergeAllRefs(members);
    FirstByKeyKeys(AllRefs(members), RefKey);
  }

  // ---------------------------------------------------------------- clearing shared URLs

  /** Two candidates with the URL have different, non-empty normal titles. */
  ghost predicate Contested(p: Policy, xs: seq<Candidate>, url: string) {
    exists a, b :: a in xs && b in xs && SameTrim(p, a.applyUrl, url) && SameTrim(p, b.applyUrl, url)
                   && a.title != "" && b.title != "" && p.title(a.title) != "" && p.title(b.title) != ""
                   && p.title(a.title) != p.title(b.title)
  }

  lemma SharedIsContested(p: Policy, xs: seq<Candidate>, c: Candidate)
    ensures SharedRoute(p, xs, Route(p, c)) <==> Written(p, c.applyUrl) && Contested(p, xs, c.applyUrl)
  {
    StripIsWritten(p, c.applyUrl);
    forall a: Candidate ensures SameTrim(p, a.applyUrl, c.applyUrl) <==> Route(p, a) == Route(p, c) {
      SameTrimIs(p, a.applyUrl, c.applyUrl);
    }
  }

  /** Clearing leaves a candidate alone unless its URL is contested; then it empties the URL and adds
      one warning if it is missing, and nothing else changes. */
  lemma ClearsContested(p: Policy, xs: seq<Candidate>, i: nat)
    requires i < |xs|
    ensures |ClearShared(p, xs)| == |xs|
    ensures var c, d := xs[i], ClearShared(p, xs)[i];
            if !Written(p, c.applyUrl) || !Contested(p, xs, c.applyUrl) then d == c
            else
              && d.applyUrl == ""
              && (if "SHARED_LISTING_URL_CLEARED" in c.warnings then d.warnings == c.warnings
                  else d.warnings == c.warnings + ["SHARED_LISTING_URL_CLEARED"])
              && (forall f: TextField :: f != ApplyUrl ==> TextOf(d, f) == TextOf(c, f))
              && (forall f: ListField :: f != Warnings ==> ListOf(d, f) == ListOf(c, f))
              && d.title == c.title && d.refs == c.refs
  {
    SharedIsContested(p, xs, xs[i]);
  }

  // ---------------------------------------------------------------- pass 2

  /** Pass 2 drops a candidate exactly when it has no body and its title, if it has one, is the title
      of a candidate with a body. */
  lemma EchoesAreDropped(p: Policy, xs: seq<Candidate>, c: Candidate)
    requires c in xs
    ensures c !in Pass2(p, xs) <==>
            && !Described(p, c) && c.title != "" && p.title(c.title) != ""
            && exists d :: d in xs && Described(p, d) && SameNormal(p.title, d.title, c.title)
  {
    Pass2KeepsIff(p, xs, c);
    DescribedIs(p, c);
    forall d: Candidate ensures HasBody(p, d) <==> Described(p, d) {
      DescribedIs(p, d);
    }
  }
}
