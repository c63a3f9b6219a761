/** What merging and clustering keep: the identity key of the members, at most one route per
    cluster, and every member exactly once. */
module DeduplicateLaws {
  import opened Common
  import opened Grouping
  import opened Deduplicate

  // ---------------------------------------------------------------- merging keeps the identity

  lemma PlacesOfMerged(p: Policy, a: seq<string>, b: seq<string>)
    requires PlaceSet(p, a) == PlaceSet(p, b)
    ensures PlaceSet(p, FirstByKey(a + b, TextKey)) == PlaceSet(p, a)
  {
    var m := FirstByKey(a + b, TextKey);
    FirstByKeyKeys(a + b, TextKey);
    forall l | l in a + b ensures l in m {
      var i :| 0 <= i < |a + b| && (a + b)[i] == l;
      assert TextKey((a + b)[i]) in KeySet(m, TextKey);
    }
    forall part | part in PlaceSet(p, a) ensures part in PlaceSet(p, m) {
      var l :| l in a && part in p.places(l);
      assert l in a + b;
    }
  }

  lemma FirstSurvives<T, K>(items: seq<T>, key: T -> K)
    requires items != []
    ensures FirstByKey(items, key) != [] && FirstByKey(items, key)[0] == items[0]
  {
    if |items| == 1 {
      assert Init(items) == [];
    } else {
      FirstSurvives(Init(items), key);
    }
  }

  lemma RecruitOfMerged(p: Policy, dst: Candidate, src: Candidate)
    requires Recruit(p, dst) == Recruit(p, src)
    ensures Recruit(p, Merge(dst, src)) == Recruit(p, dst)
  {
    var both := dst.recruitment + src.recruitment;
    if both != [] {
      FirstSurvives(both, TextKey);
    }
  }

  lemma MergeKeepsKey(p: Policy, dst: Candidate, src: Candidate)
    requires IdentityKey(p, dst) == IdentityKey(p, src)
    ensures IdentityKey(p, Merge(dst, src)) == IdentityKey(p, dst)
  {
    PlacesOfMerged(p, dst.locations, src.locations);
    RecruitOfMerged(p, dst, src);
  }

  /** A merged candidate keeps the key all its members share, and its first member's title. */
  lemma {:induction false} MergeAllKeepsKey(p: Policy, k: Key, members: seq<Candidate>)
    requires members != [] && AllKeyed(members, KeyBy(p), k)
    ensures IdentityKey(p, MergeAll(members)) == k
    ensures MergeAll(members).title == members[0].title
  {
    assert forall c :: c in members ==> KeyBy(p)(c) == IdentityKey(p, c);
    if |members| == 1 {
    } else {
      MergeAllKeepsKey(p, k, Init(members));
      assert Last(members) in members && KeyBy(p)(Last(members)) == k;
      MergeKeepsKey(p, MergeAll(Init(members)), Last(members));
    }
  }

  // ---------------------------------------------------------------- clusters

  function Flat(groups: seq<seq<Candidate>>): multiset<Candidate> {
    if groups == [] then multiset{} else Flat(Init(groups)) + multiset(Last(groups))
  }

  function MembersOf(cs: seq<Cluster>): seq<seq<Candidate>> {
    seq(|cs|, i requires 0 <= i < |cs| => cs[i].members)
  }

  lemma {:induction false} FlatUpdate(groups: seq<seq<Candidate>>, i: nat, m: Candidate)
    requires i < |groups|
    ensures Flat(groups[i := groups[i] + [m]]) == Flat(groups) + multiset{m}
  {
    var after := groups[i := groups[i] + [m]];
    if i == |groups| - 1 {
      assert Init(after) == Init(groups);
    } else {
      FlatUpdate(Init(groups), i, m);
      assert Init(after) == Init(groups)[i := Init(groups)[i] + [m]];
    }
  }

  lemma PlacedOnce(p: Policy, cs: seq<Cluster>, m: Candidate)
    ensures Flat(MembersOf(PlaceIn(p, cs, m))) == Flat(MembersOf(cs)) + multiset{m}
  {
    var i, groups, placed := FirstFit(p, cs, m), MembersOf(cs), MembersOf(PlaceIn(p, cs, m));
    if i < |cs| {
      FlatUpdate(groups, i, m);
      assert placed == groups[i := groups[i] + [m]];
    } else {
      assert placed == groups + [[m]];
      assert Init(placed) == groups && Last(placed) == [m];
    }
  }

  lemma ClustersGrow(p: Policy, before: seq<Candidate>, m: Candidate)
    ensures Clusters(p, before + [m]) == PlaceIn(p, Clusters(p, before), m)
  {
    assert Init(before + [m]) == before;
  }

  /** The clusters partition the group: every member is in exactly one cluster, once. */
  lemma {:induction false} ClustersPartition(p: Policy, members: seq<Candidate>)
    ensures Flat(MembersOf(Clusters(p, members))) == multiset(members)
  {
    if members == [] {
      assert MembersOf(Clusters(p, members)) == [];
    } else {
      var before, m := Init(members), Last(members);
      assert members == before + [m];
      ClustersPartition(p, before);
      ClustersGrow(p, before, m);
      PlacedOnce(p, Clusters(p, before), m);
    }
  }

  /** What one cluster keeps: it has members, holds its first title, and its members carry at
      most one route between them. */
  ghost predicate Sound(p: Policy, c: Cluster) {
    && c.members != []
    && TitleOf(p, c.members[0]) in c.titles
    && forall a, b :: a in c.members && b in c.members && Route(p, a) != "" && Route(p, b) != ""
                      ==> Route(p, a) == Route(p, b)
  }

  /** Why the later cluster `d` was opened although `c` existed: the first titles do not match,
      or `c` already carries a route and `d` opened with another one. */
  ghost predicate Parted(p: Policy, c: Cluster, d: Cluster) {
    && c.members != [] && d.members != []
    && ( || !TitlesMatch(TitleOf(p, d.members[0]), TitleOf(p, c.members[0]))
         || (Route(p, d.members[0]) != ""
             && exists m :: m in c.members && Route(p, m) != "" && Route(p, m) != Route(p, d.members[0])))
  }

  lemma JoinedSound(p: Policy, c: Cluster, m: Candidate)
    requires Sound(p, c) && Fits(p, m, c)
    ensures Sound(p, Joined(p, c, m))
  {
    if Routes(p, c.members) != {} && Route(p, m) != "" {
      var r :| r in Routes(p, c.members) && r == Route(p, m);
    }
    forall a | a in c.members && Route(p, a) != "" && Route(p, m) != ""
      ensures Route(p, a) == Route(p, m)
    {
      assert Route(p, a) in Routes(p, c.members);
    }
  }

  lemma UnfitParted(p: Policy, c: Cluster, m: Candidate)
    requires Sound(p, c) && !Fits(p, m, c)
    ensures Parted(p, c, Cluster({TitleOf(p, m)}, [m]))
  {
    if TitlesMatch(TitleOf(p, m), TitleOf(p, c.members[0])) {
      assert !RoutesCompatible(p, Routes(p, c.members), Route(p, m));
      var r :| r in Routes(p, c.members);
      assert r != Route(p, m);
    }
  }

  ghost predicate AllSound(p: Policy, cs: seq<Cluster>) {
    && (forall i :: 0 <= i < |cs| ==> Sound(p, cs[i]))
    && (forall i, j :: 0 <= i < j < |cs| ==> Parted(p, cs[i], cs[j]))
  }

  /** The invariant of the clustering loop. */
  lemma {:induction false} ClustersSound(p: Policy, members: seq<Candidate>)
    ensures AllSound(p, Clusters(p, members))
  {
    if members == [] {
    } else {
      var cs, m := Clusters(p, Init(members)), Last(members);
      ClustersSound(p, Init(members));
      PlaceSound(p, cs, m);
    }
  }

  lemma PlaceSound(p: Policy, cs: seq<Cluster>, m: Candidate)
    requires AllSound(p, cs)
    ensures AllSound(p, PlaceIn(p, cs, m))
  {
    var i := FirstFit(p, cs, m);
    var after := PlaceIn(p, cs, m);
    if i < |cs| {
      JoinedSound(p, cs[i], m);
      forall a, b | 0 <= a < b < |after| ensures Parted(p, after[a], after[b]) {
        assert Parted(p, cs[a], cs[b]);
        assert forall x :: x in cs[a].members ==> x in after[a].members;
        assert after[b].members[0] == cs[b].members[0];
      }
    } else {
      forall a | 0 <= a < |cs| ensures Parted(p, after[a], after[|cs|]) {
        UnfitParted(p, cs[a], m);
      }
    }
  }

  // ---------------------------------------------------------------- when nothing merges

  /** No route is a non-empty string of whitespace. */
  ghost predicate NoBlankRoutes(p: Policy, xs: seq<Candidate>) {
    forall c :: c in xs && c.applyUrl != "" ==> Route(p, c) != ""
  }

  /** Two full candidates of one key that clustering keeps apart. */
  predicate Apart(p: Policy, a: Candidate, b: Candidate) {
    || !TitlesMatch(TitleOf(p, b), TitleOf(p, a))
    || (Route(p, a) != "" && Route(p, b) != "" && Route(p, a) != Route(p, b))
  }

  ghost predicate PairwiseApart(p: Policy, xs: seq<Candidate>) {
    forall i, j :: 0 <= i < j < |xs| ==> Apart(p, xs[i], xs[j])
  }

  function Alone(p: Policy, c: Candidate): Cluster {
    Cluster({TitleOf(p, c)}, [c])
  }

  lemma FitsAlone(p: Policy, a: Candidate, m: Candidate)
    ensures Fits(p, m, Alone(p, a)) <==> !Apart(p, a, m)
  {
    assert Routes(p, [a]) == if Route(p, a) == "" then {} else {Route(p, a)} by {
      assert a in [a];
    }
  }

  /** Every member of `xs` stands in a cluster of its own, in order. */
  ghost predicate AreSingles(p: Policy, cs: seq<Cluster>, xs: seq<Candidate>) {
    |cs| == |xs| && forall i :: 0 <= i < |xs| ==> cs[i] == Alone(p, xs[i])
  }

  lemma {:induction false} ClustersAtMost(p: Policy, xs: seq<Candidate>)
    ensures |Clusters(p, xs)| <= |xs|
  {
    if xs == [] {
    } else {
      ClustersAtMost(p, Init(xs));
    }
  }

  /** One step: a candidate placed among singles stays alone exactly when it is apart from all. */
  lemma PlaceAmongSingles(p: Policy, cs: seq<Cluster>, xs: seq<Candidate>, m: Candidate)
    requires AreSingles(p, cs, xs)
    ensures |PlaceIn(p, cs, m)| == |xs| + 1 <==> forall i :: 0 <= i < |xs| ==> Apart(p, xs[i], m)
    ensures |PlaceIn(p, cs, m)| == |xs| + 1 ==> AreSingles(p, PlaceIn(p, cs, m), xs + [m])
  {
    forall i | 0 <= i < |xs| ensures Fits(p, m, cs[i]) <==> !Apart(p, xs[i], m) {
      FitsAlone(p, xs[i], m);
    }
  }

  lemma ApartByLast(p: Policy, xs: seq<Candidate>)
    requires xs != []
    ensures PairwiseApart(p, xs) <==>
            PairwiseApart(p, Init(xs)) && forall i :: 0 <= i < |xs| - 1 ==> Apart(p, Init(xs)[i], Last(xs))
  {
    if PairwiseApart(p, xs) {
      forall i, j | 0 <= i < j < |xs| - 1 ensures Apart(p, Init(xs)[i], Init(xs)[j]) {
        assert Apart(p, xs[i], xs[j]);
      }
      forall i | 0 <= i < |xs| - 1 ensures Apart(p, Init(xs)[i], Last(xs)) {
        assert Apart(p, xs[i], xs[|xs| - 1]);
      }
    }
    if PairwiseApart(p, Init(xs)) && forall i :: 0 <= i < |xs| - 1 ==> Apart(p, Init(xs)[i], Last(xs)) {
      forall i, j | 0 <= i < j < |xs| ensures Apart(p, xs[i], xs[j]) {
        assert Apart(p, Init(xs)[i], if j < |xs| - 1 then Init(xs)[j] else Last(xs));
      }
    }
  }

  /** Placing one more candidate, given what clustering made of those before it. */
  lemma SinglesNext(p: Policy, front: seq<Candidate>, m: Candidate)
    requires |Clusters(p, front)| <= |front|
    requires |Clusters(p, front)| == |front| ==> AreSingles(p, Clusters(p, front), front)
    ensures |Clusters(p, front + [m])| == |front| + 1 <==>
            |Clusters(p, front)| == |front| && forall i :: 0 <= i < |front| ==> Apart(p, front[i], m)
    ensures |Clusters(p, front + [m])| == |front| + 1 ==> AreSingles(p, Clusters(p, front + [m]), front + [m])
  {
    ClustersGrow(p, front, m);
    if |Clusters(p, front)| == |front| {
      PlaceAmongSingles(p, Clusters(p, front), front, m);
    }
  }

  /** Clustering leaves every member alone exactly when the members are pairwise apart. */
  lemma {:induction false} ApartIffSingles(p: Policy, xs: seq<Candidate>)
    ensures PairwiseApart(p, xs) <==> |Clusters(p, xs)| == |xs|
    ensures PairwiseApart(p, xs) ==> AreSingles(p, Clusters(p, xs), xs)
  {
    if xs == [] {
    } else {
      var front, m := Init(xs), Last(xs);
      assert xs == front + [m];
      ClustersAtMost(p, front);
      ApartIffSingles(p, front);
      SinglesNext(p, front, m);
      ApartByLast(p, xs);
    }
  }
}
