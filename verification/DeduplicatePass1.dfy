/** Pass 1 of deduplication as a whole: which lists it leaves alone, that its own output is one
    of them, and that it loses nothing. */
module DeduplicatePass1 {
  import opened Common
  import opened Grouping
  import opened Deduplicate
  import opened DeduplicateLaws
  import opened DeduplicateMerge

  // ---------------------------------------------------------------- one key group

  /** A group that clustering and merging leave as it is. */
  ghost predicate SettledGroup(p: Policy, k: Key, xs: seq<Candidate>) {
    |xs| <= 1 || (k.JdKey? && PairwiseApart(p, xs))
  }

  lemma GroupFixedIff(p: Policy, k: Key, xs: seq<Candidate>)
    ensures |Output(p, k, xs)| <= |xs|
    ensures SettledGroup(p, k, xs) ==> Output(p, k, xs) == xs
    ensures |Output(p, k, xs)| == |xs| ==> SettledGroup(p, k, xs)
  {
    ApartIffSingles(p, xs);
    ClustersAtMost(p, xs);
  }

  /** The route that a merged cluster ends up with. */
  function MergedRoute(p: Policy, members: seq<Candidate>): string {
    Strip(p, FirstUrl(members))
  }

  /** Two clusters whose first titles match, the earlier of which ends up without a route. */
  ghost predicate Rejoin(p: Policy, c: seq<Candidate>, d: seq<Candidate>)
    requires c != [] && d != []
  {
    TitlesMatch(TitleOf(p, d[0]), TitleOf(p, c[0])) && MergedRoute(p, c) == ""
  }

  /** Clusters that were kept apart yield merged candidates that stay apart, unless the first
      non-empty apply URL of the earlier one is blank. */
  lemma PartedOutputsApart(p: Policy, c: Cluster, d: Cluster)
    requires Sound(p, c) && Sound(p, d) && Parted(p, c, d)
    ensures Apart(p, MergeAll(c.members), MergeAll(d.members)) <==> !Rejoin(p, c.members, d.members)
  {
    MergedCluster(p, c);
    MergedCluster(p, d);
    var d0 := d.members[0];
    if TitlesMatch(TitleOf(p, d0), TitleOf(p, c.members[0])) {
      var m :| m in c.members && Route(p, m) != "" && Route(p, m) != Route(p, d0);
      assert d0 in d.members && MergedRoute(p, d.members) == Route(p, d0);
      assert MergedRoute(p, c.members) in ["", Route(p, m)];
    }
  }

  /** A sound cluster is merged into a candidate with its first title, and with the route of its
      members or none. */
  lemma MergedCluster(p: Policy, c: Cluster)
    requires Sound(p, c)
    ensures Route(p, MergeAll(c.members)) == MergedRoute(p, c.members)
    ensures TitleOf(p, MergeAll(c.members)) == TitleOf(p, c.members[0])
    ensures forall m :: m in c.members && Route(p, m) != "" ==> MergedRoute(p, c.members) in ["", Route(p, m)]
    ensures Route(p, c.members[0]) != "" ==> MergedRoute(p, c.members) == Route(p, c.members[0])
  {
    MergedUrl(c.members);
    FirstUrlIs(c.members);
    MergeAllTexts(c.members, ApplyUrl);
    if FirstUrl(c.members) != "" {
      var n :| n in c.members && n.applyUrl == FirstUrl(c.members);
      assert Route(p, n) == MergedRoute(p, c.members);
    }
  }

  lemma ClusterMembersWithin(p: Policy, members: seq<Candidate>, i: nat)
    requires i < |Clusters(p, members)|
    ensures forall c :: c in Clusters(p, members)[i].members ==> c in members
  {
    ClustersPartition(p, members);
    FlatCovers(MembersOf(Clusters(p, members)), i);
    forall c | c in Clusters(p, members)[i].members ensures c in members {
      assert c in multiset(MembersOf(Clusters(p, members))[i]);
      assert c in multiset(members);
    }
  }

  lemma FlatCovers(groups: seq<seq<Candidate>>, i: nat)
    requires i < |groups|
    ensures multiset(groups[i]) <= Flat(groups)
  {
    if i == |groups| - 1 {
    } else {
      FlatCovers(Init(groups), i);
    }
  }

  /** No two clusters of a group rejoin once they are merged. */
  ghost predicate StaysSplit(p: Policy, xs: seq<Candidate>) {
    var cs := Clusters(p, xs);
    forall i, j {:trigger cs[i], cs[j]} :: 0 <= i < j < |cs| && cs[i].members != [] && cs[j].members != []
      ==> !Rejoin(p, cs[i].members, cs[j].members)
  }

  /** The outputs of one group exist and keep its key. */
  lemma OutputKeyed(p: Policy, k: Key, xs: seq<Candidate>)
    requires xs != [] && AllKeyed(xs, KeyBy(p), k)
    ensures Output(p, k, xs) != [] && AllKeyed(Output(p, k, xs), KeyBy(p), k)
  {
    ClustersNonEmpty(p, xs);
    var cs, out := Clusters(p, xs), Output(p, k, xs);
    if k.JdKey? && |xs| > 1 {
      forall i | 0 <= i < |cs| ensures IdentityKey(p, out[i]) == k {
        ClusterMembersWithin(p, xs, i);
        MergeAllKeepsKey(p, k, cs[i].members);
      }
    } else {
      MergeAllKeepsKey(p, k, xs);
    }
  }

  /** The outputs of one group form a settled group exactly when none of its clusters rejoin. */
  lemma OutputSettledIff(p: Policy, k: Key, xs: seq<Candidate>)
    requires xs != []
    ensures SettledGroup(p, k, Output(p, k, xs)) <==> (k.JdKey? && |xs| > 1 ==> StaysSplit(p, xs))
  {
    if k.JdKey? && |xs| > 1 {
      ClustersNonEmpty(p, xs);
      ClustersSound(p, xs);
      var cs, out := Clusters(p, xs), Output(p, k, xs);
      forall i, j | 0 <= i < j < |out|
        ensures Apart(p, out[i], out[j]) <==> !Rejoin(p, cs[i].members, cs[j].members)
      {
        PartedOutputsApart(p, cs[i], cs[j]);
      }
      if SettledGroup(p, k, out) {
        forall i, j | 0 <= i < j < |cs| ensures !Rejoin(p, cs[i].members, cs[j].members) {
          assert Apart(p, out[i], out[j]);
        }
      }
    }
  }

  // ---------------------------------------------------------------- which lists pass 1 leaves alone

  /** Two candidates of one key that pass 1 does not merge. */
  predicate Unmergeable(p: Policy, a: Candidate, b: Candidate) {
    IdentityKey(p, a).JdKey? && Apart(p, a, b)
  }

  function UnmergeableBy(p: Policy): (Candidate, Candidate) -> bool {
    (a, b) => Unmergeable(p, a, b)
  }

  /** Every two candidates of one key are full ones that clustering keeps apart. */
  ghost predicate NoneMergeable(p: Policy, xs: seq<Candidate>) {
    PairwiseByKey(xs, KeyBy(p), UnmergeableBy(p))
  }

  lemma SettledByPairs(p: Policy, k: Key, xs: seq<Candidate>)
    requires AllKeyed(xs, KeyBy(p), k)
    ensures SettledGroup(p, k, xs) <==> Pairwise(xs, UnmergeableBy(p))
  {
    forall i | 0 <= i < |xs| ensures IdentityKey(p, xs[i]) == k {
      assert KeyBy(p)(xs[i]) == k;
    }
    if Pairwise(xs, UnmergeableBy(p)) {
      if |xs| > 1 {
        assert UnmergeableBy(p)(xs[0], xs[1]);
      }
      forall i, j | 0 <= i < j < |xs| ensures Apart(p, xs[i], xs[j]) {
        assert UnmergeableBy(p)(xs[i], xs[j]);
      }
    }
  }

  lemma NoneMergeableByKey(p: Policy, xs: seq<Candidate>)
    ensures NoneMergeable(p, xs) <==>
            forall k :: k in Keys(xs, KeyBy(p)) ==> SettledGroup(p, k, MembersIn(xs, KeyBy(p))(k))
  {
    PairwiseByGroups(xs, KeyBy(p), UnmergeableBy(p));
    forall k
      ensures PairwiseInKey(xs, KeyBy(p), UnmergeableBy(p), k) <==> SettledGroup(p, k, MembersIn(xs, KeyBy(p))(k))
    {
      MembersAre(xs, KeyBy(p), k);
      SettledByPairs(p, k, Members(xs, KeyBy(p), k));
    }
  }

  /** Grouping the output of pass 1 finds the same keys, each with its own merged candidates. */
  lemma Pass1Groups(p: Policy, xs: seq<Candidate>)
    ensures Keys(Pass1(p, xs), KeyBy(p)) == Keys(xs, KeyBy(p)) && Contiguous(Pass1(p, xs), KeyBy(p))
    ensures forall k :: k in Keys(xs, KeyBy(p)) ==> MembersIn(Pass1(p, xs), KeyBy(p))(k) == OutputOf(p, xs)(k)
  {
    KeysAre(xs, KeyBy(p));
    forall k | k in Keys(xs, KeyBy(p)) ensures OutputOf(p, xs)(k) != [] && AllKeyed(OutputOf(p, xs)(k), KeyBy(p), k) {
      GroupOfKey(xs, KeyBy(p), k);
      OutputKeyed(p, k, Members(xs, KeyBy(p), k));
    }
    GroupsOfLaid(Keys(xs, KeyBy(p)), OutputOf(p, xs), KeyBy(p));
  }

  lemma {:induction false} LayShorter(ks: seq<Key>, f: Key -> seq<Candidate>, g: Key -> seq<Candidate>)
    requires forall k :: k in ks ==> |f(k)| <= |g(k)|
    ensures |Lay(ks, f)| <= |Lay(ks, g)|
    ensures |Lay(ks, f)| == |Lay(ks, g)| ==> forall k :: k in ks ==> |f(k)| == |g(k)|
  {
    if ks == [] {
    } else {
      assert ks == Init(ks) + [Last(ks)];
      assert Last(ks) in ks;
      LayShorter(Init(ks), f, g);
    }
  }

  /** On a list whose keys stand together, pass 1 shortens it unless nothing is mergeable. */
  lemma Pass1OnContiguous(p: Policy, xs: seq<Candidate>)
    requires Contiguous(xs, KeyBy(p))
    ensures |Pass1(p, xs)| <= |xs|
    ensures NoneMergeable(p, xs) ==> Pass1(p, xs) == xs
    ensures |Pass1(p, xs)| == |xs| ==> NoneMergeable(p, xs)
  {
    ContiguousIsLaid(xs, KeyBy(p));
    NoneMergeableByKey(p, xs);
    forall k ensures |Output(p, k, Members(xs, KeyBy(p), k))| <= |Members(xs, KeyBy(p), k)| {
      GroupFixedIff(p, k, Members(xs, KeyBy(p), k));
    }
    LayShorter(Keys(xs, KeyBy(p)), OutputOf(p, xs), MembersIn(xs, KeyBy(p)));
    forall k | k in Keys(xs, KeyBy(p))
      ensures SettledGroup(p, k, Members(xs, KeyBy(p), k)) ==> OutputOf(p, xs)(k) == MembersIn(xs, KeyBy(p))(k)
      ensures |OutputOf(p, xs)(k)| == |MembersIn(xs, KeyBy(p))(k)| ==> SettledGroup(p, k, Members(xs, KeyBy(p), k))
    {
      GroupFixedIff(p, k, Members(xs, KeyBy(p), k));
    }
    if NoneMergeable(p, xs) {
      LaySame(Keys(xs, KeyBy(p)), OutputOf(p, xs), MembersIn(xs, KeyBy(p)));
    }
  }

  /** Pass 1 leaves a list unchanged exactly when equal keys stand together and no two
      candidates of one key can merge. */
  lemma Pass1FixedIff(p: Policy, xs: seq<Candidate>)
    ensures Pass1(p, xs) == xs <==> Contiguous(xs, KeyBy(p)) && NoneMergeable(p, xs)
  {
    Pass1Groups(p, xs);
    if Contiguous(xs, KeyBy(p)) {
      Pass1OnContiguous(p, xs);
    }
  }

  /** No full key of the list has two clusters that rejoin once they are merged. */
  ghost predicate NoneRejoins(p: Policy, xs: seq<Candidate>) {
    forall k :: k in Keys(xs, KeyBy(p)) && k.JdKey? && |MembersIn(xs, KeyBy(p))(k)| > 1
      ==> StaysSplit(p, MembersIn(xs, KeyBy(p))(k))
  }

  /** Pass 1 is idempotent exactly on the inputs of which no full key with several members has two
      clusters whose first titles match while the first non-empty apply URL of the earlier one is
      blank. */
  lemma Pass1IdempotentIff(p: Policy, xs: seq<Candidate>)
    ensures Pass1(p, Pass1(p, xs)) == Pass1(p, xs) <==> NoneRejoins(p, xs)
  {
    var ys := Pass1(p, xs);
    Pass1Groups(p, xs);
    forall k | k in Keys(xs, KeyBy(p))
      ensures SettledGroup(p, k, MembersIn(ys, KeyBy(p))(k)) <==>
              (k.JdKey? && |MembersIn(xs, KeyBy(p))(k)| > 1 ==> StaysSplit(p, MembersIn(xs, KeyBy(p))(k)))
    {
      GroupOfKey(xs, KeyBy(p), k);
      OutputSettledIff(p, k, Members(xs, KeyBy(p), k));
    }
    NoneMergeableByKey(p, ys);
    Pass1FixedIff(p, ys);
  }

  lemma NoBlankStaysSplit(p: Policy, xs: seq<Candidate>)
    requires NoBlankRoutes(p, xs)
    ensures StaysSplit(p, xs)
  {
    var cs := Clusters(p, xs);
    ClustersSound(p, xs);
    forall i, j | 0 <= i < j < |cs| && TitlesMatch(TitleOf(p, cs[j].members[0]), TitleOf(p, cs[i].members[0]))
      ensures MergedRoute(p, cs[i].members) != ""
    {
      assert Parted(p, cs[i], cs[j]);
      var m :| m in cs[i].members && Route(p, m) != "";
      FirstUrlIs(cs[i].members);
      ClusterMembersWithin(p, xs, i);
    }
  }

  /** In particular pass 1 is idempotent on every input without a whitespace-only route. */
  lemma Pass1Idempotent(p: Policy, xs: seq<Candidate>)
    requires NoBlankRoutes(p, xs)
    ensures Pass1(p, Pass1(p, xs)) == Pass1(p, xs)
  {
    forall k | k in Keys(xs, KeyBy(p)) ensures StaysSplit(p, MembersIn(xs, KeyBy(p))(k)) {
      MembersAre(xs, KeyBy(p), k);
      NoBlankStaysSplit(p, Members(xs, KeyBy(p), k));
    }
    Pass1IdempotentIff(p, xs);
  }

  // ---------------------------------------------------------------- pass 1 loses nothing

  ghost function GroupsOf(p: Policy, xs: seq<Candidate>): Key -> seq<seq<Candidate>> {
    k => Groups(p, k, Members(xs, KeyBy(p), k))
  }

  /** All merge groups, in output order. */
  ghost function AllGroups(p: Policy, xs: seq<Candidate>): seq<seq<Candidate>> {
    Lay(Keys(xs, KeyBy(p)), GroupsOf(p, xs))
  }

  lemma {:induction false} FlatConcat(a: seq<seq<Candidate>>, b: seq<seq<Candidate>>)
    ensures Flat(a + b) == Flat(a) + Flat(b)
  {
    if b == [] {
      assert a + b == a;
    } else {
      FlatConcat(a, Init(b));
      assert Init(a + b) == a + Init(b);
    }
  }

  lemma GroupsPartition(p: Policy, k: Key, members: seq<Candidate>)
    ensures Flat(Groups(p, k, members)) == multiset(members)
  {
    if k.JdKey? && |members| > 1 {
      ClustersPartition(p, members);
      assert Groups(p, k, members) == MembersOf(Clusters(p, members));
    } else {
      assert Init([members]) == [];
    }
  }

  lemma {:induction false} FlatOfLaid(p: Policy, ks: seq<Key>, xs: seq<Candidate>)
    ensures Flat(Lay(ks, GroupsOf(p, xs))) == multiset(Lay(ks, MembersIn(xs, KeyBy(p))))
  {
    if ks == [] {
    } else {
      FlatOfLaid(p, Init(ks), xs);
      GroupsPartition(p, Last(ks), Members(xs, KeyBy(p), Last(ks)));
      FlatConcat(Lay(Init(ks), GroupsOf(p, xs)), Groups(p, Last(ks), Members(xs, KeyBy(p), Last(ks))));
    }
  }

  /** A group and the candidate it is merged into. */
  ghost predicate MergedFrom(p: Policy, out: Candidate, group: seq<Candidate>) {
    group != [] && out == MergeAll(group) && AllKeyed(group, KeyBy(p), IdentityKey(p, out))
  }

  lemma GroupsMerged(p: Policy, k: Key, members: seq<Candidate>)
    requires members != [] && AllKeyed(members, KeyBy(p), k)
    ensures |Output(p, k, members)| == |Groups(p, k, members)|
    ensures forall i :: 0 <= i < |Groups(p, k, members)|
                        ==> MergedFrom(p, Output(p, k, members)[i], Groups(p, k, members)[i])
  {
    ClustersNonEmpty(p, members);
    var groups := Groups(p, k, members);
    forall i | 0 <= i < |groups| ensures MergedFrom(p, Output(p, k, members)[i], groups[i]) {
      if k.JdKey? && |members| > 1 {
        ClusterMembersWithin(p, members, i);
      }
      MergeAllKeepsKey(p, k, groups[i]);
    }
  }

  lemma {:induction false} OutputsMerged(p: Policy, ks: seq<Key>, xs: seq<Candidate>)
    requires forall k :: k in ks ==> k in Keys(xs, KeyBy(p))
    ensures |Lay(ks, OutputOf(p, xs))| == |Lay(ks, GroupsOf(p, xs))|
    ensures forall i :: 0 <= i < |Lay(ks, GroupsOf(p, xs))|
                        ==> MergedFrom(p, Lay(ks, OutputOf(p, xs))[i], Lay(ks, GroupsOf(p, xs))[i])
  {
    if ks == [] {
    } else {
      OutputsMerged(p, Init(ks), xs);
      assert Last(ks) in ks;
      GroupOfKey(xs, KeyBy(p), Last(ks));
      GroupsMerged(p, Last(ks), Members(xs, KeyBy(p), Last(ks)));
    }
  }

  /** Pass 1 loses nothing: its merge groups partition the input, each output merges exactly one
      of them, and all members of a group share the identity key of that output. */
  lemma Pass1Partitions(p: Policy, xs: seq<Candidate>)
    ensures Flat(AllGroups(p, xs)) == multiset(xs)
    ensures |Pass1(p, xs)| == |AllGroups(p, xs)|
    ensures forall i :: 0 <= i < |Pass1(p, xs)| ==> MergedFrom(p, Pass1(p, xs)[i], AllGroups(p, xs)[i])
  {
    RegroupedIsPermutation(xs, KeyBy(p));
    FlatOfLaid(p, Keys(xs, KeyBy(p)), xs);
    OutputsMerged(p, Keys(xs, KeyBy(p)), xs);
  }

  /** The keys of all evidence references of a list of candidates. */
  ghost function RefKeys(xs: seq<Candidate>): set<(string, string, string)> {
    set c, r | c in xs && r in c.refs :: RefKey(r)
  }

  lemma RefKeysAsKeySet(c: Candidate)
    ensures RefKeys([c]) == KeySet(c.refs, RefKey)
  {
    forall k | k in RefKeys([c]) ensures k in KeySet(c.refs, RefKey) {
      var r :| r in c.refs && RefKey(r) == k;
      var i :| 0 <= i < |c.refs| && c.refs[i] == r;
    }
    forall k | k in KeySet(c.refs, RefKey) ensures k in RefKeys([c]) {
      var i :| 0 <= i < |c.refs| && RefKey(c.refs[i]) == k;
      assert c in [c] && c.refs[i] in c.refs;
    }
  }

  lemma RefKeysConcat(a: seq<Candidate>, b: seq<Candidate>)
    ensures RefKeys(a + b) == RefKeys(a) + RefKeys(b)
  {
    forall k | k in RefKeys(a) + RefKeys(b) ensures k in RefKeys(a + b) {
      var c: Candidate, r: Ref :| (c in a || c in b) && r in c.refs && RefKey(r) == k;
      assert c in a + b;
    }
  }

  lemma {:induction false} AllRefKeys(members: seq<Candidate>)
    ensures KeySet(AllRefs(members), RefKey) == RefKeys(members)
  {
    if members == [] {
    } else {
      var front, last := Init(members), Last(members);
      AllRefKeys(front);
      KeySetOfConcat(AllRefs(front), last.refs, RefKey);
      RefKeysAsKeySet(last);
      RefKeysConcat(front, [last]);
      assert members == front + [last];
    }
  }

  lemma MergedRefKeys(members: seq<Candidate>)
    requires members != []
    ensures RefKeys([MergeAll(members)]) == RefKeys(members)
  {
    if |members| == 1 {
      assert members == [members[0]];
    } else {
      MergeAllRefs(members);
      FirstByKeyKeys(AllRefs(members), RefKey);
      AllRefKeys(members);
      RefKeysAsKeySet(MergeAll(members));
    }
  }

  ghost function BagRefKeys(m: multiset<Candidate>): set<(string, string, string)> {
    set c, r | c in m && r in c.refs :: RefKey(r)
  }

  lemma BagRefKeysAdd(a: multiset<Candidate>, xs: seq<Candidate>)
    ensures BagRefKeys(a + multiset(xs)) == BagRefKeys(a) + RefKeys(xs)
  {
    var m := a + multiset(xs);
    forall c ensures c in m <==> c in a || c in xs {
      assert c in xs <==> c in multiset(xs);
    }
  }

  lemma {:induction false} MergedRefs(p: Policy, ys: seq<Candidate>, groups: seq<seq<Candidate>>)
    requires |ys| == |groups| && forall i :: 0 <= i < |ys| ==> MergedFrom(p, ys[i], groups[i])
    ensures RefKeys(ys) == BagRefKeys(Flat(groups))
  {
    if ys == [] {
    } else {
      MergedRefs(p, Init(ys), Init(groups));
      assert MergedFrom(p, Last(ys), Last(groups));
      MergedRefKeys(Last(groups));
      assert ys == Init(ys) + [Last(ys)];
      RefKeysConcat(Init(ys), [Last(ys)]);
      BagRefKeysAdd(Flat(Init(groups)), Last(groups));
    }
  }

  /** No evidence reference disappears in pass 1 and none is invented. */
  lemma Pass1KeepsRefs(p: Policy, xs: seq<Candidate>)
    ensures RefKeys(Pass1(p, xs)) == RefKeys(xs)
  {
    Pass1Partitions(p, xs);
    MergedRefs(p, Pass1(p, xs), AllGroups(p, xs));
    BagRefKeysAdd(multiset{}, xs);
    assert multiset{} + multiset(xs) == multiset(xs);
  }
}
