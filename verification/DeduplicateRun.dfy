/** Pass 1 as the program runs it: candidate records that merging updates in place, clusters that
    grow in a loop, and the group table, proved against the functions of `Deduplicate`. */
module DeduplicateRun {
  import opened Common
  import opened Grouping
  import opened Deduplicate
  import opened DeduplicateLaws

  /** Keeps the first item of each key. */
  method DedupePreserve<T, K(==)>(items: seq<T>, key: T -> K) returns (out: seq<T>)
    ensures out == FirstByKey(items, key)
  {
    out := [];
    var seen: set<K> := {};
    for i := 0 to |items|
      invariant out == FirstByKey(items[..i], key)
      invariant seen == KeySet(out, key)
    {
      assert Init(items[..i + 1]) == items[..i];
      var k := key(items[i]);
      if k !in seen {
        KeySetOfConcat(out, [items[i]], key);
        assert key([items[i]][0]) in KeySet([items[i]], key);
        assert KeySet([items[i]], key) == {k};
        seen := seen + {k};
        out := out + [items[i]];
      }
    }
    assert items[..|items|] == items;
  }

  /** A candidate dictionary that the pipeline updates in place. */
  class Record {
    var value: Candidate

    /** A deep copy of a candidate. */
    constructor (c: Candidate)
      ensures value == c
    {
      value := c;
    }

    /** The lists become deduplicated unions. */
    method MergeLists(src: Candidate)
      modifies this
      ensures var merged := Merge(old(value), src);
              value == old(value).(locations := merged.locations, refs := merged.refs,
                                   recruitment := merged.recruitment, industries := merged.industries,
                                   warnings := merged.warnings)
    {
      var locations := DedupePreserve(value.locations + src.locations, TextKey);
      value := value.(locations := locations);
      var refs := DedupePreserve(value.refs + src.refs, RefKey);
      value := value.(refs := refs);
      var recruitment := DedupePreserve(value.recruitment + src.recruitment, TextKey);
      value := value.(recruitment := recruitment);
      var industries := DedupePreserve(value.industries + src.industries, TextKey);
      value := value.(industries := industries);
      var warnings := DedupePreserve(value.warnings + src.warnings, TextKey);
      value := value.(warnings := warnings);
    }

    /** Merges `src` into this record: lists become deduplicated unions, identity fields are only
        filled when missing, content fields take the newer non-empty text. */
    method MergeFrom(src: Candidate)
      modifies this
      ensures value == Merge(old(value), src)
    {
      MergeLists(src);
      if value.applyUrl == "" && src.applyUrl != "" {
        value := value.(applyUrl := src.applyUrl);
      }
      if value.company == "" && src.company != "" {
        value := value.(company := src.company);
      }
      if src.description != "" {
        value := value.(description := src.description);
      }
      if src.responsibilities != "" {
        value := value.(responsibilities := src.responsibilities);
      }
      if src.requirements != "" {
        value := value.(requirements := src.requirements);
      }
      if src.department != "" {
        value := value.(department := src.department);
      }
      if src.deadline != "" {
        value := value.(deadline := src.deadline);
      }
    }

    /** Empties the route and notes why. */
    method Clear()
      modifies this
      ensures value == Cleared(old(value))
    {
      value := value.(applyUrl := "");
      if CLEARED_WARNING !in value.warnings {
        value := value.(warnings := value.warnings + [CLEARED_WARNING]);
      }
    }
  }

  ghost predicate Holding(rs: seq<Record>, xs: seq<Candidate>)
    reads rs
  {
    |rs| == |xs| && forall i :: 0 <= i < |rs| ==> rs[i].value == xs[i]
  }

  lemma AppendHolding(rs: seq<Record>, xs: seq<Candidate>, out: seq<Record>, ys: seq<Candidate>)
    requires Holding(rs, xs) && Holding(out, ys)
    requires Distinct(rs) && Distinct(out) && forall r :: r in out ==> r !in rs
    ensures Holding(rs + out, xs + ys) && Distinct(rs + out)
  {
    var all := rs + out;
    forall i, j | 0 <= i < j < |all| ensures all[i] != all[j] {
      if i < |rs| <= j {
        assert all[i] in rs && all[j] in out;
      }
    }
  }

  /** The clusters built so far: their title sets and their members. */
  ghost predicate Represents(titles: seq<set<string>>, groups: seq<seq<Candidate>>, cs: seq<Cluster>) {
    && |titles| == |groups| == |cs|
    && forall i :: 0 <= i < |cs| ==> cs[i] == Cluster(titles[i], groups[i])
  }

  ghost function Values(rs: seq<Record>): seq<Candidate>
    reads rs
  {
    seq(|rs|, i requires 0 <= i < |rs| reads rs => rs[i].value)
  }

  lemma NotBefore<T>(s: seq<T>, i: nat)
    requires Distinct(s) && i < |s|
    ensures s[i] !in s[..i] && s[..i + 1] == s[..i] + [s[i]]
  {
    forall j | 0 <= j < i ensures s[..i][j] != s[i] {
      assert s[j] != s[i];
    }
  }

  /** Finds the first cluster that accepts the candidate. */
  method FindCluster(p: Policy, titles: seq<set<string>>, groups: seq<seq<Candidate>>, m: Candidate,
                     ghost cs: seq<Cluster>)
    returns (n: nat)
    requires Represents(titles, groups, cs)
    ensures n == FirstFit(p, cs, m)
  {
    n := 0;
    var t, url := TitleOf(p, m), Route(p, m);
    while n < |groups|
      invariant n <= |groups|
      invariant forall j :: 0 <= j < n ==> !Fits(p, m, cs[j])
    {
      var routes := set r | r in groups[n] && Route(p, r) != "" :: Route(p, r);
      if RoutesCompatible(p, routes, url) && exists ct :: ct in titles[n] && TitlesMatch(t, ct) {
        return;
      }
      n := n + 1;
    }
  }

  /** Clusters the members of one key by title and route. */
  method ClusterByTitle(p: Policy, members: seq<Candidate>) returns (groups: seq<seq<Candidate>>)
    ensures groups == MembersOf(Clusters(p, members))
  {
    groups := [];
    var titles: seq<set<string>> := [];
    for n := 0 to |members|
      invariant Represents(titles, groups, Clusters(p, members[..n]))
    {
      var m := members[n];
      ghost var cs := Clusters(p, members[..n]);
      assert Init(members[..n + 1]) == members[..n];
      var i := FindCluster(p, titles, groups, m, cs);
      if i < |groups| {
        titles := titles[i := titles[i] + {TitleOf(p, m)}];
        groups := groups[i := groups[i] + [m]];
      } else {
        titles := titles + [{TitleOf(p, m)}];
        groups := groups + [[m]];
      }
    }
    assert members[..|members|] == members;
  }

  lemma MergeAllNext(cluster: seq<Candidate>, n: nat)
    requires 1 <= n < |cluster|
    ensures MergeAll(cluster[..n + 1]) == Merge(MergeAll(cluster[..n]), cluster[n])
  {
    assert Init(cluster[..n + 1]) == cluster[..n];
  }

  /** Copies the first candidate of a cluster and merges the later ones into the copy. */
  method MergeCluster(cluster: seq<Candidate>) returns (dst: Record)
    requires cluster != []
    ensures fresh(dst) && dst.value == MergeAll(cluster)
  {
    dst := new Record(cluster[0]);
    for n := 1 to |cluster|
      invariant dst.value == MergeAll(cluster[..n])
    {
      MergeAllNext(cluster, n);
      dst.MergeFrom(cluster[n]);
    }
    assert cluster[..|cluster|] == cluster;
  }

  /** Merges each cluster into a record of its own. */
  method MergeClusters(groups: seq<seq<Candidate>>) returns (out: seq<Record>)
    requires forall i :: 0 <= i < |groups| ==> groups[i] != []
    ensures Distinct(out) && forall r :: r in out ==> fresh(r)
    ensures Holding(out, MergeEach(groups))
  {
    out := [];
    ghost var merged := MergeEach(groups);
    for n := 0 to |groups|
      invariant Distinct(out) && forall r :: r in out ==> fresh(r)
      invariant Holding(out, merged[..n])
    {
      var dst := MergeCluster(groups[n]);
      assert dst !in out && dst.value == merged[n];
      AppendHolding(out, merged[..n], [dst], [merged[n]]);
      assert merged[..n + 1] == merged[..n] + [merged[n]];
      out := out + [dst];
    }
    assert merged[..|groups|] == merged;
  }

  /** Clusters the members of one key when they are full candidates, and merges each cluster. */
  method MergeGroup(p: Policy, k: Key, members: seq<Candidate>) returns (out: seq<Record>)
    requires members != []
    ensures Distinct(out) && forall r :: r in out ==> fresh(r)
    ensures Holding(out, Output(p, k, members))
  {
    var groups := [members];
    if k.JdKey? && |members| > 1 {
      groups := ClusterByTitle(p, members);
    }
    assert groups == Groups(p, k, members);
    ClustersNonEmpty(p, members);
    out := MergeClusters(groups);
  }

  /** The group table: the members of each key, and the keys in order of first occurrence. */
  method BuildGroups(p: Policy, raw: seq<Candidate>) returns (groups: map<Key, seq<Candidate>>, order: seq<Key>)
    ensures order == Keys(raw, KeyBy(p))
    ensures forall k :: k in order ==> k in groups && groups[k] == Members(raw, KeyBy(p), k)
  {
    groups, order := map[], [];
    ghost var key := KeyBy(p);
    for i := 0 to |raw|
      invariant order == Keys(raw[..i], key)
      invariant groups.Keys == set k | k in order
      invariant forall k :: k in groups ==> groups[k] == Members(raw[..i], key, k)
    {
      assert Init(raw[..i + 1]) == raw[..i];
      var k := IdentityKey(p, raw[i]);
      KeyHasMembers(raw[..i], key, k);
      if k !in groups {
        groups := groups[k := [raw[i]]];
        order := order + [k];
      } else {
        groups := groups[k := groups[k] + [raw[i]]];
      }
    }
    assert raw[..|raw|] == raw;
  }

  /** Pass 1: one merge per group, in the order of the keys. */
  method RunPass1(p: Policy, raw: seq<Candidate>) returns (deduped: seq<Record>)
    ensures Distinct(deduped) && forall r :: r in deduped ==> fresh(r)
    ensures Values(deduped) == Pass1(p, raw)
  {
    var groups, order := BuildGroups(p, raw);
    ghost var block := OutputOf(p, raw);
    deduped := [];
    ghost var done: seq<Candidate> := [];
    for n := 0 to |order|
      invariant Distinct(deduped) && forall r :: r in deduped ==> fresh(r)
      invariant done == Lay(order[..n], block)
      invariant Holding(deduped, done)
    {
      var k := order[n];
      assert k in order;
      KeyHasMembers(raw, KeyBy(p), k);
      assert block(k) == Output(p, k, groups[k]);
      assert Init(order[..n + 1]) == order[..n];
      var out := MergeGroup(p, k, groups[k]);
      AppendHolding(deduped, done, out, block(k));
      deduped := deduped + out;
      done := done + block(k);
    }
    assert order[..|order|] == order;
    assert Values(deduped) == done;
  }

  /** The titles of the full candidates. */
  method CollectJdTitles(p: Policy, rs: seq<Record>) returns (titles: set<string>)
    ensures titles == JdTitles(p, Values(rs))
  {
    ghost var all := Values(rs);
    titles := {};
    for i := 0 to |rs|
      invariant titles == JdTitles(p, all[..i])
    {
      var c := rs[i].value;
      assert all[..i + 1] == all[..i] + [c];
      if HasBody(p, c) && TitleOf(p, c) != "" {
        titles := titles + {TitleOf(p, c)};
      }
    }
    assert all[..|rs|] == all;
  }

  /** Keeps the records that echo none of the titles. */
  method DropEchoes(p: Policy, titles: set<string>, deduped: seq<Record>) returns (kept: seq<Record>)
    requires Distinct(deduped)
    ensures Distinct(kept) && forall r :: r in kept ==> r in deduped
    ensures Holding(kept, Kept(Values(deduped), NotEcho(p, titles)))
  {
    ghost var all, keep := Values(deduped), NotEcho(p, titles);
    kept := [];
    for i := 0 to |deduped|
      invariant Distinct(kept) && forall r :: r in kept ==> r in deduped[..i]
      invariant Holding(kept, Kept(all[..i], keep))
    {
      var r := deduped[i];
      NotBefore(deduped, i);
      assert Init(all[..i + 1]) == all[..i] && Last(all[..i + 1]) == r.value;
      if !Echo(p, titles, r.value) {
        AppendHolding(kept, Kept(all[..i], keep), [r], [r.value]);
        kept := kept + [r];
      } else {
        assert Kept(all[..i + 1], keep) == Kept(all[..i], keep);
      }
    }
    assert all[..|deduped|] == all && deduped[..|deduped|] == deduped;
  }

  /** Pass 2: collects the titles of full candidates, then keeps what does not echo one. */
  method RunPass2(p: Policy, deduped: seq<Record>) returns (kept: seq<Record>)
    requires Distinct(deduped)
    ensures Distinct(kept) && forall r :: r in kept ==> r in deduped
    ensures Values(kept) == Pass2(p, Values(deduped))
  {
    var titles := CollectJdTitles(p, deduped);
    kept := DropEchoes(p, titles, deduped);
  }

  /** The titles seen under each route of a list. */
  ghost predicate TitlesByRoute(p: Policy, xs: seq<Candidate>, titles: map<string, set<string>>) {
    && (forall c :: c in xs && Route(p, c) != "" && TitleOf(p, c) != ""
                    ==> Route(p, c) in titles && TitleOf(p, c) in titles[Route(p, c)])
    && (forall url, t :: url in titles && t in titles[url]
                         ==> url != "" && t != "" && exists c :: c in xs && Route(p, c) == url && TitleOf(p, c) == t)
  }

  predicate Several(titles: set<string>) {
    exists t, u :: t in titles && u in titles && t != u
  }

  lemma SeveralIffShared(p: Policy, xs: seq<Candidate>, titles: map<string, set<string>>, url: string)
    requires TitlesByRoute(p, xs, titles)
    ensures url in titles && Several(titles[url]) <==> SharedRoute(p, xs, url)
  {
    if url in titles && Several(titles[url]) {
      var t, u :| t in titles[url] && u in titles[url] && t != u;
      var c :| c in xs && Route(p, c) == url && TitleOf(p, c) == t;
      var d :| d in xs && Route(p, d) == url && TitleOf(p, d) == u;
      assert SharedRoute(p, xs, url);
    }
  }

  method CollectTitles(p: Policy, rs: seq<Record>) returns (titles: map<string, set<string>>)
    ensures TitlesByRoute(p, Values(rs), titles)
  {
    titles := map[];
    ghost var xs := Values(rs);
    for i := 0 to |rs|
      invariant TitlesByRoute(p, xs[..i], titles)
    {
      var c := rs[i].value;
      var url, t := Route(p, c), TitleOf(p, c);
      assert xs[..i + 1] == xs[..i] + [c];
      if url != "" && t != "" {
        titles := titles[url := (if url in titles then titles[url] else {}) + {t}];
        assert t in titles[url] && c in xs[..i + 1];
      }
    }
    assert xs[..|rs|] == xs;
  }

  function ClearedWhere(p: Policy, c: Candidate, shared: set<string>): Candidate {
    if Route(p, c) in shared then Cleared(c) else c
  }

  function OnRoutes(p: Policy, shared: set<string>): Candidate -> bool {
    c => Route(p, c) in shared
  }

  /** Clears the route of every record whose route is among `shared`, and counts them. */
  method ClearWhere(p: Policy, rs: seq<Record>, shared: set<string>) returns (cleared: nat)
    requires Distinct(rs)
    modifies rs
    ensures forall i :: 0 <= i < |rs| ==> rs[i].value == ClearedWhere(p, old(rs[i].value), shared)
    ensures cleared == |Kept(old(Values(rs)), OnRoutes(p, shared))|
  {
    ghost var xs, on := Values(rs), OnRoutes(p, shared);
    cleared := 0;
    for i := 0 to |rs|
      invariant forall j :: 0 <= j < i ==> rs[j].value == ClearedWhere(p, old(rs[j].value), shared)
      invariant forall j :: i <= j < |rs| ==> rs[j].value == old(rs[j].value)
      invariant cleared == |Kept(xs[..i], on)|
    {
      assert xs[i] == rs[i].value && xs[..i + 1] == xs[..i] + [xs[i]];
      KeptGrows(xs[..i], on, xs[i]);
      if Route(p, rs[i].value) in shared {
        rs[i].Clear();
        cleared := cleared + 1;
      }
    }
    assert xs[..|rs|] == xs;
  }

  /** The candidates that carry a shared route of the list. */
  ghost function OnSharedRoute(p: Policy, xs: seq<Candidate>): Candidate -> bool {
    c => SharedRoute(p, xs, Route(p, c))
  }

  /** Clears, in place, the routes that candidates of different titles share, and counts the
      candidates that carried one. */
  method RunClearShared(p: Policy, rs: seq<Record>) returns (cleared: nat)
    requires Distinct(rs)
    modifies rs
    ensures Values(rs) == ClearShared(p, old(Values(rs)))
    ensures cleared == |Kept(old(Values(rs)), OnSharedRoute(p, old(Values(rs))))|
  {
    var titles := CollectTitles(p, rs);
    var shared := set url | url in titles && Several(titles[url]);
    ghost var xs := Values(rs);
    forall c | c in xs ensures OnRoutes(p, shared)(c) == OnSharedRoute(p, xs)(c) {
      SeveralIffShared(p, xs, titles, Route(p, c));
    }
    KeptSame(xs, OnRoutes(p, shared), OnSharedRoute(p, xs));
    forall i | 0 <= i < |xs| ensures Route(p, xs[i]) in shared <==> SharedRoute(p, xs, Route(p, xs[i])) {
      SeveralIffShared(p, xs, titles, Route(p, xs[i]));
    }
    assert forall i :: 0 <= i < |rs| ==> xs[i] == rs[i].value;
    cleared := ClearWhere(p, rs, shared);
  }

  /** The deduplicating part of the pipeline. */
  method Run(p: Policy, raw: seq<Candidate>) returns (out: seq<Record>)
    ensures Values(out) == Process(p, raw)
  {
    var deduped := RunPass1(p, raw);
    out := RunPass2(p, deduped);
    forall i | 0 <= i < |out| ensures fresh(out[i]) {
      assert out[i] in out && out[i] in deduped;
    }
    var cleared := RunClearShared(p, out);
  }
}
