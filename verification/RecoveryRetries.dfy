/** Where the recovery does not do what its comments say: URLs behind an access block that are fetched
    again, answers that are not reported, and searches made twice. */
module RecoveryRetries {
  import opened Common
  import opened Recovery
  import opened RecoveryLaws

  // ---------------------------------------------------------------- which URLs are fetched

  predicate FetchesUrl(e: Event, u: Url) {
    e.Called? && e.call.Fetch? && u in e.call.urls
  }

  predicate Fetched(events: seq<Event>, u: Url) {
    exists i :: 0 <= i < |events| && FetchesUrl(events[i], u)
  }

  lemma FetchedConcat(a: seq<Event>, b: seq<Event>, u: Url)
    ensures Fetched(a + b, u) <==> Fetched(a, u) || Fetched(b, u)
  {
    var s := a + b;
    if i :| 0 <= i < |a| && FetchesUrl(a[i], u) {
      assert FetchesUrl(s[i], u);
    }
    if i :| 0 <= i < |b| && FetchesUrl(b[i], u) {
      assert FetchesUrl(s[|a| + i], u);
    }
  }

  lemma FetchPhaseFetches(env: Env, history: seq<Event>, route: Route, urls: seq<Url>, u: Url)
    ensures Fetched(FetchPhase(env, history, route, urls).events, u) <==> env.grants(history) && u in Take(urls, 10)
  {
    var events := FetchPhase(env, history, route, urls).events;
    if env.grants(history) && u in Take(urls, 10) {
      assert FetchesUrl(events[1], u);
    }
  }

  /** The search at position `i` succeeded with the URL among its first ten, and the budget grants a
      fetch of them. */
  predicate Offers(env: Env, history: seq<Event>, events: seq<Event>, i: nat, u: Url)
    requires i < |events|
  {
    var e := events[i];
    && e.Called? && e.call.Search? && e.answer.succeeded
    && u in Take(CollectFrom([], e.answer.items), 10)
    && env.grants(history + events[..i + 1])
  }

  predicate Offered(env: Env, history: seq<Event>, events: seq<Event>, u: Url) {
    exists i: nat :: i < |events| && Offers(env, history, events, i, u)
  }

  lemma OfferedConcat(env: Env, history: seq<Event>, a: seq<Event>, b: seq<Event>, u: Url)
    ensures Offered(env, history, a + b, u) <==> Offered(env, history, a, u) || Offered(env, history + a, b, u)
  {
    var s := a + b;
    forall i: nat | i < |a| ensures Offers(env, history, s, i, u) <==> Offers(env, history, a, i, u) {
      assert s[..i + 1] == a[..i + 1];
    }
    forall i: nat | i < |b| ensures Offers(env, history, s, |a| + i, u) <==> Offers(env, history + a, b, i, u) {
      assert history + s[..|a| + i + 1] == history + a + b[..i + 1];
    }
    if Offered(env, history, s, u) {
      var i: nat :| i < |s| && Offers(env, history, s, i, u);
      if i >= |a| {
        assert Offers(env, history + a, b, i - |a|, u);
      }
    }
  }

  lemma FetchOffersNothing(env: Env, before: seq<Event>, history: seq<Event>, route: Route, urls: seq<Url>, u: Url)
    ensures !Offered(env, before, FetchPhase(env, history, route, urls).events, u)
  {}

  lemma RoundFetches(env: Env, history: seq<Event>, query: string, u: Url)
    ensures var round := SearchRound(env, history, query).1.events;
            Fetched(round, u) <==> Offered(env, history, round, u)
  {
    if env.grants(history) {
      var call := Search(query);
      var answer := env.answers(history + [Asked(true)], call);
      var events := [Asked(true), Called(call, answer)];
      var urls := CollectFrom([], answer.items);
      var found := FetchPhase(env, history + events, Found, urls);
      FetchPhaseFetches(env, history + events, Found, urls, u);
      FetchedConcat(events, found.events, u);
      OfferedConcat(env, history, events, found.events, u);
      FetchOffersNothing(env, history + events, history + events, Found, urls, u);
      assert events[..2] == events;
      assert Offered(env, history, events, u) <==> Offers(env, history, events, 1, u);
    }
  }

  lemma {:induction false} LoopFetches(env: Env, history: seq<Event>, queries: seq<string>, u: Url)
    ensures var events := SearchLoop(env, history, queries).events;
            Fetched(events, u) <==> Offered(env, history, events, u)
    decreases |queries|
  {
    if queries == [] {
    } else {
      var (ends, round) := SearchRound(env, history, queries[0]);
      RoundFetches(env, history, queries[0], u);
      if !ends {
        var rest := SearchLoop(env, history + round.events, queries[1..]);
        LoopFetches(env, history + round.events, queries[1..], u);
        FetchedConcat(round.events, rest.events, u);
        OfferedConcat(env, history, round.events, rest.events, u);
      }
    }
  }

  /** The seeds and the search fetch a URL exactly when it is one of the first ten seeds without a
      reference and the budget grants their fetch, or a search offers it. */
  lemma SeedFetches(env: Env, p: Policy, input: Input, history: seq<Event>, routing: seq<Observation>,
                    known: seq<Ref>, hints: seq<string>, u: Url)
    ensures var events := SeedThenSearch(env, p, input, history, routing, known, hints).events;
            Fetched(events, u) <==>
              || (env.grants(history) && u in Take(Without(p.trustedSeeds(input.goal, routing), UrlsOf(known)), 10))
              || Offered(env, history, events, u)
  {
    var seeds := Without(p.trustedSeeds(input.goal, routing), UrlsOf(known));
    var c := FetchPhase(env, history, Seed, seeds);
    FetchPhaseFetches(env, history, Seed, seeds, u);
    FetchOffersNothing(env, history, history, Seed, seeds, u);
    if !(AnyComplete(c.observations) || AnyBlocked(c.observations)) {
      var search := SearchPhase(env, p, input, history + c.events, hints);
      SearchFetches(env, p, input, history + c.events, hints, u);
      FetchedConcat(c.events, search.events, u);
      OfferedConcat(env, history, c.events, search.events, u);
    }
  }

  lemma SearchFetches(env: Env, p: Policy, input: Input, history: seq<Event>, hints: seq<string>, u: Url)
    ensures var events := SearchPhase(env, p, input, history, hints).events;
            Fetched(events, u) <==> Offered(env, history, events, u)
  {
    LoopFetches(env, history, Planned(p, input, hints), u);
  }

  // ---------------------------------------------------------------- blocked and fetched again

  predicate Blocks(e: Event, u: Url) {
    FetchesUrl(e, u) && e.answer.blocked
  }

  predicate MeetsBlock(events: seq<Event>, u: Url) {
    exists i :: 0 <= i < |events| && Blocks(events[i], u)
  }

  /** The URL is in a fetch that met an access block and is fetched again later. */
  predicate Retried(events: seq<Event>, u: Url) {
    exists i, j :: 0 <= i < j < |events| && Blocks(events[i], u) && FetchesUrl(events[j], u)
  }

  predicate DirectFetch(e: Event) {
    e.Called? && e.call.Fetch? && e.call.route == Results
  }

  predicate NoDirect(events: seq<Event>) {
    forall i :: 0 <= i < |events| ==> !DirectFetch(events[i])
  }

  lemma NoRetry(events: seq<Event>, u: Url)
    requires BlocksAreLast(events) && NoDirect(events)
    ensures !Retried(events, u)
  {
    forall i, j | 0 <= i < j < |events| ensures !(Blocks(events[i], u) && FetchesUrl(events[j], u)) {
      assert Blocks(events[i], u) ==> Blocked(events[i]) && LastCall(events, i);
    }
  }

  lemma PartOf(a: seq<Event>, f: seq<Event>, rest: seq<Event>, i: nat)
    requires i < |a + f + rest|
    ensures (a + f + rest)[i] ==
            if i < |a| then a[i] else if i < |a + f| then f[i - |a|] else rest[i - |a + f|]
  {}

  /** Two calls, of which the first met an access block, are the direct one and a later one. */
  lemma OnlyDirectBlocks(a: seq<Event>, f: seq<Event>, rest: seq<Event>, i: nat, j: nat)
    requires BlocksAreLast(a + f + rest) && NoDirect(a) && NoDirect(rest)
    requires forall i, j :: 0 <= i < j < |f| ==> !(f[i].Called? && f[j].Called?)
    requires i < j < |a + f + rest| && (a + f + rest)[j].Called?
    requires var e := (a + f + rest)[i]; e.Called? && e.call.Fetch? && e.answer.blocked
    ensures |a| <= i < |a + f| <= j
  {
    var s := a + f + rest;
    PartOf(a, f, rest, i);
    PartOf(a, f, rest, j);
    assert !LastCall(s, i);
  }

  /** With one direct fetch in a trace, only that one can be retried. */
  lemma OnlyDirectIsRetried(a: seq<Event>, f: seq<Event>, rest: seq<Event>, u: Url)
    requires BlocksAreLast(a + f + rest) && NoDirect(a) && NoDirect(rest)
    requires forall i, j :: 0 <= i < j < |f| ==> !(f[i].Called? && f[j].Called?)
    requires forall i :: 0 <= i < |f| && f[i].Called? ==> DirectFetch(f[i])
    ensures Retried(a + f + rest, u) <==> MeetsBlock(f, u) && Fetched(rest, u)
  {
    var s := a + f + rest;
    var m, n := |a|, |a + f|;
    if MeetsBlock(f, u) && Fetched(rest, u) {
      var i, j :| 0 <= i < |f| && Blocks(f[i], u) && 0 <= j < |rest| && FetchesUrl(rest[j], u);
      PartOf(a, f, rest, m + i);
      PartOf(a, f, rest, n + j);
      assert Blocks(s[m + i], u) && FetchesUrl(s[n + j], u);
    }
    if Retried(s, u) {
      var i, j :| 0 <= i < j < |s| && Blocks(s[i], u) && FetchesUrl(s[j], u);
      OnlyDirectBlocks(a, f, rest, i, j);
      PartOf(a, f, rest, i);
      PartOf(a, f, rest, j);
      assert Blocks(f[i - m], u) && FetchesUrl(rest[j - n], u);
    }
  }

  lemma FetchIsNotDirect(env: Env, history: seq<Event>, route: Route, urls: seq<Url>)
    requires route != Results
    ensures NoDirect(FetchPhase(env, history, route, urls).events)
  {}

  lemma NoDirectConcat(a: seq<Event>, b: seq<Event>)
    requires NoDirect(a) && NoDirect(b)
    ensures NoDirect(a + b)
  {}

  lemma {:induction false} LoopIsNotDirect(env: Env, history: seq<Event>, queries: seq<string>)
    ensures NoDirect(SearchLoop(env, history, queries).events)
    decreases |queries|
  {
    if queries == [] {
    } else {
      var (ends, round) := SearchRound(env, history, queries[0]);
      if !ends {
        LoopIsNotDirect(env, history + round.events, queries[1..]);
        NoDirectConcat(round.events, SearchLoop(env, history + round.events, queries[1..]).events);
      }
    }
  }

  lemma SeedIsNotDirect(env: Env, p: Policy, input: Input, history: seq<Event>, routing: seq<Observation>,
                        known: seq<Ref>, hints: seq<string>)
    ensures NoDirect(SeedThenSearch(env, p, input, history, routing, known, hints).events)
  {
    var c := FetchPhase(env, history, Seed, Without(p.trustedSeeds(input.goal, routing), UrlsOf(known)));
    LoopIsNotDirect(env, history + c.events, Planned(p, input, hints));
    NoDirectConcat(c.events, SearchPhase(env, p, input, history + c.events, hints).events);
  }

  lemma ListRouteIsNotDirect(env: Env, p: Policy, input: Input, history: seq<Event>, routing: seq<Observation>,
                             refs: seq<Ref>, hints: seq<string>)
    ensures NoDirect(ListRoute(env, p, input, history, routing, refs, hints).events)
  {
    var b := FetchPhase(env, history, Expand, Take(Distincts(ListUrls(refs)), 3));
    SeedIsNotDirect(env, p, input, history + b.events, routing, refs + b.refs, hints);
    NoDirectConcat(b.events, SeedThenSearch(env, p, input, history + b.events, routing, refs + b.refs, hints).events);
  }

  lemma FetchBlocks(env: Env, history: seq<Event>, urls: seq<Url>, u: Url)
    ensures var f := FetchPhase(env, history, Results, urls);
            MeetsBlock(f.events, u) <==> u in Take(urls, 10) && AnyBlocked(f.observations)
  {
    var f := FetchPhase(env, history, Results, urls);
    if urls != [] && env.grants(history) {
      assert f.observations == [f.events[1].answer];
      assert Blocks(f.events[1], u) <==> u in Take(urls, 10) && f.observations[0].blocked;
    }
  }

  /** The direct fetch of a recovery: of URLs in routing results, else of supplied ones. */
  function DirectPhase(env: Env, p: Policy, input: Input): Phase {
    var a := PriorityPhase(env, p, input);
    FetchPhase(env, a.events, Results, DirectUrls(input, Routing(p, input, a), input.refs + a.refs))
  }

  /** The recovery comes to its direct fetch, which has the URL among its first ten, meets an access
      block and finds no complete page. */
  predicate DirectlyBlocked(env: Env, p: Policy, input: Input, u: Url) {
    var a, f := PriorityPhase(env, p, input), DirectPhase(env, p, input);
    && !Proven(input.refs) && !PriorityEnds(a)
    && ListUrls(input.refs + a.refs) == [] && !AnyComplete(input.observations + a.observations)
    && u in Take(DirectUrls(input, Routing(p, input, a), input.refs + a.refs), 10)
    && AnyBlocked(f.observations) && !AnyComplete(f.observations)
  }

  /** What would follow the direct fetch. */
  function AfterDirect(env: Env, p: Policy, input: Input): Phase {
    var a, f := PriorityPhase(env, p, input), DirectPhase(env, p, input);
    SeedThenSearch(env, p, input, a.events + f.events, Routing(p, input, a), input.refs + a.refs + f.refs,
                   Hints(p, input, a))
  }

  /** The trusted seeds left after the direct fetch: those no reference names. */
  function SeedsAfterDirect(env: Env, p: Policy, input: Input): seq<Url> {
    var a, f := PriorityPhase(env, p, input), DirectPhase(env, p, input);
    Without(p.trustedSeeds(input.goal, Routing(p, input, a)), UrlsOf(input.refs + a.refs + f.refs))
  }

  /** A URL behind an access block is fetched again exactly when the block was met in the direct
      fetch, and the URL is then one of the first ten seeds that no reference names, with budget for
      them, or a search offers it. */
  lemma RetriedIff(env: Env, p: Policy, input: Input, u: Url)
    ensures var history := PriorityPhase(env, p, input).events + DirectPhase(env, p, input).events;
            Retried(Recover(env, p, input).events, u) <==>
              && DirectlyBlocked(env, p, input, u)
              && (|| (env.grants(history) && u in Take(SeedsAfterDirect(env, p, input), 10))
                  || Offered(env, history, AfterDirect(env, p, input).events, u))
  {
    var a := PriorityPhase(env, p, input);
    var refs, routing, hints := input.refs + a.refs, Routing(p, input, a), Hints(p, input, a);
    RecoveryIsBounded(env, p, input);
    if Proven(input.refs) || PriorityEnds(a) || ListUrls(refs) != []
       || AnyComplete(input.observations + a.observations) || DirectUrls(input, routing, refs) == [] {
      StaysOffDirect(env, p, input);
      NoRetry(Recover(env, p, input).events, u);
    } else {
      var f := DirectPhase(env, p, input);
      DirectRetries(env, p, input, u);
      SeedFetches(env, p, input, a.events + f.events, routing, refs + f.refs, hints, u);
    }
  }

  lemma StaysOffDirect(env: Env, p: Policy, input: Input)
    requires var a := PriorityPhase(env, p, input);
             || Proven(input.refs) || PriorityEnds(a) || ListUrls(input.refs + a.refs) != []
             || AnyComplete(input.observations + a.observations)
             || DirectUrls(input, Routing(p, input, a), input.refs + a.refs) == []
    ensures NoDirect(Recover(env, p, input).events)
  {
    var a := PriorityPhase(env, p, input);
    FetchIsNotDirect(env, [], Priority, Without(p.prioritySeeds(input.goal), UrlsOf(input.refs)));
    if !Proven(input.refs) && !PriorityEnds(a) {
      RecoverIs(env, p, input);
      RestIsNotDirect(env, p, input, a);
      NoDirectConcat(a.events, AfterPriority(env, p, input, a).events);
    }
  }

  lemma RestIsNotDirect(env: Env, p: Policy, input: Input, a: Phase)
    requires || ListUrls(input.refs + a.refs) != [] || AnyComplete(input.observations + a.observations)
             || DirectUrls(input, Routing(p, input, a), input.refs + a.refs) == []
    ensures NoDirect(AfterPriority(env, p, input, a).events)
  {
    var refs, routing, hints := input.refs + a.refs, Routing(p, input, a), Hints(p, input, a);
    ListRouteIsNotDirect(env, p, input, a.events, routing, refs, hints);
    SeedIsNotDirect(env, p, input, a.events, routing, refs, hints);
  }

  lemma DirectIs(env: Env, p: Policy, input: Input)
    requires var a := PriorityPhase(env, p, input);
             && !Proven(input.refs) && !PriorityEnds(a) && ListUrls(input.refs + a.refs) == []
             && !AnyComplete(input.observations + a.observations)
             && DirectUrls(input, Routing(p, input, a), input.refs + a.refs) != []
    ensures var a, f := PriorityPhase(env, p, input), DirectPhase(env, p, input);
            var rest := if AnyComplete(f.observations) then [] else AfterDirect(env, p, input).events;
            Recover(env, p, input).events == a.events + f.events + rest
  {
    var a, f := PriorityPhase(env, p, input), DirectPhase(env, p, input);
    RecoverIs(env, p, input);
    assert AfterPriority(env, p, input, a).events ==
           if AnyComplete(f.observations) then f.events else f.events + AfterDirect(env, p, input).events;
    ConcatAssociates(a.events, f.events, AfterDirect(env, p, input).events);
  }

  lemma DirectRetries(env: Env, p: Policy, input: Input, u: Url)
    requires var a := PriorityPhase(env, p, input);
             && !Proven(input.refs) && !PriorityEnds(a) && ListUrls(input.refs + a.refs) == []
             && !AnyComplete(input.observations + a.observations)
             && DirectUrls(input, Routing(p, input, a), input.refs + a.refs) != []
    ensures Retried(Recover(env, p, input).events, u) <==>
              DirectlyBlocked(env, p, input, u) && Fetched(AfterDirect(env, p, input).events, u)
  {
    var a, f := PriorityPhase(env, p, input), DirectPhase(env, p, input);
    var refs, routing, hints := input.refs + a.refs, Routing(p, input, a), Hints(p, input, a);
    var urls := DirectUrls(input, routing, refs);
    var rest := if AnyComplete(f.observations) then [] else AfterDirect(env, p, input).events;
    RecoveryIsBounded(env, p, input);
    DirectIs(env, p, input);
    FetchIsNotDirect(env, [], Priority, Without(p.prioritySeeds(input.goal), UrlsOf(input.refs)));
    SeedIsNotDirect(env, p, input, a.events + f.events, routing, refs + f.refs, hints);
    OnlyDirectIsRetried(a.events, f.events, rest, u);
    FetchBlocks(env, a.events, urls, u);
  }

  // ---------------------------------------------------------------- concrete runs

  /** Unlimited budget, one answer to every call, nothing persisted. */
  function Always(answer: Observation): Env {
    Env((history: seq<Event>) => true,
        (history: seq<Event>, call: Call) => answer,
        (history: seq<Event>, answer: Observation) => [])
  }

  function Seeds(priority: seq<Url>, trusted: seq<Url>): Policy {
    Policy((goal: string) => priority,
           (goal: string, routing: seq<Observation>) => trusted,
           (goal: string, routing: seq<Observation>) => [],
           (refs: seq<Ref>) => [],
           (text: string) => text,
           (text: string) => text)
  }

  const NOTHING := Input("", None, false, {}, [], None, [], [])

  /** A supplied URL that is a trusted seed as well is fetched again behind its access block. */
  lemma BlockedSeedIsRetried(u: Url)
    requires IsHttp(u)
    ensures var blocked := Observation(false, true, false, []);
            Recover(Always(blocked), Seeds([], [u]), NOTHING.(supplied := Some([u]))).events ==
            [Asked(true), Called(Fetch(Results, [u]), blocked), Asked(true), Called(Fetch(Seed, [u]), blocked)]
  {
    var blocked := Observation(false, true, false, []);
    var env, p, input := Always(blocked), Seeds([], [u]), NOTHING.(supplied := Some([u]));
    var f := FetchPhase(env, [], Results, [u]);
    var c := FetchPhase(env, f.events, Seed, [u]);
    OneUrl(u, UrlsOf([]));
    assert PriorityPhase(env, p, input) == IDLE;
    assert Routing(p, input, IDLE) == [];
    assert DirectUrls(input, [], []) == [u];
    assert blocked in f.observations && blocked in c.observations;
    assert SeedThenSearch(env, p, input, f.events, [], [], Hints(p, input, IDLE)) == c;
  }

  lemma OneUrl(u: Url, gone: set<Url>)
    requires u !in gone
    ensures Without([u], gone) == [u] && Distincts([u]) == [u]
    ensures IsHttp(u) ==> HttpOnly([u]) == [u]
  {
    assert Init([u]) == [];
    KeptAll([u], (v: Url) => v !in gone);
    KeptAll([u], (v: Url) => IsHttp(v));
  }

  /** Whatever the priority fetch answers without a block and without items, failed or not, is not
      reported. */
  lemma PriorityAnswerIsDropped(u: Url, answer: Observation)
    requires !answer.blocked && answer.items == []
    ensures var r := Recover(Always(answer), Seeds([u], []), NOTHING);
            Answers(r.events) == [answer] && r.observations == []
  {
    var env, p, input := Always(answer), Seeds([u], []), NOTHING;
    var a := FetchPhase(env, [], Priority, [u]);
    OneUrl(u, UrlsOf([]));
    assert PriorityPhase(env, p, input) == a && a.observations == [answer];
    assert Routing(p, input, a) == [answer];
    assert [answer][1..] == [] && CollectFrom([], answer.items) == [];
    assert CollectAll([], [answer]) == [];
    assert SeedThenSearch(env, p, input, a.events, [answer], [], Hints(p, input, a)) == IDLE;
    ReturnsItsAnswers(env, p, input);
  }

  lemma LongGoalQueries(goal: string)
    requires |goal| >= 380
    ensures Queries(Seeds([], []), goal, [], {}) == [goal[..380], goal[..380], goal[..380]]
  {
    var p, d, o := Seeds([], []), goal + DETAIL_SUFFIX, goal + OFFICIAL_SUFFIX;
    var variants := [goal, d, o];
    assert d[|goal|..] == DETAIL_SUFFIX && o[|goal|..] == OFFICIAL_SUFFIX;
    assert Init(variants) == [goal, d] && Init([goal, d]) == [goal] && Init([goal]) == [];
    assert Distincts([goal]) == [goal] && Distincts([goal, d]) == [goal, d];
    assert Variants(p, goal, []) == variants by {
      assert NonBlank(p, []) + p.hints(goal, []) + variants == variants;
    }
    assert Cut(goal) == Cut(d) == Cut(o) == goal[..380];
    assert Unattempted(p, [goal], {}) == [goal[..380]];
    assert Unattempted(p, [goal, d], {}) == [goal[..380], goal[..380]];
  }

  lemma {:induction false} SearchesAll(env: Env, history: seq<Event>, queries: seq<string>)
    requires env == Always(Observation(true, false, false, []))
    ensures Queried(SearchLoop(env, history, queries).events) == queries
    decreases |queries|
  {
    if queries == [] {
    } else {
      var (ends, round) := SearchRound(env, history, queries[0]);
      var rest := SearchLoop(env, history + round.events, queries[1..]);
      RoundAsks(env, history, queries[0]);
      SearchesAll(env, history + round.events, queries[1..]);
      QueriedAdds(round.events, rest.events);
    }
  }

  /** A goal of 380 characters or more is searched for three times with one query. */
  lemma LongGoalIsSearchedThrice(goal: string)
    requires |goal| >= 380
    ensures var empty := Observation(true, false, false, []);
            var input := NOTHING.(canSearch := true, searchGoal := Some(goal));
            Queried(Recover(Always(empty), Seeds([], []), input).events) == [goal[..380], goal[..380], goal[..380]]
  {
    var empty := Observation(true, false, false, []);
    var env, p, input := Always(empty), Seeds([], []), NOTHING.(canSearch := true, searchGoal := Some(goal));
    assert PriorityPhase(env, p, input) == IDLE;
    assert Routing(p, input, IDLE) == [];
    assert Hints(p, input, IDLE) == [];
    LongGoalQueries(goal);
    SearchesAll(env, [], Queries(p, goal, [], {}));
    assert Recover(env, p, input).events == SearchLoop(env, [], Queries(p, goal, [], {})).events;
  }
}
