/** The rules of the recovery, said of what a trace shows: which call may follow it. A recovery makes only
    calls that may follow, and unless a budget request was denied it ends only when none may. */
module RecoveryRules {
  import opened Common
  import opened Recovery
  import opened RecoveryLaws
  import opened RecoveryReferences

  // ---------------------------------------------------------------- what a trace shows

  ghost predicate Recorded(refs: seq<Ref>, u: Url) {
    exists r :: r in refs && r.url == Some(u)
  }

  ghost predicate Linked(observations: seq<Observation>, u: Url) {
    exists o, item :: o in observations && item in o.items && u in item
  }

  /** An unexpanded list-only page under a web address. */
  ghost predicate OpenList(refs: seq<Ref>, u: Url) {
    exists r :: r in refs && r.url == Some(u) && r.kind == JobPage && r.quality == ListOnly && !r.expanded
                && ("http://" <= u || "https://" <= u)
  }

  /** Persisting the answer at position `i` gave a complete job description. */
  ghost predicate FoundJd(env: Env, trace: seq<Event>, i: nat)
    requires i < |trace| && trace[i].Called?
  {
    && trace[i].answer.succeeded
    && exists r :: r in env.persists(trace[..i + 1], trace[i].answer) && r.quality == JdComplete
  }

  /** After this call nothing else is tried, but for the fetch of what a search found. */
  ghost predicate Ends(env: Env, trace: seq<Event>, i: nat)
    requires i < |trace| && trace[i].Called?
  {
    var answer := trace[i].answer;
    match trace[i].call
    case Search(_) => !answer.succeeded || exists u :: Linked([answer], u)
    case Fetch(route, _) =>
      match route
      case Priority => answer.blocked || FoundJd(env, trace, i)
      case Expand => answer.blocked || FoundJd(env, trace, i)
      case Results => answer.complete
      case Seed => answer.blocked || answer.complete
      case Found => true
  }

  ghost predicate Open(env: Env, trace: seq<Event>) {
    forall i :: 0 <= i < |trace| && trace[i].Called? ==> !Ends(env, trace, i)
  }

  function Rank(call: Call): nat {
    match call
    case Search(_) => 3
    case Fetch(route, _) =>
      match route
      case Priority => 0
      case Expand => 1
      case Results => 1
      case Seed => 2
      case Found => 4
  }

  /** All calls of the trace are of earlier stages. */
  predicate Before(trace: seq<Event>, stage: nat) {
    forall i :: 0 <= i < |trace| && trace[i].Called? ==> Rank(trace[i].call) < stage
  }

  // ---------------------------------------------------------------- which URLs a fetch carries

  ghost function Unrecorded(refs: seq<Ref>): Url -> bool {
    u => !Recorded(refs, u)
  }

  /** The first ten of some seeds that no reference names. */
  ghost predicate FirstSeeds(urls: seq<Url>, seeds: seq<Url>, refs: seq<Ref>) {
    var left := Kept(seeds, Unrecorded(refs));
    urls != [] && urls <= left && |urls| == if |left| < 10 then |left| else 10
  }

  /** Distinct URLs of which all are allowed, and all that are allowed unless there are `n`. */
  ghost predicate Fills(urls: seq<Url>, n: nat, allowed: iset<Url>) {
    && urls != [] && |urls| <= n && Distinct(urls)
    && (forall u :: u in urls ==> u in allowed)
    && (|urls| < n ==> forall u :: u in allowed ==> u in urls)
  }

  ghost function LinkedIn(observations: seq<Observation>): iset<Url> {
    iset u | Linked(observations, u)
  }

  /** Supplied web addresses that no reference names. */
  ghost function SuppliedUrls(input: Input, refs: seq<Ref>): iset<Url> {
    iset u | && input.supplied.Some? && u in input.supplied.value && ("http://" <= u || "https://" <= u)
             && !Recorded(refs, u)
  }

  // ---------------------------------------------------------------- which call may follow

  /** What is known once the priority fetch is over. */
  datatype Known = Known(refs: seq<Ref>, observations: seq<Observation>, routing: seq<Observation>, hints: seq<string>)

  ghost function KnownAfter(env: Env, p: Policy, input: Input): Known {
    var a := PriorityPhase(env, p, input);
    Known(input.refs + a.refs, input.observations + a.observations,
          input.observations + a.observations + p.stored(input.refs + a.refs), Hints(p, input, a))
  }

  ghost predicate AnyOpenList(k: Known) {
    exists u :: OpenList(k.refs, u)
  }

  ghost predicate NoneComplete(k: Known) {
    forall o :: o in k.observations ==> !o.complete
  }

  /** Some supplied URL was not processed as a job page. */
  ghost predicate SomeUnprocessed(input: Input, k: Known) {
    input.supplied.Some? && exists u :: u in input.supplied.value
                                        && forall r :: r in k.refs && r.kind == JobPage ==> r.url != Some(u)
  }

  /** Seeds and searches are due. */
  ghost predicate Passed(input: Input, k: Known) {
    if AnyOpenList(k) then !SomeUnprocessed(input, k) else NoneComplete(k)
  }

  /** The URLs in routing results, and if there are none the supplied ones. */
  ghost function DirectlyKnown(input: Input, k: Known): iset<Url> {
    if LinkedIn(k.routing) != iset{} then LinkedIn(k.routing) else SuppliedUrls(input, k.refs)
  }

  ghost predicate MayCall(env: Env, p: Policy, input: Input, k: Known, trace: seq<Event>, call: Call) {
    && (forall r :: r in input.refs ==> !(r.kind == SearchResults && r.completionValid))
    && match call
       case Search(query) =>
         && Before(trace, 4) && Open(env, trace) && Passed(input, k) && input.canSearch && input.searchGoal.Some?
         && |p.strip(input.searchGoal.value)| >= 2
         && Searches(trace) < |Planned(p, input, k.hints)| && query == Planned(p, input, k.hints)[Searches(trace)]
       case Fetch(route, urls) =>
         match route
         case Priority => Before(trace, 0) && FirstSeeds(urls, p.prioritySeeds(input.goal), input.refs)
         case Expand => Before(trace, 1) && Open(env, trace) && Fills(urls, 3, iset u | OpenList(k.refs, u))
         case Results =>
           && Before(trace, 1) && Open(env, trace) && !AnyOpenList(k) && NoneComplete(k)
           && Fills(urls, 10, DirectlyKnown(input, k))
         case Seed =>
           && Before(trace, 2) && Open(env, trace) && Passed(input, k)
           && FirstSeeds(urls, p.trustedSeeds(input.goal, k.routing), input.refs + Persisted(env, [], trace))
         case Found =>
           && trace != [] && Last(trace).Called? && Last(trace).call.Search? && Last(trace).answer.succeeded
           && Open(env, Init(trace)) && Before(trace, 4) && Fills(urls, 10, LinkedIn([Last(trace).answer]))
  }

  /** Every call of these events may follow what comes before its budget grant. */
  ghost predicate Follows(env: Env, p: Policy, input: Input, k: Known, history: seq<Event>, events: seq<Event>) {
    forall i :: 0 <= i < |events| && events[i].Called?
                ==> i >= 1 && MayCall(env, p, input, k, history + events[..i - 1], events[i].call)
  }

  ghost predicate NoneDenied(events: seq<Event>) {
    forall i :: 0 <= i < |events| ==> events[i] != Asked(false)
  }

  // ---------------------------------------------------------------- lists of URLs

  lemma {:induction false} DistinctsHold(s: seq<string>)
    ensures forall u :: u in Distincts(s) <==> u in s
  {
    if s == [] {
    } else {
      DistinctsHold(Init(s));
      assert s == Init(s) + [Last(s)];
    }
  }

  lemma RecordedIs(refs: seq<Ref>)
    ensures forall u :: u in UrlsOf(refs) <==> Recorded(refs, u)
  {
    forall u ensures u in UrlsOf(refs) <==> Recorded(refs, u) {
      if Recorded(refs, u) {
        var r :| r in refs && r.url == Some(u);
        assert r.url.value in UrlsOf(refs);
      }
    }
  }

  lemma SeedsAreFirst(seeds: seq<Url>, refs: seq<Ref>)
    ensures var left := Without(seeds, UrlsOf(refs));
            && (left != [] ==> FirstSeeds(Take(left, 10), seeds, refs))
            && (left == [] ==> forall urls :: !FirstSeeds(urls, seeds, refs))
  {
    RecordedIs(refs);
    var gone := UrlsOf(refs);
    KeptSame(seeds, (u: Url) => u !in gone, Unrecorded(refs));
  }

  ghost predicate InItems(items: seq<seq<Url>>, u: Url) {
    exists item :: item in items && u in item
  }

  lemma {:induction false} CollectFromHolds(urls: seq<Url>, items: seq<seq<Url>>)
    requires Distinct(urls)
    ensures var r := CollectFrom(urls, items);
            && Distinct(r) && (forall u :: u in urls ==> u in r)
            && (forall u :: u in r ==> u in urls || InItems(items, u))
            && (|r| < 10 ==> forall u :: InItems(items, u) ==> u in r)
    decreases |items|
  {
    if items == [] || |urls| >= 10 {
    } else {
      var more := Distincts(urls + items[0]);
      DistinctsAre(urls + items[0]);
      DistinctsHold(urls + items[0]);
      CollectFromHolds(more, items[1..]);
      assert items == [items[0]] + items[1..];
    }
  }

  lemma {:induction false} CollectAllHolds(urls: seq<Url>, observations: seq<Observation>)
    requires Distinct(urls)
    ensures var r := CollectAll(urls, observations);
            && Distinct(r) && (forall u :: u in urls ==> u in r)
            && (forall u :: u in r ==> u in urls || Linked(observations, u))
            && (|r| < 10 ==> forall u :: Linked(observations, u) ==> u in r)
    decreases |observations|
  {
    if observations == [] || |urls| >= 10 {
    } else {
      var o, rest := observations[0], observations[1..];
      CollectFromHolds(urls, o.items);
      CollectAllHolds(CollectFrom(urls, o.items), rest);
      LinkedFirst(observations);
    }
  }

  lemma LinkedFirst(observations: seq<Observation>)
    requires observations != []
    ensures forall u :: Linked(observations, u) <==> InItems(observations[0].items, u) || Linked(observations[1..], u)
  {
    assert observations == [observations[0]] + observations[1..];
  }

  lemma {:induction false} ListUrlsHold(refs: seq<Ref>)
    ensures forall u :: u in ListUrls(refs) <==> OpenList(refs, u)
  {
    if refs == [] {
    } else {
      ListUrlsHold(Init(refs));
      assert refs == Init(refs) + [Last(refs)];
    }
  }

  lemma TakeFills(s: seq<Url>, n: nat, allowed: iset<Url>)
    requires n > 0 && Distinct(s) && (forall u :: u in s ==> u in allowed)
    requires |s| < n ==> forall u :: u in allowed ==> u in s
    ensures s != [] ==> Fills(Take(s, n), n, allowed)
    ensures s == [] ==> forall urls :: !Fills(urls, n, allowed)
  {
    if s == [] {
      forall urls ensures !Fills(urls, n, allowed) {
        assert urls != [] ==> urls[0] in urls;
      }
    }
  }

  lemma FoundFills(answer: Observation)
    ensures var urls := CollectFrom([], answer.items);
            && (urls != [] ==> Fills(Take(urls, 10), 10, LinkedIn([answer])))
            && (urls == [] <==> forall u :: !Linked([answer], u))
  {
    CollectFromHolds([], answer.items);
    LinkedFirst([answer]);
    var urls := CollectFrom([], answer.items);
    TakeFills(urls, 10, LinkedIn([answer]));
    if urls != [] {
      assert urls[0] in urls;
    }
  }

  lemma ExpandFills(refs: seq<Ref>)
    ensures var urls := Take(Distincts(ListUrls(refs)), 3);
            && (urls != [] ==> Fills(Take(urls, 10), 3, iset u | OpenList(refs, u)))
            && (ListUrls(refs) == [] <==> forall u :: !OpenList(refs, u))
            && (urls == [] <==> ListUrls(refs) == [])
  {
    var all := ListUrls(refs);
    DistinctsAre(all);
    DistinctsHold(all);
    ListUrlsHold(refs);
    TakeFills(Distincts(all), 3, iset u | OpenList(refs, u));
    if all != [] {
      assert all[0] in all && all[0] in Distincts(all);
    }
  }

  lemma DirectFills(input: Input, k: Known)
    ensures var urls := DirectUrls(input, k.routing, k.refs);
            && (urls != [] ==> Fills(Take(urls, 10), 10, DirectlyKnown(input, k)))
            && (urls == [] ==> forall us :: !Fills(us, 10, DirectlyKnown(input, k)))
  {
    var linked := CollectAll([], k.routing);
    CollectAllHolds([], k.routing);
    if linked != [] {
      assert linked[0] in linked && linked[0] in LinkedIn(k.routing);
      TakeFills(linked, 10, LinkedIn(k.routing));
    } else {
      assert LinkedIn(k.routing) == iset{};
      SuppliedFills(input, k);
    }
  }

  lemma SuppliedFills(input: Input, k: Known)
    ensures var urls := if input.supplied.None? then []
                        else Take(Distincts(Without(HttpOnly(input.supplied.value), UrlsOf(k.refs))), 10);
            && (urls != [] ==> Fills(Take(urls, 10), 10, SuppliedUrls(input, k.refs)))
            && (urls == [] ==> forall us :: !Fills(us, 10, SuppliedUrls(input, k.refs)))
  {
    if input.supplied.Some? {
      var gone := UrlsOf(k.refs);
      var http := HttpOnly(input.supplied.value);
      var left := Without(http, gone);
      RecordedIs(k.refs);
      KeptAre(input.supplied.value, (u: Url) => IsHttp(u));
      KeptAre(http, (u: Url) => u !in gone);
      DistinctsAre(left);
      DistinctsHold(left);
      TakeFills(Distincts(left), 10, SuppliedUrls(input, k.refs));
    } else {
      TakeFills([], 10, SuppliedUrls(input, k.refs));
    }
  }

  // ---------------------------------------------------------------- how a trace grows

  lemma FollowsConcat(env: Env, p: Policy, input: Input, k: Known, h: seq<Event>, a: seq<Event>, b: seq<Event>)
    requires Follows(env, p, input, k, h, a) && Follows(env, p, input, k, h + a, b)
    ensures Follows(env, p, input, k, h, a + b)
  {
    var all := a + b;
    forall i | 0 <= i < |all| && all[i].Called?
      ensures i >= 1 && MayCall(env, p, input, k, h + all[..i - 1], all[i].call)
    {
      if i < |a| {
        assert all[..i - 1] == a[..i - 1];
      } else {
        assert h + all[..i - 1] == h + a + b[..i - |a| - 1];
      }
    }
  }

  lemma EndsSame(env: Env, h: seq<Event>, more: seq<Event>, i: nat)
    requires i < |h| && h[i].Called?
    ensures Ends(env, h + more, i) <==> Ends(env, h, i)
  {
    assert (h + more)[i] == h[i] && (h + more)[..i + 1] == h[..i + 1];
  }

  lemma OpenPrefix(env: Env, h: seq<Event>, more: seq<Event>)
    requires Open(env, h + more)
    ensures Open(env, h)
  {
    forall i | 0 <= i < |h| && h[i].Called? ensures !Ends(env, h, i) {
      assert (h + more)[i] == h[i];
      EndsSame(env, h, more, i);
    }
  }

  lemma BeforePrefix(h: seq<Event>, more: seq<Event>, stage: nat)
    requires Before(h + more, stage)
    ensures Before(h, stage) && Before(more, stage)
  {
    var all := h + more;
    forall i | 0 <= i < |h| && h[i].Called? ensures Rank(h[i].call) < stage {
      assert all[i] == h[i];
    }
    forall i | 0 <= i < |more| && more[i].Called? ensures Rank(more[i].call) < stage {
      assert all[|h| + i] == more[i];
    }
  }

  lemma BeforeConcat(h: seq<Event>, more: seq<Event>, stage: nat)
    requires Before(h, stage) && Before(more, stage)
    ensures Before(h + more, stage)
  {}

  lemma OpenConcat(env: Env, h: seq<Event>, more: seq<Event>)
    requires Open(env, h)
    requires forall i :: 0 <= i < |more| && more[i].Called? ==> !Ends(env, h + more, |h| + i)
    ensures Open(env, h + more)
  {
    var all := h + more;
    forall i | 0 <= i < |all| && all[i].Called? ensures !Ends(env, all, i) {
      if i < |h| {
        EndsSame(env, h, more, i);
      } else {
        assert all[i] == more[i - |h|];
      }
    }
  }

  // ---------------------------------------------------------------- one fetch

  /** What the answer of a fetch phase ends. */
  predicate Halts(route: Route, ph: Phase) {
    match route
    case Priority => AnyBlocked(ph.observations) || AnyJd(ph.refs)
    case Expand => AnyBlocked(ph.observations) || AnyJd(ph.refs)
    case Results => AnyComplete(ph.observations)
    case Seed => AnyBlocked(ph.observations) || AnyComplete(ph.observations)
    case Found => ph.observations != []
  }

  /** A fetch phase makes no call, or one, which ends the recovery exactly when its answer says so. */
  lemma FetchShows(env: Env, h: seq<Event>, route: Route, urls: seq<Url>)
    ensures var ph := FetchPhase(env, h, route, urls);
            && Before(ph.events, Rank(Fetch(route, urls)) + 1)
            && (Open(env, h) && !Halts(route, ph) ==> Open(env, h + ph.events))
            && (Halts(route, ph) ==> !Open(env, h + ph.events))
            && (urls != [] && NoneDenied(ph.events) ==> !Before(ph.events, Rank(Fetch(route, urls))))
            && (ph.observations != [] ==> Last(ph.events).Called? && Last(ph.events).call.Fetch? && ph.events != [])
            && (ph.observations == [] ==> forall i :: 0 <= i < |ph.events| ==> !ph.events[i].Called?)
            && (urls == [] ==> ph.events == [])
  {
    var ph := FetchPhase(env, h, route, urls);
    if urls != [] && env.grants(h) {
      var call := Fetch(route, Take(urls, 10));
      var answer := env.answers(h + [Asked(true)], call);
      assert ph.events == [Asked(true), Called(call, answer)] && ph.observations == [answer];
      FetchEnds(env, h, route, call, answer, ph);
    } else {
      assert h + [] == h;
      assert forall i :: 0 <= i < |ph.events| ==> !ph.events[i].Called?;
      if Open(env, h) {
        OpenConcat(env, h, ph.events);
      }
      assert urls != [] ==> ph.events[0] == Asked(false);
    }
  }

  lemma FetchEnds(env: Env, h: seq<Event>, route: Route, call: Call, answer: Observation, ph: Phase)
    requires call.Fetch? && call.route == route && ph.events == [Asked(true), Called(call, answer)]
    requires ph.observations == [answer]
    requires ph.refs == if answer.succeeded then env.persists(h + ph.events, answer) else []
    ensures Open(env, h) && !Halts(route, ph) ==> Open(env, h + ph.events)
    ensures Halts(route, ph) ==> !Open(env, h + ph.events)
    ensures !Before(ph.events, Rank(call))
  {
    var all, n := h + ph.events, |h| + 1;
    assert all[n] == Called(call, answer) && all[..n + 1] == all && ph.events[1] == Called(call, answer);
    assert answer in ph.observations;
    assert Ends(env, all, n) <==> Halts(route, ph);
    if Open(env, h) && !Halts(route, ph) {
      OpenConcat(env, h, ph.events);
    }
  }

  lemma FetchFollows(env: Env, p: Policy, input: Input, k: Known, h: seq<Event>, route: Route, urls: seq<Url>)
    requires urls != [] ==> MayCall(env, p, input, k, h, Fetch(route, Take(urls, 10)))
    ensures Follows(env, p, input, k, h, FetchPhase(env, h, route, urls).events)
  {
    var events := FetchPhase(env, h, route, urls).events;
    forall i | 0 <= i < |events| && events[i].Called?
      ensures i >= 1 && MayCall(env, p, input, k, h + events[..i - 1], events[i].call)
    {
      assert h + events[..0] == h;
    }
  }

  // ---------------------------------------------------------------- when nothing more may follow

  ghost predicate Bars(env: Env, p: Policy, input: Input, k: Known, trace: seq<Event>, route: Route) {
    forall urls :: !MayCall(env, p, input, k, trace, Fetch(route, urls))
  }

  ghost predicate BarsSearch(env: Env, p: Policy, input: Input, k: Known, trace: seq<Event>) {
    forall query :: !MayCall(env, p, input, k, trace, Search(query))
  }

  lemma ClosedBars(env: Env, p: Policy, input: Input, k: Known, trace: seq<Event>)
    requires !Open(env, trace)
    ensures BarsSearch(env, p, input, k, trace)
    ensures Bars(env, p, input, k, trace, Expand) && Bars(env, p, input, k, trace, Results)
    ensures Bars(env, p, input, k, trace, Seed)
  {}

  /** While the trace is open, its last search found nothing to fetch. */
  lemma OpenBarsFound(env: Env, p: Policy, input: Input, k: Known, trace: seq<Event>)
    requires Open(env, trace)
    ensures Bars(env, p, input, k, trace, Found)
  {
    forall urls ensures !MayCall(env, p, input, k, trace, Fetch(Found, urls)) {
      if trace != [] && Last(trace).Called? && Last(trace).call.Search? {
        assert !Ends(env, trace, |trace| - 1);
        assert urls != [] ==> urls[0] in urls;
      }
    }
  }

  lemma NoSearchBarsFound(env: Env, p: Policy, input: Input, k: Known, trace: seq<Event>)
    requires trace != [] ==> !(Last(trace).Called? && Last(trace).call.Search? && Last(trace).answer.succeeded)
    ensures Bars(env, p, input, k, trace, Found)
  {}

  // ---------------------------------------------------------------- searching

  /** Searches are due and can be made. */
  ghost predicate Due(p: Policy, input: Input, k: Known) {
    && (forall r :: r in input.refs ==> !(r.kind == SearchResults && r.completionValid))
    && Passed(input, k) && input.canSearch && input.searchGoal.Some? && |p.strip(input.searchGoal.value)| >= 2
  }

  lemma OneSearch(env: Env, p: Policy, input: Input, k: Known, h: seq<Event>, call: Call, answer: Observation)
    requires call.Search? && Before(h, 4) && Open(env, h) && MayCall(env, p, input, k, h, call)
    ensures var events := [Asked(true), Called(call, answer)];
            && Follows(env, p, input, k, h, events) && Before(h + events, 4)
            && Searches(h + events) == Searches(h) + 1
            && Init(h + events) == h + [Asked(true)] && Open(env, h + [Asked(true)])
            && (Open(env, h + events) <==> answer.succeeded && forall u :: !Linked([answer], u))
  {
    var events := [Asked(true), Called(call, answer)];
    var all, n := h + events, |h| + 1;
    assert all[n] == Called(call, answer) && all[..n + 1] == all;
    assert Init(events) == [Asked(true)] && Init([Asked(true)]) == [] && Queried([Asked(true)]) == [];
    QueriedAdds(h, events);
    BeforeConcat(h, events, 4);
    OpenConcat(env, h, [Asked(true)]);
    if answer.succeeded && forall u :: !Linked([answer], u) {
      OpenConcat(env, h, events);
    }
    assert h + events[..0] == h;
  }

  lemma RoundFollows(env: Env, p: Policy, input: Input, k: Known, h: seq<Event>, query: string)
    requires Before(h, 4) && Open(env, h) && MayCall(env, p, input, k, h, Search(query))
    ensures var (ends, round) := SearchRound(env, h, query);
            var after := h + round.events;
            && Follows(env, p, input, k, h, round.events)
            && (!ends ==> Open(env, after) && Before(after, 4) && Searches(after) == Searches(h) + 1)
            && (ends && NoneDenied(round.events) ==> !Open(env, after) && Bars(env, p, input, k, after, Found))
  {
    var (ends, round) := SearchRound(env, h, query);
    if env.grants(h) {
      var call := Search(query);
      var answer := env.answers(h + [Asked(true)], call);
      var events := [Asked(true), Called(call, answer)];
      var urls := CollectFrom([], answer.items);
      OneSearch(env, p, input, k, h, call, answer);
      FoundFills(answer);
      if !answer.succeeded {
        NoSearchBarsFound(env, p, input, k, h + events);
      } else if urls != [] {
        FoundFollows(env, p, input, k, h, events, answer);
      }
    } else {
      assert round.events == [Asked(false)] && round.events[0] == Asked(false);
    }
  }

  lemma FoundFollows(env: Env, p: Policy, input: Input, k: Known, h: seq<Event>, events: seq<Event>,
                     answer: Observation)
    requires |events| == 2 && events[1].Called? && events[1].call.Search? && events[1].answer == answer
    requires answer.succeeded && CollectFrom([], answer.items) != []
    requires Follows(env, p, input, k, h, events) && Before(h + events, 4) && !Open(env, h + events)
    requires Open(env, Init(h + events))
    requires forall r :: r in input.refs ==> !(r.kind == SearchResults && r.completionValid)
    ensures var f := FetchPhase(env, h + events, Found, CollectFrom([], answer.items));
            && Follows(env, p, input, k, h, events + f.events)
            && !Open(env, h + (events + f.events))
            && (NoneDenied(events + f.events) ==> Bars(env, p, input, k, h + (events + f.events), Found))
  {
    var urls := CollectFrom([], answer.items);
    var before := h + events;
    var f := FetchPhase(env, before, Found, urls);
    assert Last(before) == events[1];
    FoundFills(answer);
    FetchFollows(env, p, input, k, before, Found, urls);
    FollowsConcat(env, p, input, k, h, events, f.events);
    FetchShows(env, before, Found, urls);
    assert h + (events + f.events) == before + f.events;
    if Open(env, before + f.events) {
      OpenPrefix(env, before, f.events);
    }
    assert !env.grants(before) ==> (events + f.events)[2] == Asked(false);
    if NoneDenied(events + f.events) {
      FoundIsMade(env, before, urls);
      NoSearchBarsFound(env, p, input, k, before + f.events);
    }
  }

  lemma FoundIsMade(env: Env, before: seq<Event>, urls: seq<Url>)
    requires urls != [] && env.grants(before)
    ensures var events := FetchPhase(env, before, Found, urls).events;
            events != [] && Last(before + events).Called? && Last(before + events).call.Fetch?
  {}

  lemma NoneDeniedConcat(a: seq<Event>, b: seq<Event>)
    requires NoneDenied(a + b)
    ensures NoneDenied(a) && NoneDenied(b)
  {
    forall i | 0 <= i < |a| ensures a[i] != Asked(false) {
      assert (a + b)[i] == a[i];
    }
    forall i | 0 <= i < |b| ensures b[i] != Asked(false) {
      assert (a + b)[|a| + i] == b[i];
    }
  }

  lemma NextPlanned(planned: seq<string>, n: nat, queries: seq<string>)
    requires n <= |planned| && queries == planned[n..] && queries != []
    ensures n < |planned| && queries[0] == planned[n] && queries[1..] == planned[n + 1..]
  {}

  /** No search and no fetch of what one found may follow, unless a budget request was denied. */
  ghost predicate SearchedOut(env: Env, p: Policy, input: Input, k: Known, h: seq<Event>, events: seq<Event>) {
    NoneDenied(events) ==> BarsSearch(env, p, input, k, h + events) && Bars(env, p, input, k, h + events, Found)
  }

  lemma SearchesGoOn(env: Env, p: Policy, input: Input, k: Known, h: seq<Event>, a: seq<Event>, b: seq<Event>)
    requires Follows(env, p, input, k, h, a) && Follows(env, p, input, k, h + a, b)
    requires SearchedOut(env, p, input, k, h + a, b)
    ensures Follows(env, p, input, k, h, a + b) && SearchedOut(env, p, input, k, h, a + b)
  {
    FollowsConcat(env, p, input, k, h, a, b);
    assert h + (a + b) == h + a + b;
    if NoneDenied(a + b) {
      NoneDeniedConcat(a, b);
    }
  }

  lemma {:induction false} LoopFollows(env: Env, p: Policy, input: Input, k: Known, h: seq<Event>,
                                       queries: seq<string>)
    requires Before(h, 4) && Open(env, h) && Due(p, input, k)
    requires Searches(h) <= |Planned(p, input, k.hints)| && queries == Planned(p, input, k.hints)[Searches(h)..]
    ensures var events := SearchLoop(env, h, queries).events;
            Follows(env, p, input, k, h, events) && SearchedOut(env, p, input, k, h, events)
    decreases |queries|
  {
    if queries == [] {
      assert h + [] == h;
      OpenBarsFound(env, p, input, k, h);
    } else {
      var (ends, round) := SearchRound(env, h, queries[0]);
      NextPlanned(Planned(p, input, k.hints), Searches(h), queries);
      RoundFollows(env, p, input, k, h, queries[0]);
      if ends {
        if NoneDenied(round.events) {
          ClosedBars(env, p, input, k, h + round.events);
        }
      } else {
        LoopFollows(env, p, input, k, h + round.events, queries[1..]);
        SearchesGoOn(env, p, input, k, h, round.events, SearchLoop(env, h + round.events, queries[1..]).events);
      }
    }
  }

  lemma {:induction false} NoSearchYet(h: seq<Event>)
    requires Before(h, 3)
    ensures Searches(h) == 0
  {
    if h == [] {
    } else {
      BeforePrefix(Init(h), [Last(h)], 3);
      assert h == Init(h) + [Last(h)];
      NoSearchYet(Init(h));
    }
  }

  lemma SearchesFollow(env: Env, p: Policy, input: Input, k: Known, h: seq<Event>)
    requires Before(h, 3) && Open(env, h) && Passed(input, k)
    requires forall r :: r in input.refs ==> !(r.kind == SearchResults && r.completionValid)
    ensures var events := SearchPhase(env, p, input, h, k.hints).events;
            Follows(env, p, input, k, h, events) && SearchedOut(env, p, input, k, h, events)
  {
    NoSearchYet(h);
    if Due(p, input, k) {
      assert Planned(p, input, k.hints)[0..] == Planned(p, input, k.hints);
      LoopFollows(env, p, input, k, h, Planned(p, input, k.hints));
    } else {
      assert h + [] == h;
      OpenBarsFound(env, p, input, k, h);
    }
  }

  /** The calls of a search phase are searches and the fetch of what they found. */
  lemma {:induction false} LoopIsLate(env: Env, h: seq<Event>, queries: seq<string>, i: nat)
    requires i < |SearchLoop(env, h, queries).events| && SearchLoop(env, h, queries).events[i].Called?
    ensures Rank(SearchLoop(env, h, queries).events[i].call) >= 3
    decreases |queries|
  {
    var (ends, round) := SearchRound(env, h, queries[0]);
    if !ends && i >= |round.events| {
      LoopIsLate(env, h + round.events, queries[1..], i - |round.events|);
    }
  }

  // ---------------------------------------------------------------- seeds

  /** What bars the seeds bars them later, when only searches and what they found come after. */
  lemma SeedStaysBarred(env: Env, p: Policy, input: Input, k: Known, h: seq<Event>, more: seq<Event>)
    requires Bars(env, p, input, k, h, Seed)
    requires forall i :: 0 <= i < |more| && more[i].Called? ==> Rank(more[i].call) >= 3
    ensures Bars(env, p, input, k, h + more, Seed)
  {
    forall urls ensures !MayCall(env, p, input, k, h + more, Fetch(Seed, urls)) {
      if MayCall(env, p, input, k, h + more, Fetch(Seed, urls)) {
        BeforePrefix(h, more, 2);
        OpenPrefix(env, h, more);
        PersistedSame(env, h, more);
      }
    }
  }

  lemma {:induction false} NoCallNoRefs(env: Env, h: seq<Event>, more: seq<Event>)
    requires forall i :: 0 <= i < |more| ==> !more[i].Called?
    ensures Persisted(env, h, more) == []
  {
    if more == [] {
    } else {
      NoCallNoRefs(env, h, Init(more));
    }
  }

  lemma PersistedSame(env: Env, h: seq<Event>, more: seq<Event>)
    requires forall i :: 0 <= i < |more| ==> !more[i].Called?
    ensures Persisted(env, [], h + more) == Persisted(env, [], h)
  {
    NoCallNoRefs(env, h, more);
    PersistedConcat(env, [], h, more);
    assert [] + h == h;
  }

  /** The seed fetch and the searches after it. */
  lemma SearchesFollowSeeds(env: Env, p: Policy, input: Input, k: Known, h: seq<Event>, c: seq<Event>)
    requires Follows(env, p, input, k, h, c) && Before(h, 2) && Before(c, 3) && Open(env, h + c) && Passed(input, k)
    requires forall r :: r in input.refs ==> !(r.kind == SearchResults && r.completionValid)
    requires NoneDenied(c) ==> Bars(env, p, input, k, h + c, Seed)
    ensures var events := c + SearchPhase(env, p, input, h + c, k.hints).events;
            && Follows(env, p, input, k, h, events)
            && (NoneDenied(events) ==>
                  && Bars(env, p, input, k, h + events, Seed) && BarsSearch(env, p, input, k, h + events)
                  && Bars(env, p, input, k, h + events, Found))
  {
    var rest := SearchPhase(env, p, input, h + c, k.hints).events;
    BeforeConcat(h, c, 3);
    SearchesFollow(env, p, input, k, h + c);
    FollowsConcat(env, p, input, k, h, c, rest);
    assert h + (c + rest) == h + c + rest;
    if NoneDenied(c + rest) {
      NoneDeniedConcat(c, rest);
      forall i | 0 <= i < |rest| && rest[i].Called? ensures Rank(rest[i].call) >= 3 {
        LoopIsLate(env, h + c, Planned(p, input, k.hints), i);
      }
      SeedStaysBarred(env, p, input, k, h + c, rest);
    }
  }

  lemma SeedsFollow(env: Env, p: Policy, input: Input, k: Known, h: seq<Event>, known: seq<Ref>)
    requires Before(h, 2) && Open(env, h) && Passed(input, k) && known == input.refs + Persisted(env, [], h)
    requires forall r :: r in input.refs ==> !(r.kind == SearchResults && r.completionValid)
    ensures var events := SeedThenSearch(env, p, input, h, k.routing, known, k.hints).events;
            && Follows(env, p, input, k, h, events)
            && (NoneDenied(events) ==>
                  && Bars(env, p, input, k, h + events, Seed) && BarsSearch(env, p, input, k, h + events)
                  && Bars(env, p, input, k, h + events, Found))
  {
    var all := p.trustedSeeds(input.goal, k.routing);
    var seeds := Without(all, UrlsOf(known));
    var c := FetchPhase(env, h, Seed, seeds);
    SeedsAreFirst(all, known);
    FetchFollows(env, p, input, k, h, Seed, seeds);
    FetchShows(env, h, Seed, seeds);
    if NoneDenied(c.events) {
      SeedIsBarred(env, p, input, k, h, seeds, known);
    }
    if AnyComplete(c.observations) || AnyBlocked(c.observations) {
      ClosedBars(env, p, input, k, h + c.events);
      LastFetchBarsFound(env, p, input, k, h, c.events);
    } else {
      SearchesFollowSeeds(env, p, input, k, h, c.events);
    }
  }

  lemma LastFetchBarsFound(env: Env, p: Policy, input: Input, k: Known, h: seq<Event>, events: seq<Event>)
    requires events != [] && Last(events).Called? && Last(events).call.Fetch?
    ensures Bars(env, p, input, k, h + events, Found)
  {
    assert Last(h + events) == Last(events);
  }

  lemma SeedIsBarred(env: Env, p: Policy, input: Input, k: Known, h: seq<Event>, seeds: seq<Url>, known: seq<Ref>)
    requires known == input.refs + Persisted(env, [], h)
    requires seeds == Without(p.trustedSeeds(input.goal, k.routing), UrlsOf(known))
    requires NoneDenied(FetchPhase(env, h, Seed, seeds).events)
    ensures Bars(env, p, input, k, h + FetchPhase(env, h, Seed, seeds).events, Seed)
  {
    var events := FetchPhase(env, h, Seed, seeds).events;
    SeedsAreFirst(p.trustedSeeds(input.goal, k.routing), known);
    FetchShows(env, h, Seed, seeds);
    if seeds == [] {
      assert h + events == h;
    } else {
      forall urls ensures !MayCall(env, p, input, k, h + events, Fetch(Seed, urls)) {
        if Before(h + events, 2) {
          BeforePrefix(h, events, 2);
        }
      }
    }
  }

  // ---------------------------------------------------------------- the two routes

  /** A fetch of an earlier stage than the seeds is barred once it was made, or has nothing to fetch. */
  lemma EarlyIsBarred(env: Env, p: Policy, input: Input, k: Known, h: seq<Event>, route: Route, urls: seq<Url>)
    requires route == Priority || route == Expand || route == Results
    requires urls != [] || Bars(env, p, input, k, h, route)
    requires NoneDenied(FetchPhase(env, h, route, urls).events)
    ensures Bars(env, p, input, k, h + FetchPhase(env, h, route, urls).events, route)
  {
    var events := FetchPhase(env, h, route, urls).events;
    FetchShows(env, h, route, urls);
    if urls == [] {
      assert h + events == h;
    } else {
      forall us ensures !MayCall(env, p, input, k, h + events, Fetch(route, us)) {
        if Before(h + events, Rank(Fetch(route, us))) {
          BeforePrefix(h, events, Rank(Fetch(route, us)));
        }
      }
    }
  }

  /** What bars an early stage bars it for good. */
  lemma EarlyStaysBarred(env: Env, p: Policy, input: Input, k: Known, h: seq<Event>, more: seq<Event>, route: Route)
    requires route == Priority || route == Expand || route == Results
    requires Bars(env, p, input, k, h, route)
    ensures Bars(env, p, input, k, h + more, route)
  {
    forall urls ensures !MayCall(env, p, input, k, h + more, Fetch(route, urls)) {
      if MayCall(env, p, input, k, h + more, Fetch(route, urls)) {
        BeforePrefix(h, more, Rank(Fetch(route, urls)));
        if route != Priority {
          OpenPrefix(env, h, more);
        }
      }
    }
  }

  /** Only the priority fetch may still follow, if that. */
  ghost predicate BarsRest(env: Env, p: Policy, input: Input, k: Known, trace: seq<Event>) {
    && Bars(env, p, input, k, trace, Expand) && Bars(env, p, input, k, trace, Results)
    && Bars(env, p, input, k, trace, Seed) && BarsSearch(env, p, input, k, trace)
    && Bars(env, p, input, k, trace, Found)
  }

  /** These events follow the rules, and leave nothing to follow unless a budget request was denied. */
  ghost predicate Finishes(env: Env, p: Policy, input: Input, k: Known, h: seq<Event>, events: seq<Event>) {
    Follows(env, p, input, k, h, events) && (NoneDenied(events) ==> BarsRest(env, p, input, k, h + events))
  }

  lemma ExpandFollows(env: Env, p: Policy, input: Input, k: Known, h: seq<Event>)
    requires Before(h, 1) && Open(env, h) && AnyOpenList(k) && k.refs == input.refs + Persisted(env, [], h)
    requires forall r :: r in input.refs ==> !(r.kind == SearchResults && r.completionValid)
    ensures var b := FetchPhase(env, h, Expand, Take(Distincts(ListUrls(k.refs)), 3));
            && Follows(env, p, input, k, h, b.events) && Before(h + b.events, 2)
            && (NoneDenied(b.events) ==> Bars(env, p, input, k, h + b.events, Expand))
            && (Halts(Expand, b) ==> BarsRest(env, p, input, k, h + b.events))
            && (!Halts(Expand, b) ==> Open(env, h + b.events))
            && k.refs + b.refs == input.refs + Persisted(env, [], h + b.events)
  {
    var urls := Take(Distincts(ListUrls(k.refs)), 3);
    var b := FetchPhase(env, h, Expand, urls);
    ExpandFills(k.refs);
    assert urls != [];
    FetchFollows(env, p, input, k, h, Expand, urls);
    FetchShows(env, h, Expand, urls);
    BeforeConcat(h, b.events, 2);
    if NoneDenied(b.events) {
      EarlyIsBarred(env, p, input, k, h, Expand, urls);
    }
    if Halts(Expand, b) {
      ClosedBars(env, p, input, k, h + b.events);
      LastFetchBarsFound(env, p, input, k, h, b.events);
    }
    RefsAfter(env, input, k, h, Expand, urls);
  }

  lemma RefsAfter(env: Env, input: Input, k: Known, h: seq<Event>, route: Route, urls: seq<Url>)
    requires k.refs == input.refs + Persisted(env, [], h)
    ensures var f := FetchPhase(env, h, route, urls);
            k.refs + f.refs == input.refs + Persisted(env, [], h + f.events)
  {
    var f := FetchPhase(env, h, route, urls);
    FetchReports(env, h, route, urls);
    PersistedConcat(env, [], h, f.events);
    assert [] + h == h;
    ConcatAssociates(input.refs, Persisted(env, [], h), f.refs);
  }

  lemma LeftIsUnprocessed(input: Input, k: Known)
    ensures SuppliedLeft(input, k.refs) <==> SomeUnprocessed(input, k)
  {
    forall u ensures u in PagesOf(k.refs) <==> exists r :: r in k.refs && r.kind == JobPage && r.url == Some(u) {
      if r :| r in k.refs && r.kind == JobPage && r.url == Some(u) {
        assert r.url.value in PagesOf(k.refs);
      }
    }
  }

  ghost function ListEvents(env: Env, p: Policy, input: Input, k: Known, h: seq<Event>, b: Phase): seq<Event> {
    if Halts(Expand, b) || SomeUnprocessed(input, k) then b.events
    else b.events + SeedThenSearch(env, p, input, h + b.events, k.routing, k.refs + b.refs, k.hints).events
  }

  lemma ListRouteIs(env: Env, p: Policy, input: Input, k: Known, h: seq<Event>)
    ensures var b := FetchPhase(env, h, Expand, Take(Distincts(ListUrls(k.refs)), 3));
            ListRoute(env, p, input, h, k.routing, k.refs, k.hints).events == ListEvents(env, p, input, k, h, b)
  {
    LeftIsUnprocessed(input, k);
  }

  /** An early fetch and what follows it, when list pages bar the direct fetch or the other way round. */
  lemma RestFollows(env: Env, p: Policy, input: Input, k: Known, h: seq<Event>, b: seq<Event>, rest: seq<Event>)
    requires Follows(env, p, input, k, h, b) && Follows(env, p, input, k, h + b, rest)
    requires NoneDenied(b) ==> Bars(env, p, input, k, h + b, Expand) && Bars(env, p, input, k, h + b, Results)
    requires NoneDenied(rest) ==>
               && Bars(env, p, input, k, h + b + rest, Seed) && BarsSearch(env, p, input, k, h + b + rest)
               && Bars(env, p, input, k, h + b + rest, Found)
    ensures Finishes(env, p, input, k, h, b + rest)
  {
    FollowsConcat(env, p, input, k, h, b, rest);
    assert h + (b + rest) == h + b + rest;
    if NoneDenied(b + rest) {
      NoneDeniedConcat(b, rest);
      EarlyStaysBarred(env, p, input, k, h + b, rest, Expand);
      EarlyStaysBarred(env, p, input, k, h + b, rest, Results);
    }
  }

  /** Seeds and searches after an early fetch that left the trace open. */
  lemma SeedsFollowFetch(env: Env, p: Policy, input: Input, k: Known, h: seq<Event>, b: Phase)
    requires Follows(env, p, input, k, h, b.events) && Before(h + b.events, 2) && Open(env, h + b.events)
    requires Passed(input, k) && k.refs + b.refs == input.refs + Persisted(env, [], h + b.events)
    requires forall r :: r in input.refs ==> !(r.kind == SearchResults && r.completionValid)
    requires NoneDenied(b.events) ==>
               Bars(env, p, input, k, h + b.events, Expand) && Bars(env, p, input, k, h + b.events, Results)
    ensures var rest := SeedThenSearch(env, p, input, h + b.events, k.routing, k.refs + b.refs, k.hints).events;
            Finishes(env, p, input, k, h, b.events + rest)
  {
    var rest := SeedThenSearch(env, p, input, h + b.events, k.routing, k.refs + b.refs, k.hints).events;
    SeedsFollow(env, p, input, k, h + b.events, k.refs + b.refs);
    RestFollows(env, p, input, k, h, b.events, rest);
  }

  /** After the expansion `b` of list pages. */
  lemma GoesOnFromList(env: Env, p: Policy, input: Input, k: Known, h: seq<Event>, b: Phase)
    requires Follows(env, p, input, k, h, b.events) && Before(h + b.events, 2) && AnyOpenList(k)
    requires k.refs + b.refs == input.refs + Persisted(env, [], h + b.events)
    requires forall r :: r in input.refs ==> !(r.kind == SearchResults && r.completionValid)
    requires NoneDenied(b.events) ==> Bars(env, p, input, k, h + b.events, Expand)
    requires if Halts(Expand, b) then BarsRest(env, p, input, k, h + b.events) else Open(env, h + b.events)
    ensures Finishes(env, p, input, k, h, ListEvents(env, p, input, k, h, b))
  {
    if Halts(Expand, b) {
    } else if SomeUnprocessed(input, k) {
      OpenBarsFound(env, p, input, k, h + b.events);
    } else {
      SeedsFollowFetch(env, p, input, k, h, b);
    }
  }

  lemma ListRouteFollows(env: Env, p: Policy, input: Input, k: Known, h: seq<Event>)
    requires Before(h, 1) && Open(env, h) && AnyOpenList(k) && k.refs == input.refs + Persisted(env, [], h)
    requires forall r :: r in input.refs ==> !(r.kind == SearchResults && r.completionValid)
    ensures Finishes(env, p, input, k, h, ListRoute(env, p, input, h, k.routing, k.refs, k.hints).events)
  {
    ExpandFollows(env, p, input, k, h);
    ListRouteIs(env, p, input, k, h);
    GoesOnFromList(env, p, input, k, h, FetchPhase(env, h, Expand, Take(Distincts(ListUrls(k.refs)), 3)));
  }

  lemma DirectFollows(env: Env, p: Policy, input: Input, k: Known, h: seq<Event>)
    requires Before(h, 1) && Open(env, h) && !AnyOpenList(k) && NoneComplete(k)
    requires k.refs == input.refs + Persisted(env, [], h)
    requires forall r :: r in input.refs ==> !(r.kind == SearchResults && r.completionValid)
    ensures var f := FetchPhase(env, h, Results, DirectUrls(input, k.routing, k.refs));
            && Follows(env, p, input, k, h, f.events) && Before(h + f.events, 2)
            && (NoneDenied(f.events) ==> Bars(env, p, input, k, h + f.events, Results))
            && Bars(env, p, input, k, h + f.events, Expand)
            && (Halts(Results, f) ==> BarsRest(env, p, input, k, h + f.events))
            && (!Halts(Results, f) ==> Open(env, h + f.events))
            && k.refs + f.refs == input.refs + Persisted(env, [], h + f.events)
  {
    var urls := DirectUrls(input, k.routing, k.refs);
    var f := FetchPhase(env, h, Results, urls);
    DirectFills(input, k);
    FetchFollows(env, p, input, k, h, Results, urls);
    FetchShows(env, h, Results, urls);
    BeforeConcat(h, f.events, 2);
    ExpandBarred(env, p, input, k, h + f.events);
    if NoneDenied(f.events) {
      EarlyIsBarred(env, p, input, k, h, Results, urls);
    }
    if Halts(Results, f) {
      ClosedBars(env, p, input, k, h + f.events);
      LastFetchBarsFound(env, p, input, k, h, f.events);
    }
    RefsAfter(env, input, k, h, Results, urls);
  }

  lemma DirectRouteFollows(env: Env, p: Policy, input: Input, k: Known, h: seq<Event>)
    requires Before(h, 1) && Open(env, h) && !AnyOpenList(k) && NoneComplete(k)
    requires k.refs == input.refs + Persisted(env, [], h)
    requires forall r :: r in input.refs ==> !(r.kind == SearchResults && r.completionValid)
    ensures Finishes(env, p, input, k, h, DirectRoute(env, p, input, h, k.routing, k.refs, k.hints).events)
  {
    var urls := DirectUrls(input, k.routing, k.refs);
    var f := FetchPhase(env, h, Results, urls);
    DirectFollows(env, p, input, k, h);
    if urls == [] {
      DirectSkipped(env, p, input, k, h);
    }
    if !Halts(Results, f) {
      SeedsFollowFetch(env, p, input, k, h, f);
    }
  }

  lemma ExpandBarred(env: Env, p: Policy, input: Input, k: Known, trace: seq<Event>)
    requires !AnyOpenList(k)
    ensures Bars(env, p, input, k, trace, Expand)
  {
    forall urls ensures !MayCall(env, p, input, k, trace, Fetch(Expand, urls)) {
      assert urls != [] ==> urls[0] in urls;
    }
  }

  lemma DirectSkipped(env: Env, p: Policy, input: Input, k: Known, h: seq<Event>)
    requires DirectUrls(input, k.routing, k.refs) == []
    ensures var f := FetchPhase(env, h, Results, []);
            DirectRoute(env, p, input, h, k.routing, k.refs, k.hints).events ==
            f.events + SeedThenSearch(env, p, input, h + f.events, k.routing, k.refs + f.refs, k.hints).events
  {
    assert h + [] == h && k.refs + [] == k.refs;
  }

  // ---------------------------------------------------------------- the whole recovery

  lemma KnownIs(env: Env, p: Policy, input: Input)
    ensures var a, k := PriorityPhase(env, p, input), KnownAfter(env, p, input);
            && k.refs == input.refs + Persisted(env, [], a.events)
            && (ListUrls(k.refs) != [] <==> AnyOpenList(k))
            && (AnyComplete(input.observations + a.observations) <==> !NoneComplete(k))
  {
    FetchReports(env, [], Priority, Without(p.prioritySeeds(input.goal), UrlsOf(input.refs)));
    ExpandFills(KnownAfter(env, p, input).refs);
  }

  lemma RestOfRecovery(env: Env, p: Policy, input: Input)
    requires var a := PriorityPhase(env, p, input);
             !Proven(input.refs) && !PriorityEnds(a) && Before(a.events, 1) && Open(env, a.events)
    ensures var a, k := PriorityPhase(env, p, input), KnownAfter(env, p, input);
            Finishes(env, p, input, k, a.events, AfterPriority(env, p, input, a).events)
  {
    var a, k := PriorityPhase(env, p, input), KnownAfter(env, p, input);
    KnownIs(env, p, input);
    if ListUrls(k.refs) != [] {
      ListRouteFollows(env, p, input, k, a.events);
    } else if AnyComplete(input.observations + a.observations) {
      assert a.events + [] == a.events;
      ExpandBarred(env, p, input, k, a.events);
      OpenBarsFound(env, p, input, k, a.events);
    } else {
      DirectRouteFollows(env, p, input, k, a.events);
    }
  }

  /** A recovery makes only calls that may follow what came before, and when no budget request was denied
      it ends only where no call may follow any more. */
  lemma RecoveryFollowsRules(env: Env, p: Policy, input: Input)
    ensures var events, k := Recover(env, p, input).events, KnownAfter(env, p, input);
            && Follows(env, p, input, k, [], events)
            && (NoneDenied(events) ==> forall call :: !MayCall(env, p, input, k, events, call))
  {
    if Proven(input.refs) {
      ProofBars(env, p, input, KnownAfter(env, p, input));
    } else {
      PriorityFollows(env, p, input);
      if NoneDenied(Recover(env, p, input).events) {
        AllBarred(env, p, input, KnownAfter(env, p, input), Recover(env, p, input).events);
      }
    }
  }

  lemma ProofBars(env: Env, p: Policy, input: Input, k: Known)
    requires Proven(input.refs)
    ensures forall call :: !MayCall(env, p, input, k, [], call)
  {
    var r :| r in input.refs && r.kind == SearchResults && r.completionValid;
  }

  lemma AllBarred(env: Env, p: Policy, input: Input, k: Known, trace: seq<Event>)
    requires Bars(env, p, input, k, trace, Priority) && BarsRest(env, p, input, k, trace)
    ensures forall call :: !MayCall(env, p, input, k, trace, call)
  {
    forall call ensures !MayCall(env, p, input, k, trace, call) {
      match call
      case Search(query) => assert !MayCall(env, p, input, k, trace, Search(query));
      case Fetch(route, urls) =>
        assert Bars(env, p, input, k, trace, route);
        assert !MayCall(env, p, input, k, trace, Fetch(route, urls));
    }
  }

  lemma PriorityFollows(env: Env, p: Policy, input: Input)
    requires !Proven(input.refs)
    ensures var events, k := Recover(env, p, input).events, KnownAfter(env, p, input);
            && Follows(env, p, input, k, [], events)
            && (NoneDenied(events) ==> Bars(env, p, input, k, events, Priority) && BarsRest(env, p, input, k, events))
  {
    var seeds := Without(p.prioritySeeds(input.goal), UrlsOf(input.refs));
    var a, k := PriorityPhase(env, p, input), KnownAfter(env, p, input);
    SeedsAreFirst(p.prioritySeeds(input.goal), input.refs);
    FetchFollows(env, p, input, k, [], Priority, seeds);
    FetchShows(env, [], Priority, seeds);
    assert [] + a.events == a.events;
    if NoneDenied(a.events) {
      EarlyIsBarred(env, p, input, k, [], Priority, seeds);
    }
    if PriorityEnds(a) {
      ClosedBars(env, p, input, k, a.events);
      LastFetchBarsFound(env, p, input, k, [], a.events);
    } else {
      var rest := AfterPriority(env, p, input, a).events;
      RestOfRecovery(env, p, input);
      FollowsConcat(env, p, input, k, [], a.events, rest);
      if NoneDenied(a.events + rest) {
        NoneDeniedConcat(a.events, rest);
        EarlyStaysBarred(env, p, input, k, a.events, rest, Priority);
      }
    }
  }

  // ---------------------------------------------------------------- which queries are planned

  function TextItself(): string -> string {
    t => t
  }

  /** Keeping distinct texts is keeping the first occurrence of each. */
  lemma {:induction false} DistinctsAreFirst(s: seq<string>)
    ensures Distincts(s) == FirstByKey(s, TextItself())
  {
    if s == [] {
    } else {
      DistinctsAreFirst(Init(s));
      forall t ensures t in KeySet(Distincts(Init(s)), TextItself()) <==> t in Distincts(Init(s)) {
        if t in Distincts(Init(s)) {
          var i :| 0 <= i < |Distincts(Init(s))| && Distincts(Init(s))[i] == t;
          assert TextItself()(Distincts(Init(s))[i]) == t;
        }
      }
    }
  }

  function Stripped(p: Policy, s: seq<string>): seq<string> {
    seq(|s|, i requires 0 <= i < |s| => p.strip(s[i]))
  }

  function NotEmpty(): string -> bool {
    t => t != ""
  }

  lemma {:induction false} NonBlankAre(p: Policy, s: seq<string>)
    ensures NonBlank(p, s) == Kept(Stripped(p, s), NotEmpty())
  {
    if s == [] {
    } else {
      NonBlankAre(p, Init(s));
      assert Init(Stripped(p, s)) == Stripped(p, Init(s));
    }
  }

  function HasText(p: Policy): string -> bool {
    t => p.strip(t) != ""
  }

  lemma {:induction false} NamedAre(p: Policy, s: seq<string>)
    ensures Named(p, s) == Kept(s, HasText(p))
  {
    if s == [] {
    } else {
      NamedAre(p, Init(s));
    }
  }

  /** The hints in use are the first five different ones that are not blank, of those given and then of
      those derived from what is known. */
  lemma HintsAre(env: Env, p: Policy, input: Input)
    ensures var k := KnownAfter(env, p, input);
            var all := FirstByKey(Kept(input.hints + p.hints(input.goal, k.routing), HasText(p)), TextItself());
            k.hints <= all && |k.hints| == if |all| < 5 then |all| else 5
  {
    var k := KnownAfter(env, p, input);
    NamedAre(p, input.hints + p.hints(input.goal, k.routing));
    DistinctsAreFirst(Named(p, input.hints + p.hints(input.goal, k.routing)));
  }

  /** The variants of a goal are, each once, the hints, those derived from the goal, the goal itself, and
      the goal asking for details and for the official site. */
  lemma VariantsAre(p: Policy, goal: string, hints: seq<string>)
    ensures var g := p.strip(goal);
            Variants(p, goal, hints) ==
            FirstByKey(Kept(Stripped(p, hints), NotEmpty()) + p.hints(goal, [])
                       + [g, g + " \U{5c97}\U{4f4d}\U{8be6}\U{60c5}", g + " \U{5b98}\U{65b9}\U{62db}\U{8058}"],
                       TextItself())
  {
    var g := p.strip(goal);
    NonBlankAre(p, hints);
    DistinctsAreFirst(NonBlank(p, hints) + p.hints(goal, []) + [g, g + DETAIL_SUFFIX, g + OFFICIAL_SUFFIX]);
  }

  /** The planned queries are the first unused variants, each cut to 380 characters, so many that with the
      earlier ones there are at most three. */
  lemma QueriesAre(p: Policy, goal: string, hints: seq<string>, attempted: set<string>)
    ensures var queries, unused := Queries(p, goal, hints, attempted), Unused(p, Variants(p, goal, hints), attempted);
            && |queries| <= |unused| && (forall i :: 0 <= i < |queries| ==> CutTo380(unused[i], queries[i]))
            && (|queries| == |unused| || |queries| + |attempted| == 3 || (|attempted| > 3 && queries == []))
            && (queries == [] || |queries| + |attempted| <= 3)
  {
    UnattemptedAre(p, Variants(p, goal, hints), attempted);
  }

  predicate CutTo380(text: string, query: string) {
    query <= text && |query| == if |text| > 380 then 380 else |text|
  }
}
