/** The deterministic discovery recovery after a model stall: budgeted fetch and search phases
    driven by arbitrary tool answers, and the trace of budget requests and tool calls it leaves. */
module Recovery {
  import opened Common

  type Url = string

  /** What the recovery looks at in a tool answer: success, an access block, a complete job page,
      and the URLs each result or record item carries. */
  datatype Observation = Observation(succeeded: bool, blocked: bool, complete: bool, items: seq<seq<Url>>)

  datatype Kind = SearchResults | JobPage | OtherKind

  datatype Quality = JdComplete | ListOnly | OtherQuality

  datatype Ref = Ref(kind: Kind, quality: Quality, url: Option<Url>, completionValid: bool, expanded: bool)

  /** Why a fetch is made; the program tells them apart by their event types. */
  datatype Route = Priority | Expand | Seed | Results | Found

  datatype Call = Fetch(route: Route, urls: seq<Url>) | Search(query: string)

  datatype Event = Asked(granted: bool) | Called(call: Call, answer: Observation)

  /** The runtime around the recovery: budget, tools and persistence, each free to answer anything
      in the light of all that happened before. */
  datatype Env = Env(grants: seq<Event> -> bool,
                     answers: (seq<Event>, Call) -> Observation,
                     persists: (seq<Event>, Observation) -> seq<Ref>)

  /** Seed lists, search hints and normalisation, as the discovery policy defines them. */
  datatype Policy = Policy(prioritySeeds: string -> seq<Url>,
                           trustedSeeds: (string, seq<Observation>) -> seq<Url>,
                           hints: (string, seq<Observation>) -> seq<string>,
                           stored: seq<Ref> -> seq<Observation>,
                           strip: string -> string,
                           hash: string -> string)

  datatype Input = Input(goal: string, searchGoal: Option<string>, canSearch: bool, attempted: set<string>,
                         hints: seq<string>, supplied: Option<seq<Url>>,
                         observations: seq<Observation>, refs: seq<Ref>)

  /** What one phase did and returned. */
  datatype Phase = Phase(events: seq<Event>, observations: seq<Observation>, refs: seq<Ref>)

  const IDLE := Phase([], [], [])

  function Then(a: Phase, b: Phase): Phase {
    Phase(a.events + b.events, a.observations + b.observations, a.refs + b.refs)
  }

  // ---------------------------------------------------------------- lists

  function Take<T>(s: seq<T>, n: nat): seq<T> {
    if |s| <= n then s else s[..n]
  }

  /** The distinct members, in order of first occurrence. */
  function Distincts(s: seq<string>): seq<string> {
    if s == [] then []
    else
      var before := Distincts(Init(s));
      if Last(s) in before then before else before + [Last(s)]
  }

  function Without(s: seq<Url>, gone: set<Url>): seq<Url> {
    Kept(s, (u: Url) => u !in gone)
  }

  predicate IsHttp(u: Url) {
    "http://" <= u || "https://" <= u
  }

  function HttpOnly(s: seq<Url>): seq<Url> {
    Kept(s, (u: Url) => IsHttp(u))
  }

  /** The URLs of some items, in order and without repetition, until ten are found. */
  function CollectFrom(urls: seq<Url>, items: seq<seq<Url>>): seq<Url>
    decreases |items|
  {
    if items == [] || |urls| >= 10 then urls
    else CollectFrom(Distincts(urls + items[0]), items[1..])
  }

  function CollectAll(urls: seq<Url>, observations: seq<Observation>): seq<Url>
    decreases |observations|
  {
    if observations == [] || |urls| >= 10 then urls
    else CollectAll(CollectFrom(urls, observations[0].items), observations[1..])
  }

  function UrlsOf(refs: seq<Ref>): set<Url> {
    set r | r in refs && r.url.Some? :: r.url.value
  }

  function PagesOf(refs: seq<Ref>): set<Url> {
    set r | r in refs && r.kind == JobPage && r.url.Some? :: r.url.value
  }

  predicate AnyComplete(observations: seq<Observation>) {
    exists o :: o in observations && o.complete
  }

  predicate AnyBlocked(observations: seq<Observation>) {
    exists o :: o in observations && o.blocked
  }

  predicate AnyJd(refs: seq<Ref>) {
    exists r :: r in refs && r.quality == JdComplete
  }

  predicate IsListPage(r: Ref) {
    r.kind == JobPage && r.quality == ListOnly && r.url.Some? && IsHttp(r.url.value) && !r.expanded
  }

  function ListUrls(refs: seq<Ref>): seq<Url> {
    if refs == [] then []
    else ListUrls(Init(refs)) + if IsListPage(Last(refs)) then [Last(refs).url.value] else []
  }

  // ---------------------------------------------------------------- one fetch

  /** Asks for budget, and if granted fetches at most ten URLs once. */
  function FetchPhase(env: Env, history: seq<Event>, route: Route, urls: seq<Url>): Phase {
    if urls == [] then IDLE
    else if !env.grants(history) then Phase([Asked(false)], [], [])
    else
      var call := Fetch(route, Take(urls, 10));
      var answer := env.answers(history + [Asked(true)], call);
      var events := [Asked(true), Called(call, answer)];
      Phase(events, [answer], if answer.succeeded then env.persists(history + events, answer) else [])
  }

  // ---------------------------------------------------------------- search and fetch

  function Cut(s: string): string {
    Take(s, 380)
  }

  function Unattempted(p: Policy, queries: seq<string>, attempted: set<string>): seq<string> {
    if queries == [] then []
    else
      var rest := Unattempted(p, Init(queries), attempted);
      if p.hash(Cut(Last(queries))) in attempted then rest else rest + [Cut(Last(queries))]
  }

  function NonBlank(p: Policy, s: seq<string>): seq<string> {
    if s == [] then []
    else NonBlank(p, Init(s)) + if p.strip(Last(s)) != "" then [p.strip(Last(s))] else []
  }

  const DETAIL_SUFFIX := " \U{5c97}\U{4f4d}\U{8be6}\U{60c5}"
  const OFFICIAL_SUFFIX := " \U{5b98}\U{65b9}\U{62db}\U{8058}"

  /** The query variants of a goal, each once. */
  function Variants(p: Policy, goal: string, hints: seq<string>): seq<string> {
    var g := p.strip(goal);
    Distincts(NonBlank(p, hints) + p.hints(goal, []) + [g, g + DETAIL_SUFFIX, g + OFFICIAL_SUFFIX])
  }

  /** The bounded query variants of a goal whose route hash has not been used. */
  function Queries(p: Policy, goal: string, hints: seq<string>, attempted: set<string>): seq<string> {
    Take(Unattempted(p, Variants(p, goal, hints), attempted), if |attempted| >= 3 then 0 else 3 - |attempted|)
  }

  /** One round of the search loop, and whether it ends the loop: budget ran out, the search
      failed, or it yielded URLs, which are then fetched once. */
  function SearchRound(env: Env, history: seq<Event>, query: string): (bool, Phase) {
    if !env.grants(history) then (true, Phase([Asked(false)], [], []))
    else
      var call := Search(query);
      var answer := env.answers(history + [Asked(true)], call);
      var events := [Asked(true), Called(call, answer)];
      var first := Phase(events, [answer], env.persists(history + events, answer));
      var urls := CollectFrom([], answer.items);
      if !answer.succeeded then (true, first)
      else if urls == [] then (false, first)
      else (true, Then(first, FetchPhase(env, history + events, Found, urls)))
  }

  /** Tries the queries in turn. */
  function SearchLoop(env: Env, history: seq<Event>, queries: seq<string>): Phase
    decreases |queries|
  {
    if queries == [] then IDLE
    else
      var (ends, round) := SearchRound(env, history, queries[0]);
      if ends then round else Then(round, SearchLoop(env, history + round.events, queries[1..]))
  }

  function SearchPhase(env: Env, p: Policy, input: Input, history: seq<Event>, hints: seq<string>): Phase {
    if !input.canSearch || input.searchGoal.None? || |p.strip(input.searchGoal.value)| < 2 then IDLE
    else SearchLoop(env, history, Queries(p, input.searchGoal.value, hints, input.attempted))
  }

  // ---------------------------------------------------------------- the recovery

  /** The seed fetch, and the search unless the seeds were complete or blocked. `known` are the
      references whose URLs need no seed fetch. */
  function SeedThenSearch(env: Env, p: Policy, input: Input, history: seq<Event>, routing: seq<Observation>,
                          known: seq<Ref>, hints: seq<string>): Phase {
    var seeds := Without(p.trustedSeeds(input.goal, routing), UrlsOf(known));
    var c := FetchPhase(env, history, Seed, seeds);
    if AnyComplete(c.observations) || AnyBlocked(c.observations) then c
    else Then(c, SearchPhase(env, p, input, history + c.events, hints))
  }

  predicate SuppliedLeft(input: Input, refs: seq<Ref>) {
    input.supplied.Some? && exists u :: u in input.supplied.value && u !in PagesOf(refs)
  }

  /** The route over list-only pages. */
  function ListRoute(env: Env, p: Policy, input: Input, history: seq<Event>, routing: seq<Observation>,
                     refs: seq<Ref>, hints: seq<string>): Phase {
    var b := FetchPhase(env, history, Expand, Take(Distincts(ListUrls(refs)), 3));
    if AnyJd(b.refs) || AnyBlocked(b.observations) || SuppliedLeft(input, refs) then b
    else Then(b, SeedThenSearch(env, p, input, history + b.events, routing, refs + b.refs, hints))
  }

  /** The URLs to fetch directly: from routing results, else from the supplied candidates. */
  function DirectUrls(input: Input, routing: seq<Observation>, refs: seq<Ref>): seq<Url> {
    var urls := CollectAll([], routing);
    if urls != [] || input.supplied.None? then urls
    else Take(Distincts(Without(HttpOnly(input.supplied.value), UrlsOf(refs))), 10)
  }

  function DirectRoute(env: Env, p: Policy, input: Input, history: seq<Event>, routing: seq<Observation>,
                       refs: seq<Ref>, hints: seq<string>): Phase {
    var urls := DirectUrls(input, routing, refs);
    if urls == [] then SeedThenSearch(env, p, input, history, routing, refs, hints)
    else
      var f := FetchPhase(env, history, Results, urls);
      if AnyComplete(f.observations) then f
      else Then(f, SeedThenSearch(env, p, input, history + f.events, routing, refs + f.refs, hints))
  }

  predicate Proven(refs: seq<Ref>) {
    exists r :: r in refs && r.kind == SearchResults && r.completionValid
  }

  function PriorityPhase(env: Env, p: Policy, input: Input): Phase {
    FetchPhase(env, [], Priority, Without(p.prioritySeeds(input.goal), UrlsOf(input.refs)))
  }

  function Routing(p: Policy, input: Input, a: Phase): seq<Observation> {
    input.observations + a.observations + p.stored(input.refs + a.refs)
  }

  function Hints(p: Policy, input: Input, a: Phase): seq<string> {
    Take(Distincts(Named(p, input.hints + p.hints(input.goal, Routing(p, input, a)))), 5)
  }

  function Named(p: Policy, s: seq<string>): seq<string> {
    if s == [] then [] else Named(p, Init(s)) + if p.strip(Last(s)) != "" then [Last(s)] else []
  }

  /** What follows the priority fetch. */
  function AfterPriority(env: Env, p: Policy, input: Input, a: Phase): Phase {
    var refs := input.refs + a.refs;
    var routing, hints := Routing(p, input, a), Hints(p, input, a);
    if ListUrls(refs) != [] then ListRoute(env, p, input, a.events, routing, refs, hints)
    else if AnyComplete(input.observations + a.observations) then IDLE
    else DirectRoute(env, p, input, a.events, routing, refs, hints)
  }

  predicate PriorityEnds(a: Phase) {
    AnyJd(a.refs) || AnyBlocked(a.observations)
  }

  /** One recovery. What the priority fetch returned is reported only when it ends the recovery. */
  function Recover(env: Env, p: Policy, input: Input): Phase {
    if Proven(input.refs) then IDLE
    else
      var a := PriorityPhase(env, p, input);
      if PriorityEnds(a) then a
      else
        var rest := AfterPriority(env, p, input, a);
        Phase(a.events + rest.events, rest.observations, rest.refs)
  }
}

/** What every recovery keeps to, whatever the budget and the tools answer. */
module RecoveryLaws {
  import opened Common
  import opened Recovery

  // ---------------------------------------------------------------- counting a trace

  function Calls(events: seq<Event>): nat {
    if events == [] then 0 else Calls(Init(events)) + if Last(events).Called? then 1 else 0
  }

  /** The queries searched for, in order. */
  function Queried(events: seq<Event>): seq<string> {
    if events == [] then []
    else
      var e := Last(events);
      Queried(Init(events)) + if e.Called? && e.call.Search? then [e.call.query] else []
  }

  function Searches(events: seq<Event>): nat {
    |Queried(events)|
  }

  function Grants(events: seq<Event>): nat {
    if events == [] then 0 else Grants(Init(events)) + if Last(events) == Asked(true) then 1 else 0
  }

  function Answers(events: seq<Event>): seq<Observation> {
    if events == [] then []
    else Answers(Init(events)) + if Last(events).Called? then [Last(events).answer] else []
  }

  lemma {:induction false} CountsAdd(a: seq<Event>, b: seq<Event>)
    ensures Calls(a + b) == Calls(a) + Calls(b)
    ensures Searches(a + b) == Searches(a) + Searches(b)
    ensures Grants(a + b) == Grants(a) + Grants(b)
    ensures Answers(a + b) == Answers(a) + Answers(b)
  {
    QueriedAdds(a, b);
    if b == [] {
      assert a + b == a;
    } else {
      CountsAdd(a, Init(b));
      assert Init(a + b) == a + Init(b);
    }
  }

  lemma {:induction false} QueriedAdds(a: seq<Event>, b: seq<Event>)
    ensures Queried(a + b) == Queried(a) + Queried(b)
  {
    if b == [] {
      assert a + b == a;
    } else {
      QueriedAdds(a, Init(b));
      assert Init(a + b) == a + Init(b);
    }
  }

  /** The event is a call exactly when it directly follows a granted budget request. */
  predicate Placed(events: seq<Event>, i: nat)
    requires i < |events|
  {
    events[i].Called? <==> i > 0 && events[i - 1] == Asked(true)
  }

  /** A fetch carries one to ten URLs. */
  predicate Sized(e: Event) {
    e.Called? && e.call.Fetch? ==> 1 <= |e.call.urls| <= 10
  }

  /** Every call directly follows the budget grant it uses, every grant is used at once, and every
      fetch carries one to ten URLs. */
  predicate Disciplined(events: seq<Event>) {
    && (forall i :: 0 <= i < |events| ==> Placed(events, i) && Sized(events[i]))
    && (events != [] ==> Last(events) != Asked(true))
  }

  lemma DisciplinedConcat(a: seq<Event>, b: seq<Event>)
    requires Disciplined(a) && Disciplined(b)
    ensures Disciplined(a + b)
  {
    var s := a + b;
    forall i | 0 <= i < |s| ensures Placed(s, i) && Sized(s[i]) {
      if i < |a| {
        assert Placed(a, i) && Sized(a[i]);
      } else {
        assert Placed(b, i - |a|) && Sized(b[i - |a|]);
      }
    }
  }

  lemma DisciplinedPrefix(events: seq<Event>, n: nat)
    requires Disciplined(events) && n <= |events| && (n > 0 ==> events[n - 1] != Asked(true))
    ensures Disciplined(events[..n])
  {
    forall i | 0 <= i < n ensures Placed(events[..n], i) && Sized(events[..n][i]) {
      assert Placed(events, i) && Sized(events[i]);
    }
  }

  lemma {:induction false} GrantsAreCalls(events: seq<Event>)
    requires Disciplined(events)
    ensures Grants(events) == Calls(events)
  {
    if events == [] {
    } else {
      var n := |events|;
      assert Placed(events, n - 1) && Init(events) == events[..n - 1];
      if events[n - 1].Called? {
        assert Placed(events, n - 2);
        assert Init(events[..n - 1]) == events[..n - 2] && Last(events[..n - 1]) == events[n - 2];
        DisciplinedPrefix(events, n - 2);
        GrantsAreCalls(events[..n - 2]);
      } else {
        DisciplinedPrefix(events, n - 1);
        GrantsAreCalls(events[..n - 1]);
      }
    }
  }

  // ---------------------------------------------------------------- what one phase keeps

  /** A fetch that met an access block, on any route but the direct one. */
  predicate Blocked(e: Event) {
    e.Called? && e.call.Fetch? && e.call.route != Results && e.answer.blocked
  }

  /** Nothing is called after the event at position `i`. */
  predicate LastCall(events: seq<Event>, i: nat) {
    forall j :: i < j < |events| ==> !events[j].Called?
  }

  predicate BlocksAreLast(events: seq<Event>) {
    forall i :: 0 <= i < |events| && Blocked(events[i]) ==> LastCall(events, i)
  }

  predicate NoBlock(events: seq<Event>) {
    forall i :: 0 <= i < |events| ==> !Blocked(events[i])
  }

  /** A phase of at most `calls` calls and `searches` searches that reports its own answers. */
  ghost predicate Keeps(ph: Phase, calls: nat, searches: nat) {
    && Calls(ph.events) <= calls && Searches(ph.events) <= searches
    && Disciplined(ph.events) && BlocksAreLast(ph.events)
    && ph.observations == Answers(ph.events)
  }

  lemma EmptyKeeps()
    ensures Keeps(IDLE, 0, 0) && NoBlock(IDLE.events)
  {}

  lemma OneAsk()
    ensures Keeps(Phase([Asked(false)], [], []), 0, 0) && NoBlock([Asked(false)])
  {
    var e := [Asked(false)];
    assert Init(e) == [];
    assert Placed(e, 0);
  }

  lemma OneCall(call: Call, answer: Observation, refs: seq<Ref>)
    requires call.Fetch? ==> 1 <= |call.urls| <= 10
    ensures Keeps(Phase([Asked(true), Called(call, answer)], [answer], refs), 1, if call.Search? then 1 else 0)
    ensures NoBlock([Asked(true), Called(call, answer)]) <==> !Blocked(Called(call, answer))
  {
    var e := [Asked(true), Called(call, answer)];
    assert Init(e) == [Asked(true)] && Init([Asked(true)]) == [];
    assert e[1] == Called(call, answer);
    assert Queried([Asked(true)]) == [];
    assert Placed(e, 0) && Placed(e, 1) && Sized(e[1]);
  }

  lemma FetchKeeps(env: Env, history: seq<Event>, route: Route, urls: seq<Url>)
    ensures var ph := FetchPhase(env, history, route, urls);
            && Keeps(ph, 1, 0)
            && (route == Results || !AnyBlocked(ph.observations) ==> NoBlock(ph.events))
  {
    EmptyKeeps();
    OneAsk();
    if urls != [] && env.grants(history) {
      var call := Fetch(route, Take(urls, 10));
      var answer := env.answers(history + [Asked(true)], call);
      OneCall(call, answer, FetchPhase(env, history, route, urls).refs);
      assert answer in [answer];
    }
  }

  lemma BlocksConcat(a: seq<Event>, b: seq<Event>)
    requires NoBlock(a) && BlocksAreLast(b)
    ensures BlocksAreLast(a + b)
  {
    var s := a + b;
    forall i | 0 <= i < |s| ensures Blocked(s[i]) ==> i >= |a| && Blocked(b[i - |a|]) {
      assert i < |a| ==> !Blocked(a[i]);
    }
    forall i | 0 <= i < |s| && Blocked(s[i]) ensures LastCall(s, i) {
      assert LastCall(b, i - |a|);
      forall j | i < j < |s| ensures !s[j].Called? {
        assert s[j] == b[j - |a|];
      }
    }
  }

  lemma ThenKeeps(a: Phase, b: Phase, ca: nat, sa: nat, cb: nat, sb: nat)
    requires Keeps(a, ca, sa) && Keeps(b, cb, sb) && NoBlock(a.events)
    ensures Keeps(Then(a, b), ca + cb, sa + sb)
  {
    CountsAdd(a.events, b.events);
    DisciplinedConcat(a.events, b.events);
    BlocksConcat(a.events, b.events);
  }

  // ---------------------------------------------------------------- searching

  lemma SearchRoundKeeps(env: Env, history: seq<Event>, query: string)
    ensures var (ends, ph) := SearchRound(env, history, query);
            Keeps(ph, if ends then 2 else 1, 1) && (!ends ==> NoBlock(ph.events))
  {
    OneAsk();
    if env.grants(history) {
      var call := Search(query);
      var answer := env.answers(history + [Asked(true)], call);
      var events := [Asked(true), Called(call, answer)];
      var refs := env.persists(history + events, answer);
      var urls := CollectFrom([], answer.items);
      OneCall(call, answer, refs);
      FetchKeeps(env, history + events, Found, urls);
      ThenKeeps(Phase(events, [answer], refs), FetchPhase(env, history + events, Found, urls), 1, 1, 1, 0);
    }
  }

  lemma {:induction false} SearchLoopKeeps(env: Env, history: seq<Event>, queries: seq<string>)
    ensures var ph := SearchLoop(env, history, queries);
            Keeps(ph, |queries| + 1, |queries|)
    decreases |queries|
  {
    EmptyKeeps();
    if queries == [] {
    } else {
      var (ends, round) := SearchRound(env, history, queries[0]);
      SearchRoundKeeps(env, history, queries[0]);
      if !ends {
        SearchLoopKeeps(env, history + round.events, queries[1..]);
        ThenKeeps(round, SearchLoop(env, history + round.events, queries[1..]), 1, 1, |queries|, |queries| - 1);
      }
    }
  }

  /** The searches still allowed when some query hashes were attempted before. */
  function Allowed(attempted: set<string>): nat {
    if |attempted| >= 3 then 0 else 3 - |attempted|
  }

  lemma SearchPhaseKeeps(env: Env, p: Policy, input: Input, history: seq<Event>, hints: seq<string>)
    ensures Keeps(SearchPhase(env, p, input, history, hints),
                  Allowed(input.attempted) + 1, Allowed(input.attempted))
  {
    EmptyKeeps();
    if input.searchGoal.Some? {
      SearchLoopKeeps(env, history, Queries(p, input.searchGoal.value, hints, input.attempted));
    }
  }

  lemma SeedKeeps(env: Env, p: Policy, input: Input, history: seq<Event>, routing: seq<Observation>, known: seq<Ref>,
                  hints: seq<string>)
    ensures Keeps(SeedThenSearch(env, p, input, history, routing, known, hints),
                  Allowed(input.attempted) + 2, Allowed(input.attempted))
  {
    var seeds := Without(p.trustedSeeds(input.goal, routing), UrlsOf(known));
    var c := FetchPhase(env, history, Seed, seeds);
    FetchKeeps(env, history, Seed, seeds);
    if !(AnyComplete(c.observations) || AnyBlocked(c.observations)) {
      SearchPhaseKeeps(env, p, input, history + c.events, hints);
      ThenKeeps(c, SearchPhase(env, p, input, history + c.events, hints), 1, 0,
                Allowed(input.attempted) + 1, Allowed(input.attempted));
    }
  }

  lemma ListRouteKeeps(env: Env, p: Policy, input: Input, history: seq<Event>, routing: seq<Observation>,
                       refs: seq<Ref>, hints: seq<string>)
    ensures Keeps(ListRoute(env, p, input, history, routing, refs, hints),
                  Allowed(input.attempted) + 3, Allowed(input.attempted))
  {
    var urls := Take(Distincts(ListUrls(refs)), 3);
    var b := FetchPhase(env, history, Expand, urls);
    FetchKeeps(env, history, Expand, urls);
    if !(AnyJd(b.refs) || AnyBlocked(b.observations) || SuppliedLeft(input, refs)) {
      SeedKeeps(env, p, input, history + b.events, routing, refs + b.refs, hints);
      ThenKeeps(b, SeedThenSearch(env, p, input, history + b.events, routing, refs + b.refs, hints), 1, 0,
                Allowed(input.attempted) + 2, Allowed(input.attempted));
    }
  }

  lemma DirectRouteKeeps(env: Env, p: Policy, input: Input, history: seq<Event>, routing: seq<Observation>,
                         refs: seq<Ref>, hints: seq<string>)
    ensures Keeps(DirectRoute(env, p, input, history, routing, refs, hints),
                  Allowed(input.attempted) + 3, Allowed(input.attempted))
  {
    var urls := DirectUrls(input, routing, refs);
    SeedKeeps(env, p, input, history, routing, refs, hints);
    if urls != [] {
      var f := FetchPhase(env, history, Results, urls);
      FetchKeeps(env, history, Results, urls);
      if !AnyComplete(f.observations) {
        SeedKeeps(env, p, input, history + f.events, routing, refs + f.refs, hints);
        ThenKeeps(f, SeedThenSearch(env, p, input, history + f.events, routing, refs + f.refs, hints), 1, 0,
                  Allowed(input.attempted) + 2, Allowed(input.attempted));
      }
    }
  }

  lemma AfterPriorityKeeps(env: Env, p: Policy, input: Input, a: Phase)
    ensures Keeps(AfterPriority(env, p, input, a), Allowed(input.attempted) + 3, Allowed(input.attempted))
  {
    EmptyKeeps();
    ListRouteKeeps(env, p, input, a.events, Routing(p, input, a), input.refs + a.refs, Hints(p, input, a));
    DirectRouteKeeps(env, p, input, a.events, Routing(p, input, a), input.refs + a.refs, Hints(p, input, a));
  }

  // ---------------------------------------------------------------- the whole recovery

  lemma RecoverIs(env: Env, p: Policy, input: Input)
    requires !Proven(input.refs) && !PriorityEnds(PriorityPhase(env, p, input))
    ensures var a := PriorityPhase(env, p, input);
            && Recover(env, p, input).events == a.events + AfterPriority(env, p, input, a).events
            && Keeps(Then(a, AfterPriority(env, p, input, a)), Allowed(input.attempted) + 4, Allowed(input.attempted))
  {
    var a := PriorityPhase(env, p, input);
    FetchKeeps(env, [], Priority, Without(p.prioritySeeds(input.goal), UrlsOf(input.refs)));
    AfterPriorityKeeps(env, p, input, a);
    ThenKeeps(a, AfterPriority(env, p, input, a), 1, 0, Allowed(input.attempted) + 3, Allowed(input.attempted));
  }

  /** Whatever the environment answers, a recovery makes at most seven calls, at most three of them
      searches (fewer if queries were attempted before), uses one budget grant per call directly
      before it, fetches one to ten URLs at a time, and after an access block in any fetch but the
      direct one calls nothing more. */
  lemma RecoveryIsBounded(env: Env, p: Policy, input: Input)
    ensures var events := Recover(env, p, input).events;
            && Calls(events) <= 4 + Allowed(input.attempted) <= 7
            && Searches(events) <= Allowed(input.attempted) <= 3
            && Disciplined(events) && Grants(events) == Calls(events)
            && BlocksAreLast(events)
  {
    EmptyKeeps();
    FetchKeeps(env, [], Priority, Without(p.prioritySeeds(input.goal), UrlsOf(input.refs)));
    if !Proven(input.refs) && !PriorityEnds(PriorityPhase(env, p, input)) {
      RecoverIs(env, p, input);
    }
    GrantsAreCalls(Recover(env, p, input).events);
  }

  /** The observations returned are the answers of all calls made, in order, except that the
      answer of the priority fetch is left out unless that fetch ended the recovery. */
  lemma ReturnsItsAnswers(env: Env, p: Policy, input: Input)
    requires !Proven(input.refs)
    ensures var a, r := PriorityPhase(env, p, input), Recover(env, p, input);
            Answers(r.events) == if PriorityEnds(a) then r.observations else a.observations + r.observations
  {
    var a := PriorityPhase(env, p, input);
    FetchKeeps(env, [], Priority, Without(p.prioritySeeds(input.goal), UrlsOf(input.refs)));
    if !PriorityEnds(a) {
      RecoverIs(env, p, input);
    }
  }

  /** Every answer is returned exactly when the priority fetch ended the recovery or gave none. */
  lemma ReportsAllIff(env: Env, p: Policy, input: Input)
    requires !Proven(input.refs)
    ensures var a, r := PriorityPhase(env, p, input), Recover(env, p, input);
            Answers(r.events) == r.observations <==> PriorityEnds(a) || a.observations == []
  {
    ReturnsItsAnswers(env, p, input);
    PrefixIsNone(PriorityPhase(env, p, input).observations, Recover(env, p, input).observations);
  }

  lemma PrefixIsNone(a: seq<Observation>, r: seq<Observation>)
    ensures a + r == r <==> a == []
  {
    assert |a + r| == |a| + |r|;
  }

  // ---------------------------------------------------------------- which searches are made

  lemma FetchAsks(env: Env, history: seq<Event>, route: Route, urls: seq<Url>)
    ensures Queried(FetchPhase(env, history, route, urls).events) == []
  {
    FetchKeeps(env, history, route, urls);
  }

  lemma AsksNoMore(a: seq<Event>, b: seq<Event>)
    requires Queried(a) == []
    ensures Queried(a + b) == Queried(b)
  {
    QueriedAdds(a, b);
  }

  lemma PrefixNext(queries: seq<string>, rest: seq<string>)
    requires queries != [] && rest <= queries[1..]
    ensures [queries[0]] + rest <= queries
  {}

  lemma {:induction false} LoopAsks(env: Env, history: seq<Event>, queries: seq<string>)
    ensures Queried(SearchLoop(env, history, queries).events) <= queries
    decreases |queries|
  {
    if queries == [] {
    } else {
      var (ends, round) := SearchRound(env, history, queries[0]);
      RoundAsks(env, history, queries[0]);
      if !ends {
        LoopAsks(env, history + round.events, queries[1..]);
        QueriedAdds(round.events, SearchLoop(env, history + round.events, queries[1..]).events);
        PrefixNext(queries, Queried(SearchLoop(env, history + round.events, queries[1..]).events));
      }
    }
  }

  lemma RoundAsks(env: Env, history: seq<Event>, query: string)
    ensures var (ends, round) := SearchRound(env, history, query);
            Queried(round.events) <= [query] && (!ends ==> Queried(round.events) == [query])
  {
    if env.grants(history) {
      var call := Search(query);
      var answer := env.answers(history + [Asked(true)], call);
      var events := [Asked(true), Called(call, answer)];
      var urls := CollectFrom([], answer.items);
      assert Init(events) == [Asked(true)] && Init([Asked(true)]) == [];
      FetchAsks(env, history + events, Found, urls);
      QueriedAdds(events, FetchPhase(env, history + events, Found, urls).events);
    } else {
      assert Init([Asked(false)]) == [];
    }
  }

  /** The queries a recovery may search for under some hints. */
  function Planned(p: Policy, input: Input, hints: seq<string>): seq<string> {
    if input.searchGoal.None? then [] else Queries(p, input.searchGoal.value, hints, input.attempted)
  }

  lemma SeedAsks(env: Env, p: Policy, input: Input, history: seq<Event>, routing: seq<Observation>, known: seq<Ref>,
                 hints: seq<string>)
    ensures Queried(SeedThenSearch(env, p, input, history, routing, known, hints).events) <= Planned(p, input, hints)
  {
    var seeds := Without(p.trustedSeeds(input.goal, routing), UrlsOf(known));
    var c := FetchPhase(env, history, Seed, seeds);
    FetchAsks(env, history, Seed, seeds);
    AsksNoMore(c.events, SearchPhase(env, p, input, history + c.events, hints).events);
    LoopAsks(env, history + c.events, Planned(p, input, hints));
  }

  lemma ListRouteAsks(env: Env, p: Policy, input: Input, history: seq<Event>, routing: seq<Observation>,
                      refs: seq<Ref>, hints: seq<string>)
    ensures Queried(ListRoute(env, p, input, history, routing, refs, hints).events) <= Planned(p, input, hints)
  {
    var urls := Take(Distincts(ListUrls(refs)), 3);
    var b := FetchPhase(env, history, Expand, urls);
    FetchAsks(env, history, Expand, urls);
    SeedAsks(env, p, input, history + b.events, routing, refs + b.refs, hints);
    AsksNoMore(b.events, SeedThenSearch(env, p, input, history + b.events, routing, refs + b.refs, hints).events);
  }

  lemma DirectRouteAsks(env: Env, p: Policy, input: Input, history: seq<Event>, routing: seq<Observation>,
                        refs: seq<Ref>, hints: seq<string>)
    ensures Queried(DirectRoute(env, p, input, history, routing, refs, hints).events) <= Planned(p, input, hints)
  {
    var urls := DirectUrls(input, routing, refs);
    var f := FetchPhase(env, history, Results, urls);
    FetchAsks(env, history, Results, urls);
    SeedAsks(env, p, input, history, routing, refs, hints);
    SeedAsks(env, p, input, history + f.events, routing, refs + f.refs, hints);
    AsksNoMore(f.events, SeedThenSearch(env, p, input, history + f.events, routing, refs + f.refs, hints).events);
  }

  lemma AfterPriorityAsks(env: Env, p: Policy, input: Input, a: Phase)
    ensures Queried(AfterPriority(env, p, input, a).events) <= Planned(p, input, Hints(p, input, a))
  {
    ListRouteAsks(env, p, input, a.events, Routing(p, input, a), input.refs + a.refs, Hints(p, input, a));
    DirectRouteAsks(env, p, input, a.events, Routing(p, input, a), input.refs + a.refs, Hints(p, input, a));
  }

  /** The searches of a recovery are the first of its planned queries, in order. */
  lemma SearchesArePlanned(env: Env, p: Policy, input: Input)
    ensures Queried(Recover(env, p, input).events) <= Planned(p, input, Hints(p, input, PriorityPhase(env, p, input)))
  {
    var a := PriorityPhase(env, p, input);
    FetchAsks(env, [], Priority, Without(p.prioritySeeds(input.goal), UrlsOf(input.refs)));
    AfterPriorityAsks(env, p, input, a);
    AsksNoMore(a.events, AfterPriority(env, p, input, a).events);
  }

  // ---------------------------------------------------------------- no query twice

  /** The variants whose query has not been used, uncut. */
  function Unused(p: Policy, variants: seq<string>, attempted: set<string>): seq<string> {
    Kept(variants, (v: string) => p.hash(Cut(v)) !in attempted)
  }

  lemma {:induction false} UnattemptedAre(p: Policy, variants: seq<string>, attempted: set<string>)
    ensures var unused, queries := Unused(p, variants, attempted), Unattempted(p, variants, attempted);
            |queries| == |unused| && forall i :: 0 <= i < |queries| ==> queries[i] == Cut(unused[i])
    ensures forall q :: q in Unattempted(p, variants, attempted) ==> p.hash(q) !in attempted
  {
    if variants == [] {
    } else {
      UnattemptedAre(p, Init(variants), attempted);
    }
  }

  /** No recovery searches with a query whose hash was attempted before. */
  lemma NeverRepeatsAQuery(env: Env, p: Policy, input: Input)
    ensures forall q :: q in Queried(Recover(env, p, input).events) ==> p.hash(q) !in input.attempted
  {
    var hints := Hints(p, input, PriorityPhase(env, p, input));
    SearchesArePlanned(env, p, input);
    if input.searchGoal.Some? {
      UnattemptedAre(p, Variants(p, input.searchGoal.value, hints), input.attempted);
    }
  }

  lemma {:induction false} DistinctsAre(s: seq<string>)
    ensures Distinct(Distincts(s))
  {
    if s == [] {
    } else {
      DistinctsAre(Init(s));
    }
  }

  /** Two texts that the cut makes one. */
  predicate CutAlike(v: string, w: string) {
    |v| >= 380 && |w| >= 380 && v[..380] == w[..380]
  }

  lemma UnusedAreDistinct(p: Policy, goal: string, hints: seq<string>, attempted: set<string>)
    ensures Distinct(Unused(p, Variants(p, goal, hints), attempted))
  {
    var g, variants := p.strip(goal), Variants(p, goal, hints);
    DistinctsAre(NonBlank(p, hints) + p.hints(goal, []) + [g, g + DETAIL_SUFFIX, g + OFFICIAL_SUFFIX]);
    var at := KeptFrom(variants, (v: string) => p.hash(Cut(v)) !in attempted);
  }

  /** The searches of a recovery are pairwise different exactly when no two of the variants they
      come from have the same first 380 characters. */
  lemma SearchesDifferIff(env: Env, p: Policy, input: Input, goal: string)
    requires input.searchGoal == Some(goal)
    ensures var events := Recover(env, p, input).events;
            var hints := Hints(p, input, PriorityPhase(env, p, input));
            var unused := Unused(p, Variants(p, goal, hints), input.attempted);
            && Searches(events) <= |unused|
            && (Distinct(Queried(events)) <==>
                forall i, j :: 0 <= i < j < Searches(events) ==> !CutAlike(unused[i], unused[j]))
  {
    var hints := Hints(p, input, PriorityPhase(env, p, input));
    var unused := Unused(p, Variants(p, goal, hints), input.attempted);
    SearchesArePlanned(env, p, input);
    UnattemptedAre(p, Variants(p, goal, hints), input.attempted);
    UnusedAreDistinct(p, goal, hints, input.attempted);
    var queries := Unattempted(p, Variants(p, goal, hints), input.attempted);
    CutsDiffer(Queried(Recover(env, p, input).events), queries, unused);
  }

  lemma CutsDiffer(queried: seq<string>, queries: seq<string>, unused: seq<string>)
    requires queried <= queries && |queries| == |unused| && Distinct(unused)
    requires forall i :: 0 <= i < |queries| ==> queries[i] == Cut(unused[i])
    ensures Distinct(queried) <==> forall i, j :: 0 <= i < j < |queried| ==> !CutAlike(unused[i], unused[j])
  {
    forall i, j | 0 <= i < j < |queried| ensures queried[i] == queried[j] <==> CutAlike(unused[i], unused[j]) {
      assert queried[i] == Cut(unused[i]) && queried[j] == Cut(unused[j]);
      CutMeets(unused[i], unused[j]);
    }
  }

  lemma CutMeets(v: string, w: string)
    requires v != w
    ensures Cut(v) == Cut(w) <==> CutAlike(v, w)
  {
    assert if |v| >= 380 then Cut(v) == v[..380] else |Cut(v)| < 380;
    assert if |w| >= 380 then Cut(w) == w[..380] else |Cut(w)| < 380;
  }

  /** When list-only pages are expanded, public search is used only after every supplied candidate
      URL has been processed as a page. */
  lemma SearchWaitsForSupplied(env: Env, p: Policy, input: Input)
    requires ListUrls(input.refs + PriorityPhase(env, p, input).refs) != []
    requires Searches(Recover(env, p, input).events) > 0
    ensures !SuppliedLeft(input, input.refs + PriorityPhase(env, p, input).refs)
  {
    var a := PriorityPhase(env, p, input);
    var refs := input.refs + a.refs;
    var urls := Take(Distincts(ListUrls(refs)), 3);
    FetchKeeps(env, [], Priority, Without(p.prioritySeeds(input.goal), UrlsOf(input.refs)));
    FetchKeeps(env, a.events, Expand, urls);
    if SuppliedLeft(input, refs) {
      CountsAdd(a.events, FetchPhase(env, a.events, Expand, urls).events);
    }
  }
}
