/** The recovery as it runs: a context that records every budget request and tool call, and the
    strategies that branch on the answers, proved to leave the traces of `Recovery`. */
module RecoveryRun {
  import opened Recovery

  lemma ThenAssociates(a: Phase, b: Phase, c: Phase)
    ensures Then(a, Then(b, c)) == Then(Then(a, b), c)
  {
    assert a.events + (b.events + c.events) == a.events + b.events + c.events;
    assert a.observations + (b.observations + c.observations) == a.observations + b.observations + c.observations;
    assert a.refs + (b.refs + c.refs) == a.refs + b.refs + c.refs;
  }

  lemma EventsAfter(start: seq<Event>, a: Phase, b: Phase)
    ensures start + Then(a, b).events == start + a.events + b.events
  {
    assert start + (a.events + b.events) == start + a.events + b.events;
  }

  /** The search loop has done `done` and goes on with the remaining queries, unless it stopped. */
  ghost predicate Searching(env: Env, start: seq<Event>, queries: seq<string>, done: Phase, left: seq<string>,
                            stop: bool) {
    SearchLoop(env, start, queries) == if stop then done else Then(done, SearchLoop(env, start + done.events, left))
  }

  lemma SearchingNext(env: Env, start: seq<Event>, queries: seq<string>, done: Phase, left: seq<string>)
    requires Searching(env, start, queries, done, left, false) && left != []
    ensures var (ends, round) := SearchRound(env, start + done.events, left[0]);
            Searching(env, start, queries, Then(done, round), left[1..], ends)
  {
    var history := start + done.events;
    var (ends, round) := SearchRound(env, history, left[0]);
    assert history + round.events == start + Then(done, round).events;
    ThenAssociates(done, round, SearchLoop(env, history + round.events, left[1..]));
  }

  class RecoveryContext {
    const env: Env
    const policy: Policy
    const input: Input
    var trace: seq<Event>

    constructor (env: Env, policy: Policy, input: Input)
      ensures this.env == env && this.policy == policy && this.input == input && trace == []
    {
      this.env, this.policy, this.input, trace := env, policy, input, [];
    }

    method ConsumeToolBudget() returns (granted: bool)
      modifies `trace
      ensures granted == env.grants(old(trace)) && trace == old(trace) + [Asked(granted)]
    {
      granted := env.grants(trace);
      trace := trace + [Asked(granted)];
    }

    method InvokeTool(call: Call) returns (answer: Observation)
      modifies `trace
      ensures answer == env.answers(old(trace), call) && trace == old(trace) + [Called(call, answer)]
    {
      answer := env.answers(trace, call);
      trace := trace + [Called(call, answer)];
    }

    method AutoFetchPublicUrls(route: Route, urls: seq<Url>)
      returns (observations: seq<Observation>, refs: seq<Ref>)
      modifies `trace
      ensures var ph := FetchPhase(env, old(trace), route, urls);
              trace == old(trace) + ph.events && observations == ph.observations && refs == ph.refs
    {
      if urls == [] {
        return [], [];
      }
      ghost var start := trace;
      var granted := ConsumeToolBudget();
      if !granted {
        return [], [];
      }
      var call := Fetch(route, Take(urls, 10));
      var answer := InvokeTool(call);
      assert trace == start + [Asked(true), Called(call, answer)];
      if !answer.succeeded {
        return [answer], [];
      }
      return [answer], env.persists(trace, answer);
    }

    /** One round of the search loop, and whether it ends the loop. */
    method SearchOnce(query: string) returns (ends: bool, observations: seq<Observation>, refs: seq<Ref>)
      modifies `trace
      ensures var (last, ph) := SearchRound(env, old(trace), query);
              ends == last && trace == old(trace) + ph.events && observations == ph.observations && refs == ph.refs
    {
      ghost var before := trace;
      var granted := ConsumeToolBudget();
      if !granted {
        return true, [], [];
      }
      var answer := InvokeTool(Search(query));
      assert trace == before + [Asked(true), Called(Search(query), answer)];
      refs := env.persists(trace, answer);
      if !answer.succeeded {
        return true, [answer], refs;
      }
      var urls := CollectFrom([], answer.items);
      if urls == [] {
        return false, [answer], refs;
      }
      var fetched, fetchedRefs := AutoFetchPublicUrls(Found, urls);
      return true, [answer] + fetched, refs + fetchedRefs;
    }

    /** Tries the queries in turn. */
    method SearchQueries(queries: seq<string>) returns (observations: seq<Observation>, refs: seq<Ref>)
      modifies `trace
      ensures var ph := SearchLoop(env, old(trace), queries);
              trace == old(trace) + ph.events && observations == ph.observations && refs == ph.refs
    {
      observations, refs := [], [];
      ghost var start, done := trace, IDLE;
      var left, stop := queries, false;
      while left != [] && !stop
        invariant Searching(env, start, queries, done, left, stop)
        invariant trace == start + done.events && observations == done.observations && refs == done.refs
        decreases |left|
      {
        SearchingNext(env, start, queries, done, left);
        ghost var round := SearchRound(env, trace, left[0]).1;
        var found, foundRefs;
        stop, found, foundRefs := SearchOnce(left[0]);
        assert trace == start + done.events + round.events;
        EventsAfter(start, done, round);
        done := Then(done, round);
        observations, refs, left := observations + found, refs + foundRefs, left[1..];
      }
    }

    method AutoSearchAndFetch(hints: seq<string>) returns (observations: seq<Observation>, refs: seq<Ref>)
      modifies `trace
      ensures var ph := SearchPhase(env, policy, input, old(trace), hints);
              trace == old(trace) + ph.events && observations == ph.observations && refs == ph.refs
    {
      if !input.canSearch || input.searchGoal.None? || |policy.strip(input.searchGoal.value)| < 2 {
        return [], [];
      }
      observations, refs := SearchQueries(Queries(policy, input.searchGoal.value, hints, input.attempted));
    }

    /** The seed fetch and the search that every route ends with. */
    method SeedAndSearch(routing: seq<Observation>, known: seq<Ref>, hints: seq<string>)
      returns (observations: seq<Observation>, refs: seq<Ref>)
      modifies `trace
      ensures var ph := SeedThenSearch(env, policy, input, old(trace), routing, known, hints);
              trace == old(trace) + ph.events && observations == ph.observations && refs == ph.refs
    {
      var seeds := Without(policy.trustedSeeds(input.goal, routing), UrlsOf(known));
      ghost var start, c := trace, FetchPhase(env, trace, Seed, seeds);
      ghost var whole := SeedThenSearch(env, policy, input, start, routing, known, hints);
      observations, refs := AutoFetchPublicUrls(Seed, seeds);
      if AnyComplete(observations) || AnyBlocked(observations) {
        assert whole == c;
        return;
      }
      ghost var d := SearchPhase(env, policy, input, start + c.events, hints);
      assert whole == Then(c, d);
      var searched, searchRefs := AutoSearchAndFetch(hints);
      EventsAfter(start, c, d);
      return observations + searched, refs + searchRefs;
    }

    /** The route over list-only pages. */
    method ExpandListPages(routing: seq<Observation>, known: seq<Ref>, hints: seq<string>)
      returns (observations: seq<Observation>, refs: seq<Ref>)
      modifies `trace
      ensures var ph := ListRoute(env, policy, input, old(trace), routing, known, hints);
              trace == old(trace) + ph.events && observations == ph.observations && refs == ph.refs
    {
      var urls := Take(Distincts(ListUrls(known)), 3);
      ghost var start, b := trace, FetchPhase(env, trace, Expand, urls);
      ghost var whole := ListRoute(env, policy, input, start, routing, known, hints);
      observations, refs := AutoFetchPublicUrls(Expand, urls);
      if AnyJd(refs) || AnyBlocked(observations) || SuppliedLeft(input, known) {
        assert whole == b;
        return;
      }
      ghost var c := SeedThenSearch(env, policy, input, start + b.events, routing, known + b.refs, hints);
      assert whole == Then(b, c);
      var more, moreRefs := SeedAndSearch(routing, known + refs, hints);
      EventsAfter(start, b, c);
      return observations + more, refs + moreRefs;
    }

    /** The route over URLs that routing results carry or the input supplies. */
    method FetchDirectly(routing: seq<Observation>, known: seq<Ref>, hints: seq<string>)
      returns (observations: seq<Observation>, refs: seq<Ref>)
      modifies `trace
      ensures var ph := DirectRoute(env, policy, input, old(trace), routing, known, hints);
              trace == old(trace) + ph.events && observations == ph.observations && refs == ph.refs
    {
      var urls := DirectUrls(input, routing, known);
      if urls == [] {
        observations, refs := SeedAndSearch(routing, known, hints);
        return;
      }
      ghost var start, f := trace, FetchPhase(env, trace, Results, urls);
      ghost var whole := DirectRoute(env, policy, input, start, routing, known, hints);
      observations, refs := AutoFetchPublicUrls(Results, urls);
      if AnyComplete(observations) {
        assert whole == f;
        return;
      }
      ghost var c := SeedThenSearch(env, policy, input, start + f.events, routing, known + f.refs, hints);
      assert whole == Then(f, c);
      var more, moreRefs := SeedAndSearch(routing, known + refs, hints);
      EventsAfter(start, f, c);
      return observations + more, refs + moreRefs;
    }

    method RecoverDiscoveryEvidence() returns (observations: seq<Observation>, refs: seq<Ref>)
      requires trace == []
      modifies `trace
      ensures var ph := Recover(env, policy, input);
              trace == ph.events && observations == ph.observations && refs == ph.refs
    {
      if Proven(input.refs) {
        return [], [];
      }
      var prioritySeeds := Without(policy.prioritySeeds(input.goal), UrlsOf(input.refs));
      var priority, priorityRefs := AutoFetchPublicUrls(Priority, prioritySeeds);
      ghost var a := PriorityPhase(env, policy, input);
      assert trace == a.events;
      if AnyJd(priorityRefs) || AnyBlocked(priority) {
        return priority, priorityRefs;
      }
      var known := input.refs + priorityRefs;
      var seen := input.observations + priority;
      var routing := seen + policy.stored(known);
      var hints := Take(Distincts(Named(policy, input.hints + policy.hints(input.goal, routing))), 5);
      if ListUrls(known) != [] {
        observations, refs := ExpandListPages(routing, known, hints);
        return;
      }
      if AnyComplete(seen) {
        return [], [];
      }
      observations, refs := FetchDirectly(routing, known, hints);
    }
  }
}
