/** Which evidence a recovery persists and reports, read off its trace. */
module RecoveryReferences {
  import opened Common
  import opened Recovery
  import opened RecoveryLaws

  /** What persistence made, in order, of the answer to every search and of every fetch that succeeded. */
  function Persisted(env: Env, history: seq<Event>, events: seq<Event>): seq<Ref> {
    if events == [] then []
    else
      var e := Last(events);
      Persisted(env, history, Init(events))
      + if e.Called? && (e.call.Search? || e.answer.succeeded) then env.persists(history + events, e.answer) else []
  }

  lemma {:induction false} PersistedConcat(env: Env, history: seq<Event>, a: seq<Event>, b: seq<Event>)
    ensures Persisted(env, history, a + b) == Persisted(env, history, a) + Persisted(env, history + a, b)
  {
    if b == [] {
      assert a + b == a;
    } else {
      PersistedConcat(env, history, a, Init(b));
      assert Init(a + b) == a + Init(b) && history + (a + b) == history + a + b;
    }
  }

  /** The phase reports exactly what it persisted. */
  ghost predicate Reports(env: Env, history: seq<Event>, ph: Phase) {
    ph.refs == Persisted(env, history, ph.events)
  }

  lemma ThenReports(env: Env, history: seq<Event>, a: Phase, b: Phase)
    requires Reports(env, history, a) && Reports(env, history + a.events, b)
    ensures Reports(env, history, Then(a, b))
  {
    PersistedConcat(env, history, a.events, b.events);
  }

  lemma FetchReports(env: Env, history: seq<Event>, route: Route, urls: seq<Url>)
    ensures Reports(env, history, FetchPhase(env, history, route, urls))
  {
    var events := FetchPhase(env, history, route, urls).events;
    if events != [] {
      assert Init(events[..1]) == [] && Persisted(env, history, events[..1]) == [];
      assert |events| == 2 ==> Init(events) == events[..1];
      assert |events| == 1 ==> events == events[..1];
    }
  }

  lemma RoundReports(env: Env, history: seq<Event>, query: string)
    ensures Reports(env, history, SearchRound(env, history, query).1)
  {
    if env.grants(history) {
      var call := Search(query);
      var answer := env.answers(history + [Asked(true)], call);
      var events := [Asked(true), Called(call, answer)];
      var first := Phase(events, [answer], env.persists(history + events, answer));
      assert Init(events) == [Asked(true)] && Init([Asked(true)]) == [];
      assert Persisted(env, history, [Asked(true)]) == [];
      var urls := CollectFrom([], answer.items);
      FetchReports(env, history + events, Found, urls);
      ThenReports(env, history, first, FetchPhase(env, history + events, Found, urls));
    } else {
      assert Init([Asked(false)]) == [];
    }
  }

  lemma {:induction false} LoopReports(env: Env, history: seq<Event>, queries: seq<string>)
    ensures Reports(env, history, SearchLoop(env, history, queries))
    decreases |queries|
  {
    if queries == [] {
    } else {
      var (ends, round) := SearchRound(env, history, queries[0]);
      RoundReports(env, history, queries[0]);
      if !ends {
        LoopReports(env, history + round.events, queries[1..]);
        ThenReports(env, history, round, SearchLoop(env, history + round.events, queries[1..]));
      }
    }
  }

  lemma SeedReports(env: Env, p: Policy, input: Input, history: seq<Event>, routing: seq<Observation>,
                    known: seq<Ref>, hints: seq<string>)
    ensures Reports(env, history, SeedThenSearch(env, p, input, history, routing, known, hints))
  {
    var seeds := Without(p.trustedSeeds(input.goal, routing), UrlsOf(known));
    var c := FetchPhase(env, history, Seed, seeds);
    FetchReports(env, history, Seed, seeds);
    LoopReports(env, history + c.events, Planned(p, input, hints));
    ThenReports(env, history, c, SearchPhase(env, p, input, history + c.events, hints));
  }

  lemma ListRouteReports(env: Env, p: Policy, input: Input, history: seq<Event>, routing: seq<Observation>,
                         refs: seq<Ref>, hints: seq<string>)
    ensures Reports(env, history, ListRoute(env, p, input, history, routing, refs, hints))
  {
    var urls := Take(Distincts(ListUrls(refs)), 3);
    var b := FetchPhase(env, history, Expand, urls);
    FetchReports(env, history, Expand, urls);
    SeedReports(env, p, input, history + b.events, routing, refs + b.refs, hints);
    ThenReports(env, history, b, SeedThenSearch(env, p, input, history + b.events, routing, refs + b.refs, hints));
  }

  lemma DirectRouteReports(env: Env, p: Policy, input: Input, history: seq<Event>, routing: seq<Observation>,
                           refs: seq<Ref>, hints: seq<string>)
    ensures Reports(env, history, DirectRoute(env, p, input, history, routing, refs, hints))
  {
    var urls := DirectUrls(input, routing, refs);
    var f := FetchPhase(env, history, Results, urls);
    SeedReports(env, p, input, history, routing, refs, hints);
    FetchReports(env, history, Results, urls);
    SeedReports(env, p, input, history + f.events, routing, refs + f.refs, hints);
    ThenReports(env, history, f, SeedThenSearch(env, p, input, history + f.events, routing, refs + f.refs, hints));
  }

  lemma RestReports(env: Env, p: Policy, input: Input, a: Phase)
    ensures Reports(env, a.events, AfterPriority(env, p, input, a))
  {
    ListRouteReports(env, p, input, a.events, Routing(p, input, a), input.refs + a.refs, Hints(p, input, a));
    DirectRouteReports(env, p, input, a.events, Routing(p, input, a), input.refs + a.refs, Hints(p, input, a));
  }

  /** Over every run the references returned are, in the order of the trace, what persistence made of
      every search and of every fetch that succeeded, and nothing of a fetch that failed; those of the
      priority fetch are left out unless it ended the recovery. */
  lemma ReturnsWhatItPersisted(env: Env, p: Policy, input: Input)
    ensures var a, r := PriorityPhase(env, p, input), Recover(env, p, input);
            if Proven(input.refs) then r == Phase([], [], [])
            else
              && Persisted(env, [], r.events) == (if PriorityEnds(a) then [] else a.refs) + r.refs
              && a.events <= r.events && a.refs == Persisted(env, [], a.events)
  {
    if !Proven(input.refs) {
      var a := PriorityPhase(env, p, input);
      FetchReports(env, [], Priority, Without(p.prioritySeeds(input.goal), UrlsOf(input.refs)));
      if !PriorityEnds(a) {
        RecoverIs(env, p, input);
        RestReports(env, p, input, a);
        PersistedConcat(env, [], a.events, AfterPriority(env, p, input, a).events);
        assert [] + a.events == a.events;
      }
    }
  }

  /** The recovery reports every piece of evidence it persisted exactly when the priority fetch ended it
      or persisted nothing. */
  lemma ReportsAllEvidenceIff(env: Env, p: Policy, input: Input)
    requires !Proven(input.refs)
    ensures var a, r := PriorityPhase(env, p, input), Recover(env, p, input);
            r.refs == Persisted(env, [], r.events) <==> PriorityEnds(a) || a.refs == []
  {
    var a, r := PriorityPhase(env, p, input), Recover(env, p, input);
    ReturnsWhatItPersisted(env, p, input);
    assert |a.refs + r.refs| == |a.refs| + |r.refs|;
  }
}
