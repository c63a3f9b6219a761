/** The fixed-window rate limiter over a shared counter with expiry: one increment and one
    expire-if-none per call, in one transaction. */
module RateLimit {
  import opened Common

  /** A counter that is gone from the instant `expiry` on. A store that still serves it at that instant
      behaves as this one with a window of one tick more. */
  datatype Counter = Counter(count: nat, expiry: int)

  /** `Lost(applied)`: the store failed, with or without having applied the transaction. */
  datatype Fault = NoFault | Lost(applied: bool)

  datatype Call = Call(now: int, limit: int, fault: Fault)

  datatype Outcome = Accepted | Exceeded | Unavailable

  function Live(c: Option<Counter>, now: int): Option<Counter> {
    if c.Some? && now < c.value.expiry then c else None
  }

  /** Increment, then expire if no expiry is set; a window that is not positive deletes the key. */
  function Hit(window: int, c: Option<Counter>, now: int): (int, Option<Counter>) {
    match Live(c, now)
    case Some(Counter(count, expiry)) => (count + 1, Some(Counter(count + 1, expiry)))
    case None => (1, if window > 0 then Some(Counter(1, now + window)) else None)
  }

  function Applied(call: Call): bool {
    call.fault.NoFault? || call.fault.applied
  }

  function CounterAfter(window: int, c: Option<Counter>, call: Call): Option<Counter> {
    if Applied(call) then Hit(window, c, call.now).1 else c
  }

  function Decision(window: int, c: Option<Counter>, call: Call): Outcome {
    if !call.fault.NoFault? then Unavailable
    else if Hit(window, c, call.now).0 > call.limit then Exceeded
    else Accepted
  }

  class RedisFixedWindowRateLimiter<Key(==, !new)> {
    var counters: map<Key, Counter>
    const limit: int
    const window: int

    constructor (limit: int, window: int)
      ensures counters == map[] && this.limit == limit && this.window == window
    {
      counters, this.limit, this.window := map[], limit, window;
    }

    function CounterOf(key: Key): Option<Counter>
      reads this
    {
      if key in counters then Some(counters[key]) else None
    }

    /** One check of one key; other keys are untouched. */
    method Check(key: Key, now: int, override: Option<int>, fault: Fault) returns (outcome: Outcome)
      modifies this
      ensures var call := Call(now, if override.Some? then override.value else limit, fault);
              && CounterOf(key) == CounterAfter(window, old(CounterOf(key)), call)
              && outcome == Decision(window, old(CounterOf(key)), call)
      ensures forall k :: k != key ==> CounterOf(k) == old(CounterOf(k))
    {
      if fault == Lost(false) {
        return Unavailable;
      }
      if key in counters && counters[key].expiry <= now {
        counters := counters - {key};
      }
      var count := 1;
      if key in counters {
        count := counters[key].count + 1;
        counters := counters[key := Counter(count, counters[key].expiry)];
      } else if window > 0 {
        counters := counters[key := Counter(1, now + window)];
      }
      if fault == Lost(true) {
        return Unavailable;
      }
      if count > (if override.Some? then override.value else limit) {
        return Exceeded;
      }
      return Accepted;
    }
  }

  // ---------------------------------------------------------------- sequences of calls on one key

  function After(window: int, calls: seq<Call>): Option<Counter> {
    if calls == [] then None else CounterAfter(window, After(window, Init(calls)), Last(calls))
  }

  function LastOutcome(window: int, calls: seq<Call>): Outcome
    requires calls != []
  {
    Decision(window, After(window, Init(calls)), Last(calls))
  }

  /** The number of accepted calls at times from `from` to `to`, both included. */
  function AcceptedWithin(window: int, calls: seq<Call>, from: int, to: int): nat {
    if calls == [] then 0
    else AcceptedWithin(window, Init(calls), from, to)
         + if from <= Last(calls).now <= to && LastOutcome(window, calls) == Accepted then 1 else 0
  }

  /** The clock never goes back, and no call asks for more than `limit`. */
  ghost predicate Lawful(calls: seq<Call>, limit: nat) {
    && (forall i, j :: 0 <= i < j < |calls| ==> calls[i].now <= calls[j].now)
    && (forall i :: 0 <= i < |calls| ==> calls[i].limit <= limit)
  }

  /** The accepted calls of the window that is current after the last call. */
  function InWindow(window: int, calls: seq<Call>): nat {
    if calls == [] then 0
    else
      var before := After(window, Init(calls));
      (if Applied(Last(calls)) && Live(before, Last(calls).now).None? then 0 else InWindow(window, Init(calls)))
      + if LastOutcome(window, calls) == Accepted then 1 else 0
  }

  lemma LawfulPrefix(calls: seq<Call>, limit: nat)
    requires Lawful(calls, limit) && calls != []
    ensures Lawful(Init(calls), limit)
  {
    var before := Init(calls);
    forall i, j | 0 <= i < j < |before| ensures before[i].now <= before[j].now {
      assert calls[i].now <= calls[j].now;
    }
  }

  /** The counter bounds the accepted calls of the current window, and so does the limit. */
  lemma {:induction false} WindowBound(window: int, calls: seq<Call>, limit: nat)
    requires window > 0 && Lawful(calls, limit)
    ensures InWindow(window, calls) <= limit
    ensures var c := After(window, calls);
            if c.Some? then InWindow(window, calls) <= c.value.count else InWindow(window, calls) == 0
  {
    if calls == [] {
    } else {
      LawfulPrefix(calls, limit);
      WindowBound(window, Init(calls), limit);
    }
  }

  /** All calls so far came before the current window ends, and the applied ones of it not before
      it began. */
  lemma {:induction false} TimesInWindow(window: int, calls: seq<Call>, limit: nat, from: int)
    requires window > 0 && Lawful(calls, limit)
    ensures var c := After(window, calls);
            && (c.None? ==> AcceptedWithin(window, calls, from, from + window) == 0)
            && (c.Some? && from >= c.value.expiry ==> AcceptedWithin(window, calls, from, from + window) == 0)
            && (c.Some? ==> exists i :: 0 <= i < |calls| && calls[i].now == c.value.expiry - window)
  {
    if calls == [] {
    } else {
      LawfulPrefix(calls, limit);
      TimesInWindow(window, Init(calls), limit, from);
      var c := After(window, calls);
      if c.Some? {
        if c == After(window, Init(calls)) || Live(After(window, Init(calls)), Last(calls).now).Some? {
          var i :| 0 <= i < |Init(calls)| && Init(calls)[i].now == c.value.expiry - window;
          assert calls[i].now == c.value.expiry - window;
        } else {
          assert calls[|calls| - 1].now == c.value.expiry - window;
        }
      }
    }
  }

  /** What the sliding bound rests on: relative to the start of the current window, how many of
      the accepted calls can lie in the interval. */
  lemma {:induction false} SlidingInvariant(window: int, calls: seq<Call>, limit: nat, from: int)
    requires window > 0 && Lawful(calls, limit)
    ensures var c, n := After(window, calls), AcceptedWithin(window, calls, from, from + window);
            && n <= 2 * limit
            && (c.Some? && c.value.expiry - window <= from ==> n <= InWindow(window, calls))
            && (c.Some? && c.value.expiry - window <= from + window ==> n <= limit + InWindow(window, calls))
  {
    if calls == [] {
    } else {
      var before := Init(calls);
      LawfulPrefix(calls, limit);
      SlidingInvariant(window, before, limit, from);
      WindowBound(window, before, limit);
      WindowBound(window, calls, limit);
      TimesInWindow(window, before, limit, from);
      TimesInWindow(window, calls, limit, from);
      var c := After(window, calls);
      if c.Some? {
        var i :| 0 <= i < |calls| && calls[i].now == c.value.expiry - window;
        assert c.value.expiry - window <= Last(calls).now by {
          assert i < |calls| - 1 ==> calls[i].now <= calls[|calls| - 1].now;
        }
      }
    }
  }

  /** Any time interval of the length of a window holds at most twice the limit of accepted
      calls, whatever the call pattern and the faults. */
  lemma SlidingBound(window: int, calls: seq<Call>, limit: nat, from: int)
    requires window > 0 && Lawful(calls, limit)
    ensures AcceptedWithin(window, calls, from, from + window) <= 2 * limit
  {
    SlidingInvariant(window, calls, limit, from);
  }

  /** The bound is reached for every window: with limit 1, a call that opens a window and one at the
      instant the window ends are both accepted. */
  lemma SlidingBoundReached(window: int, from: int)
    requires window > 0
    ensures AcceptedWithin(window, [Call(from, 1, NoFault), Call(from + window, 1, NoFault)], from, from + window) == 2
  {
    var a, b := Call(from, 1, NoFault), Call(from + window, 1, NoFault);
    assert Init([a, b]) == [a] && Init([a]) == [];
    assert After(window, [a]) == Some(Counter(1, from + window));
    assert LastOutcome(window, [a]) == Accepted && LastOutcome(window, [a, b]) == Accepted;
    var none: seq<Call> := [];
    assert AcceptedWithin(window, none, from, from + window) == 0;
    assert AcceptedWithin(window, [a], from, from + window) == 1;
  }

  /** The number of applied calls. */
  function Hits(calls: seq<Call>): nat {
    if calls == [] then 0 else Hits(Init(calls)) + if Applied(Last(calls)) then 1 else 0
  }

  /** Within a window nothing, and no rejection either, moves its end: after an applied call opens
      a window, the counter counts the applied calls and keeps its expiry. */
  lemma {:induction false} WindowIsFixed(window: int, before: seq<Call>, first: Call, later: seq<Call>)
    requires window > 0 && Live(After(window, before), first.now).None? && Applied(first)
    requires forall i :: 0 <= i < |later| ==> later[i].now < first.now + window
    ensures After(window, before + [first] + later) == Some(Counter(1 + Hits(later), first.now + window))
  {
    var all := before + [first] + later;
    if later == [] {
      assert all == before + [first] && Init(all) == before;
    } else {
      WindowIsFixed(window, before, first, Init(later));
      assert Init(all) == before + [first] + Init(later);
    }
  }

  /** The accepted calls from position `n` on. */
  function AcceptedFrom(window: int, calls: seq<Call>, n: nat): nat {
    if |calls| <= n then 0
    else AcceptedFrom(window, Init(calls), n) + if LastOutcome(window, calls) == Accepted then 1 else 0
  }

  /** Between the call that opens a window and the window's end, at most `limit` calls are accepted. */
  lemma {:induction false} AtMostLimitPerWindow(window: int, before: seq<Call>, first: Call, later: seq<Call>,
                                                limit: nat)
    requires window > 0 && Live(After(window, before), first.now).None? && Applied(first)
    requires forall i :: 0 <= i < |later| ==> later[i].now < first.now + window && later[i].limit <= limit
    requires first.limit <= limit
    ensures AcceptedFrom(window, before + [first] + later, |before|) <= limit
    ensures AcceptedFrom(window, before + [first] + later, |before|) <= 1 + Hits(later)
  {
    var all := before + [first] + later;
    if later == [] {
      assert all == before + [first] && Init(all) == before;
    } else {
      AtMostLimitPerWindow(window, before, first, Init(later), limit);
      WindowIsFixed(window, before, first, Init(later));
      assert Init(all) == before + [first] + Init(later);
    }
  }

  /** The admission rule of a window: a later call is unavailable exactly when the store failed; else it
      is accepted exactly when the calls applied in the window, this one included, do not exceed its
      limit. */
  lemma AdmissionRule(window: int, before: seq<Call>, first: Call, later: seq<Call>, call: Call)
    requires window > 0 && Live(After(window, before), first.now).None? && Applied(first)
    requires forall i :: 0 <= i < |later| ==> later[i].now < first.now + window
    requires call.now < first.now + window
    ensures var outcome := LastOutcome(window, before + [first] + later + [call]);
            && (outcome == Unavailable <==> call.fault.Lost?)
            && (outcome == Accepted <==> call.fault.NoFault? && 2 + Hits(later) <= call.limit)
  {
    WindowIsFixed(window, before, first, later);
    assert Init(before + [first] + later + [call]) == before + [first] + later;
  }

  /** A call that finds no window is counted as one, and opens a window of that length. */
  lemma OpeningRule(window: int, before: seq<Call>, call: Call)
    requires Live(After(window, before), call.now).None?
    ensures var outcome := LastOutcome(window, before + [call]);
            && (outcome == Unavailable <==> call.fault.Lost?)
            && (outcome == Accepted <==> call.fault.NoFault? && 1 <= call.limit)
    ensures Applied(call) && window > 0 ==> After(window, before + [call]) == Some(Counter(1, call.now + window))
  {
    assert Init(before + [call]) == before;
  }

  /** With a window that is not positive nothing is ever remembered: a call is accepted exactly when the
      store answered and the limit allows one. */
  lemma {:induction false} NoWindowNoMemory(window: int, calls: seq<Call>)
    requires window <= 0
    ensures After(window, calls) == None
    ensures calls != [] ==> (LastOutcome(window, calls) == Accepted <==>
                             Last(calls).fault.NoFault? && 1 <= Last(calls).limit)
  {
    if calls == [] {
    } else {
      NoWindowNoMemory(window, Init(calls));
    }
  }
}
