/** The append-only event table with run-local sequence numbers, and readers that poll it with
    the last sequence they have seen. */
module EventLog {
  import opened Common
  import opened Ordering

  datatype Event = Event(run: string, sequence: int, payload: string)

  function OfRun(rows: seq<Event>, run: string): seq<Event> {
    Kept(rows, (e: Event) => e.run == run)
  }

  function MaxSequence(rows: seq<Event>): int {
    if rows == [] then 0
    else
      var m := MaxSequence(Init(rows));
      if Last(rows).sequence > m then Last(rows).sequence else m
  }

  function Above(rows: seq<Event>, after: int): seq<Event> {
    Kept(rows, (e: Event) => e.sequence > after)
  }

  function Rank(e: Event): int {
    e.sequence
  }

  /** The query of a reader: a run's events above its cursor, by ascending sequence. */
  function ListEvents(rows: seq<Event>, run: string, after: int): seq<Event> {
    SortBy(Above(OfRun(rows, run), after), Rank)
  }

  function Appended(rows: seq<Event>, run: string, payload: string): seq<Event> {
    rows + [Event(run, MaxSequence(OfRun(rows, run)) + 1, payload)]
  }

  class EventTable {
    var rows: seq<Event>

    /** The maximum is computed in the transaction that holds the run's lock. */
    method AppendEvent(run: string, payload: string) returns (e: Event)
      modifies this
      ensures rows == Appended(old(rows), run, payload) && e == Last(rows)
    {
      var latest := 0;
      for i := 0 to |rows|
        invariant rows == old(rows) && latest == MaxSequence(OfRun(rows[..i], run))
      {
        assert rows[..i + 1] == rows[..i] + [rows[i]];
        OfRunGrows(rows[..i], rows[i], run);
        if rows[i].run == run {
          assert Init(OfRun(rows[..i + 1], run)) == OfRun(rows[..i], run);
          if rows[i].sequence > latest {
            latest := rows[i].sequence;
          }
        }
      }
      assert rows[..|rows|] == rows;
      e := Event(run, latest + 1, payload);
      rows := rows + [e];
    }
  }

  // ---------------------------------------------------------------- interleavings

  datatype Op = Append(run: string, payload: string) | Poll(reader: nat)

  /** The table, and of each reader what it was given so far. A reader follows one run. */
  datatype World = World(rows: seq<Event>, given: map<nat, seq<Event>>)

  function Cursor(given: seq<Event>): int {
    if given == [] then 0 else Last(given).sequence
  }

  function Given(w: World, reader: nat): seq<Event> {
    if reader in w.given then w.given[reader] else []
  }

  function Next(w: World, follows: nat -> string, op: Op): World {
    match op
    case Append(run, payload) => w.(rows := Appended(w.rows, run, payload))
    case Poll(reader) =>
      var seen := Given(w, reader);
      w.(given := w.given[reader := seen + ListEvents(w.rows, follows(reader), Cursor(seen))])
  }

  function Run(follows: nat -> string, ops: seq<Op>): World {
    if ops == [] then World([], map[]) else Next(Run(follows, Init(ops)), follows, Last(ops))
  }

  /** The payloads appended to a run, in order. */
  function Payloads(ops: seq<Op>, run: string): seq<string> {
    if ops == [] then []
    else Payloads(Init(ops), run) + if Last(ops).Append? && Last(ops).run == run then [Last(ops).payload] else []
  }

  // ---------------------------------------------------------------- numbering

  /** The events of a run are numbered 1, 2, 3, ... in table order. */
  ghost predicate Numbered(log: seq<Event>) {
    forall i :: 0 <= i < |log| ==> log[i].sequence == i + 1
  }

  /** The largest sequence of any rows, or zero. */
  lemma {:induction false} MaxIs(rows: seq<Event>)
    ensures forall e :: e in rows ==> e.sequence <= MaxSequence(rows)
    ensures MaxSequence(rows) == 0 || exists e :: e in rows && e.sequence == MaxSequence(rows)
    ensures MaxSequence(rows) >= 0
  {
    if rows == [] {
    } else {
      MaxIs(Init(rows));
      assert rows == Init(rows) + [Last(rows)];
    }
  }

  /** In any table an appended event has a larger sequence than all others of its run, and the smallest
      positive one that has. */
  lemma AppendsAbove(rows: seq<Event>, run: string, payload: string)
    ensures var all := Appended(rows, run, payload);
            && Init(all) == rows && Last(all).run == run && Last(all).payload == payload
            && (forall e :: e in rows && e.run == run ==> e.sequence < Last(all).sequence)
            && (Last(all).sequence == 1
                || exists e :: e in rows && e.run == run && e.sequence + 1 == Last(all).sequence)
  {
    MaxIs(OfRun(rows, run));
    KeptAre(rows, (e: Event) => e.run == run);
  }

  lemma {:induction false} MaxOfNumbered(log: seq<Event>)
    requires Numbered(log)
    ensures MaxSequence(log) == |log|
  {
    if log == [] {
    } else {
      MaxOfNumbered(Init(log));
    }
  }

  lemma OfRunGrows(rows: seq<Event>, e: Event, run: string)
    ensures OfRun(rows + [e], run) == if e.run == run then OfRun(rows, run) + [e] else OfRun(rows, run)
  {
    KeptGrows(rows, (x: Event) => x.run == run, e);
  }

  /** The log of a run holds the given payloads, in order, under the sequences 1, 2, 3, ... */
  ghost predicate Holds(log: seq<Event>, run: string, payloads: seq<string>) {
    && |log| == |payloads|
    && forall i :: 0 <= i < |log| ==> log[i] == Event(run, i + 1, payloads[i])
  }

  lemma HoldsIsNumbered(log: seq<Event>, run: string, payloads: seq<string>)
    requires Holds(log, run, payloads)
    ensures Numbered(log)
  {
  }

  lemma HoldsMore(log: seq<Event>, run: string, payloads: seq<string>, payload: string)
    requires Holds(log, run, payloads)
    ensures Holds(log + [Event(run, |log| + 1, payload)], run, payloads + [payload])
  {
  }

  lemma AppendHolds(rows: seq<Event>, run: string, payload: string, other: string, payloads: seq<string>)
    requires Holds(OfRun(rows, other), other, payloads)
    ensures Holds(OfRun(Appended(rows, run, payload), other), other,
                  payloads + if run == other then [payload] else [])
  {
    var log := OfRun(rows, other);
    OfRunGrows(rows, Last(Appended(rows, run, payload)), other);
    if run == other {
      HoldsIsNumbered(log, run, payloads);
      MaxOfNumbered(log);
      HoldsMore(log, run, payloads, payload);
    } else {
      assert payloads + [] == payloads;
    }
  }

  /** In every interleaving, the events of a run carry the sequences 1..n and the payloads appended
      to it, in order. */
  lemma {:induction false} LogIsNumbered(follows: nat -> string, ops: seq<Op>, run: string)
    ensures Holds(OfRun(Run(follows, ops).rows, run), run, Payloads(ops, run))
  {
    if ops == [] {
    } else {
      LogIsNumbered(follows, Init(ops), run);
      var rows, payloads := Run(follows, Init(ops)).rows, Payloads(Init(ops), run);
      match Last(ops)
      case Append(r, payload) =>
        AppendHolds(rows, r, payload, run, payloads);
      case Poll(_) =>
        assert payloads + [] == payloads;
    }
  }

  // ---------------------------------------------------------------- reading

  lemma {:induction false} AboveOfNumbered(log: seq<Event>, n: nat)
    requires Numbered(log) && n <= |log|
    ensures Above(log, n) == log[n..]
  {
    if log == [] {
    } else {
      if n == |log| {
        assert forall i :: 0 <= i < |log| ==> log[i].sequence <= n;
        AboveNone(log, n);
      } else {
        AboveOfNumbered(Init(log), n);
        assert log[n..] == Init(log)[n..] + [Last(log)];
      }
    }
  }

  lemma {:induction false} AboveNone(log: seq<Event>, n: int)
    requires forall i :: 0 <= i < |log| ==> log[i].sequence <= n
    ensures Above(log, n) == []
  {
    if log == [] {
    } else {
      AboveNone(Init(log), n);
    }
  }

  /** A poll from a cursor returns exactly the rest of the run's log. */
  lemma PollReturnsRest(rows: seq<Event>, run: string, n: nat)
    requires Numbered(OfRun(rows, run)) && n <= |OfRun(rows, run)|
    ensures ListEvents(rows, run, n) == OfRun(rows, run)[n..]
  {
    var log := OfRun(rows, run);
    AboveOfNumbered(log, n);
    forall i, j | 0 <= i < j < |log[n..]| ensures Rank(log[n..][i]) <= Rank(log[n..][j]) {}
    SortByFixes(log[n..], Rank);
  }

  lemma PrefixCursor(log: seq<Event>, seen: seq<Event>)
    requires Numbered(log) && seen <= log
    ensures Cursor(seen) == |seen|
  {
    if seen != [] {
      assert Last(seen) == log[|seen| - 1];
    }
  }

  /** A poll completes a prefix of the log to the whole log. */
  lemma PollCompletes(rows: seq<Event>, run: string, seen: seq<Event>)
    requires Numbered(OfRun(rows, run)) && seen <= OfRun(rows, run)
    ensures seen + ListEvents(rows, run, Cursor(seen)) == OfRun(rows, run)
  {
    var log := OfRun(rows, run);
    PrefixCursor(log, seen);
    PollReturnsRest(rows, run, |seen|);
    assert seen + log[|seen|..] == log;
  }

  /** In every interleaving of appends and polls, what a reader was given is a prefix of its run's
      log: no gap, no repetition, and after a poll the whole log. */
  lemma {:induction false} ReadersSeePrefixes(follows: nat -> string, ops: seq<Op>, reader: nat)
    ensures var w := Run(follows, ops);
            && Given(w, reader) <= OfRun(w.rows, follows(reader))
            && (ops != [] && Last(ops) == Poll(reader) ==> Given(w, reader) == OfRun(w.rows, follows(reader)))
  {
    if ops == [] {
    } else {
      var w, run := Run(follows, Init(ops)), follows(reader);
      ReadersSeePrefixes(follows, Init(ops), reader);
      match Last(ops)
      case Append(r, payload) =>
        OfRunGrows(w.rows, Last(Appended(w.rows, r, payload)), run);
      case Poll(other) =>
        if other == reader {
          LogIsNumbered(follows, Init(ops), run);
          HoldsIsNumbered(OfRun(w.rows, run), run, Payloads(Init(ops), run));
          PollCompletes(w.rows, run, Given(w, reader));
        }
    }
  }
}
