/** Saving and loading the state file: a backup copy that is not atomic, a temporary file, and an
    atomic replacement, with a crash possible after every single disk write. */
module StateFile {
  import opened Common

  /** A file is missing, unusable (partly written, or not a state document), or holds a document. */
  datatype Content<S> = Absent | Unusable | Full(doc: S)

  datatype Disk<S> = Disk(live: Content<S>, backup: Content<S>, temp: Content<S>)

  function Read<S>(c: Content<S>): Option<S> {
    if c.Full? then Some(c.doc) else None
  }

  function Load<S>(d: Disk<S>, default: S): S {
    if Read(d.live).Some? then Read(d.live).value
    else if Read(d.backup).Some? then Read(d.backup).value
    else default
  }

  /** The disk before saving `doc` and after each write: the backup while it is being copied and
      once it is complete, the temporary file likewise, and the replacement. */
  function SaveTrace<S>(d: Disk<S>, doc: S): (trace: seq<Disk<S>>)
    ensures trace != [] && trace[0] == d
  {
    var copied := if Read(d.live).Some? then d.(backup := d.live) else d;
    var written := copied.(temp := Full(doc));
    (if Read(d.live).Some? then [d, d.(backup := Unusable)] + [copied] else [d])
    + [copied.(temp := Unusable), written, written.(live := Full(doc), temp := Absent)]
  }

  /** The position in the trace from which the new document is live. */
  function ReplacedAt<S>(d: Disk<S>): nat {
    if Read(d.live).Some? then 5 else 3
  }

  class Files<S> {
    var live: Content<S>
    var backup: Content<S>
    var temp: Content<S>
    ghost var history: seq<Disk<S>>  // every state the disk was in since the last save began

    function Now(): Disk<S>
      reads this
    {
      Disk(live, backup, temp)
    }

    constructor (d: Disk<S>)
      ensures Now() == d && history == [d]
    {
      live, backup, temp := d.live, d.backup, d.temp;
      history := [d];
    }

    method LoadState(default: S) returns (doc: S)
      ensures doc == Load(Now(), default)
    {
      var state := Read(live);
      if state.Some? {
        return state.value;
      }
      state := Read(backup);
      if state.Some? {
        return state.value;
      }
      return default;
    }

    ghost method Note()
      modifies `history
      ensures history == old(history) + [Now()]
    {
      history := history + [Now()];
    }

    method Save(doc: S)
      modifies this
      ensures history == SaveTrace(old(Now()), doc) && Now() == Last(history)
    {
      history := [Now()];
      if Read(live).Some? {
        backup := Unusable;
        Note();
        backup := live;
        Note();
      }
      temp := Unusable;
      Note();
      temp := Full(doc);
      Note();
      live, temp := temp, Absent;
      Note();
    }
  }

  // ---------------------------------------------------------------- the single writes

  /** One write to one file, which is partial before it is whole, or the atomic move of the temporary
      file over the live one. */
  ghost predicate OneWrite<S>(a: Disk<S>, b: Disk<S>) {
    || (b == a.(backup := b.backup) && (b.backup == Unusable || (a.backup == Unusable && b.backup == a.live)))
    || (b == a.(temp := b.temp) && (b.temp == Unusable || a.temp == Unusable))
    || b == Disk(a.temp, a.backup, Absent)
  }

  /** A save goes by single writes from the old disk to the one where the new document is live, no
      temporary file is left, and the backup is the old live file if that was usable. The move puts the
      whole new document in place. */
  lemma SaveByWrites<S>(d: Disk<S>, doc: S)
    ensures var trace := SaveTrace(d, doc);
            && (forall k :: 0 < k < |trace| ==> OneWrite(trace[k - 1], trace[k]))
            && trace[0] == d && |trace| >= 2 && trace[|trace| - 2].temp == Full(doc)
            && Last(trace) == Disk(Full(doc), if d.live.Full? then d.live else d.backup, Absent)
            && forall k :: 0 <= k < |trace| - 1 ==> trace[k].live == d.live
  {}

  // ---------------------------------------------------------------- crashes

  /** A crash at any point of a save: the next load returns the state loaded before the save, or
      from the replacement on the full new document; never anything else. */
  lemma CrashSafe<S>(d: Disk<S>, doc: S, default: S, k: nat)
    requires k < |SaveTrace(d, doc)|
    ensures Load(SaveTrace(d, doc)[k], default) == if k < ReplacedAt(d) then Load(d, default) else doc
    ensures ReplacedAt(d) == |SaveTrace(d, doc)| - 1
  {}

  /** One attempt to save: it runs to the end, or crashes after `crash` writes. */
  datatype Attempt<S> = Attempt(doc: S, crash: Option<nat>)

  function Outcome<S>(d: Disk<S>, a: Attempt<S>): Disk<S> {
    var trace := SaveTrace(d, a.doc);
    match a.crash
    case None => Last(trace)
    case Some(k) => if k < |trace| then trace[k] else Last(trace)
  }

  function After<S>(d: Disk<S>, attempts: seq<Attempt<S>>): Disk<S> {
    if attempts == [] then d else Outcome(After(d, Init(attempts)), Last(attempts))
  }

  /** The attempt reached the replacement of the live file. */
  predicate Replaced<S>(d: Disk<S>, a: Attempt<S>) {
    a.crash.None? || a.crash.value >= ReplacedAt(d)
  }

  /** The document of the last attempt that reached its replacement, or what was loaded at first. */
  function LastReplaced<S>(d: Disk<S>, attempts: seq<Attempt<S>>, default: S): S {
    if attempts == [] then Load(d, default)
    else if Replaced(After(d, Init(attempts)), Last(attempts)) then Last(attempts).doc
    else LastReplaced(d, Init(attempts), default)
  }

  /** Over any sequence of saves with crashes anywhere, a load returns exactly the document of the
      last save that reached its replacement. */
  lemma {:induction false} LoadsLastReplaced<S>(d: Disk<S>, attempts: seq<Attempt<S>>, default: S)
    ensures Load(After(d, attempts), default) == LastReplaced(d, attempts, default)
  {
    if attempts == [] {
    } else {
      var before, a := After(d, Init(attempts)), Last(attempts);
      LoadsLastReplaced(d, Init(attempts), default);
      var trace := SaveTrace(before, a.doc);
      var k := if a.crash.Some? && a.crash.value < |trace| then a.crash.value else |trace| - 1;
      CrashSafe(before, a.doc, default, k);
    }
  }

  predicate Readable<S>(d: Disk<S>) {
    Read(d.live).Some? || Read(d.backup).Some?
  }

  /** Over any sequence of saves with crashes anywhere, a disk that holds a readable copy goes on
      holding one. */
  lemma {:induction false} AlwaysRecoverable<S>(d: Disk<S>, attempts: seq<Attempt<S>>)
    requires Readable(d)
    ensures Readable(After(d, attempts))
  {
    if attempts == [] {
    } else {
      AlwaysRecoverable(d, Init(attempts));
    }
  }

  /** Should the live file become unusable after a completed save, a load returns what it would
      have returned before that save, whatever crashes came earlier. */
  lemma BackupIsPreviousState<S>(d: Disk<S>, attempts: seq<Attempt<S>>, default: S)
    requires attempts != [] && Last(attempts).crash.None?
    ensures Load(After(d, attempts).(live := Unusable), default) == LastReplaced(d, Init(attempts), default)
  {
    LoadsLastReplaced(d, Init(attempts), default);
  }

  /** Once one save has completed, the default is never loaded again, whatever crashes follow:
      the loaded document is one that some attempt from that save on was writing. */
  lemma {:induction false} NeverDefaultAgain<S>(d: Disk<S>, attempts: seq<Attempt<S>>, default: S, i: nat)
    requires i < |attempts| && attempts[i].crash.None?
    ensures exists j :: i <= j < |attempts| && Load(After(d, attempts), default) == attempts[j].doc
  {
    LoadsLastReplaced(d, attempts, default);
    if !Replaced(After(d, Init(attempts)), Last(attempts)) {
      assert Init(attempts)[i] == attempts[i];
      NeverDefaultAgain(d, Init(attempts), default, i);
      LoadsLastReplaced(d, Init(attempts), default);
      var j :| i <= j < |Init(attempts)| && Load(After(d, Init(attempts)), default) == Init(attempts)[j].doc;
      assert attempts[j] == Init(attempts)[j];
    } else {
      assert attempts[|attempts| - 1] == Last(attempts);
    }
  }
}
