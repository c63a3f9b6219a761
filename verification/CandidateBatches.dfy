/** The accumulating writer: each call loads the page file, appends the valid candidates of its
    batch whose identity is new, and writes the file back. */
module CandidateBatches {
  import opened Common
  import opened Grouping

  /** The checks the writer applies: `valid` accepts a publishable candidate, `identity` is its
      key, `safe` replaces lone surrogates. */
  datatype Rules<!C, !I> = Rules(valid: C -> bool, identity: C -> I, safe: C -> C)

  function Mapped<C>(cs: seq<C>, f: C -> C): seq<C> {
    seq(|cs|, i requires 0 <= i < |cs| => f(cs[i]))
  }

  /** The members of `kept` that are appended when the identities `seen` are already there. */
  ghost function Fresh<C, I>(r: Rules<C, I>, seen: set<I>, kept: seq<C>): seq<C> {
    if kept == [] then []
    else
      var before := Fresh(r, seen, Init(kept));
      if r.identity(Last(kept)) in seen + KeySet(before, r.identity) then before else before + [Last(kept)]
  }

  lemma FreshNext<C, I>(r: Rules<C, I>, seen: set<I>, kept: seq<C>, i: nat)
    requires i < |kept|
    ensures var before := Fresh(r, seen, kept[..i]);
            Fresh(r, seen, kept[..i + 1])
            == if r.identity(kept[i]) in seen + KeySet(before, r.identity) then before else before + [kept[i]]
  {
    assert Init(kept[..i + 1]) == kept[..i];
  }

  lemma TakenNext<C, I>(r: Rules<C, I>, taken: seq<C>, c: C)
    ensures KeySet(taken + [c], r.identity) == KeySet(taken, r.identity) + {r.identity(c)}
    ensures Mapped(taken + [c], r.safe) == Mapped(taken, r.safe) + [r.safe(c)]
  {
    KeySetOfConcat(taken, [c], r.identity);
    assert r.identity([c][0]) in KeySet([c], r.identity);
  }

  /** The file after one call; a missing or unreadable file counts as empty. */
  ghost function Written<C, I>(r: Rules<C, I>, file: Option<seq<C>>, batch: seq<C>): seq<C> {
    var existing := if file.Some? then file.value else [];
    Mapped(existing, r.safe) + Mapped(Fresh(r, KeySet(existing, r.identity), Kept(batch, r.valid)), r.safe)
  }

  /** The loop of the program. */
  method WriteBatch<C(!new), I(==)>(r: Rules<C, I>, file: Option<seq<C>>, batch: seq<C>)
    returns (merged: seq<C>, added: nat)
    ensures merged == Written(r, file, batch)
    ensures |merged| == (if file.Some? then |file.value| else 0) + added
  {
    var kept := [];
    for i := 0 to |batch|
      invariant kept == Kept(batch[..i], r.valid)
    {
      assert Init(batch[..i + 1]) == batch[..i];
      if r.valid(batch[i]) {
        kept := kept + [batch[i]];
      }
    }
    assert batch[..|batch|] == batch;
    var existing := if file.Some? then file.value else [];
    merged := Mapped(existing, r.safe);
    var seen := set i | 0 <= i < |existing| :: r.identity(existing[i]);
    ghost var known := seen;
    ghost var taken: seq<C> := [];
    assert known == KeySet(existing, r.identity);
    added := 0;
    for i := 0 to |kept|
      invariant taken == Fresh(r, known, kept[..i])
      invariant seen == known + KeySet(taken, r.identity)
      invariant merged == Mapped(existing, r.safe) + Mapped(taken, r.safe)
      invariant added == |taken|
    {
      var c := kept[i];
      var ident := r.identity(c);
      FreshNext(r, known, kept, i);
      if ident in seen {
        continue;
      }
      seen := seen + {ident};
      TakenNext(r, taken, c);
      taken := taken + [c];
      merged := merged + [r.safe(c)];
      added := added + 1;
    }
    assert kept[..|kept|] == kept;
  }

  // ---------------------------------------------------------------- sequences of calls

  /** The file after a sequence of calls, starting from no file. */
  ghost function Accumulated<C, I>(r: Rules<C, I>, batches: seq<seq<C>>): Option<seq<C>> {
    if batches == [] then None
    else Some(Written(r, Accumulated(r, Init(batches)), Last(batches)))
  }

  ghost function Joined<C>(batches: seq<seq<C>>): seq<C> {
    if batches == [] then [] else Joined(Init(batches)) + Last(batches)
  }

  /** Replacing surrogates leaves nothing more to replace. */
  ghost predicate Cleans<C(!new), I>(r: Rules<C, I>) {
    forall c :: r.safe(r.safe(c)) == r.safe(c)
  }

  /** Replacing surrogates leaves the identities of the valid candidates as they are. */
  ghost predicate Stable<C, I>(r: Rules<C, I>, cs: seq<C>) {
    forall c :: c in cs && r.valid(c) ==> r.identity(r.safe(c)) == r.identity(c)
  }

  /** The same for already accepted candidates. */
  ghost predicate Keeps<C, I>(r: Rules<C, I>, cs: seq<C>) {
    forall c :: c in cs ==> r.identity(r.safe(c)) == r.identity(c)
  }

  /** Appending what is new extends the first-occurrence deduplication. */
  lemma {:induction false} FreshExtends<C(!new), I>(r: Rules<C, I>, done: seq<C>, kept: seq<C>)
    ensures FirstByKey(done, r.identity) + Fresh(r, KeySet(FirstByKey(done, r.identity), r.identity), kept)
            == FirstByKey(done + kept, r.identity)
  {
    var first := FirstByKey(done, r.identity);
    if kept == [] {
      assert done + kept == done;
    } else {
      FreshExtends(r, done, Init(kept));
      assert Init(done + kept) == done + Init(kept);
      KeySetOfConcat(first, Fresh(r, KeySet(first, r.identity), Init(kept)), r.identity);
    }
  }

  lemma MappedKeys<C(!new), I>(r: Rules<C, I>, cs: seq<C>)
    requires Keeps(r, cs)
    ensures KeySet(Mapped(cs, r.safe), r.identity) == KeySet(cs, r.identity)
  {
    var ms := Mapped(cs, r.safe);
    forall i | 0 <= i < |cs| ensures r.identity(ms[i]) == r.identity(cs[i]) {
      assert cs[i] in cs;
    }
    forall k | k in KeySet(cs, r.identity) ensures k in KeySet(ms, r.identity) {
      var i :| 0 <= i < |cs| && r.identity(cs[i]) == k;
      assert r.identity(ms[i]) == k;
    }
    forall k | k in KeySet(ms, r.identity) ensures k in KeySet(cs, r.identity) {
      var i :| 0 <= i < |ms| && r.identity(ms[i]) == k;
      assert r.identity(cs[i]) == k;
    }
  }

  lemma MappedConcat<C(!new)>(a: seq<C>, b: seq<C>, f: C -> C)
    ensures Mapped(a + b, f) == Mapped(a, f) + Mapped(b, f)
  {}

  lemma SurvivorsKeep<C(!new), I>(r: Rules<C, I>, cs: seq<C>)
    requires Stable(r, cs)
    ensures Keeps(r, FirstByKey(Kept(cs, r.valid), r.identity))
  {
    FirstByKeyKeys(Kept(cs, r.valid), r.identity);
    KeptAre(cs, r.valid);
  }

  /** One more batch on a file that holds the first candidates of each identity. */
  lemma WrittenExtends<C(!new), I>(r: Rules<C, I>, done: seq<C>, batch: seq<C>)
    requires Cleans(r) && Keeps(r, FirstByKey(done, r.identity))
    ensures Written(r, Some(Mapped(FirstByKey(done, r.identity), r.safe)), batch)
            == Mapped(FirstByKey(done + Kept(batch, r.valid), r.identity), r.safe)
  {
    var first, kept := FirstByKey(done, r.identity), Kept(batch, r.valid);
    MappedKeys(r, first);
    assert Mapped(Mapped(first, r.safe), r.safe) == Mapped(first, r.safe);
    FreshExtends(r, done, kept);
    MappedConcat(first, Fresh(r, KeySet(first, r.identity), kept), r.safe);
  }

  lemma WrittenFirst<C(!new), I>(r: Rules<C, I>, batch: seq<C>)
    ensures Written(r, None, batch) == FirstOccurrences(r, batch)
  {
    var none: seq<C>, kept := [], Kept(batch, r.valid);
    FreshExtends(r, none, kept);
    assert KeySet(none, r.identity) == {} && Mapped(none, r.safe) == none && none + kept == kept;
    var news := Fresh(r, {}, kept);
    assert none + news == news && none + Mapped(news, r.safe) == Mapped(news, r.safe);
  }

  /** The first candidate of each identity among the valid ones, in order and with surrogates
      replaced. */
  ghost function FirstOccurrences<C, I>(r: Rules<C, I>, cs: seq<C>): seq<C> {
    Mapped(FirstByKey(Kept(cs, r.valid), r.identity), r.safe)
  }

  /** After any sequence of calls the file holds, in order and with surrogates replaced, the
      first candidate of each identity among all valid candidates. */
  lemma {:induction false} AccumulatedIs<C(!new), I>(r: Rules<C, I>, batches: seq<seq<C>>)
    requires Cleans(r) && Stable(r, Joined(batches)) && batches != []
    ensures Accumulated(r, batches) == Some(FirstOccurrences(r, Joined(batches)))
  {
    var front, batch := Init(batches), Last(batches);
    if front == [] {
      assert Joined(batches) == [] + batch == batch;
      WrittenFirst(r, batch);
    } else {
      assert Joined(batches) == Joined(front) + batch;
      assert Stable(r, Joined(front));
      AccumulatedIs(r, front);
      SurvivorsKeep(r, Joined(front));
      KeptConcat(Joined(front), batch, r.valid);
      WrittenExtends(r, Kept(Joined(front), r.valid), batch);
    }
  }

  /** The result does not depend on how the candidates are split into batches. */
  lemma SplitDoesNotMatter<C(!new), I>(r: Rules<C, I>, a: seq<seq<C>>, b: seq<seq<C>>)
    requires Cleans(r) && a != [] && b != [] && Joined(a) == Joined(b) && Stable(r, Joined(a))
    ensures Accumulated(r, a) == Accumulated(r, b)
  {
    AccumulatedIs(r, a);
    AccumulatedIs(r, b);
  }

  // ---------------------------------------------------------------- which originals one run appends

  ghost function FileKeys<C, I>(r: Rules<C, I>, file: Option<seq<C>>): set<I> {
    KeySet(if file.Some? then file.value else [], r.identity)
  }

  /** The originals that a run appends, call by call: those that pass the guard on `seen`. */
  ghost function Taken<C, I>(r: Rules<C, I>, batches: seq<seq<C>>): seq<C> {
    if batches == [] then []
    else Taken(r, Init(batches)) + Fresh(r, FileKeys(r, Accumulated(r, Init(batches))), Kept(Last(batches), r.valid))
  }

  ghost function Offered<C, I>(r: Rules<C, I>, batches: seq<seq<C>>): seq<C> {
    Kept(Joined(batches), r.valid)
  }

  /** For the valid candidates of one more batch, the guard on the file's identities, which is read
      off the stored copies, says what the identities of the originals would. */
  ghost predicate Agrees<C, I>(r: Rules<C, I>, batches: seq<seq<C>>, batch: seq<C>) {
    forall c :: c in batch && r.valid(c) ==>
      (r.identity(c) in FileKeys(r, Accumulated(r, batches)) <==>
       r.identity(c) in KeySet(Offered(r, batches), r.identity))
  }

  lemma {:induction false} FreshKeys<C(!new), I>(r: Rules<C, I>, seen: set<I>, kept: seq<C>)
    ensures KeySet(Fresh(r, seen, kept), r.identity) == KeySet(kept, r.identity) - seen
  {
    if kept == [] {
    } else {
      var front, c := Init(kept), Last(kept);
      FreshKeys(r, seen, front);
      assert kept == front + [c];
      TakenNext(r, front, c);
      TakenNext(r, Fresh(r, seen, front), c);
    }
  }

  lemma {:induction false} FreshSame<C(!new), I>(r: Rules<C, I>, a: set<I>, b: set<I>, kept: seq<C>)
    requires forall c :: c in kept ==> (r.identity(c) in a <==> r.identity(c) in b)
    ensures Fresh(r, a, kept) == Fresh(r, b, kept)
  {
    if kept == [] {
    } else {
      assert kept == Init(kept) + [Last(kept)];
      FreshSame(r, a, b, Init(kept));
    }
  }

  lemma KeyOf<C, I>(cs: seq<C>, c: C, key: C -> I)
    requires c in cs
    ensures key(c) in KeySet(cs, key)
  {
    var i :| 0 <= i < |cs| && cs[i] == c;
  }

  /** The file holds the appended originals with their surrogates replaced. */
  lemma {:induction false} FileIsTaken<C(!new), I>(r: Rules<C, I>, batches: seq<seq<C>>)
    requires Cleans(r) && batches != []
    ensures Accumulated(r, batches) == Some(Mapped(Taken(r, batches), r.safe))
  {
    var front, batch := Init(batches), Last(batches);
    var news := Fresh(r, FileKeys(r, Accumulated(r, front)), Kept(batch, r.valid));
    MappedConcat(Taken(r, front), news, r.safe);
    if front == [] {
      assert Mapped([], r.safe) == [];
    } else {
      FileIsTaken(r, front);
      WrittenIsSafe(r, Accumulated(r, Init(front)), Last(front));
    }
  }

  /** The originals that one more batch adds. */
  lemma TakenGrows<C(!new), I>(r: Rules<C, I>, batches: seq<seq<C>>, batch: seq<C>)
    ensures Taken(r, batches + [batch])
            == Taken(r, batches) + Fresh(r, FileKeys(r, Accumulated(r, batches)), Kept(batch, r.valid))
    ensures Offered(r, batches + [batch]) == Offered(r, batches) + Kept(batch, r.valid)
  {
    assert Init(batches + [batch]) == batches;
    KeptConcat(Joined(batches), batch, r.valid);
  }

  /** The file never loses an identity. */
  lemma FileKeysGrow<C(!new), I>(r: Rules<C, I>, batches: seq<seq<C>>, batch: seq<C>)
    requires Cleans(r)
    ensures FileKeys(r, Accumulated(r, batches)) <= FileKeys(r, Accumulated(r, batches + [batch]))
  {
    if batches == [] {
    } else {
      var all := batches + [batch];
      FileIsTaken(r, batches);
      FileIsTaken(r, all);
      TakenGrows(r, batches, batch);
      var news := Fresh(r, FileKeys(r, Accumulated(r, batches)), Kept(batch, r.valid));
      MappedConcat(Taken(r, batches), news, r.safe);
      KeySetOfConcat(Mapped(Taken(r, batches), r.safe), Mapped(news, r.safe), r.identity);
    }
  }

  /** Whatever was offered is among the appended originals or among the identities of the file. */
  ghost predicate Accounted<C, I>(r: Rules<C, I>, batches: seq<seq<C>>, k: I) {
    && (k in KeySet(Taken(r, batches), r.identity) ==> k in KeySet(Offered(r, batches), r.identity))
    && (k in KeySet(Offered(r, batches), r.identity) ==>
          k in KeySet(Taken(r, batches), r.identity) || k in FileKeys(r, Accumulated(r, batches)))
  }

  lemma AccountedNext<C(!new), I>(r: Rules<C, I>, batches: seq<seq<C>>, batch: seq<C>, k: I)
    requires Cleans(r) && Accounted(r, batches, k)
    ensures Accounted(r, batches + [batch], k)
  {
    var kept, known := Kept(batch, r.valid), FileKeys(r, Accumulated(r, batches));
    TakenGrows(r, batches, batch);
    KeySetOfConcat(Taken(r, batches), Fresh(r, known, kept), r.identity);
    KeySetOfConcat(Offered(r, batches), kept, r.identity);
    FreshKeys(r, known, kept);
    FileKeysGrow(r, batches, batch);
  }

  lemma {:induction false} OfferedIsTakenOrKnown<C(!new), I>(r: Rules<C, I>, batches: seq<seq<C>>, k: I)
    requires Cleans(r)
    ensures Accounted(r, batches, k)
  {
    if batches == [] {
    } else {
      assert batches == Init(batches) + [Last(batches)];
      OfferedIsTakenOrKnown(r, Init(batches), k);
      AccountedNext(r, Init(batches), Last(batches), k);
    }
  }

  lemma DistinctKeysPrefix<C, I>(a: seq<C>, b: seq<C>, key: C -> I)
    requires DistinctKeys(a + b, key)
    ensures DistinctKeys(a, key) && KeySet(a, key) !! KeySet(b, key)
  {
    var s := a + b;
    forall i, j | 0 <= i < j < |a| ensures key(a[i]) != key(a[j]) {
      assert key(s[i]) != key(s[j]);
    }
    forall i, j | 0 <= i < |a| && 0 <= j < |b| ensures key(a[i]) != key(b[j]) {
      assert key(s[i]) != key(s[|a| + j]);
    }
  }

  /** Of two ways to split a list, the longer first part overlaps the other's second part. */
  lemma LongerOverlaps<C, I>(a: seq<C>, b: seq<C>, c: seq<C>, d: seq<C>, key: C -> I)
    requires a + b == c + d && |a| < |c|
    ensures !(KeySet(c, key) !! KeySet(b, key))
  {
    assert (a + b)[|a|] == b[0] && (c + d)[|a|] == c[|a|];
    assert key(c[|a|]) in KeySet(c, key) && key(b[0]) in KeySet(b, key);
  }

  /** Two ways to split one list agree when no first part overlaps the other's second part. */
  lemma SameSplit<C, I>(a: seq<C>, b: seq<C>, c: seq<C>, d: seq<C>, key: C -> I)
    requires a + b == c + d && KeySet(a, key) !! KeySet(d, key) && KeySet(c, key) !! KeySet(b, key)
    ensures a == c && b == d
  {
    if |a| < |c| {
      LongerOverlaps(a, b, c, d, key);
    }
    if |c| < |a| {
      LongerOverlaps(c, d, a, b, key);
    }
    assert (a + b)[..|a|] == a && (a + b)[|a|..] == b;
    assert (c + d)[..|c|] == c && (c + d)[|c|..] == d;
  }

  /** One more batch keeps to the first occurrences exactly when the run did so before and the guard
      agrees on the batch. */
  lemma TakenNextIff<C(!new), I>(r: Rules<C, I>, batches: seq<seq<C>>, batch: seq<C>)
    requires Cleans(r)
    ensures Taken(r, batches + [batch]) == FirstByKey(Offered(r, batches + [batch]), r.identity) <==>
            Taken(r, batches) == FirstByKey(Offered(r, batches), r.identity) && Agrees(r, batches, batch)
  {
    var offered, kept := Offered(r, batches), Kept(batch, r.valid);
    var first, known := FirstByKey(offered, r.identity), FileKeys(r, Accumulated(r, batches));
    var taken, news, due := Taken(r, batches), Fresh(r, known, kept), Fresh(r, KeySet(offered, r.identity), kept);
    TakenGrows(r, batches, batch);
    FirstByKeyKeys(offered, r.identity);
    FreshExtends(r, offered, kept);
    assert FirstByKey(offered + kept, r.identity) == first + due;
    KeptAre(batch, r.valid);
    if taken + news == first + due {
      FirstByKeyKeys(offered + kept, r.identity);
      DistinctKeysPrefix(taken, news, r.identity);
      DistinctKeysPrefix(first, due, r.identity);
      PartsApart(r, batches, kept);
      SameSplit(taken, news, first, due, r.identity);
      SameFreshAgrees(r, known, KeySet(offered, r.identity), kept);
    }
    if taken == first && Agrees(r, batches, batch) {
      FreshSame(r, known, KeySet(offered, r.identity), kept);
    }
  }

  /** What was appended cannot be due again, and what is due cannot be appended now. */
  lemma PartsApart<C(!new), I>(r: Rules<C, I>, batches: seq<seq<C>>, kept: seq<C>)
    requires Cleans(r)
    requires KeySet(Taken(r, batches), r.identity)
             !! KeySet(Fresh(r, FileKeys(r, Accumulated(r, batches)), kept), r.identity)
    ensures var offered := Offered(r, batches);
            && KeySet(Taken(r, batches), r.identity) !! KeySet(Fresh(r, KeySet(offered, r.identity), kept), r.identity)
            && KeySet(FirstByKey(offered, r.identity), r.identity)
               !! KeySet(Fresh(r, FileKeys(r, Accumulated(r, batches)), kept), r.identity)
  {
    var offered, known := Offered(r, batches), FileKeys(r, Accumulated(r, batches));
    FreshKeys(r, known, kept);
    FreshKeys(r, KeySet(offered, r.identity), kept);
    FirstByKeyKeys(offered, r.identity);
    forall k | k in KeySet(kept, r.identity)
      ensures k in KeySet(Taken(r, batches), r.identity) ==> k in KeySet(offered, r.identity)
      ensures k in KeySet(offered, r.identity) ==> k in KeySet(Taken(r, batches), r.identity) || k in known
    {
      OfferedIsTakenOrKnown(r, batches, k);
    }
  }

  lemma SameFreshAgrees<C(!new), I>(r: Rules<C, I>, a: set<I>, b: set<I>, kept: seq<C>)
    requires Fresh(r, a, kept) == Fresh(r, b, kept)
    ensures forall c :: c in kept ==> (r.identity(c) in a <==> r.identity(c) in b)
  {
    FreshKeys(r, a, kept);
    FreshKeys(r, b, kept);
    forall c | c in kept ensures r.identity(c) in a <==> r.identity(c) in b {
      KeyOf(kept, c, r.identity);
    }
  }

  /** The guard agrees at every call of the run. */
  ghost predicate AllAgree<C, I>(r: Rules<C, I>, batches: seq<seq<C>>) {
    forall n :: 0 <= n < |batches| ==> Agrees(r, batches[..n], batches[n])
  }

  lemma AllAgreeNext<C(!new), I>(r: Rules<C, I>, front: seq<seq<C>>, batch: seq<C>)
    ensures AllAgree(r, front + [batch]) <==> AllAgree(r, front) && Agrees(r, front, batch)
  {
    var all := front + [batch];
    forall n | 0 <= n < |front| ensures all[..n] == front[..n] && all[n] == front[n] {}
    assert all[..|front|] == front;
    if AllAgree(r, all) {
      assert Agrees(r, all[..|front|], all[|front|]);
      forall n | 0 <= n < |front| ensures Agrees(r, front[..n], front[n]) {
        assert Agrees(r, all[..n], all[n]);
      }
    }
  }

  /** A run appends exactly the first occurrence of every identity among its valid candidates if and
      only if, at every call, the guard on the identities of the file agrees with the identities of
      the originals offered before. */
  lemma {:induction false} TakenIsFirstIff<C(!new), I>(r: Rules<C, I>, batches: seq<seq<C>>)
    requires Cleans(r)
    ensures Taken(r, batches) == FirstByKey(Offered(r, batches), r.identity) <==> AllAgree(r, batches)
  {
    if batches == [] {
    } else {
      var front, batch := Init(batches), Last(batches);
      assert batches == front + [batch];
      TakenIsFirstIff(r, front);
      TakenNextIff(r, front, batch);
      AllAgreeNext(r, front, batch);
    }
  }

  // ---------------------------------------------------------------- writing a batch again

  /** Every valid candidate of the batch has an identity that the file has. */
  ghost predicate Known<C, I>(r: Rules<C, I>, file: seq<C>, batch: seq<C>) {
    forall c :: c in batch && r.valid(c) ==> r.identity(c) in KeySet(file, r.identity)
  }

  lemma {:induction false} NothingFreshIff<C(!new), I>(r: Rules<C, I>, seen: set<I>, kept: seq<C>)
    ensures Fresh(r, seen, kept) == [] <==> forall c :: c in kept ==> r.identity(c) in seen
  {
    if kept == [] {
    } else {
      NothingFreshIff(r, seen, Init(kept));
      assert kept == Init(kept) + [Last(kept)];
      var none: seq<C> := [];
      assert KeySet(none, r.identity) == {};
    }
  }

  /** Writing a batch leaves a file as it is exactly when the file holds no surrogates and already
      has the identity of every valid candidate of the batch. */
  lemma WrittenFixedIff<C(!new), I>(r: Rules<C, I>, file: seq<C>, batch: seq<C>)
    ensures Written(r, Some(file), batch) == file <==> Mapped(file, r.safe) == file && Known(r, file, batch)
  {
    var kept := Kept(batch, r.valid);
    var news := Fresh(r, KeySet(file, r.identity), kept);
    KeptAre(batch, r.valid);
    NothingFreshIff(r, KeySet(file, r.identity), kept);
    assert |Written(r, Some(file), batch)| == |file| + |news|;
    if news == [] {
      assert Mapped(news, r.safe) == [];
    }
  }

  /** A written file holds no surrogates. */
  lemma WrittenIsSafe<C(!new), I>(r: Rules<C, I>, file: Option<seq<C>>, batch: seq<C>)
    requires Cleans(r)
    ensures Mapped(Written(r, file, batch), r.safe) == Written(r, file, batch)
  {}

  /** One more call changes nothing exactly when the file already has the identity of every valid
      candidate of its batch. */
  lemma ReplayIff<C(!new), I>(r: Rules<C, I>, batches: seq<seq<C>>, batch: seq<C>)
    requires Cleans(r) && batches != []
    ensures Accumulated(r, batches + [batch]) == Accumulated(r, batches)
            <==> Known(r, Accumulated(r, batches).value, batch)
  {
    assert Init(batches + [batch]) == batches;
    WrittenIsSafe(r, Accumulated(r, Init(batches)), Last(batches));
    WrittenFixedIff(r, Accumulated(r, batches).value, batch);
  }

  lemma {:induction false} InJoined<C(!new)>(batches: seq<seq<C>>, i: nat)
    requires i < |batches|
    ensures forall c :: c in batches[i] ==> c in Joined(batches)
  {
    if i == |batches| - 1 {
    } else {
      InJoined(Init(batches), i);
    }
  }

  /** Writing any earlier batch again changes nothing, when its candidates are stable. */
  lemma ReplayChangesNothing<C(!new), I>(r: Rules<C, I>, batches: seq<seq<C>>, i: nat)
    requires i < |batches| && Cleans(r) && Stable(r, Joined(batches))
    ensures Accumulated(r, batches + [batches[i]]) == Accumulated(r, batches)
  {
    var all := Joined(batches);
    var done := Kept(all, r.valid);
    var first := FirstByKey(done, r.identity);
    InJoined(batches, i);
    KeptAre(all, r.valid);
    AccumulatedIs(r, batches);
    SurvivorsKeep(r, all);
    MappedKeys(r, first);
    FirstByKeyKeys(done, r.identity);
    forall c | c in batches[i] && r.valid(c) ensures r.identity(c) in KeySet(done, r.identity) {
      var j :| 0 <= j < |done| && done[j] == c;
    }
    ReplayIff(r, batches, batches[i]);
  }

  // ---------------------------------------------------------------- for which candidates the laws hold

  /** Every batch of every run may be written again. */
  ghost predicate ReplayLaw<C(!new), I(!new)>(r: Rules<C, I>) {
    forall batches: seq<seq<C>>, i: nat :: i < |batches|
      ==> Accumulated(r, batches + [batches[i]]) == Accumulated(r, batches)
  }

  /** No run depends on how its candidates are split into batches. */
  ghost predicate SplitLaw<C(!new), I(!new)>(r: Rules<C, I>) {
    forall a: seq<seq<C>>, b: seq<seq<C>> :: a != [] && b != [] && Joined(a) == Joined(b)
      ==> Accumulated(r, a) == Accumulated(r, b)
  }

  /** Every run leaves the first occurrences of all its valid candidates. */
  ghost predicate FirstOccurrenceLaw<C(!new), I(!new)>(r: Rules<C, I>) {
    forall batches: seq<seq<C>> :: batches != []
      ==> Accumulated(r, batches) == Some(FirstOccurrences(r, Joined(batches)))
  }

  ghost predicate AllStable<C(!new), I>(r: Rules<C, I>) {
    forall c :: r.valid(c) ==> r.identity(r.safe(c)) == r.identity(c)
  }

  lemma FirstOfTwins<C(!new), I>(c: C, key: C -> I)
    ensures FirstByKey([c], key) == [c] && FirstByKey([c, c], key) == [c]
  {
    var none: seq<C> := [];
    assert Init([c]) == none && FirstByKey(none, key) == none && KeySet(none, key) == {};
    assert FirstByKey([c], key) == none + [c] == [c];
    assert Init([c, c]) == [c] && key([c][0]) in KeySet([c], key);
  }

  lemma KeptTwins<C(!new)>(c: C, keep: C -> bool)
    requires keep(c)
    ensures Kept([c], keep) == [c] && Kept([c, c], keep) == [c, c]
  {
    KeptAll([c], keep);
    KeptAll([c, c], keep);
  }

  /** What one candidate alone, or twice in one batch, leaves. */
  lemma OneCandidate<C(!new), I>(r: Rules<C, I>, c: C)
    requires r.valid(c)
    ensures Accumulated(r, [[c]]) == Some([r.safe(c)]) && Accumulated(r, [[c, c]]) == Some([r.safe(c)])
  {
    KeptTwins(c, r.valid);
    FirstOfTwins(c, r.identity);
    OneBatch(r, [c]);
    OneBatch(r, [c, c]);
    assert Mapped([c], r.safe) == [r.safe(c)];
  }

  lemma OneBatch<C(!new), I>(r: Rules<C, I>, batch: seq<C>)
    ensures Accumulated(r, [batch]) == Some(FirstOccurrences(r, batch))
  {
    var none: seq<seq<C>> := [];
    assert Init([batch]) == none && Accumulated(r, none) == None;
    WrittenFirst(r, batch);
  }

  /** Writing one valid candidate again changes nothing exactly when replacing its surrogates
      keeps its identity. */
  lemma ReplayOfOneIff<C(!new), I>(r: Rules<C, I>, c: C)
    requires r.valid(c) && Cleans(r)
    ensures Accumulated(r, [[c], [c]]) == Accumulated(r, [[c]]) <==> r.identity(r.safe(c)) == r.identity(c)
  {
    var file := [r.safe(c)];
    OneCandidate(r, c);
    ReplayIff(r, [[c]], [c]);
    assert [[c]] + [[c]] == [[c], [c]] && c in [c];
    assert r.identity(file[0]) in KeySet(file, r.identity);
  }

  /** Earlier batches may always be written again exactly when replacing surrogates keeps the
      identity of every valid candidate. */
  lemma ReplayLawIff<C(!new), I(!new)>(r: Rules<C, I>)
    requires Cleans(r)
    ensures ReplayLaw(r) <==> AllStable(r)
  {
    if ReplayLaw(r) {
      forall c | r.valid(c) ensures r.identity(r.safe(c)) == r.identity(c) {
        var batches := [[c]];
        assert batches + [batches[0]] == [[c], [c]];
        ReplayOfOneIff(r, c);
      }
    }
    if AllStable(r) {
      forall batches: seq<seq<C>>, i: nat | i < |batches|
        ensures Accumulated(r, batches + [batches[i]]) == Accumulated(r, batches)
      {
        ReplayChangesNothing(r, batches, i);
      }
    }
  }

  /** Splitting never matters exactly under the same condition. */
  lemma SplitLawIff<C(!new), I(!new)>(r: Rules<C, I>)
    requires Cleans(r)
    ensures SplitLaw(r) <==> AllStable(r)
  {
    if SplitLaw(r) {
      forall c | r.valid(c) ensures r.identity(r.safe(c)) == r.identity(c) {
        JoinedPair(c);
        OneCandidate(r, c);
        ReplayOfOneIff(r, c);
      }
    }
    if AllStable(r) {
      forall a: seq<seq<C>>, b: seq<seq<C>> | a != [] && b != [] && Joined(a) == Joined(b)
        ensures Accumulated(r, a) == Accumulated(r, b)
      {
        SplitDoesNotMatter(r, a, b);
      }
    }
  }

  /** And every run leaves the first occurrences exactly under the same condition. */
  lemma FirstOccurrenceLawIff<C(!new), I(!new)>(r: Rules<C, I>)
    requires Cleans(r)
    ensures FirstOccurrenceLaw(r) <==> AllStable(r)
  {
    if FirstOccurrenceLaw(r) {
      forall a: seq<seq<C>>, b: seq<seq<C>> | a != [] && b != [] && Joined(a) == Joined(b)
        ensures Accumulated(r, a) == Accumulated(r, b)
      {
        assert Accumulated(r, a) == Some(FirstOccurrences(r, Joined(a)));
        assert Accumulated(r, b) == Some(FirstOccurrences(r, Joined(b)));
      }
      SplitLawIff(r);
    }
    if AllStable(r) {
      forall batches: seq<seq<C>> | batches != []
        ensures Accumulated(r, batches) == Some(FirstOccurrences(r, Joined(batches)))
      {
        AccumulatedIs(r, batches);
      }
    }
  }

  lemma JoinedPair<C(!new)>(c: C)
    ensures Joined([[c], [c]]) == Joined([[c, c]])
  {
    var none, no: seq<C> := [], [];
    assert Init([[c], [c]]) == [[c]] && Init([[c]]) == none && Init([[c, c]]) == none && Joined(none) == no;
    assert Joined([[c]]) == no + [c] == [c] && Joined([[c, c]]) == no + [c, c] == [c, c];
    assert Joined([[c], [c]]) == [c] + [c];
  }

  // ---------------------------------------------------------------- a candidate with a surrogate

  /** Text as code points, so that it can hold a lone surrogate. */
  type Text = seq<int>

  predicate IsSurrogate(point: int) {
    0xD800 <= point <= 0xDFFF
  }

  const REPLACEMENT := 0x3F

  /** Encoding with replacement, and decoding again. */
  function SafeText(t: Text): Text {
    seq(|t|, i requires 0 <= i < |t| => if IsSurrogate(t[i]) then REPLACEMENT else t[i])
  }

  datatype Posting = Posting(company: Text, title: Text, locations: seq<Text>, body: Text)

  function SafePosting(c: Posting): Posting {
    Posting(SafeText(c.company), SafeText(c.title),
            seq(|c.locations|, i requires 0 <= i < |c.locations| => SafeText(c.locations[i])), SafeText(c.body))
  }

  /** The text rules of the identity and of the validity check. */
  datatype TextRules = TextRules(company: Text -> Text, title: Text -> Text, places: seq<Text> -> set<Text>,
                                 publishable: Posting -> bool)

  /** The identity of a candidate: company, normalised title and places. */
  function PostingRules(t: TextRules): Rules<Posting, (Text, Text, set<Text>)> {
    Rules(t.publishable, (c: Posting) => (t.company(c.company), t.title(c.title), t.places(c.locations)), SafePosting)
  }

  lemma PostingsClean(t: TextRules)
    ensures Cleans(PostingRules(t))
  {
    forall x: Text ensures SafeText(SafeText(x)) == SafeText(x) {}
    forall c: Posting ensures SafePosting(SafePosting(c)) == SafePosting(c) {
      SafeTwice(c.locations);
    }
  }

  lemma SafeTwice(ts: seq<Text>)
    ensures var once := seq(|ts|, i requires 0 <= i < |ts| => SafeText(ts[i]));
            seq(|once|, i requires 0 <= i < |once| => SafeText(once[i])) == once
  {
    forall i | 0 <= i < |ts| ensures SafeText(SafeText(ts[i])) == SafeText(ts[i]) {}
  }

  /** The text with every lone surrogate replaced by a question mark. */
  predicate Repaired(t: Text, u: Text) {
    |u| == |t| && forall i :: 0 <= i < |t| ==> u[i] == if 0xD800 <= t[i] <= 0xDFFF then 0x3F else t[i]
  }

  ghost predicate RepairedPosting(c: Posting, d: Posting) {
    && Repaired(c.company, d.company) && Repaired(c.title, d.title) && Repaired(c.body, d.body)
    && |d.locations| == |c.locations|
    && forall i :: 0 <= i < |c.locations| ==> Repaired(c.locations[i], d.locations[i])
  }

  /** Whatever is written, the file holds the appended candidates with their lone surrogates replaced,
      and is otherwise unchanged. */
  lemma FileIsRepaired(t: TextRules, batches: seq<seq<Posting>>, i: nat)
    requires batches != [] && i < |Accumulated(PostingRules(t), batches).value|
    ensures var file, taken := Accumulated(PostingRules(t), batches).value, Taken(PostingRules(t), batches);
            |file| == |taken| && RepairedPosting(taken[i], file[i])
  {
    PostingsClean(t);
    FileIsTaken(PostingRules(t), batches);
  }

  /** The two are one posting: the same company, title and places, as the text rules read them. */
  predicate SamePosting(t: TextRules, c: Posting, d: Posting) {
    && t.company(c.company) == t.company(d.company) && t.title(c.title) == t.title(d.title)
    && t.places(c.locations) == t.places(d.locations)
  }

  /** Two publishable candidates, the first without lone surrogates, written one after the other: both
      are stored exactly when they are not one posting. */
  lemma TwoAreStoredIff(t: TextRules, c: Posting, d: Posting)
    requires t.publishable(c) && t.publishable(d) && SafePosting(c) == c
    ensures |Accumulated(PostingRules(t), [[c], [d]]).value| == if SamePosting(t, c, d) then 1 else 2
  {
    var r := PostingRules(t);
    var file: seq<Posting> := [c];
    OneCandidate(r, c);
    KeptTwins(d, r.valid);
    assert [[c], [d]] == [[c]] + [[d]] && Init([[c], [d]]) == [[c]];
    assert Init([d]) == [] && KeySet(file, r.identity) == {r.identity(c)} by {
      assert r.identity(file[0]) in KeySet(file, r.identity);
    }
    assert KeySet(Fresh(r, {r.identity(c)}, []), r.identity) == {};
  }

  /** And an unpublishable one is not stored at all. */
  lemma UnpublishableIsDropped(t: TextRules, c: Posting)
    requires !t.publishable(c)
    ensures Accumulated(PostingRules(t), [[c]]) == Some([])
  {
    var r := PostingRules(t);
    var no: seq<Posting>, none: seq<seq<Posting>> := [], [];
    assert Init([[c]]) == none && Init([c]) == no && Kept([c], r.valid) == no;
    assert Fresh(r, KeySet(no, r.identity), no) == no && Mapped(no, r.safe) == no;
    assert Written(r, None, [c]) == no + no;
  }

  /** A publishable candidate whose normalised title keeps a lone surrogate apart from the question
      mark that replaces it is stored twice when its batch is written twice. */
  lemma SurrogateTitleIsStoredTwice(t: TextRules, c: Posting)
    requires t.publishable(c) && t.title(SafeText(c.title)) != t.title(c.title)
    ensures Accumulated(PostingRules(t), [[c], [c]]) != Accumulated(PostingRules(t), [[c]])
  {
    PostingsClean(t);
    ReplayOfOneIff(PostingRules(t), c);
  }

  /** Lower case of a basic Latin code point. */
  function Lower(point: int): int {
    if 0x41 <= point <= 0x5A then point + 0x20 else point
  }

  function LowerText(t: Text): Text {
    seq(|t|, i requires 0 <= i < |t| => Lower(t[i]))
  }

  /** The rules on texts of basic Latin letters and surrogates, which the normalisation leaves
      alone but for their case. */
  function LatinRules(): TextRules {
    TextRules(LowerText, LowerText, (ls: seq<Text>) => set l | l in ls && l != [],
              (c: Posting) => c.company != [] && c.title != [] && c.body != [])
  }

  /** The title "A" followed by the lone surrogate D83D. */
  lemma SurrogateIsStoredTwice()
    ensures var c := Posting([0x58], [0x41, 0xD83D], [[0x59]], [0x64]);
            Accumulated(PostingRules(LatinRules()), [[c], [c]]) != Accumulated(PostingRules(LatinRules()), [[c]])
  {
    var c := Posting([0x58], [0x41, 0xD83D], [[0x59]], [0x64]);
    var t := LatinRules();
    assert LowerText(SafeText(c.title))[1] == REPLACEMENT && LowerText(c.title)[1] == 0xD83D;
    SurrogateTitleIsStoredTwice(t, c);
  }
}
