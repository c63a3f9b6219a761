/** Small building blocks shared by the models: option and result types, first-occurrence
    deduplication, and the concatenation of keyed blocks. */
module Common {

  datatype Option<+T> = None | Some(value: T)

  datatype Result<+T, +E> = Ok(value: T) | Err(error: E)

  function Last<T>(s: seq<T>): T
    requires s != []
  {
    s[|s| - 1]
  }

  function Init<T>(s: seq<T>): seq<T>
    requires s != []
  {
    s[..|s| - 1]
  }

  lemma ConcatAssociates<T>(a: seq<T>, b: seq<T>, c: seq<T>)
    ensures a + (b + c) == a + b + c
  {}

  predicate Distinct<T(==)>(s: seq<T>) {
    forall i, j :: 0 <= i < j < |s| ==> s[i] != s[j]
  }

  /** The keys carried by a list of items. */
  ghost function KeySet<T, K>(items: seq<T>, key: T -> K): set<K> {
    set i | 0 <= i < |items| :: key(items[i])
  }

  /** Keeps the first item of each key, in order. */
  ghost function FirstByKey<T, K>(items: seq<T>, key: T -> K): seq<T> {
    if items == [] then []
    else
      var before := FirstByKey(Init(items), key);
      if key(Last(items)) in KeySet(before, key) then before else before + [Last(items)]
  }

  ghost predicate DistinctKeys<T, K>(items: seq<T>, key: T -> K) {
    forall i, j :: 0 <= i < j < |items| ==> key(items[i]) != key(items[j])
  }

  lemma KeySetOfConcat<T, K>(a: seq<T>, b: seq<T>, key: T -> K)
    ensures KeySet(a + b, key) == KeySet(a, key) + KeySet(b, key)
  {
    var s := a + b;
    forall k | k in KeySet(a, key) + KeySet(b, key)
      ensures k in KeySet(s, key)
    {
      if k in KeySet(a, key) {
        var i :| 0 <= i < |a| && key(a[i]) == k;
        assert s[i] == a[i];
      } else {
        var i :| 0 <= i < |b| && key(b[i]) == k;
        assert s[|a| + i] == b[i];
      }
    }
  }

  /** Deduplication neither loses nor invents a key, and leaves each key once. */
  lemma {:induction false} FirstByKeyKeys<T, K>(items: seq<T>, key: T -> K)
    ensures KeySet(FirstByKey(items, key), key) == KeySet(items, key)
    ensures DistinctKeys(FirstByKey(items, key), key)
    ensures forall x :: x in FirstByKey(items, key) ==> x in items
  {
    if items == [] {
    } else {
      var before := FirstByKey(Init(items), key);
      FirstByKeyKeys(Init(items), key);
      assert items == Init(items) + [Last(items)];
      KeySetOfConcat(Init(items), [Last(items)], key);
      KeySetOfConcat(before, [Last(items)], key);
      assert KeySet([Last(items)], key) == {key(Last(items))} by {
        assert key([Last(items)][0]) in KeySet([Last(items)], key);
      }
      if key(Last(items)) !in KeySet(before, key) {
        forall i | 0 <= i < |before| ensures key(before[i]) != key(Last(items)) {
          assert key(before[i]) in KeySet(before, key);
        }
      }
    }
  }

  lemma NewKey<T, K>(items: seq<T>, key: T -> K, x: T)
    requires key(x) !in KeySet(FirstByKey(items, key), key)
    ensures forall j :: 0 <= j < |items| ==> key(items[j]) != key(x)
  {
    FirstByKeyKeys(items, key);
    forall j | 0 <= j < |items| ensures key(items[j]) != key(x) {
      assert key(items[j]) in KeySet(items, key);
    }
  }

  /** The kept items stand at these positions of the list, in order, each the first of its key. */
  ghost predicate FirstPlaces<T(!new), K>(items: seq<T>, key: T -> K, kept: seq<T>, at: seq<nat>) {
    && |at| == |kept| && (forall i :: 0 <= i < |at| ==> at[i] < |items| && kept[i] == items[at[i]])
    && (forall i, j :: 0 <= i < j < |at| ==> at[i] < at[j])
    && (forall i, j :: 0 <= i < |at| && 0 <= j < at[i] ==> key(items[j]) != key(items[at[i]]))
  }

  lemma PlacesGrow<T(!new), K>(items: seq<T>, key: T -> K, x: T, kept: seq<T>, at: seq<nat>)
    requires FirstPlaces(items, key, kept, at)
    ensures FirstPlaces(items + [x], key, kept, at)
    ensures (forall j :: 0 <= j < |items| ==> key(items[j]) != key(x)) ==>
              FirstPlaces(items + [x], key, kept + [x], at + [|items|])
  {}

  lemma {:induction false} FirstByKeyFrom<T(!new), K>(items: seq<T>, key: T -> K) returns (at: seq<nat>)
    ensures FirstPlaces(items, key, FirstByKey(items, key), at)
  {
    at := [];
    if items == [] {
    } else {
      var front := Init(items);
      at := FirstByKeyFrom(front, key);
      assert items == front + [Last(items)];
      PlacesGrow(front, key, Last(items), FirstByKey(front, key), at);
      if key(Last(items)) !in KeySet(FirstByKey(front, key), key) {
        NewKey(front, key, Last(items));
        at := at + [|front|];
      }
    }
  }

  lemma {:induction false} FirstByKeyTwice<T, K>(items: seq<T>, key: T -> K)
    ensures FirstByKey(FirstByKey(items, key), key) == FirstByKey(items, key)
  {
    if items == [] {
    } else {
      var before, last := FirstByKey(Init(items), key), Last(items);
      FirstByKeyTwice(Init(items), key);
      assert Init(before + [last]) == before && Last(before + [last]) == last;
    }
  }

  /** Deduplicating a prefix early makes no difference. */
  lemma {:induction false} FirstByKeyAbsorbs<T, K>(a: seq<T>, b: seq<T>, key: T -> K)
    ensures FirstByKey(FirstByKey(a, key) + b, key) == FirstByKey(a + b, key)
  {
    var f := FirstByKey(a, key);
    if b == [] {
      assert f + b == f && a + b == a;
      FirstByKeyTwice(a, key);
    } else {
      FirstByKeyAbsorbs(a, Init(b), key);
      assert Init(f + b) == f + Init(b);
      assert Init(a + b) == a + Init(b);
    }
  }

  /** Lays the blocks of the keys `ks` end to end. */
  ghost function Lay<K, T>(ks: seq<K>, block: K -> seq<T>): seq<T> {
    if ks == [] then [] else Lay(Init(ks), block) + block(Last(ks))
  }

  lemma {:induction false} LaySame<K, T>(ks: seq<K>, f: K -> seq<T>, g: K -> seq<T>)
    requires forall k :: k in ks ==> f(k) == g(k)
    ensures Lay(ks, f) == Lay(ks, g)
  {
    if ks == [] {
    } else {
      LaySame(Init(ks), f, g);
      assert Last(ks) in ks;
    }
  }

  // ---------------------------------------------------------------- dropping items

  /** The items that satisfy `keep`, in order. */
  function Kept<T>(xs: seq<T>, keep: T -> bool): seq<T> {
    if xs == [] then []
    else Kept(Init(xs), keep) + (if keep(Last(xs)) then [Last(xs)] else [])
  }

  lemma {:induction false} KeptAre<T(!new)>(xs: seq<T>, keep: T -> bool)
    ensures forall c :: c in Kept(xs, keep) <==> c in xs && keep(c)
  {
    if xs == [] {
    } else {
      KeptAre(Init(xs), keep);
      assert xs == Init(xs) + [Last(xs)];
    }
  }

  /** Dropping nothing, or something. */
  lemma {:induction false} KeptAll<T(!new)>(xs: seq<T>, keep: T -> bool)
    ensures |Kept(xs, keep)| <= |xs|
    ensures (forall c :: c in xs ==> keep(c)) ==> Kept(xs, keep) == xs
  {
    if xs == [] {
    } else {
      var before := Init(xs);
      KeptAll(before, keep);
      assert xs == before + [Last(xs)];
      if forall c :: c in xs ==> keep(c) {
        assert Last(xs) in xs && forall c :: c in before ==> c in xs;
      }
    }
  }

  lemma {:induction false} KeptNone<T(!new)>(xs: seq<T>, keep: T -> bool)
    ensures |Kept(xs, keep)| == |xs| ==> forall c :: c in xs ==> keep(c)
  {
    if xs == [] {
    } else {
      KeptAll(Init(xs), keep);
      KeptNone(Init(xs), keep);
      assert xs == Init(xs) + [Last(xs)];
    }
  }

  lemma {:induction false} KeptSame<T>(xs: seq<T>, f: T -> bool, g: T -> bool)
    requires forall c :: c in xs ==> f(c) == g(c)
    ensures Kept(xs, f) == Kept(xs, g)
  {
    if xs == [] {
    } else {
      assert xs == Init(xs) + [Last(xs)];
      KeptSame(Init(xs), f, g);
    }
  }

  /** Where a kept item comes from. */
  lemma KeptAt<T(!new)>(xs: seq<T>, keep: T -> bool, c: T) returns (i: nat)
    requires c in Kept(xs, keep)
    ensures i < |xs| && xs[i] == c && keep(c)
  {
    KeptAre(xs, keep);
    i :| i < |xs| && xs[i] == c;
  }

  lemma {:induction false} KeptConcat<C(!new)>(a: seq<C>, b: seq<C>, keep: C -> bool)
    ensures Kept(a + b, keep) == Kept(a, keep) + Kept(b, keep)
  {
    if b == [] {
      assert a + b == a;
    } else {
      KeptConcat(a, Init(b), keep);
      assert Init(a + b) == a + Init(b);
    }
  }

  lemma KeptGrows<T>(xs: seq<T>, keep: T -> bool, c: T)
    ensures Kept(xs + [c], keep) == if keep(c) then Kept(xs, keep) + [c] else Kept(xs, keep)
  {
    assert Init(xs + [c]) == xs;
  }

  /** Where the kept items stand in the list, in order. */
  lemma {:induction false} KeptFrom<T(!new)>(xs: seq<T>, keep: T -> bool) returns (at: seq<nat>)
    ensures |at| == |Kept(xs, keep)|
    ensures forall i :: 0 <= i < |at| ==> at[i] < |xs| && Kept(xs, keep)[i] == xs[at[i]]
    ensures forall i, j :: 0 <= i < j < |at| ==> at[i] < at[j]
  {
    at := [];
    if xs == [] {
    } else {
      at := KeptFrom(Init(xs), keep);
      if keep(Last(xs)) {
        at := at + [|xs| - 1];
      }
    }
  }
}
