/** Grouping a list by a key, in order of first occurrence. */
module Grouping {
  import opened Common

  /** The distinct keys in order of first occurrence. */
  ghost function Keys<T, K>(xs: seq<T>, key: T -> K): seq<K> {
    if xs == [] then []
    else
      var before := Keys(Init(xs), key);
      if key(Last(xs)) in before then before else before + [key(Last(xs))]
  }

  /** The items of one key, in order. */
  ghost function Members<T, K>(xs: seq<T>, key: T -> K, k: K): seq<T> {
    if xs == [] then []
    else Members(Init(xs), key, k) + (if key(Last(xs)) == k then [Last(xs)] else [])
  }

  ghost function MembersIn<T, K>(xs: seq<T>, key: T -> K): K -> seq<T> {
    k => Members(xs, key, k)
  }

  ghost predicate AllKeyed<T, K>(xs: seq<T>, key: T -> K, k: K) {
    forall c :: c in xs ==> key(c) == k
  }

  /** Items of one key stand together. */
  ghost predicate Contiguous<T, K>(xs: seq<T>, key: T -> K) {
    forall i, j :: 0 <= i < j < |xs| && key(xs[i]) == key(xs[j]) ==> key(xs[j - 1]) == key(xs[j])
  }

  lemma {:induction false} MembersAre<T(!new), K>(xs: seq<T>, key: T -> K, k: K)
    ensures forall c :: c in Members(xs, key, k) <==> c in xs && key(c) == k
  {
    if xs == [] {
    } else {
      MembersAre(Init(xs), key, k);
      assert xs == Init(xs) + [Last(xs)];
    }
  }

  lemma {:induction false} KeysAre<T(!new), K>(xs: seq<T>, key: T -> K)
    ensures forall c :: c in xs ==> key(c) in Keys(xs, key)
    ensures forall k :: k in Keys(xs, key) ==> exists c :: c in xs && key(c) == k
    ensures Distinct(Keys(xs, key))
  {
    if xs == [] {
    } else {
      KeysAre(Init(xs), key);
      assert xs == Init(xs) + [Last(xs)];
      forall k | k in Keys(xs, key) ensures exists c :: c in xs && key(c) == k {
        if k in Keys(Init(xs), key) {
          var c :| c in Init(xs) && key(c) == k;
          assert c in xs;
        } else {
          assert Last(xs) in xs;
        }
      }
    }
  }

  lemma KeyHasMembers<T(!new), K>(xs: seq<T>, key: T -> K, k: K)
    ensures k in Keys(xs, key) <==> Members(xs, key, k) != []
  {
    KeysAre(xs, key);
    MembersAre(xs, key, k);
    if k in Keys(xs, key) {
      var c :| c in xs && key(c) == k;
      assert c in Members(xs, key, k);
    }
    var ms := Members(xs, key, k);
    if ms != [] {
      assert ms[0] in ms;
    }
  }

  lemma GroupOfKey<T(!new), K>(xs: seq<T>, key: T -> K, k: K)
    requires k in Keys(xs, key)
    ensures Members(xs, key, k) != [] && AllKeyed(Members(xs, key, k), key, k)
  {
    KeyHasMembers(xs, key, k);
    MembersAre(xs, key, k);
  }

  lemma GrowOne<T(!new), K>(before: seq<T>, key: T -> K, c: T)
    ensures forall j :: MembersIn(before + [c], key)(j)
                        == if key(c) == j then MembersIn(before, key)(j) + [c] else MembersIn(before, key)(j)
  {
    assert Init(before + [c]) == before;
  }

  lemma KeysGrow<T(!new), K>(before: seq<T>, key: T -> K, c: T)
    ensures Keys(before + [c], key) == if key(c) in Keys(before, key) then Keys(before, key)
                                       else Keys(before, key) + [key(c)]
  {
    assert Init(before + [c]) == before;
  }

  /** The list `s` adds to `a` exactly the block `b` of the new key `k`. */
  ghost predicate Extends<T, K(!new)>(a: seq<T>, s: seq<T>, key: T -> K, k: K, b: seq<T>) {
    && Keys(s, key) == Keys(a, key) + [k]
    && MembersIn(s, key)(k) == b
    && forall j :: j != k ==> MembersIn(s, key)(j) == MembersIn(a, key)(j)
  }

  lemma ExtendsFirst<T(!new), K(!new)>(a: seq<T>, key: T -> K, c: T)
    requires key(c) !in Keys(a, key)
    ensures Extends(a, a + [c], key, key(c), [c])
  {
    GrowOne(a, key, c);
    KeysGrow(a, key, c);
    KeyHasMembers(a, key, key(c));
  }

  lemma ExtendsMore<T(!new), K(!new)>(a: seq<T>, s: seq<T>, key: T -> K, b: seq<T>, c: T)
    requires Extends(a, s, key, key(c), b)
    ensures Extends(a, s + [c], key, key(c), b + [c])
  {
    GrowOne(s, key, c);
    KeysGrow(s, key, c);
  }

  /** Appending a block of items of a new key. */
  lemma {:induction false} AppendBlock<T(!new), K(!new)>(a: seq<T>, b: seq<T>, key: T -> K, k: K)
    requires k !in Keys(a, key) && b != [] && AllKeyed(b, key, k)
    ensures Extends(a, a + b, key, k, b)
  {
    var front, last := Init(b), Last(b);
    assert last in b && b == front + [last];
    if front == [] {
      ExtendsFirst(a, key, last);
    } else {
      assert forall c :: c in front ==> c in b;
      AppendBlock(a, front, key, k);
      ExtendsMore(a, a + front, key, front, last);
      assert a + b == (a + front) + [last];
    }
  }

  lemma AppendBlockContiguous<T(!new), K>(a: seq<T>, b: seq<T>, key: T -> K, k: K)
    requires k !in Keys(a, key) && AllKeyed(b, key, k) && Contiguous(a, key)
    ensures Contiguous(a + b, key)
  {
    KeysAre(a, key);
    var s := a + b;
    forall n | 0 <= n < |s| ensures key(s[n]) == k <==> n >= |a| {
      assert if n < |a| then s[n] in a else s[n] in b;
    }
    forall i, j | 0 <= i < j < |s| && key(s[i]) == key(s[j]) ensures key(s[j - 1]) == key(s[j]) {
      if j < |a| {
        assert key(a[i]) == key(a[j]);
      }
    }
  }

  ghost predicate KeyedBlocks<T, K>(ks: seq<K>, block: K -> seq<T>, key: T -> K) {
    Distinct(ks) && forall k :: k in ks ==> block(k) != [] && AllKeyed(block(k), key, k)
  }

  /** Blocks laid out by distinct keys are found again by grouping. */
  lemma {:induction false} GroupsOfLaid<T(!new), K(!new)>(ks: seq<K>, block: K -> seq<T>, key: T -> K)
    requires KeyedBlocks(ks, block, key)
    ensures Keys(Lay(ks, block), key) == ks && Contiguous(Lay(ks, block), key)
    ensures forall k :: k in ks ==> MembersIn(Lay(ks, block), key)(k) == block(k)
  {
    if ks == [] {
    } else {
      assert ks == Init(ks) + [Last(ks)];
      assert Last(ks) in ks;
      GroupsOfLaid(Init(ks), block, key);
      AppendBlock(Lay(Init(ks), block), block(Last(ks)), key, Last(ks));
      AppendBlockContiguous(Lay(Init(ks), block), block(Last(ks)), key, Last(ks));
    }
  }

  lemma KeyAt<T(!new), K>(xs: seq<T>, key: T -> K, k: K) returns (i: nat)
    requires k in Keys(xs, key)
    ensures i < |xs| && key(xs[i]) == k
  {
    KeysAre(xs, key);
    var c :| c in xs && key(c) == k;
    i :| i < |xs| && xs[i] == c;
  }

  lemma ContiguousInit<T, K>(xs: seq<T>, key: T -> K)
    requires Contiguous(xs, key) && xs != []
    ensures Contiguous(Init(xs), key)
  {
    var before := Init(xs);
    forall i, j | 0 <= i < j < |before| && key(before[i]) == key(before[j])
      ensures key(before[j - 1]) == key(before[j])
    {
      assert key(xs[i]) == key(xs[j]);
    }
  }

  /** In a contiguous list an earlier item of the last key means that the item before the last
      has that key too. */
  lemma ContiguousLast<T, K>(xs: seq<T>, key: T -> K, i: nat)
    requires Contiguous(xs, key) && i < |xs| - 1 && key(xs[i]) == key(Last(xs))
    ensures key(Last(Init(xs))) == key(Last(xs))
  {
    var j := |xs| - 1;
    assert key(xs[i]) == key(xs[j]);
  }

  lemma {:induction false} ContiguousEnds<T(!new), K>(xs: seq<T>, key: T -> K)
    requires Contiguous(xs, key) && xs != []
    ensures Keys(xs, key) != [] && Last(Keys(xs, key)) == key(Last(xs))
  {
    var before := Init(xs);
    if key(Last(xs)) !in Keys(before, key) {
    } else {
      var i := KeyAt(before, key, key(Last(xs)));
      ContiguousLast(xs, key, i);
      ContiguousInit(xs, key);
      ContiguousEnds(before, key);
    }
  }

  lemma MembersOfOthers<T, K>(ks: seq<K>, before: seq<T>, key: T -> K, c: T)
    requires key(c) !in ks
    ensures Lay(ks, MembersIn(before + [c], key)) == Lay(ks, MembersIn(before, key))
  {
    assert Init(before + [c]) == before;
    LaySame(ks, MembersIn(before + [c], key), MembersIn(before, key));
  }

  /** The last key of a list without repetition is not among the others. */
  lemma LastOnlyOnce<K>(ks: seq<K>)
    requires Distinct(ks) && ks != []
    ensures Last(ks) !in Init(ks)
  {
    forall i | 0 <= i < |ks| - 1 ensures Init(ks)[i] != Last(ks) {
      assert ks[i] != ks[|ks| - 1];
    }
  }

  lemma KeysDistinct<T(!new), K>(xs: seq<T>, key: T -> K)
    ensures Distinct(Keys(xs, key))
  {
    KeysAre(xs, key);
  }

  /** A contiguous list is its own key blocks laid end to end. */
  lemma {:induction false} ContiguousIsLaid<T(!new), K>(xs: seq<T>, key: T -> K)
    requires Contiguous(xs, key)
    ensures Lay(Keys(xs, key), MembersIn(xs, key)) == xs
  {
    if xs == [] {
    } else {
      var before, last, k := Init(xs), Last(xs), key(Last(xs));
      var f := MembersIn(before, key);
      ContiguousInit(xs, key);
      ContiguousIsLaid(before, key);
      assert xs == before + [last];
      ContiguousEnds(xs, key);
      KeysDistinct(xs, key);
      LastOnlyOnce(Keys(xs, key));
      var front := Init(Keys(xs, key));
      MembersOfOthers(front, before, key, last);
      assert Members(xs, key, k) == Members(before, key, k) + [last];
      if k in Keys(before, key) {
        assert before == Lay(front, f) + Members(before, key, k);
        assert Lay(front, f) + (Members(before, key, k) + [last]) == before + [last];
      } else {
        KeyHasMembers(before, key, k);
        assert front == Keys(before, key);
      }
    }
  }

  // ---------------------------------------------------------------- grouping is a permutation

  lemma {:induction false} LayAdds<T(!new), K>(ks: seq<K>, f: K -> seq<T>, g: K -> seq<T>, k: K, c: T)
    requires Distinct(ks) && k in ks
    requires forall j :: j in ks ==> g(j) == if j == k then f(j) + [c] else f(j)
    ensures multiset(Lay(ks, g)) == multiset(Lay(ks, f)) + multiset{c}
  {
    assert ks == Init(ks) + [Last(ks)];
    if Last(ks) == k {
      LaySame(Init(ks), f, g);
    } else {
      LayAdds(Init(ks), f, g, k, c);
    }
    assert Last(ks) in ks;
  }

  lemma RegroupKnown<T(!new), K>(before: seq<T>, key: T -> K, c: T)
    requires key(c) in Keys(before, key)
    ensures multiset(Lay(Keys(before, key), MembersIn(before + [c], key)))
            == multiset(Lay(Keys(before, key), MembersIn(before, key))) + multiset{c}
  {
    KeysDistinct(before, key);
    GrowOne(before, key, c);
    LayAdds(Keys(before, key), MembersIn(before, key), MembersIn(before + [c], key), key(c), c);
  }

  lemma RegroupNew<T(!new), K>(before: seq<T>, key: T -> K, c: T)
    requires key(c) !in Keys(before, key)
    ensures Lay(Keys(before + [c], key), MembersIn(before + [c], key))
            == Lay(Keys(before, key), MembersIn(before, key)) + [c]
  {
    var ks, g := Keys(before, key), MembersIn(before + [c], key);
    assert Init(before + [c]) == before;
    MembersOfOthers(ks, before, key, c);
    KeyHasMembers(before, key, key(c));
    assert g(key(c)) == [c];
    assert Init(ks + [key(c)]) == ks && Last(ks + [key(c)]) == key(c);
  }

  /** The groups of a list laid end to end. */
  ghost function Regrouped<T, K>(xs: seq<T>, key: T -> K): seq<T> {
    Lay(Keys(xs, key), MembersIn(xs, key))
  }

  lemma RegroupNext<T(!new), K>(before: seq<T>, key: T -> K, c: T)
    ensures multiset(Regrouped(before + [c], key)) == multiset(Regrouped(before, key)) + multiset{c}
  {
    KeysGrow(before, key, c);
    if key(c) in Keys(before, key) {
      RegroupKnown(before, key, c);
    } else {
      RegroupNew(before, key, c);
    }
  }

  /** Regrouping a list by its keys only permutes it. */
  lemma {:induction false} RegroupedIsPermutation<T(!new), K>(xs: seq<T>, key: T -> K)
    ensures multiset(Regrouped(xs, key)) == multiset(xs)
  {
    if xs == [] {
    } else {
      var before, last := Init(xs), Last(xs);
      assert xs == before + [last];
      RegroupedIsPermutation(before, key);
      RegroupNext(before, key, last);
    }
  }

  // ---------------------------------------------------------------- relations between items of one key

  ghost predicate Pairwise<T>(xs: seq<T>, r: (T, T) -> bool) {
    forall i, j {:trigger xs[i], xs[j]} :: 0 <= i < j < |xs| ==> r(xs[i], xs[j])
  }

  ghost predicate PairwiseOf<T, K>(xs: seq<T>, key: T -> K, k: K, r: (T, T) -> bool) {
    forall i, j {:trigger xs[i], xs[j]} :: 0 <= i < j < |xs| && key(xs[i]) == k && key(xs[j]) == k
      ==> r(xs[i], xs[j])
  }

  ghost predicate PairwiseByKey<T, K>(xs: seq<T>, key: T -> K, r: (T, T) -> bool) {
    forall i, j {:trigger xs[i], xs[j]} :: 0 <= i < j < |xs| && key(xs[i]) == key(xs[j])
      ==> r(xs[i], xs[j])
  }

  lemma PairwiseByLast<T(!new)>(xs: seq<T>, r: (T, T) -> bool)
    requires xs != []
    ensures Pairwise(xs, r) <==> Pairwise(Init(xs), r) && forall c :: c in Init(xs) ==> r(c, Last(xs))
  {
    var before := Init(xs);
    if Pairwise(xs, r) {
      assert forall i, j :: 0 <= i < j < |before| ==> r(before[i], before[j]) by {
        forall i, j | 0 <= i < j < |before| ensures r(before[i], before[j]) {
          assert r(xs[i], xs[j]);
        }
      }
      forall c | c in before ensures r(c, Last(xs)) {
        var i :| 0 <= i < |before| && before[i] == c;
        assert r(xs[i], xs[|xs| - 1]);
      }
    }
    if Pairwise(before, r) && forall c :: c in before ==> r(c, Last(xs)) {
      forall i, j | 0 <= i < j < |xs| ensures r(xs[i], xs[j]) {
        assert before[i] in before;
        if j < |before| {
          assert r(before[i], before[j]);
        }
      }
    }
  }

  lemma PairwiseOfByLast<T(!new), K>(xs: seq<T>, key: T -> K, k: K, r: (T, T) -> bool)
    requires xs != []
    ensures PairwiseOf(xs, key, k, r) <==>
            && PairwiseOf(Init(xs), key, k, r)
            && (key(Last(xs)) == k ==> forall c :: c in Init(xs) && key(c) == k ==> r(c, Last(xs)))
  {
    var before, last := Init(xs), Last(xs);
    if PairwiseOf(xs, key, k, r) {
      forall i, j | 0 <= i < j < |before| && key(before[i]) == k && key(before[j]) == k
        ensures r(before[i], before[j])
      {
        assert key(xs[i]) == k && key(xs[j]) == k;
      }
      forall c | c in before && key(c) == k && key(last) == k ensures r(c, last) {
        var i :| 0 <= i < |before| && before[i] == c;
        assert key(xs[i]) == k && key(xs[|xs| - 1]) == k;
      }
    }
    if PairwiseOf(before, key, k, r) && (key(last) == k ==> forall c :: c in before && key(c) == k ==> r(c, last)) {
      forall i, j | 0 <= i < j < |xs| && key(xs[i]) == k && key(xs[j]) == k ensures r(xs[i], xs[j]) {
        assert before[i] in before;
        if j < |before| {
          assert key(before[i]) == k && key(before[j]) == k;
        }
      }
    }
  }

  lemma {:induction false} PairwiseInGroup<T(!new), K>(xs: seq<T>, key: T -> K, k: K, r: (T, T) -> bool)
    ensures PairwiseOf(xs, key, k, r) <==> Pairwise(Members(xs, key, k), r)
  {
    if xs == [] {
    } else {
      var ms := Members(Init(xs), key, k);
      PairwiseInGroup(Init(xs), key, k, r);
      PairwiseOfByLast(xs, key, k, r);
      if key(Last(xs)) == k {
        PairwiseByLast(ms + [Last(xs)], r);
        assert Init(ms + [Last(xs)]) == ms;
        MembersAre(Init(xs), key, k);
      } else {
        assert Members(xs, key, k) == ms;
      }
    }
  }

  ghost predicate PairwiseInKey<T, K>(xs: seq<T>, key: T -> K, r: (T, T) -> bool, k: K) {
    Pairwise(Members(xs, key, k), r)
  }

  /** A relation holds between all items of equal key exactly when it holds inside each group. */
  lemma PairwiseByGroups<T(!new), K(!new)>(xs: seq<T>, key: T -> K, r: (T, T) -> bool)
    ensures PairwiseByKey(xs, key, r) <==> forall k :: k in Keys(xs, key) ==> PairwiseInKey(xs, key, r, k)
  {
    forall k ensures PairwiseOf(xs, key, k, r) <==> PairwiseInKey(xs, key, r, k) {
      PairwiseInGroup(xs, key, k, r);
    }
    if forall k :: k in Keys(xs, key) ==> PairwiseInKey(xs, key, r, k) {
      KeysAre(xs, key);
      forall i, j | 0 <= i < j < |xs| && key(xs[i]) == key(xs[j]) ensures r(xs[i], xs[j]) {
        assert xs[i] in xs;
        assert PairwiseOf(xs, key, key(xs[i]), r);
      }
    }
  }

  // ---------------------------------------------------------------- dropping items

  lemma {:induction false} KeptEnds<T(!new), K>(xs: seq<T>, key: T -> K, keep: T -> bool, c: T)
    requires Contiguous(xs, key) && xs != []
    requires c in Kept(xs, keep) && key(c) == key(Last(xs))
    ensures Kept(xs, keep) != [] && key(Last(Kept(xs, keep))) == key(Last(xs))
  {
    if keep(Last(xs)) {
    } else {
      var before := Init(xs);
      assert Kept(xs, keep) == Kept(before, keep);
      var i := KeptAt(before, keep, c);
      ContiguousLast(xs, key, i);
      ContiguousInit(xs, key);
      KeptEnds(before, key, keep, c);
    }
  }

  lemma ContiguousAppend<T, K>(ys: seq<T>, key: T -> K, last: T)
    requires Contiguous(ys, key)
    requires forall i :: 0 <= i < |ys| && key(ys[i]) == key(last) ==> key(Last(ys)) == key(last)
    ensures Contiguous(ys + [last], key)
  {
    var zs := ys + [last];
    forall i, j | 0 <= i < j < |zs| && key(zs[i]) == key(zs[j]) ensures key(zs[j - 1]) == key(zs[j]) {
      if j < |ys| {
        assert key(ys[i]) == key(ys[j]);
      }
    }
  }

  /** Dropping items keeps equal keys together. */
  lemma {:induction false} KeptContiguous<T(!new), K>(xs: seq<T>, key: T -> K, keep: T -> bool)
    requires Contiguous(xs, key)
    ensures Contiguous(Kept(xs, keep), key)
  {
    if xs == [] {
    } else {
      var before, last := Init(xs), Last(xs);
      var ys := Kept(before, keep);
      ContiguousInit(xs, key);
      KeptContiguous(before, key, keep);
      forall i | 0 <= i < |ys| && key(ys[i]) == key(last) ensures key(Last(ys)) == key(last) {
        var n := KeptAt(before, keep, ys[i]);
        ContiguousLast(xs, key, n);
        KeptEnds(before, key, keep, ys[i]);
      }
      ContiguousAppend(ys, key, last);
    }
  }

  /** A relation between items of equal key survives dropping items. */
  lemma {:induction false} KeptPairwise<T(!new), K(!new)>(xs: seq<T>, key: T -> K, keep: T -> bool, r: (T, T) -> bool)
    requires PairwiseByKey(xs, key, r)
    ensures PairwiseByKey(Kept(xs, keep), key, r)
  {
    if xs == [] {
    } else {
      var before, ys := Init(xs), Kept(Init(xs), keep);
      forall i, j | 0 <= i < j < |before| && key(before[i]) == key(before[j]) ensures r(before[i], before[j]) {
        assert r(xs[i], xs[j]);
      }
      KeptPairwise(before, key, keep, r);
      var zs := Kept(xs, keep);
      forall i, j | 0 <= i < j < |zs| && key(zs[i]) == key(zs[j]) ensures r(zs[i], zs[j]) {
        if j == |ys| {
          KeptAre(before, keep);
          assert ys[i] in Kept(before, keep);
          assert ys[i] in before;
          var n :| 0 <= n < |before| && before[n] == ys[i];
          assert r(xs[n], xs[|xs| - 1]);
        } else {
          assert r(ys[i], ys[j]);
        }
      }
    }
  }
}
