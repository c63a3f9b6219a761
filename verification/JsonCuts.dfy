/** Printed arrays of objects that are cut off anywhere: which objects are complete, and that the
    object scan returns exactly those. */
module JsonCuts {
  import opened Common
  import opened JsonText
  import opened Scanners
  import opened JsonScan

  /** An item whose object is cut off after `n` characters; a complete object may have its
      trailing space. */
  function Cut(last: Item, n: nat): string
    requires n <= |Print(last.value)|
  {
    last.before + Print(last.value)[..n] + if n == |Print(last.value)| then last.after else ""
  }

  /** The complete objects of some listed items and a cut one. */
  function Done(items: seq<Item>, last: Item, n: nat): seq<Item> {
    if n == |Print(last.value)| then items + [last] else items
  }

  lemma CutOfWhole(last: Item)
    ensures Cut(last, |Print(last.value)|) == PrintItem(last)
  {
    var text := Print(last.value);
    assert text[..|text|] == text;
  }

  lemma CutInside(last: Item, n: nat)
    requires n < |Print(last.value)|
    ensures Cut(last, n) == last.before + Print(last.value)[..n]
  {}

  /** The object scan on listed items and a cut one. */
  lemma ScanOfCut(lead: string, items: seq<Item>, last: Item, n: nat)
    requires Quiet(CURLY, lead) && ObjectItems(items) && ObjectItems([last]) && n <= |Print(last.value)|
    ensures ScanObjects(lead + Listed(items) + Cut(last, n)) == Texts(Done(items, last, n))
  {
    if n == |Print(last.value)| {
      CutOfWhole(last);
      ScanOfArray(lead, items, last, "");
      assert PrintItem(last) + "" == PrintItem(last);
    } else {
      CutInside(last, n);
      ScanOfCutArray(lead, items, last, n);
    }
  }

  // ---------------------------------------------------------------- every truncation is such a cut

  /** The length of an item up to the end of its value. */
  function ValueEnd(item: Item): nat {
    |item.before| + |Print(item.value)|
  }

  /** The items whose values end within the first `n` characters of the printed items. */
  function Complete(items: seq<Item>, n: nat): seq<Item>
    decreases |items|
  {
    if items == [] || n < ValueEnd(items[0]) then []
    else if n <= |PrintItem(items[0])| then [items[0]]
    else [items[0]] + Complete(items[1..], n - |PrintItem(items[0])| - 1)
  }

  /** An item cut off anywhere. */
  lemma TruncatedItem(item: Item, n: nat) returns (last: Item, k: nat)
    requires ValidItem(item) && item.value.Obj? && n <= |PrintItem(item)|
    ensures ValidItem(last) && last.value == item.value && k <= |Print(item.value)|
    ensures PrintItem(item)[..n] == Cut(last, k)
    ensures k == |Print(item.value)| <==> n >= ValueEnd(item)
  {
    var text, b := Print(item.value), |item.before|;
    PrintEnclosed(CURLY, item.value);
    if n <= b {
      last, k := Item(item.before[..n], item.value, ""), 0;
      SpacePrefix(item.before, n);
      assert PrintItem(item)[..n] == item.before[..n];
    } else if n < ValueEnd(item) {
      last, k := item, n - b;
      assert PrintItem(item)[..n] == item.before + text[..k];
    } else {
      var e := ValueEnd(item);
      last, k := Item(item.before, item.value, item.after[..n - e]), |text|;
      SpacePrefix(item.after, n - e);
      CutOfWhole(last);
      assert PrintItem(item)[..n] == item.before + text + item.after[..n - e];
    }
  }

  lemma SpacePrefix(s: string, n: nat)
    requires IsSpace(s) && n <= |s|
    ensures IsSpace(s[..n]) && IsSpace("")
  {
    assert forall c :: c in s[..n] ==> c in s;
  }

  lemma TextsAre(a: seq<Item>, b: seq<Item>)
    requires SameValues(a, b)
    ensures Texts(a) == Texts(b)
  {}

  lemma PrefixOfSum(a: string, b: string, n: nat)
    requires n <= |a + b|
    ensures (a + b)[..n] == if n <= |a| then a[..n] else a + b[..n - |a|]
  {}

  /** Where a prefix of printed items ends. */
  lemma ItemsPrefix(items: seq<Item>, n: nat)
    requires items != [] && n <= |PrintItems(items)|
    ensures var text := PrintItem(items[0]);
            if n <= |text| then PrintItems(items)[..n] == text[..n]
            else && |items| > 1 && n - |text| - 1 <= |PrintItems(items[1..])|
                 && PrintItems(items)[..n] == text + "," + PrintItems(items[1..])[..n - |text| - 1]
  {
    var text := PrintItem(items[0]);
    if |items| > 1 {
      PrefixOfSum(text + ",", PrintItems(items[1..]), n);
      PrefixOfSum(text, ",", if n <= |text| then n else 0);
    }
  }

  lemma DoneCons(item: Item, rest: seq<Item>, last: Item, k: nat)
    ensures Done([item] + rest, last, k) == [item] + Done(rest, last, k)
  {
    assert [item] + rest + [last] == [item] + (rest + [last]);
  }

  /** The same values in the same order. */
  predicate SameValues(a: seq<Item>, b: seq<Item>) {
    |a| == |b| && forall i :: 0 <= i < |a| ==> a[i].value == b[i].value
  }

  lemma SameValuesCons(item: Item, a: seq<Item>, b: seq<Item>)
    requires SameValues(a, b)
    ensures SameValues([item] + a, [item] + b)
  {}

  /** A prefix within the first item. */
  lemma TruncatedFirst(items: seq<Item>, n: nat) returns (last: Item, k: nat)
    requires ObjectItems(items) && items != [] && n <= |PrintItem(items[0])| && n <= |PrintItems(items)|
    ensures ValidItem(last) && last.value.Obj? && k <= |Print(last.value)|
    ensures PrintItems(items)[..n] == Listed([]) + Cut(last, k)
    ensures SameValues(Done([], last, k), Complete(items, n))
  {
    FirstOfListed(items);
    ItemsPrefix(items, n);
    last, k := TruncatedItem(items[0], n);
    assert Listed([]) + Cut(last, k) == Cut(last, k);
    if n >= ValueEnd(items[0]) {
      assert Done([], last, k) == [last] && Complete(items, n) == [items[0]];
    }
  }

  /** The first `n` characters of printed objects are some listed objects and one cut off. */
  lemma {:induction false} TruncatedItems(items: seq<Item>, n: nat) returns (front: seq<Item>, last: Item, k: nat)
    requires ObjectItems(items) && items != [] && n <= |PrintItems(items)|
    ensures ObjectItems(front) && ValidItem(last) && last.value.Obj? && k <= |Print(last.value)|
    ensures PrintItems(items)[..n] == Listed(front) + Cut(last, k)
    ensures SameValues(Done(front, last, k), Complete(items, n))
    decreases |items|
  {
    if n <= |PrintItem(items[0])| {
      front := [];
      last, k := TruncatedFirst(items, n);
    } else {
      var rest: seq<Item>;
      FirstOfListed(items);
      ItemsPrefix(items, n);
      rest, last, k := TruncatedItems(items[1..], n - |PrintItem(items[0])| - 1);
      front := [items[0]] + rest;
      TruncatedLater(items, n, rest, last, k);
    }
  }

  /** A prefix that reaches beyond the first item, given what it has of the others. */
  lemma TruncatedLater(items: seq<Item>, n: nat, rest: seq<Item>, last: Item, k: nat)
    requires ObjectItems(items) && |items| > 1 && |PrintItem(items[0])| < n && n <= |PrintItems(items)|
    requires ObjectItems(rest) && k <= |Print(last.value)|
    requires var m := n - |PrintItem(items[0])| - 1;
             && m <= |PrintItems(items[1..])| && PrintItems(items[1..])[..m] == Listed(rest) + Cut(last, k)
             && SameValues(Done(rest, last, k), Complete(items[1..], m))
    ensures ObjectItems([items[0]] + rest) && SameValues(Done([items[0]] + rest, last, k), Complete(items, n))
    ensures PrintItems(items)[..n] == Listed([items[0]] + rest) + Cut(last, k)
  {
    var item, m := items[0], n - |PrintItem(items[0])| - 1;
    FirstOfListed(items);
    ItemsPrefix(items, n);
    ListedCons(item, rest);
    DoneCons(item, rest, last, k);
    SameValuesCons(item, Done(rest, last, k), Complete(items[1..], m));
    assert Complete(items, n) == [item] + Complete(items[1..], m);
    ConcatAssociates(PrintItem(item) + ",", Listed(rest), Cut(last, k));
  }

  lemma ListedCons(item: Item, rest: seq<Item>)
    requires ValidItem(item) && item.value.Obj? && ObjectItems(rest)
    ensures Listed([item] + rest) == PrintItem(item) + "," + Listed(rest) && ObjectItems([item] + rest)
  {
    assert ([item] + rest)[1..] == rest;
  }

  /** An array of objects. */
  ghost predicate ObjectArray(v: Json) {
    Valid(v) && v.Arr? && ObjectItems(v.items)
  }

  lemma TruncatedEmpty(v: Json, m: nat)
    requires ObjectArray(v) && v.items == [] && 1 <= m <= |v.inner| + 1
    ensures var last := Item(v.inner[..m - 1], Obj([], ""), "");
            ValidItem(last) && Print(v)[..m] == "[" + Listed([]) + Cut(last, 0) && Done([], last, 0) == []
  {
    var last := Item(v.inner[..m - 1], Obj([], ""), "");
    SpacePrefix(v.inner, m - 1);
    assert Print(v)[..m] == "[" + v.inner[..m - 1];
    CutInside(last, 0);
  }

  /** A printed array of objects cut off anywhere after its opening bracket is an opening bracket,
      some listed objects and one cut off. */
  lemma TruncatedArray(v: Json, m: nat) returns (front: seq<Item>, last: Item, k: nat)
    requires ObjectArray(v) && 1 <= m < |Print(v)|
    ensures ObjectItems(front) && ObjectItems([last]) && k <= |Print(last.value)|
    ensures Print(v)[..m] == "[" + Listed(front) + Cut(last, k)
    ensures Texts(Done(front, last, k)) == Texts(Complete(v.items, m - 1))
  {
    if v.items == [] {
      assert Print(v) == "[" + v.inner + "" + "]";
      front, last, k := [], Item(v.inner[..m - 1], Obj([], ""), ""), 0;
      TruncatedEmpty(v, m);
    } else {
      front, last, k := TruncatedItems(v.items, m - 1);
      PrintedPrefix(v, m);
      ConcatAssociates("[", Listed(front), Cut(last, k));
      TextsAre(Done(front, last, k), Complete(v.items, m - 1));
    }
  }

  lemma PrintedPrefix(v: Json, m: nat)
    requires Valid(v) && v.Arr? && v.items != [] && 1 <= m < |Print(v)|
    ensures m - 1 <= |PrintItems(v.items)| && Print(v)[..m] == "[" + PrintItems(v.items)[..m - 1]
  {
    assert Print(v) == "[" + PrintItems(v.items) + "]";
    PrefixOfSum("[" + PrintItems(v.items), "]", m);
    PrefixOfSum("[", PrintItems(v.items), m);
  }

  lemma RegroupFour(a: string, b: string, c: string, d: string)
    ensures a + (b + c + d) == (a + b) + c + d
  {}

  /** The object scan on a printed array of objects cut off anywhere returns exactly the texts of
      the complete objects, in order. */
  lemma ScanOfTruncatedArray(prose: string, v: Json, m: nat)
    requires Quiet(CURLY, prose) && ObjectArray(v) && 1 <= m < |Print(v)|
    ensures ScanObjects(prose + Print(v)[..m]) == Texts(Complete(v.items, m - 1))
  {
    var front, last, k := TruncatedArray(v, m);
    RegroupFour(prose, "[", Listed(front), Cut(last, k));
    QuietAdds(CURLY, prose, "[");
    ScanOfCut(prose + "[", front, last, k);
  }

  lemma ScanOfEmptyArray(prose: string, inner: string, suffix: string)
    requires Quiet(CURLY, prose) && IsSpace(inner) && Quiet(CURLY, suffix)
    ensures ScanObjects(prose + ("[" + inner + "]") + suffix) == []
  {
    var s := prose + ("[" + inner + "]") + suffix;
    QuietAdds(CURLY, "[", inner);
    QuietAdds(CURLY, "[" + inner, "]");
    QuietAdds(CURLY, prose, "[" + inner + "]");
    QuietAdds(CURLY, prose + ("[" + inner + "]"), suffix);
    ScanQuiet(s, 0, s);
  }

  /** The object scan on a complete printed array of objects, between texts without quotes and
      braces, returns the texts of all its objects, in order. */
  lemma ScanOfPrintedArray(prose: string, v: Json, suffix: string)
    requires Quiet(CURLY, prose) && ObjectArray(v) && Quiet(CURLY, suffix)
    ensures ScanObjects(prose + Print(v) + suffix) == Texts(v.items)
  {
    if v.items == [] {
      ScanOfEmptyArray(prose, v.inner, suffix);
      assert Print(v) == "[" + v.inner + "]" && Texts(v.items) == [];
    } else {
      var front, last := Init(v.items), Last(v.items);
      ObjectItemsSplit(v.items);
      PrintItemsIs(front, last);
      PrintedWhole(v, prose, Listed(front), PrintItem(last), suffix);
      QuietAdds(CURLY, prose, "[");
      QuietAdds(CURLY, "]", suffix);
      ScanOfArray(prose + "[", front, last, "]" + suffix);
    }
  }

  lemma ObjectItemsSplit(items: seq<Item>)
    requires ObjectItems(items) && items != []
    ensures ObjectItems(Init(items)) && ObjectItems([Last(items)]) && items == Init(items) + [Last(items)]
  {
    assert Last(items) in items && forall i :: i in Init(items) ==> i in items;
  }

  lemma PrintedWhole(v: Json, prose: string, listed: string, last: string, suffix: string)
    requires Valid(v) && v.Arr? && v.items != [] && PrintItems(v.items) == listed + last
    ensures prose + Print(v) + suffix == (prose + "[") + listed + (last + ("]" + suffix))
  {
    assert Print(v) == "[" + PrintItems(v.items) + "]";
  }
}
