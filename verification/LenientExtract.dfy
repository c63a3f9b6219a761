/** `_lenient_extract_json` after its code-fence step: the order in which the whole text, the
    array span, the object span and the object scan are tried, and what that order recovers. */
module LenientExtract {
  import opened Common
  import opened JsonText
  import opened Scanners
  import opened JsonScan
  import opened JsonCuts

  /** What was parsed: nothing, one document, or the objects of the scan. */
  datatype Extracted = Nothing | One(text: string) | Many(texts: seq<string>)
  {
    function Texts(): seq<string> {
      match this
      case Nothing => []
      case One(text) => [text]
      case Many(texts) => texts
    }
  }

  ghost predicate IsObject(s: string) {
    exists before, v, after :: Reads(s, before, v, after) && v.Obj?
  }

  ghost function Objects(spans: seq<string>): seq<string> {
    if spans == [] then []
    else Objects(Init(spans)) + (if IsObject(Last(spans)) then [Last(spans)] else [])
  }

  ghost function Extract(s: string): Extracted {
    var arraySpan, objectSpan := BalancedSpan(SQUARE, s), BalancedSpan(CURLY, s);
    if IsJson(s) then One(s)
    else if arraySpan.Some? && IsJson(arraySpan.value) then One(arraySpan.value)
    else if objectSpan.Some? && IsJson(objectSpan.value) then One(objectSpan.value)
    else
      var objects := Objects(ScanObjects(s));
      if objects == [] then Nothing else Many(objects)
  }

  lemma PrintedIsJson(v: Json)
    requires Valid(v)
    ensures IsJson(Print(v))
  {
    assert "" + Print(v) + "" == Print(v);
    assert Reads(Print(v), "", v, "");
  }

  /** Whatever the reader accepts leaves every bracket closed. */
  lemma JsonIsLevel(b: Pair, s: string)
    requires IsBracket(b) && IsJson(s)
    ensures Level(b, s)
  {
    var before, v, after :| Reads(s, before, v, after);
    PrintLevel(b, v);
    OtherBrackets(b, before, Print(v), after);
  }

  /** A printed array in prose is found whole, unless the text is a document as it stands. */
  lemma ExtractsPrintedArray(prose: string, v: Json, suffix: string)
    requires Valid(v) && v.Arr? && '[' !in prose
    ensures var s := prose + Print(v) + suffix;
            Extract(s) == One(if IsJson(s) then s else Print(v))
  {
    SpanOfPrinted(SQUARE, prose, v, suffix);
    PrintedIsJson(v);
  }

  /** Neither a quote nor a bracket of either kind. */
  predicate Bare(s: string) {
    Quiet(SQUARE, s) && Quiet(CURLY, s)
  }

  /** Listed objects and one cut off, after some prose and an opening bracket. */
  function CutArray(prose: string, items: seq<Item>, last: Item, n: nat): string
    requires n <= |Print(last.value)|
  {
    (prose + "[") + Listed(items) + Cut(last, n)
  }

  lemma {:induction false} ListedLevel(b: Pair, items: seq<Item>)
    requires IsBracket(b) && ObjectItems(items)
    ensures Level(b, Listed(items))
  {
    if items == [] {
      QuietLevel(b, "");
    } else {
      FirstOfListed(items);
      ListedLevel(b, items[1..]);
      ItemLevel(b, items[0]);
      OtherBrackets(b, "", PrintItem(items[0]), ",");
      LevelConcat(b, "" + PrintItem(items[0]) + ",", Listed(items[1..]));
      assert Listed(items) == ("" + PrintItem(items[0]) + ",") + Listed(items[1..]);
    }
  }

  /** A level text after an opening bracket keeps the bracket open. */
  lemma StaysOpen(body: string, i: nat)
    requires Level(SQUARE, body) && 1 <= i <= |body| + 1
    ensures After(SQUARE, At(0), ("[" + body)[..i]).depth >= 1
  {
    var open := "[";
    assert LevelAt(SQUARE, body, 1);
    assert (open + body)[..i] == open + body[..i - 1];
    AfterConcat(SQUARE, At(0), open, body[..i - 1]);
    TwoSteps(SQUARE, At(0), '[', '[');
    assert open == ['['];
  }

  /** What follows the opening bracket of an array up to the end of its last item. */
  function Body(items: seq<Item>, last: Item): string {
    Listed(items) + PrintItem(last)
  }

  lemma BodyLevel(items: seq<Item>, last: Item)
    requires ObjectItems(items) && ObjectItems([last])
    ensures Level(SQUARE, Body(items, last))
  {
    LastIsObject(last);
    ListedLevel(SQUARE, items);
    ItemLevel(SQUARE, last);
    LevelConcat(SQUARE, Listed(items), PrintItem(last));
  }

  /** The cut array from its opening bracket on. */
  function CutBody(items: seq<Item>, last: Item, n: nat): (s: string)
    requires n <= |Print(last.value)|
  {
    "[" + (Listed(items) + Cut(last, n))
  }

  lemma CutArrayIs(prose: string, items: seq<Item>, last: Item, n: nat)
    requires n <= |Print(last.value)|
    ensures CutArray(prose, items, last, n) == prose + CutBody(items, last, n)
  {
  }

  lemma CutIsPrefix(items: seq<Item>, last: Item, n: nat)
    requires n <= |Print(last.value)|
    ensures Listed(items) + Cut(last, n) <= Body(items, last)
  {
    var text := Print(last.value);
    if n == |text| {
      CutOfWhole(last);
    } else {
      assert PrintItem(last) == last.before + text[..n] + (text[n..] + last.after);
    }
  }

  /** From its opening square bracket on, a cut array never returns to depth zero. */
  lemma CutStaysOpen(items: seq<Item>, last: Item, n: nat, i: nat)
    requires ObjectItems(items) && ObjectItems([last]) && n <= |Print(last.value)|
    requires 1 <= i <= |CutBody(items, last, n)|
    ensures After(SQUARE, At(0), CutBody(items, last, n)[..i]).depth >= 1
  {
    var body := Body(items, last);
    BodyLevel(items, last);
    CutIsPrefix(items, last, n);
    StaysOpen(body, i);
    assert CutBody(items, last, n)[..i] == ("[" + body)[..i];
  }

  lemma JsonEndsLevel(s: string)
    ensures IsJson(s) ==> After(SQUARE, At(0), s) == At(0)
  {
    if IsJson(s) {
      JsonIsLevel(SQUARE, s);
      assert LevelAt(SQUARE, s, 0);
    }
  }

  lemma CutIsNotJson(prose: string, items: seq<Item>, last: Item, n: nat)
    requires Bare(prose) && ObjectItems(items) && ObjectItems([last]) && n <= |Print(last.value)|
    ensures !IsJson(CutArray(prose, items, last, n))
  {
    var rest := CutBody(items, last, n);
    CutArrayIs(prose, items, last, n);
    CutStaysOpen(items, last, n, |rest|);
    assert rest[..|rest|] == rest;
    QuietAfter(SQUARE, At(0), prose);
    AfterConcat(SQUARE, At(0), prose, rest);
    JsonEndsLevel(prose + rest);
  }

  lemma CutHasNoArraySpan(prose: string, items: seq<Item>, last: Item, n: nat)
    requires Bare(prose) && ObjectItems(items) && ObjectItems([last]) && n <= |Print(last.value)|
    ensures BalancedSpan(SQUARE, CutArray(prose, items, last, n)) == None
  {
    var rest := CutBody(items, last, n);
    CutArrayIs(prose, items, last, n);
    forall i | 1 <= i <= |rest| ensures After(SQUARE, At(0), rest[..i]).depth != 0 {
      CutStaysOpen(items, last, n, i);
    }
    ReturnIs(SQUARE, At(0), rest);
    SpanFrom(SQUARE, prose, rest);
  }

  lemma SpanOfListed(prose: string, items: seq<Item>, last: Item, n: nat)
    requires Bare(prose) && ObjectItems(items) && items != [] && n <= |Print(last.value)|
    ensures BalancedSpan(CURLY, CutArray(prose, items, last, n)) == Some(Print(items[0].value))
  {
    var text, rest := PrintItem(items[0]), Listed(items[1..]);
    FirstOfListed(items);
    SpanOfFirst(prose, items[0], "," + rest + Cut(last, n));
    assert Listed(items) == text + "," + rest;
    RegroupTail(prose + "[", text, rest, Cut(last, n));
  }

  lemma RegroupTail(a: string, b: string, c: string, d: string)
    ensures a + (b + "," + c) + d == a + b + ("," + c + d)
  {}

  lemma SpanOfWhole(prose: string, last: Item)
    requires Bare(prose) && ValidItem(last) && last.value.Obj?
    ensures BalancedSpan(CURLY, CutArray(prose, [], last, |Print(last.value)|)) == Some(Print(last.value))
  {
    CutOfWhole(last);
    SpanOfFirst(prose, last, "");
    assert CutArray(prose, [], last, |Print(last.value)|) == prose + "[" + PrintItem(last) + "";
  }

  lemma NoSpanInside(prose: string, last: Item, n: nat)
    requires Bare(prose) && ValidItem(last) && last.value.Obj? && n < |Print(last.value)|
    ensures BalancedSpan(CURLY, CutArray(prose, [], last, n)) == None
  {
    CutInside(last, n);
    var lead := prose + "[" + last.before;
    assert CutArray(prose, [], last, n) == lead + Print(last.value)[..n];
    NoSpanOfCut(CURLY, lead, last.value, n);
  }

  /** The balanced object span of a cut array is its first complete object, if there is one. */
  lemma FirstObjectSpan(prose: string, items: seq<Item>, last: Item, n: nat)
    requires Bare(prose) && ObjectItems(items) && ObjectItems([last]) && n <= |Print(last.value)|
    ensures var done := Done(items, last, n);
            BalancedSpan(CURLY, CutArray(prose, items, last, n))
            == if done == [] then None else Some(Print(done[0].value))
  {
    LastIsObject(last);
    if items != [] {
      SpanOfListed(prose, items, last, n);
    } else if n == |Print(last.value)| {
      SpanOfWhole(prose, last);
    } else {
      NoSpanInside(prose, last, n);
    }
  }

  lemma SpanOfFirst(prose: string, item: Item, rest: string)
    requires Bare(prose) && ValidItem(item) && item.value.Obj?
    ensures BalancedSpan(CURLY, prose + "[" + PrintItem(item) + rest) == Some(Print(item.value))
  {
    var lead, tail := prose + "[" + item.before, item.after + rest;
    assert prose + "[" + PrintItem(item) + rest == lead + Print(item.value) + tail;
    SpanOfPrinted(CURLY, lead, item.value, tail);
  }

  lemma ExtractOfCut(prose: string, items: seq<Item>, last: Item, n: nat)
    requires Bare(prose) && ObjectItems(items) && ObjectItems([last]) && n <= |Print(last.value)|
    ensures var done := Done(items, last, n);
            Extract(CutArray(prose, items, last, n)) == if done == [] then Nothing else One(Print(done[0].value))
  {
    var done := Done(items, last, n);
    CutIsNotJson(prose, items, last, n);
    CutHasNoArraySpan(prose, items, last, n);
    FirstObjectSpan(prose, items, last, n);
    if done == [] {
      QuietAdds(CURLY, prose, "[");
      ScanOfCut(prose + "[", items, last, n);
    } else {
      assert done[0] in done && (done[0] in items || done[0] in [last]);
      PrintedIsJson(done[0].value);
    }
  }

  /** What is recovered from a printed array of objects cut off anywhere after its opening bracket:
      nothing if no object is complete, and otherwise the first complete object alone. */
  lemma ExtractOfTruncatedArray(prose: string, v: Json, m: nat)
    requires Bare(prose) && ObjectArray(v) && 1 <= m < |Print(v)|
    ensures var done := JsonScan.Texts(Complete(v.items, m - 1));
            Extract(prose + Print(v)[..m]) == if done == [] then Nothing else One(done[0])
  {
    var front, last, k := TruncatedArray(v, m);
    RegroupFour(prose, "[", Listed(front), Cut(last, k));
    ExtractOfCut(prose, front, last, k);
    var done := Done(front, last, k);
    assert done != [] ==> JsonScan.Texts(done)[0] == Print(done[0].value);
  }

  /** The documented promise, that a truncated batch yields its complete objects, holds exactly
      when at most one object is complete. */
  lemma RecoversAllIff(prose: string, v: Json, m: nat)
    requires Bare(prose) && ObjectArray(v) && 1 <= m < |Print(v)|
    ensures Extract(prose + Print(v)[..m]).Texts() == JsonScan.Texts(Complete(v.items, m - 1))
            <==> |Complete(v.items, m - 1)| <= 1
  {
    ExtractOfTruncatedArray(prose, v, m);
  }

  lemma TwoEmptyObjects(item: Item)
    requires item == Item("", Obj([], ""), "")
    ensures ObjectItems([item]) && ObjectItems([item, item])
    ensures Print(item.value) == "{}" && Listed([item, item]) == "{},{}," && Cut(item, 1) == "{"
  {
    var items, none: seq<Item> := [item, item], [];
    assert Print(item.value) == "{}" && PrintItem(item) == "{}";
    assert items[1..] == [item] && [item][1..] == none && Listed(none) == "";
    assert Listed([item]) == "{}" + "," + "" == "{},";
    assert Listed(items) == "{}" + "," + "{}," == "{},{},";
    assert Cut(item, 1) == "" + "{" + "" == "{";
  }

  /** Two complete objects before the cut: only the first comes back, although the object scan
      alone would have returned both. */
  lemma LosesSecondObject()
    ensures var s := "[{},{},{";
            Extract(s).Texts() == ["{}"] && ScanObjects(s) == ["{}", "{}"]
  {
    var item := Item("", Obj([], ""), "");
    var items := [item, item];
    TwoEmptyObjects(item);
    assert CutArray("", items, item, 1) == "[" + "{},{}," + "{" == "[{},{},{";
    ExtractOfCut("", items, item, 1);
    ScanOfCut("[", items, item, 1);
    assert "[" + "{},{}," + "{" == "[{},{},{";
    assert JsonScan.Texts(items) == ["{}", "{}"];
  }
}
