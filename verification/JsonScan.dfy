/** `_balanced_span` and `_scan_objects`: what the loops compute, and that on printed JSON they
    return exactly the printed values, also when the text is cut off inside one. */
module JsonScan {
  import opened Common
  import opened JsonText
  import opened Scanners

  // ---------------------------------------------------------------- the balanced span

  /** The length of the shortest non-empty prefix after which the depth is zero. */
  function Return(b: Pair, st: State, s: string): (n: Option<nat>)
    ensures n.Some? ==> 1 <= n.value <= |s|
    decreases |s|
  {
    if s == "" then None
    else
      var next := Step(b, st, s[0]);
      if next.depth == 0 then Some(1)
      else match Return(b, next, s[1..])
        case Some(n) => Some(n + 1)
        case None => None
  }

  function Find(s: string, c: char): (i: nat)
    ensures i <= |s| && forall k :: 0 <= k < i ==> s[k] != c
    ensures i < |s| ==> s[i] == c
  {
    if s == "" || s[0] == c then 0 else 1 + Find(s[1..], c)
  }

  /** The text from the first opening bracket up to where its depth returns to zero. */
  function BalancedSpan(b: Pair, s: string): Option<string> {
    var start := Find(s, b.open);
    match Return(b, At(0), s[start..])
    case None => None
    case Some(n) => Some(s[start..start + n])
  }

  lemma StepFirst(b: Pair, st: State, s: string, i: nat)
    requires 1 <= i <= |s|
    ensures After(b, st, s[..i]) == After(b, Step(b, st, s[0]), s[1..][..i - 1])
  {
    assert s[..i] == [s[0]] + s[1..][..i - 1];
    AfterConcat(b, st, [s[0]], s[1..][..i - 1]);
    TwoSteps(b, st, s[0], s[0]);
  }

  /** `Return` finds the first prefix at depth zero, and finds none exactly when there is none. */
  lemma {:induction false} ReturnIs(b: Pair, st: State, s: string)
    ensures Return(b, st, s).None? <==> forall i :: 1 <= i <= |s| ==> After(b, st, s[..i]).depth != 0
    ensures Return(b, st, s).Some? ==>
              && 1 <= Return(b, st, s).value <= |s|
              && After(b, st, s[..Return(b, st, s).value]).depth == 0
              && forall i :: 1 <= i < Return(b, st, s).value ==> After(b, st, s[..i]).depth != 0
    decreases |s|
  {
    if s == "" {
    } else {
      var next := Step(b, st, s[0]);
      ReturnIs(b, next, s[1..]);
      forall i | 1 <= i <= |s| ensures After(b, st, s[..i]) == After(b, next, s[1..][..i - 1]) {
        StepFirst(b, st, s, i);
      }
      assert s[1..][..0] == "";
      var r := Return(b, next, s[1..]);
      if r.None? && next.depth != 0 {
        forall i | 1 <= i <= |s| ensures After(b, st, s[..i]).depth != 0 {
          assert i > 1 ==> After(b, next, s[1..][..i - 1]).depth != 0;
        }
      }
      if r.Some? && next.depth != 0 {
        forall i | 1 <= i < r.value + 1 ensures After(b, st, s[..i]).depth != 0 {
          assert i > 1 ==> After(b, next, s[1..][..i - 1]).depth != 0;
        }
        assert After(b, st, s[..r.value + 1]).depth == 0;
      }
      if next.depth == 0 {
        assert After(b, st, s[..1]).depth == 0;
      }
    }
  }

  function Later(n: Option<nat>, k: nat): Option<nat> {
    if n.Some? then Some(n.value + k) else None
  }

  lemma ReturnStep(b: Pair, st: State, s: string, i: nat)
    requires i < |s|
    ensures var next := Step(b, st, s[i]);
            Return(b, st, s[i..]) == if next.depth == 0 then Some(1) else Later(Return(b, next, s[i + 1..]), 1)
  {
    assert s[i..] != "" && s[i..][0] == s[i] && s[i..][1..] == s[i + 1..];
  }

  /** The loop of the program: one pass over the characters from an opening bracket, up to where
      the depth returns to zero. */
  method FindReturn(b: Pair, s: string, start: nat) returns (end: Option<nat>)
    requires NoQuote(b) && start < |s| && s[start] == b.open
    ensures end == Later(Return(b, At(0), s[start..]), start)
  {
    var depth, inStr, esc := 0, false, false;
    ghost var whole := Later(Return(b, At(0), s[start..]), start);
    for i := start to |s|
      invariant if i == start then State(depth, inStr, esc) == At(0) else depth >= 1
      invariant whole == Later(Return(b, State(depth, inStr, esc), s[i..]), i)
    {
      var ch := s[i];
      ghost var next := Step(b, State(depth, inStr, esc), ch);
      ReturnStep(b, State(depth, inStr, esc), s, i);
      if inStr {
        if esc {
          esc := false;
        } else if ch == '\\' {
          esc := true;
        } else if ch == '"' {
          inStr := false;
        }
      } else if ch == '"' {
        inStr := true;
      } else if ch == b.open {
        depth := depth + 1;
      } else if ch == b.close {
        depth := depth - 1;
        if depth == 0 {
          return Some(i + 1);
        }
      }
      assert State(depth, inStr, esc) == next && depth >= 1;
    }
    return None;
  }

  /** From the first opening bracket to its return. */
  method FindBalancedSpan(b: Pair, s: string) returns (span: Option<string>)
    requires NoQuote(b)
    ensures span == BalancedSpan(b, s)
  {
    var start := Find(s, b.open);
    if start == |s| {
      return None;
    }
    var end := FindReturn(b, s, start);
    if end.None? {
      return None;
    }
    return Some(s[start..end.value]);
  }

  lemma FindAfter(prose: string, s: string, c: char)
    requires c !in prose && (s != "" ==> s[0] == c)
    ensures Find(prose + s, c) == |prose|
  {
    var all := prose + s;
    forall k | 0 <= k < |prose| ensures all[k] != c {
      assert all[k] in prose;
    }
    assert s != "" ==> all[|prose|] == c;
  }

  lemma SpanFrom(b: Pair, prose: string, s: string)
    requires b.open !in prose && (s != "" ==> s[0] == b.open)
    ensures BalancedSpan(b, prose + s) ==
            match Return(b, At(0), s) case None => None case Some(n) => Some(s[..n])
  {
    FindAfter(prose, s, b.open);
    assert (prose + s)[|prose|..] == s;
    if Return(b, At(0), s).Some? {
      var n := Return(b, At(0), s).value;
      assert (prose + s)[|prose|..|prose| + n] == s[..n];
    }
  }

  /** The scanner inverts the printer: on any prose without the opening bracket, any printed
      array (for square) or object (for curly brackets), and any suffix, it returns exactly the
      printed value. */
  lemma SpanOfPrinted(b: Pair, prose: string, v: Json, suffix: string)
    requires Brackets(b, v) && Valid(v) && b.open !in prose
    ensures BalancedSpan(b, prose + Print(v) + suffix) == Some(Print(v))
  {
    var text, rest := Print(v), Print(v) + suffix;
    PrintEnclosed(b, v);
    assert EnclosedAt(b, text, 0);
    assert prose + Print(v) + suffix == prose + rest;
    ReturnIs(b, At(0), rest);
    forall i | 1 <= i <= |text| ensures rest[..i] == text[..i] {}
    assert rest[..|text|] == text;
    assert After(b, At(0), rest[..|text|]).depth == 0;
    assert forall i :: 1 <= i < |text| ==> After(b, At(0), rest[..i]).depth > 0;
    SpanFrom(b, prose, rest);
  }

  /** A printed value cut off before its last character has no balanced span. */
  lemma NoSpanOfCut(b: Pair, prose: string, v: Json, n: nat)
    requires Brackets(b, v) && Valid(v) && b.open !in prose && n < |Print(v)|
    ensures BalancedSpan(b, prose + Print(v)[..n]) == None
  {
    var cut := Print(v)[..n];
    PrintEnclosed(b, v);
    assert EnclosedAt(b, Print(v), 0);
    forall i | 1 <= i <= n ensures After(b, At(0), cut[..i]).depth != 0 {
      assert cut[..i] == Print(v)[..i];
    }
    ReturnIs(b, At(0), cut);
    SpanFrom(b, prose, cut);
  }

  // ---------------------------------------------------------------- scanning for objects

  datatype Scan = Scan(state: State, start: int, spans: seq<string>)

  /** The scan after the first `n` characters. */
  function ScanTo(s: string, n: nat): (r: Scan)
    requires n <= |s|
    ensures -1 <= r.start < n || r.start == -1
  {
    if n == 0 then Scan(At(0), -1, [])
    else
      var r, ch := ScanTo(s, n - 1), s[n - 1];
      var next := Step(CURLY, r.state, ch);
      if r.state.inStr || ch == '"' then r.(state := next)
      else if ch == '{' && r.state.depth == 0 then Scan(next, n - 1, r.spans)
      else if ch == '}' && next.depth == 0 && r.start != -1 then Scan(next, -1, r.spans + [s[r.start..n]])
      else r.(state := next)
  }

  function ScanObjects(s: string): seq<string> {
    ScanTo(s, |s|).spans
  }

  /** The loop of the program. */
  method FindObjects(s: string) returns (spans: seq<string>)
    ensures spans == ScanObjects(s)
  {
    spans := [];
    var depth, inStr, esc, start := 0, false, false, -1;
    for i := 0 to |s|
      invariant ScanTo(s, i) == Scan(State(depth, inStr, esc), start, spans)
    {
      var ch := s[i];
      if inStr {
        if esc {
          esc := false;
        } else if ch == '\\' {
          esc := true;
        } else if ch == '"' {
          inStr := false;
        }
      } else if ch == '"' {
        inStr := true;
      } else if ch == '{' {
        if depth == 0 {
          start := i;
        }
        depth := depth + 1;
      } else if ch == '}' {
        depth := depth - 1;
        if depth == 0 && start != -1 {
          spans := spans + [s[start..i + 1]];
          start := -1;
        }
      }
    }
  }

  predicate TextAt(s: string, a: nat, t: string) {
    a + |t| <= |s| && s[a..a + |t|] == t
  }

  lemma TextAtSplit(s: string, a: nat, t: string, u: string)
    requires TextAt(s, a, t + u)
    ensures TextAt(s, a, t) && TextAt(s, a + |t|, u)
  {
    var all := s[a..a + |t + u|];
    assert s[a..a + |t|] == all[..|t|];
    assert s[a + |t|..a + |t| + |u|] == all[|t|..];
  }

  /** The last character of a text, and the text before it. */
  lemma TextAtLast(s: string, a: nat, t: string)
    requires TextAt(s, a, t) && t != ""
    ensures TextAt(s, a, Init(t)) && s[a + |t| - 1] == Last(t)
  {
    assert t == Init(t) + [Last(t)];
    TextAtSplit(s, a, Init(t), [Last(t)]);
    assert s[a + |t| - 1] == s[a + |t| - 1..a + |t|][0];
  }

  lemma QuietLast(t: string)
    requires Quiet(CURLY, t) && t != ""
    ensures Quiet(CURLY, Init(t)) && Last(t) != '"' && Last(t) != '{' && Last(t) != '}'
  {
    assert Last(t) in t && forall c :: c in Init(t) ==> c in t;
  }

  lemma ScanQuietChar(s: string, n: nat)
    requires 1 <= n <= |s| && s[n - 1] != '"' && s[n - 1] != '{' && s[n - 1] != '}'
    requires ScanTo(s, n - 1).state == At(0)
    ensures ScanTo(s, n) == ScanTo(s, n - 1)
  {
  }

  /** Outside objects, quiet text changes nothing. */
  lemma {:induction false} ScanQuiet(s: string, a: nat, t: string)
    requires TextAt(s, a, t) && Quiet(CURLY, t) && ScanTo(s, a).state == At(0)
    ensures ScanTo(s, a + |t|) == ScanTo(s, a)
  {
    if t == "" {
    } else {
      TextAtLast(s, a, t);
      QuietLast(t);
      ScanQuiet(s, a, Init(t));
      ScanQuietChar(s, a + |t|);
    }
  }

  /** Every character of an object but its last leaves the scan above depth zero. */
  ghost predicate Open(t: string) {
    forall i :: 1 <= i <= |t| ==> After(CURLY, At(0), t[..i]).depth > 0
  }

  lemma OpenInit(t: string)
    requires Open(t) && t != ""
    ensures Open(Init(t)) && After(CURLY, At(0), t).depth > 0
  {
    assert t[..|t|] == t;
    forall i | 1 <= i <= |t| - 1 ensures After(CURLY, At(0), Init(t)[..i]).depth > 0 {
      assert Init(t)[..i] == t[..i];
    }
  }

  /** Inside an object, until its depth returns to zero, nothing is emitted. */
  lemma {:induction false} ScanInside(s: string, a: nat, t: string)
    requires TextAt(s, a, t) && t != "" && t[0] == '{' && Open(t)
    requires ScanTo(s, a).state == At(0)
    ensures ScanTo(s, a + |t|) == Scan(After(CURLY, At(0), t), a, ScanTo(s, a).spans)
  {
    TextAtLast(s, a, t);
    OpenInit(t);
    if |t| == 1 {
      assert Init(t) == "" && Last(t) == '{';
    } else {
      ScanInside(s, a, Init(t));
    }
  }

  /** A text that the scan takes for one object. */
  ghost predicate ObjectText(t: string) {
    |t| >= 2 && t[0] == '{' && Open(Init(t)) && After(CURLY, At(0), t) == At(0)
  }

  /** A complete object yields its own text. */
  lemma ScanComplete(s: string, a: nat, t: string)
    requires TextAt(s, a, t) && ObjectText(t) && ScanTo(s, a).state == At(0)
    ensures ScanTo(s, a + |t|) == Scan(At(0), -1, ScanTo(s, a).spans + [t])
  {
    TextAtLast(s, a, t);
    ScanInside(s, a, Init(t));
    OpenInit(Init(t));
  }

  lemma PrintedObject(v: Json)
    requires Brackets(CURLY, v) && Valid(v)
    ensures ObjectText(Print(v)) && forall n :: 0 <= n < |Print(v)| ==> Open(Print(v)[..n])
  {
    PrintEnclosed(CURLY, v);
    var text := Print(v);
    assert EnclosedAt(CURLY, text, 0);
    forall n, i | 0 <= n < |text| && 1 <= i <= n ensures After(CURLY, At(0), text[..n][..i]).depth > 0 {
      assert text[..n][..i] == text[..i];
    }
    assert Init(text) == text[..|text| - 1];
  }

  /** A printed object cut off inside yields nothing. */
  lemma ScanCut(s: string, a: nat, v: Json, n: nat)
    requires Brackets(CURLY, v) && Valid(v) && n < |Print(v)|
    requires TextAt(s, a, Print(v)[..n]) && |s| == a + n && ScanTo(s, a).state == At(0)
    ensures ScanObjects(s) == ScanTo(s, a).spans
  {
    PrintedObject(v);
    if n > 0 {
      ScanInside(s, a, Print(v)[..n]);
    }
  }

  /** Printed items with a comma after each. */
  function Listed(items: seq<Item>): string {
    if items == [] then "" else PrintItem(items[0]) + "," + Listed(items[1..])
  }

  function Texts(items: seq<Item>): seq<string> {
    seq(|items|, i requires 0 <= i < |items| => Print(items[i].value))
  }

  ghost predicate ObjectItems(items: seq<Item>) {
    forall i :: i in items ==> ValidItem(i) && i.value.Obj?
  }

  lemma ItemTexts(s: string, a: nat, item: Item)
    requires TextAt(s, a, PrintItem(item))
    ensures TextAt(s, a, item.before) && TextAt(s, a + |item.before|, Print(item.value))
    ensures TextAt(s, a + |item.before| + |Print(item.value)|, item.after)
    ensures |PrintItem(item)| == |item.before| + |Print(item.value)| + |item.after|
  {
    var text := Print(item.value);
    TextAtSplit(s, a, item.before + text, item.after);
    TextAtSplit(s, a, item.before, text);
  }

  lemma ItemQuiet(item: Item)
    requires ValidItem(item)
    ensures Quiet(CURLY, item.before) && Quiet(CURLY, item.after) && Valid(item.value)
  {
  }

  /** Three texts stand one after the other, between positions `a` and `e`. */
  predicate Placed(s: string, a: nat, before: string, t: string, after: string, e: nat) {
    && TextAt(s, a, before) && TextAt(s, a + |before|, t) && TextAt(s, a + |before| + |t|, after)
    && e == a + |before| + |t| + |after|
  }

  lemma ScanAfterQuiet(s: string, a: nat, before: string, b: nat, t: string)
    requires Quiet(CURLY, before) && TextAt(s, a, before) && b == a + |before|
    requires ObjectText(t) && TextAt(s, b, t) && ScanTo(s, a).state == At(0)
    ensures ScanTo(s, b + |t|) == Scan(At(0), -1, ScanTo(s, a).spans + [t])
  {
    ScanQuiet(s, a, before);
    ScanComplete(s, b, t);
  }

  /** An object between quiet texts yields its own text. */
  lemma ScanBetween(s: string, a: nat, before: string, t: string, after: string, e: nat)
    requires Quiet(CURLY, before) && ObjectText(t) && Quiet(CURLY, after)
    requires Placed(s, a, before, t, after, e) && ScanTo(s, a).state == At(0)
    ensures ScanTo(s, e).state == At(0) && ScanTo(s, e).spans == ScanTo(s, a).spans + [t]
  {
    var b := a + |before|;
    ScanAfterQuiet(s, a, before, b, t);
    ScanQuiet(s, b + |t|, after);
  }

  /** An item in place is an object between quiet texts in place. */
  lemma ItemPlaced(s: string, a: nat, item: Item)
    requires ValidItem(item) && item.value.Obj? && TextAt(s, a, PrintItem(item))
    ensures Quiet(CURLY, item.before) && ObjectText(Print(item.value)) && Quiet(CURLY, item.after)
    ensures Placed(s, a, item.before, Print(item.value), item.after, a + |PrintItem(item)|)
  {
    ItemQuiet(item);
    PrintedObject(item.value);
    ItemTexts(s, a, item);
  }

  /** A complete printed item yields the text of its object. */
  lemma ScanItem(s: string, a: nat, item: Item)
    requires ValidItem(item) && item.value.Obj? && TextAt(s, a, PrintItem(item)) && ScanTo(s, a).state == At(0)
    ensures ScanTo(s, a + |PrintItem(item)|).state == At(0)
    ensures ScanTo(s, a + |PrintItem(item)|).spans == ScanTo(s, a).spans + [Print(item.value)]
  {
    ItemPlaced(s, a, item);
    ScanBetween(s, a, item.before, Print(item.value), item.after, a + |PrintItem(item)|);
  }

  /** From `a` to `e` the scan emits these texts and ends outside objects. */
  ghost predicate Emits(s: string, a: nat, e: nat, texts: seq<string>) {
    a <= e <= |s| && ScanTo(s, e).state == At(0) && ScanTo(s, e).spans == ScanTo(s, a).spans + texts
  }

  lemma ScanItemAndComma(s: string, a: nat, item: Item)
    requires ValidItem(item) && item.value.Obj? && TextAt(s, a, PrintItem(item) + ",")
    requires ScanTo(s, a).state == At(0)
    ensures Emits(s, a, a + |PrintItem(item)| + 1, [Print(item.value)])
  {
    var text := PrintItem(item);
    TextAtSplit(s, a, text, ",");
    ScanItem(s, a, item);
    ScanQuiet(s, a + |text|, ",");
  }

  lemma FirstOfListed(items: seq<Item>)
    requires ObjectItems(items) && items != []
    ensures ObjectItems(items[1..]) && ValidItem(items[0]) && items[0].value.Obj?
  {
    assert items[0] in items && forall i :: i in items[1..] ==> i in items;
  }

  lemma ListedTexts(s: string, a: nat, items: seq<Item>)
    requires TextAt(s, a, Listed(items)) && items != []
    ensures TextAt(s, a, PrintItem(items[0]) + ",")
    ensures TextAt(s, a + |PrintItem(items[0])| + 1, Listed(items[1..]))
    ensures |Listed(items)| == |PrintItem(items[0])| + 1 + |Listed(items[1..])|
  {
    var head := PrintItem(items[0]) + ",";
    assert Listed(items) == head + Listed(items[1..]);
    TextAtSplit(s, a, head, Listed(items[1..]));
  }

  lemma EmitsNothing(s: string, a: nat)
    requires a <= |s| && ScanTo(s, a).state == At(0)
    ensures Emits(s, a, a, [])
  {
    assert ScanTo(s, a).spans + [] == ScanTo(s, a).spans;
  }

  lemma EmitsFirst(s: string, a: nat, b: nat, e: nat, items: seq<Item>)
    requires items != [] && Emits(s, a, b, [Print(items[0].value)]) && Emits(s, b, e, Texts(items[1..]))
    ensures Emits(s, a, e, Texts(items))
  {
    var before := ScanTo(s, a).spans;
    assert before + [Print(items[0].value)] + Texts(items[1..]) == before + Texts(items);
  }

  /** The end of the first listed item and its comma. */
  function FirstEnd(a: nat, items: seq<Item>): nat
    requires items != []
  {
    a + |PrintItem(items[0])| + 1
  }

  lemma ScanFirst(s: string, a: nat, items: seq<Item>)
    requires items != [] && ValidItem(items[0]) && items[0].value.Obj? && TextAt(s, a, Listed(items))
    requires ScanTo(s, a).state == At(0)
    ensures Emits(s, a, FirstEnd(a, items), [Print(items[0].value)])
    ensures TextAt(s, FirstEnd(a, items), Listed(items[1..]))
  {
    ListedTexts(s, a, items);
    ScanItemAndComma(s, a, items[0]);
  }

  lemma ListedEnd(a: nat, items: seq<Item>)
    requires items != []
    ensures FirstEnd(a, items) + |Listed(items[1..])| == a + |Listed(items)|
  {}

  /** Any number of listed objects adds their texts, in order. */
  lemma {:induction false} ScanListed(s: string, a: nat, items: seq<Item>, e: nat)
    requires ObjectItems(items) && TextAt(s, a, Listed(items)) && e == a + |Listed(items)|
    requires ScanTo(s, a).state == At(0)
    ensures Emits(s, a, e, Texts(items))
    decreases |items|
  {
    if items == [] {
      EmitsNothing(s, a);
      assert Texts(items) == [] && Listed(items) == "";
    } else {
      FirstOfListed(items);
      ScanFirst(s, a, items);
      ListedEnd(a, items);
      ScanListed(s, FirstEnd(a, items), items[1..], e);
      EmitsFirst(s, a, FirstEnd(a, items), e, items);
    }
  }

  lemma LeadTexts(a: string, b: string, c: string)
    ensures TextAt(a + b + c, 0, a) && TextAt(a + b + c, |a|, b) && TextAt(a + b + c, |a| + |b|, c)
  {
    assert TextAt(a + b + c, 0, a + b + c);
    TextAtSplit(a + b + c, 0, a + b, c);
    TextAtSplit(a + b + c, 0, a, b);
  }

  lemma ScanLeadAt(s: string, lead: string, items: seq<Item>)
    requires Quiet(CURLY, lead) && ObjectItems(items)
    requires TextAt(s, 0, lead) && TextAt(s, |lead|, Listed(items))
    ensures var r := ScanTo(s, |lead| + |Listed(items)|); r.state == At(0) && r.spans == Texts(items)
  {
    assert ScanTo(s, 0) == Scan(At(0), -1, []);
    ScanQuiet(s, 0, lead);
    assert ScanTo(s, |lead|) == Scan(At(0), -1, []);
    ScanListed(s, |lead|, items, |lead| + |Listed(items)|);
    assert [] + Texts(items) == Texts(items);
  }

  /** Some quiet text, then any number of listed objects, then anything. */
  lemma ScanLead(lead: string, items: seq<Item>, rest: string)
    requires Quiet(CURLY, lead) && ObjectItems(items)
    ensures var s, a := lead + Listed(items) + rest, |lead| + |Listed(items)|;
            TextAt(s, a, rest) && ScanTo(s, a).state == At(0) && ScanTo(s, a).spans == Texts(items)
  {
    LeadTexts(lead, Listed(items), rest);
    ScanLeadAt(lead + Listed(items) + rest, lead, items);
  }

  lemma LastIsObject(last: Item)
    requires ObjectItems([last])
    ensures ValidItem(last) && last.value.Obj?
  {
    assert last in [last];
  }

  lemma TextsMore(items: seq<Item>, last: Item)
    ensures Texts(items + [last]) == Texts(items) + [Print(last.value)]
  {
  }

  lemma CutAt(s: string, a: nat, last: Item, n: nat)
    requires ValidItem(last) && last.value.Obj? && n < |Print(last.value)|
    requires TextAt(s, a, last.before + Print(last.value)[..n]) && |s| == a + |last.before| + n
    requires ScanTo(s, a).state == At(0)
    ensures ScanObjects(s) == ScanTo(s, a).spans
  {
    ItemQuiet(last);
    TextAtSplit(s, a, last.before, Print(last.value)[..n]);
    ScanQuiet(s, a, last.before);
    ScanCut(s, a + |last.before|, last.value, n);
  }

  /** A printed array of objects cut off inside a later object: the scan returns exactly the
      complete objects' texts, in order, and nothing of the cut one. */
  lemma ScanOfCutArray(lead: string, items: seq<Item>, last: Item, n: nat)
    requires Quiet(CURLY, lead) && ObjectItems(items) && ObjectItems([last]) && n < |Print(last.value)|
    ensures ScanObjects(lead + Listed(items) + (last.before + Print(last.value)[..n])) == Texts(items)
  {
    LastIsObject(last);
    var cut := Print(last.value)[..n];
    var rest := last.before + cut;
    var s, a := lead + Listed(items) + rest, |lead| + |Listed(items)|;
    ScanLead(lead, items, rest);
    assert |s| == a + |last.before| + n;
    CutAt(s, a, last, n);
  }

  lemma EndAt(s: string, a: nat, last: Item, tail: string, e: nat)
    requires ValidItem(last) && last.value.Obj? && Quiet(CURLY, tail)
    requires e == a + |PrintItem(last)| && |s| == e + |tail|
    requires TextAt(s, a, PrintItem(last)) && TextAt(s, e, tail) && ScanTo(s, a).state == At(0)
    ensures ScanObjects(s) == ScanTo(s, a).spans + [Print(last.value)]
  {
    ScanItem(s, a, last);
    ScanQuiet(s, e, tail);
  }

  lemma ScanToEnd(lead: string, items: seq<Item>, last: Item, tail: string)
    requires Quiet(CURLY, lead) && Quiet(CURLY, tail) && ObjectItems(items) && ValidItem(last) && last.value.Obj?
    ensures ScanObjects(lead + Listed(items) + (PrintItem(last) + tail)) == Texts(items) + [Print(last.value)]
  {
    var text := PrintItem(last);
    var s, a := lead + Listed(items) + (text + tail), |lead| + |Listed(items)|;
    ScanLead(lead, items, text + tail);
    TextAtSplit(s, a, text, tail);
    assert |s| == a + |text| + |tail|;
    EndAt(s, a, last, tail, a + |text|);
  }

  /** A complete printed array of objects, between texts without quotes and braces. */
  lemma ScanOfArray(lead: string, items: seq<Item>, last: Item, tail: string)
    requires Quiet(CURLY, lead) && Quiet(CURLY, tail) && ObjectItems(items) && ObjectItems([last])
    ensures ScanObjects(lead + Listed(items) + (PrintItem(last) + tail)) == Texts(items + [last])
  {
    LastIsObject(last);
    TextsMore(items, last);
    ScanToEnd(lead, items, last, tail);
  }

  /** Listing all but the last item is what printing the items does. */
  lemma {:induction false} PrintItemsIs(items: seq<Item>, last: Item)
    ensures PrintItems(items + [last]) == Listed(items) + PrintItem(last)
    decreases |items|
  {
    if items == [] {
      assert items + [last] == [last];
    } else {
      var all, rest := items + [last], items[1..];
      PrintItemsIs(rest, last);
      assert all[1..] == rest + [last] && all[0] == items[0];
      ConcatAssociates(PrintItem(items[0]) + ",", Listed(rest), PrintItem(last));
    }
  }
}
