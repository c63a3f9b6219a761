/** The lenient extraction on texts with any number of balanced blocks in curly brackets, well-formed or
    not, between texts without quotes and curly brackets. */
module LenientBlocks {
  import opened Common
  import opened JsonText
  import opened Scanners
  import opened JsonScan
  import opened LenientExtract

  /** A balanced block and the quiet text before it. */
  datatype Block = Block(before: string, text: string)

  function Shown(b: Block): string {
    b.before + b.text
  }

  function Spread(blocks: seq<Block>): string {
    if blocks == [] then "" else Shown(blocks[0]) + Spread(blocks[1..])
  }

  function TextsOf(blocks: seq<Block>): seq<string> {
    seq(|blocks|, i requires 0 <= i < |blocks| => blocks[i].text)
  }

  ghost predicate Balanced(blocks: seq<Block>) {
    forall b :: b in blocks ==> Quiet(CURLY, b.before) && ObjectText(b.text)
  }

  /** A text that may have quoted strings, closed and with anything in them, but has no curly bracket
      outside of them. */
  ghost predicate Idle(t: string) {
    After(CURLY, At(0), t) == At(0) && forall i :: 0 <= i <= |t| ==> After(CURLY, At(0), t[..i]).depth == 0
  }

  /** Blocks between such texts. */
  ghost predicate Settled(blocks: seq<Block>) {
    forall b :: b in blocks ==> Idle(b.before) && ObjectText(b.text)
  }

  lemma QuietIsIdle(t: string)
    requires Quiet(CURLY, t)
    ensures Idle(t)
  {
    QuietAfter(CURLY, At(0), t);
    forall i | 0 <= i <= |t| ensures After(CURLY, At(0), t[..i]).depth == 0 {
      assert forall c :: c in t[..i] ==> c in t;
      QuietAfter(CURLY, At(0), t[..i]);
    }
  }

  lemma BalancedIsSettled(blocks: seq<Block>)
    requires Balanced(blocks)
    ensures Settled(blocks)
  {
    forall b | b in blocks ensures Idle(b.before) {
      QuietIsIdle(b.before);
    }
  }

  lemma SettledRest(blocks: seq<Block>)
    requires Settled(blocks) && blocks != []
    ensures Settled(blocks[1..]) && Idle(blocks[0].before) && ObjectText(blocks[0].text)
  {
    assert blocks[0] in blocks && forall b :: b in blocks[1..] ==> b in blocks;
  }

  lemma BalancedRest(blocks: seq<Block>)
    requires Balanced(blocks) && blocks != []
    ensures Balanced(blocks[1..]) && Quiet(CURLY, blocks[0].before) && ObjectText(blocks[0].text)
  {
    assert blocks[0] in blocks && forall b :: b in blocks[1..] ==> b in blocks;
  }

  // ---------------------------------------------------------------- the scan

  /** Where the first of some spread blocks and the others stand. */
  lemma SpreadTexts(s: string, a: nat, blocks: seq<Block>)
    requires blocks != [] && TextAt(s, a, Spread(blocks))
    ensures TextAt(s, a, Shown(blocks[0])) && TextAt(s, a + |Shown(blocks[0])|, Spread(blocks[1..]))
    ensures |Spread(blocks)| == |Shown(blocks[0])| + |Spread(blocks[1..])|
  {
    var head, rest := Shown(blocks[0]), Spread(blocks[1..]);
    assert Spread(blocks) == head + rest;
    TextAtSplit(s, a, head, rest);
  }

  /** One more character of a text: a curly bracket outside strings would leave depth zero. */
  lemma IdleStep(t: string)
    requires t != "" && After(CURLY, At(0), t).depth == 0 && After(CURLY, At(0), Init(t)).depth == 0
    ensures var st := After(CURLY, At(0), Init(t)); st.inStr || (Last(t) != '{' && Last(t) != '}')
  {}

  lemma ScanIdleChar(s: string, n: nat)
    requires 0 < n <= |s| && (ScanTo(s, n - 1).state.inStr || (s[n - 1] != '{' && s[n - 1] != '}'))
    ensures ScanTo(s, n) == ScanTo(s, n - 1).(state := Step(CURLY, ScanTo(s, n - 1).state, s[n - 1]))
  {}

  /** Between objects such a text changes nothing but the state. */
  lemma {:induction false} ScanIdle(s: string, a: nat, t: string)
    requires TextAt(s, a, t) && ScanTo(s, a).state == At(0)
    requires forall i :: 0 <= i <= |t| ==> After(CURLY, At(0), t[..i]).depth == 0
    ensures ScanTo(s, a + |t|) == ScanTo(s, a).(state := After(CURLY, At(0), t))
  {
    if t == "" {
    } else {
      var front := Init(t);
      TextAtLast(s, a, t);
      assert t[..|t|] == t && t[..|t| - 1] == front;
      forall i | 0 <= i <= |front| ensures After(CURLY, At(0), front[..i]).depth == 0 {
        assert front[..i] == t[..i];
      }
      IdleStep(t);
      ScanIdle(s, a, front);
      ScanIdleChar(s, a + |t|);
    }
  }

  lemma IdleThenObject(s: string, a: nat, b: nat, before: string, text: string)
    requires Idle(before) && ObjectText(text) && b == a + |before|
    requires TextAt(s, a, before) && TextAt(s, b, text) && ScanTo(s, a).state == At(0)
    ensures Emits(s, a, b + |text|, [text])
  {
    ScanIdle(s, a, before);
    assert ScanTo(s, b) == ScanTo(s, a);
    ScanComplete(s, b, text);
  }

  lemma BlockEmits(s: string, a: nat, e: nat, block: Block)
    requires Idle(block.before) && ObjectText(block.text) && e == a + |Shown(block)|
    requires TextAt(s, a, Shown(block)) && ScanTo(s, a).state == At(0)
    ensures Emits(s, a, e, [block.text])
  {
    var b := a + |block.before|;
    TextAtSplit(s, a, block.before, block.text);
    IdleThenObject(s, a, b, block.before, block.text);
    assert e == b + |block.text|;
  }

  lemma EmitsMore(s: string, a: nat, m: nat, e: nat, blocks: seq<Block>)
    requires blocks != [] && Emits(s, a, m, [blocks[0].text]) && Emits(s, m, e, TextsOf(blocks[1..]))
    ensures Emits(s, a, e, TextsOf(blocks))
  {
    assert TextsOf(blocks) == [blocks[0].text] + TextsOf(blocks[1..]);
    ConcatAssociates(ScanTo(s, a).spans, [blocks[0].text], TextsOf(blocks[1..]));
  }

  /** Spread blocks emit their texts, in order. */
  lemma {:induction false} SpreadEmits(s: string, a: nat, blocks: seq<Block>, e: nat)
    requires Settled(blocks) && TextAt(s, a, Spread(blocks)) && e == a + |Spread(blocks)|
    requires ScanTo(s, a).state == At(0)
    ensures Emits(s, a, e, TextsOf(blocks))
    decreases |blocks|
  {
    if blocks == [] {
      EmitsNothing(s, a);
      assert TextsOf(blocks) == [];
    } else {
      var m := a + |Shown(blocks[0])|;
      SettledRest(blocks);
      SpreadTexts(s, a, blocks);
      BlockEmits(s, a, m, blocks[0]);
      SpreadEmits(s, m, blocks[1..], e);
      EmitsMore(s, a, m, e, blocks);
    }
  }

  lemma ScanFromStart(s: string, blocks: seq<Block>, tail: string, n: nat)
    requires Settled(blocks) && Idle(tail) && n == |Spread(blocks)|
    requires TextAt(s, 0, Spread(blocks)) && TextAt(s, n, tail) && |s| == n + |tail|
    ensures ScanObjects(s) == TextsOf(blocks)
  {
    assert ScanTo(s, 0) == Scan(At(0), -1, []);
    SpreadEmits(s, 0, blocks, n);
    ScanIdle(s, n, tail);
    assert [] + TextsOf(blocks) == TextsOf(blocks);
  }

  /** The scan returns exactly the blocks, in order, whether well-formed or not, also between texts with
      brackets in quoted strings. */
  lemma ScanOfBlocks(blocks: seq<Block>, tail: string)
    requires Settled(blocks) && Idle(tail)
    ensures ScanObjects(Spread(blocks) + tail) == TextsOf(blocks)
  {
    var s := Spread(blocks) + tail;
    assert TextAt(s, 0, s);
    TextAtSplit(s, 0, Spread(blocks), tail);
    ScanFromStart(s, blocks, tail, |Spread(blocks)|);
  }

  lemma SpreadIs(blocks: seq<Block>, tail: string)
    requires blocks != []
    ensures var after := Spread(blocks[1..]) + tail;
            Spread(blocks) + tail == blocks[0].before + blocks[0].text + after
            == blocks[0].before + (blocks[0].text + after)
  {
    Regroup(blocks[0].before, blocks[0].text, Spread(blocks[1..]), tail);
  }

  lemma Regroup(a: string, b: string, c: string, d: string)
    ensures a + b + c + d == a + b + (c + d) == a + (b + (c + d))
  {}

  // ---------------------------------------------------------------- the balanced span

  /** The first balanced span is the first block. */
  lemma SpanOfBlock(prose: string, text: string, rest: string)
    requires Quiet(CURLY, prose) && ObjectText(text)
    ensures BalancedSpan(CURLY, prose + text + rest) == Some(text)
  {
    var all := text + rest;
    assert prose + text + rest == prose + all;
    ReturnIs(CURLY, At(0), all);
    assert all[..|text|] == text;
    forall i | 1 <= i < |text| ensures After(CURLY, At(0), all[..i]).depth > 0 {
      assert all[..i] == Init(text)[..i];
    }
    SpanFrom(CURLY, prose, all);
  }

  lemma NoBlockNoSpan(tail: string)
    requires Quiet(CURLY, tail)
    ensures BalancedSpan(CURLY, tail) == None
  {
    assert tail == tail + "" && Return(CURLY, At(0), "").None?;
    SpanFrom(CURLY, tail, "");
  }

  // ---------------------------------------------------------------- which texts are documents

  /** A printed value starts as its kind does. */
  lemma StartsAs(v: Json)
    requires Valid(v)
    ensures Print(v) != "" && Print(v)[0] !in " \t\n\r"
    ensures Print(v)[0] == '{' <==> v.Obj?
    ensures Print(v)[0] == '[' <==> v.Arr?
    ensures Print(v)[0] == '"' <==> v.Str?
  {
    match v
    case Word(text) =>
    case Num(minus, whole, fraction, exponent) =>
      assert whole[0] in whole;
      assert Print(v)[0] == if minus then '-' else whole[0];
    case _ =>
  }

  /** A word or a number leaves no room for a curly bracket. */
  lemma CurlyNeedsBrackets(prose: string, rest: string, before: string, v: Json, after: string)
    requires rest != "" && rest[0] == '{' && Reads(prose + rest, before, v, after)
    ensures v.Obj? || v.Arr? || v.Str?
  {
    var s := prose + rest;
    assert s[|prose|] == '{' && s[|prose|] in s;
    assert forall c :: c in s ==> c in before || c in Print(v) || c in after;
    if v.Num? {
      NumberQuiet(CURLY, v);
    }
    if v.Word? {
      WordQuiet(CURLY, v.text);
    }
  }

  lemma InLonger(a: string, b: string, c: string, d: string)
    requires a + b == c + d && |c| < |a|
    ensures d != "" && d[0] in a
  {
    assert (a + b)[|c|] == a[|c|] && (c + d)[|c|] == d[0];
  }

  /** A document whose first character beyond whitespace is a curly bracket is an object, and nothing
      but whitespace surrounds it. */
  lemma DocumentStarts(prose: string, rest: string, before: string, v: Json, after: string)
    requires rest != "" && rest[0] == '{' && Quiet(CURLY, prose) && '[' !in prose
    requires Reads(prose + rest, before, v, after)
    ensures v.Obj? && before == prose && rest == Print(v) + after
  {
    var s := prose + rest;
    StartsAs(v);
    CurlyNeedsBrackets(prose, rest, before, v, after);
    assert s == before + (Print(v) + after);
    if |before| < |prose| {
      InLonger(prose, rest, before, Print(v) + after);
    }
    if |prose| < |before| {
      InLonger(before, Print(v) + after, prose, rest);
    }
    assert s[..|before|] == before && s[..|prose|] == prose;
    assert s[|before|..] == Print(v) + after && s[|prose|..] == rest;
  }

  /** The test whether a text is a document. */
  ghost function IsDocument(): string -> bool {
    t => IsJson(t)
  }

  lemma DocumentIsObject(t: string)
    requires ObjectText(t)
    ensures IsObject(t) <==> IsJson(t)
  {
    if IsJson(t) {
      var before, v, after :| Reads(t, before, v, after);
      assert "" + t == t;
      DocumentStarts("", t, before, v, after);
      assert Reads(t, before, v, after) && v.Obj?;
    }
  }

  lemma {:induction false} ObjectsAreDocuments(texts: seq<string>)
    requires forall t :: t in texts ==> ObjectText(t)
    ensures Objects(texts) == Kept(texts, IsDocument())
  {
    if texts == [] {
    } else {
      assert forall t :: t in Init(texts) ==> t in texts;
      ObjectsAreDocuments(Init(texts));
      DocumentIsObject(Last(texts));
    }
  }

  /** Where no square bracket comes before the first block, the whole text is a document only if that
      block is one. */
  lemma WholeNeedsFirst(blocks: seq<Block>, tail: string)
    requires Balanced(blocks) && blocks != [] && '[' !in blocks[0].before
    ensures IsJson(Spread(blocks) + tail) ==> IsJson(blocks[0].text)
  {
    var b, s := blocks[0], Spread(blocks) + tail;
    var after := Spread(blocks[1..]) + tail;
    BalancedRest(blocks);
    SpreadIs(blocks, tail);
    if IsJson(s) {
      var before, v, end :| Reads(s, before, v, end);
      DocumentStarts(b.before, b.text + after, before, v, end);
      SpanOfBlock(b.before, b.text, after);
      SpanOfPrinted(CURLY, before, v, end);
      PrintedIsJson(v);
    }
  }

  // ---------------------------------------------------------------- the extraction

  ghost function ManyOrNothing(texts: seq<string>): Extracted {
    if texts == [] then Nothing else Many(texts)
  }

  lemma FirstSpan(blocks: seq<Block>, tail: string)
    requires Balanced(blocks) && Quiet(CURLY, tail)
    ensures BalancedSpan(CURLY, Spread(blocks) + tail) == if blocks == [] then None else Some(blocks[0].text)
  {
    if blocks == [] {
      NoBlockNoSpan(tail);
      assert Spread(blocks) + tail == tail;
    } else {
      BalancedRest(blocks);
      SpreadIs(blocks, tail);
      SpanOfBlock(blocks[0].before, blocks[0].text, Spread(blocks[1..]) + tail);
    }
  }

  lemma ScannedDocuments(blocks: seq<Block>, tail: string)
    requires Balanced(blocks) && Quiet(CURLY, tail)
    ensures Objects(ScanObjects(Spread(blocks) + tail)) == Kept(TextsOf(blocks), IsDocument())
  {
    BalancedIsSettled(blocks);
    QuietIsIdle(tail);
    ScanOfBlocks(blocks, tail);
    forall t | t in TextsOf(blocks) ensures ObjectText(t) {
      var i :| 0 <= i < |blocks| && TextsOf(blocks)[i] == t;
      assert blocks[i] in blocks;
    }
    ObjectsAreDocuments(TextsOf(blocks));
  }

  /** What is extracted from any blocks: the whole text if it is a document, else the first balanced
      span in square brackets if it is one, else the first block if it is one, and else all the blocks
      that are documents, in order. */
  lemma ExtractOfBlocks(blocks: seq<Block>, tail: string)
    requires Balanced(blocks) && Quiet(CURLY, tail)
    ensures var s := Spread(blocks) + tail;
            var span := BalancedSpan(SQUARE, s);
            Extract(s) ==
            if IsJson(s) then One(s)
            else if span.Some? && IsJson(span.value) then One(span.value)
            else if blocks != [] && IsJson(blocks[0].text) then One(blocks[0].text)
            else ManyOrNothing(Kept(TextsOf(blocks), IsDocument()))
  {
    FirstSpan(blocks, tail);
    ScannedDocuments(blocks, tail);
  }

  lemma NoSquareNoSpan(s: string)
    requires '[' !in s
    ensures BalancedSpan(SQUARE, s) == None
  {
    assert s == s + "" && Return(SQUARE, At(0), "").None?;
    SpanFrom(SQUARE, s, "");
  }

  /** After a malformed first block, and without square brackets in the text, exactly the well-formed
      objects come back, in order, and every malformed block is dropped. */
  lemma RecoversAfterMalformed(blocks: seq<Block>, tail: string)
    requires Balanced(blocks) && Quiet(CURLY, tail) && '[' !in Spread(blocks) + tail
    requires blocks != [] && !IsJson(blocks[0].text)
    ensures Extract(Spread(blocks) + tail) == ManyOrNothing(Kept(TextsOf(blocks), IsDocument()))
  {
    assert forall c :: c in blocks[0].before ==> c in Spread(blocks) + tail;
    NoSquareNoSpan(Spread(blocks) + tail);
    WholeNeedsFirst(blocks, tail);
    ExtractOfBlocks(blocks, tail);
  }

  /** The promise that every complete object is recovered and only malformed ones are dropped holds, on a
      text of blocks that is no document and has no square bracket, exactly when the first block is
      malformed or no other block is well-formed. */
  lemma RecoversBlocksIff(blocks: seq<Block>, tail: string)
    requires Balanced(blocks) && Quiet(CURLY, tail) && '[' !in Spread(blocks) + tail
    requires !IsJson(Spread(blocks) + tail)
    ensures Extract(Spread(blocks) + tail).Texts() == Kept(TextsOf(blocks), IsDocument()) <==>
            (blocks != [] && IsJson(blocks[0].text) ==> |Kept(TextsOf(blocks), IsDocument())| == 1)
  {
    var texts := TextsOf(blocks);
    NoSquareNoSpan(Spread(blocks) + tail);
    ExtractOfBlocks(blocks, tail);
    if blocks != [] && IsJson(blocks[0].text) {
      KeptFirst(texts, IsDocument());
    }
  }

  lemma {:induction false} KeptFirst<T>(xs: seq<T>, keep: T -> bool)
    requires xs != [] && keep(xs[0])
    ensures Kept(xs, keep) != [] && Kept(xs, keep)[0] == xs[0]
  {
    if |xs| == 1 {
      assert Init(xs) == [];
    } else {
      KeptFirst(Init(xs), keep);
    }
  }

  // ---------------------------------------------------------------- concrete texts

  lemma FieldStartsAs(f: Field)
    requires ValidField(f)
    ensures PrintField(f) != "" && PrintField(f)[0] in " \t\n\r\""
  {
    var start := f.before + PrintStr(f.name);
    assert start[0] == if f.before != "" then f.before[0] else '"';
    assert f.before != "" ==> f.before[0] in f.before;
    assert PrintField(f)[0] == start[0];
  }

  lemma FieldStarts(fields: seq<Field>)
    requires fields != [] && ValidField(fields[0])
    ensures PrintFields(fields) != "" && PrintFields(fields)[0] in " \t\n\r\""
  {
    var f := fields[0];
    FieldStartsAs(f);
    assert PrintFields(fields)[0] == PrintField(f)[0];
  }

  /** A balanced block that holds a bare word is no document. */
  lemma BareWordBlock()
    ensures ObjectText("{x}") && !IsJson("{x}")
  {
    var t := "{x}";
    BareWordIsBlock();
    assert t[1] == 'x' && "" + t == t;
    if IsJson(t) {
      var before, v, after :| Reads(t, before, v, after);
      DocumentStarts("", t, before, v, after);
      SecondCharacter(v, after);
    }
  }

  lemma BareWordIsBlock()
    ensures ObjectText("{x}")
  {
    var t := "{x}";
    assert Init(t) == "{x" && Init("{x") == "{" && Init("{") == "";
    forall i | 1 <= i <= 2 ensures After(CURLY, At(0), Init(t)[..i]).depth > 0 {
      assert Init(t)[..1] == "{" && Init(t)[..2] == "{x";
    }
  }

  /** After its bracket an object goes on with whitespace, a quote or the closing bracket. */
  lemma SecondCharacter(v: Json, after: string)
    requires Valid(v) && v.Obj?
    ensures |Print(v)| >= 2 && (Print(v) + after)[1] in " \t\n\r\"}"
  {
    if v.fields != [] {
      assert v.fields[0] in v.fields;
      FieldStarts(v.fields);
      assert Print(v)[1] == PrintFields(v.fields)[0];
    } else if v.inner != "" {
      assert v.inner[0] in v.inner && Print(v)[1] == v.inner[0];
    }
  }

  lemma EmptyObject()
    ensures ObjectText("{}") && IsJson("{}")
  {
    var v := Obj([], "");
    assert Print(v) == "{}";
    PrintedObject(v);
    PrintedIsJson(v);
  }

  /** Two blocks, the first of which is malformed. */
  lemma TwoBlocks(first: Block, second: Block)
    ensures Spread([first, second]) + "" == first.before + first.text + (second.before + second.text)
    ensures TextsOf([first, second]) == [first.text, second.text]
    ensures !IsJson(first.text) && IsJson(second.text) ==>
              Kept(TextsOf([first, second]), IsDocument()) == [second.text]
  {
    var blocks, texts := [first, second], [first.text, second.text];
    assert blocks[1..] == [second] && [second][1..] == [];
    assert Spread([second]) == second.before + second.text;
    assert TextsOf(blocks) == texts && Init(texts) == [first.text] && Init([first.text]) == [];
    assert !IsJson(first.text) ==> Kept([first.text], IsDocument()) == [];
  }

  lemma AreBalanced(first: Block, second: Block)
    requires Quiet(CURLY, first.before) && ObjectText(first.text)
    requires Quiet(CURLY, second.before) && ObjectText(second.text)
    ensures Balanced([first, second])
  {}

  /** A malformed object is dropped and the object after it comes back. */
  lemma SecondComesBack(bad: string, good: string)
    requires ObjectText(bad) && !IsJson(bad) && ObjectText(good) && IsJson(good)
    requires '[' !in bad && '[' !in good
    ensures Extract(bad + (" " + good)) == Many([good])
  {
    var first, second := Block("", bad), Block(" ", good);
    AreBalanced(first, second);
    TwoBlocks(first, second);
    assert "" + bad == bad;
    RecoversAfterMalformed([first, second], "");
  }

  lemma Spelled()
    ensures "{x}" + (" " + "{}") == "{x} {}" && '[' !in "{x}" && '[' !in "{}"
  {}

  lemma MalformedIsDropped()
    ensures Extract("{x} {}") == Many(["{}"])
  {
    BareWordBlock();
    EmptyObject();
    Spelled();
    SecondComesBack("{x}", "{}");
  }

  lemma BothAreScanned(first: Block, second: Block, s: string)
    requires first.before == "" && ObjectText(first.text) && !IsJson(first.text)
    requires Quiet(CURLY, second.before) && ObjectText(second.text)
    requires s == first.before + first.text + (second.before + second.text)
    ensures ScanObjects(s) == [first.text, second.text] && !IsJson(s)
  {
    AreBalanced(first, second);
    BalancedIsSettled([first, second]);
    QuietIsIdle("");
    TwoBlocks(first, second);
    ScanOfBlocks([first, second], "");
    WholeNeedsFirst([first, second], "");
  }

  lemma ListInside(bad: string, head: string, list: Json, tail: string)
    requires '[' !in bad && '[' !in head && Valid(list) && list.Arr?
    ensures BalancedSpan(SQUARE, bad + (head + Print(list) + tail)) == Some(Print(list))
  {
    SpanOfPrinted(SQUARE, bad + head, list, tail);
    Regroup(bad, head, Print(list), tail);
    assert bad + (head + Print(list) + tail) == bad + head + Print(list) + tail;
  }

  /** A list inside an object after a malformed one is taken for the whole batch, and the object is lost
      although the scan finds it. */
  lemma InnerListIsTaken(bad: string, holder: Json, head: string, list: Json, tail: string)
    requires ObjectText(bad) && !IsJson(bad) && '[' !in bad
    requires Valid(holder) && holder.Obj? && Valid(list) && list.Arr?
    requires Print(holder) == head + Print(list) + tail && '[' !in head
    ensures Extract(bad + Print(holder)) == One(Print(list))
    ensures ScanObjects(bad + Print(holder)) == [bad, Print(holder)] && IsJson(Print(holder))
  {
    PrintedObject(holder);
    PrintedIsJson(holder);
    PrintedIsJson(list);
    assert "" + bad == bad && "" + Print(holder) == Print(holder);
    BothAreScanned(Block("", bad), Block("", Print(holder)), bad + Print(holder));
    ListInside(bad, head, list, tail);
  }

  /** As in this text, of whose second object only the empty list comes back. */
  lemma ObjectWithListIsLost()
    ensures Extract("{x}{\"a\":[]}") == One("[]")
  {
    var list := Arr([], "");
    var holder := Obj([Field("", [Plain('a')], "", "", list, "")], "");
    ObjectOfList(holder, list);
    BareWordBlock();
    assert "{\"a\":" + "[]" + "}" == "{\"a\":[]}";
    assert "{x}" + "{\"a\":[]}" == "{x}{\"a\":[]}";
    InnerListIsTaken("{x}", holder, "{\"a\":", list, "}");
  }

  lemma ObjectOfList(holder: Json, list: Json)
    requires list == Arr([], "") && holder == Obj([Field("", [Plain('a')], "", "", list, "")], "")
    ensures Valid(list) && Print(list) == "[]" && Valid(holder) && Print(holder) == "{\"a\":[]}"
  {
    var f := holder.fields[0];
    assert [Plain('a')][1..] == [] && PrintChars([Plain('a')]) == "a";
    assert PrintStr(f.name) == "\"a\"" && Print(list) == "[]";
    assert PrintField(f) == "\"a\":[]";
  }

  /** An object that holds a list, behind some prose: only the list comes back, though the object is the
      one candidate of the text. */
  lemma ListInObjectIsTaken(prose: string, holder: Json, head: string, list: Json, tail: string)
    requires Quiet(CURLY, prose) && '[' !in prose && !IsSpace(prose)
    requires Valid(holder) && holder.Obj? && Valid(list) && list.Arr?
    requires Print(holder) == head + Print(list) + tail && '[' !in head
    ensures Extract(prose + Print(holder)) == One(Print(list))
    ensures BalancedSpan(CURLY, prose + Print(holder)) == Some(Print(holder))
  {
    var s := prose + Print(holder);
    PrintedObject(holder);
    PrintedIsJson(list);
    assert Print(holder)[0] == '{';
    if IsJson(s) {
      var before, v, after :| Reads(s, before, v, after);
      DocumentStarts(prose, Print(holder), before, v, after);
    }
    ListInside(prose, head, list, tail);
    SpanOfBlock(prose, Print(holder), "");
    assert prose + Print(holder) + "" == s;
  }

  lemma ScanCloses(s: string, a: nat, d: int, spans: seq<string>)
    requires a < |s| && s[a] == '}' && ScanTo(s, a) == Scan(At(d), -1, spans)
    ensures ScanTo(s, a + 1) == Scan(At(d - 1), -1, spans)
  {}

  lemma ScanOpensBelow(s: string, a: nat, d: int, spans: seq<string>)
    requires a < |s| && s[a] == '{' && ScanTo(s, a) == Scan(At(d), -1, spans) && d < 0
    ensures ScanTo(s, a + 1) == Scan(At(d + 1), -1, spans)
  {}

  lemma ScanStray(s: string, a: nat, b: nat, c: nat, spans: seq<string>)
    requires b == a + 1 && c == b + 1 && |s| == c + 1 && s[a] == '}' && s[b] == '{' && s[c] == '}'
    requires ScanTo(s, a) == Scan(At(0), -1, spans)
    ensures ScanObjects(s) == spans
  {
    ScanCloses(s, a, 0, spans);
    ScanOpensBelow(s, b, -1, spans);
    ScanCloses(s, c, 0, spans);
  }

  lemma ScanOne(s: string, t: string)
    requires TextAt(s, 0, t) && ObjectText(t)
    ensures ScanTo(s, |t|) == Scan(At(0), -1, [t])
  {
    var none: seq<string> := [];
    assert ScanTo(s, 0) == Scan(At(0), -1, none);
    ScanComplete(s, 0, t);
    assert none + [t] == [t];
  }

  lemma StrayScan(s: string, bad: string)
    requires |s| == |bad| + 3 && TextAt(s, 0, bad) && ObjectText(bad)
    requires s[|bad|] == '}' && s[|bad| + 1] == '{' && s[|bad| + 2] == '}'
    ensures ScanObjects(s) == [bad]
  {
    ScanOne(s, bad);
    ScanStray(s, |bad|, |bad| + 1, |bad| + 2, [bad]);
  }

  lemma StraySpelled()
    ensures "{x}" + "}{}" == "{x}}{}" && TextAt("{x}}{}", 0, "{x}") && '[' !in "{x}}{}"
  {}

  /** A closing bracket too many takes the depth below zero, and the object after it is lost. */
  lemma StrayBracketHidesObject()
    ensures ScanObjects("{x}}{}") == ["{x}"] && Extract("{x}}{}") == Nothing
  {
    var s := "{x}}{}";
    StraySpelled();
    BareWordBlock();
    StrayScan(s, "{x}");
    NoSquareNoSpan(s);
    NotTheWhole("{x}", "}{}");
    assert Init(["{x}"]) == [];
    DocumentIsObject("{x}");
  }

  /** A malformed block at the start is no document with whatever comes after it either. */
  lemma NotTheWhole(bad: string, rest: string)
    requires ObjectText(bad) && !IsJson(bad)
    ensures !IsJson(bad + rest) && BalancedSpan(CURLY, bad + rest) == Some(bad)
  {
    var s := bad + rest;
    SpanOfBlock("", bad, rest);
    assert "" + bad + rest == s && "" + s == s;
    if IsJson(s) {
      var before, v, after :| Reads(s, before, v, after);
      DocumentStarts("", s, before, v, after);
      SpanOfPrinted(CURLY, before, v, after);
      PrintedIsJson(v);
    }
  }
}
