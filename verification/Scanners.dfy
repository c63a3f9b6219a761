/** The two hand-written scanners, as loops over depth, string and escape state, and the proof
    that they invert the JSON printer, also on text that was cut off. */
module Scanners {
  import opened Common
  import opened JsonText

  /** One kind of bracket. */
  datatype Pair = Pair(open: char, close: char)

  const SQUARE := Pair('[', ']')
  const CURLY := Pair('{', '}')

  datatype State = State(depth: int, inStr: bool, esc: bool)

  function Step(b: Pair, st: State, ch: char): State {
    if st.inStr then
      if st.esc then st.(esc := false)
      else if ch == '\\' then st.(esc := true)
      else if ch == '"' then st.(inStr := false)
      else st
    else if ch == '"' then st.(inStr := true)
    else if ch == b.open then st.(depth := st.depth + 1)
    else if ch == b.close then st.(depth := st.depth - 1)
    else st
  }

  /** The state after a whole text. */
  function After(b: Pair, st: State, s: string): State {
    if s == "" then st else Step(b, After(b, st, Init(s)), Last(s))
  }

  function At(depth: int): State {
    State(depth, false, false)
  }

  lemma {:induction false} AfterConcat(b: Pair, st: State, s: string, t: string)
    ensures After(b, st, s + t) == After(b, After(b, st, s), t)
  {
    if t == "" {
      assert s + t == s;
    } else {
      AfterConcat(b, st, s, Init(t));
      assert Init(s + t) == s + Init(t);
    }
  }

  // ---------------------------------------------------------------- texts that keep the depth

  /** From a depth outside strings, `s` ends where it started and never goes below. */
  ghost predicate Level(b: Pair, s: string) {
    forall d :: LevelAt(b, s, d)
  }

  ghost predicate LevelAt(b: Pair, s: string, d: int) {
    After(b, At(d), s) == At(d) && forall i :: 0 <= i <= |s| ==> After(b, At(d), s[..i]).depth >= d
  }

  lemma LevelConcat(b: Pair, s: string, t: string)
    requires Level(b, s) && Level(b, t)
    ensures Level(b, s + t)
  {
    forall d ensures LevelAt(b, s + t, d) {
      assert LevelAt(b, s, d) && LevelAt(b, t, d);
      AfterConcat(b, At(d), s, t);
      forall i | 0 <= i <= |s + t| ensures After(b, At(d), (s + t)[..i]).depth >= d {
        if i <= |s| {
          assert (s + t)[..i] == s[..i];
        } else {
          assert (s + t)[..i] == s + t[..i - |s|];
          AfterConcat(b, At(d), s, t[..i - |s|]);
        }
      }
    }
  }

  /** No character of `s` matters to the scanner. */
  predicate Quiet(b: Pair, s: string) {
    forall c :: c in s ==> c != '"' && c != b.open && c != b.close
  }

  lemma {:induction false} QuietAfter(b: Pair, st: State, s: string)
    requires Quiet(b, s) && !st.inStr
    ensures After(b, st, s) == st
  {
    if s == "" {
    } else {
      assert Last(s) in s && forall c :: c in Init(s) ==> c in s;
      QuietAfter(b, st, Init(s));
    }
  }

  lemma QuietLevel(b: Pair, s: string)
    requires Quiet(b, s)
    ensures Level(b, s)
  {
    forall d ensures LevelAt(b, s, d) {
      QuietAfter(b, At(d), s);
      forall i | 0 <= i <= |s| ensures After(b, At(d), s[..i]).depth >= d {
        assert forall c :: c in s[..i] ==> c in s;
        QuietAfter(b, At(d), s[..i]);
      }
    }
  }

  // ---------------------------------------------------------------- strings

  lemma TwoSteps(b: Pair, st: State, x: char, y: char)
    ensures After(b, st, [x]) == Step(b, st, x)
    ensures After(b, st, [x, y]) == Step(b, Step(b, st, x), y)
  {
    assert Init([x]) == "" && Init([x, y]) == [x];
  }

  /** A printed character of a string leaves the scanner inside the string. */
  lemma CharStays(b: Pair, d: int, c: StrChar)
    requires ValidChar(c)
    ensures After(b, State(d, true, false), PrintChar(c)) == State(d, true, false)
    ensures forall i :: 0 <= i <= |PrintChar(c)| ==> After(b, State(d, true, false), PrintChar(c)[..i]).inStr
    ensures forall i :: 0 <= i <= |PrintChar(c)| ==> After(b, State(d, true, false), PrintChar(c)[..i]).depth == d
  {
    var st := State(d, true, false);
    match c
    case Plain(x) =>
      TwoSteps(b, st, x, x);
      assert [x][..0] == "" && [x][..1] == [x];
    case Escape(x) =>
      var s := ['\\', x];
      TwoSteps(b, st, '\\', x);
      assert s[..0] == "" && s[..1] == ['\\'] && s[..2] == s;
    case Unicode(hex) =>
      UnicodeStays(b, d, hex);
  }

  lemma UnicodeStays(b: Pair, d: int, hex: string)
    requires ValidChar(Unicode(hex))
    ensures After(b, State(d, true, false), "\\u" + hex) == State(d, true, false)
    ensures forall i :: 0 <= i <= |"\\u" + hex| ==> After(b, State(d, true, false), ("\\u" + hex)[..i]).inStr
    ensures forall i :: 0 <= i <= |"\\u" + hex| ==> After(b, State(d, true, false), ("\\u" + hex)[..i]).depth == d
  {
    var st, u := State(d, true, false), "\\u";
    TwoSteps(b, st, '\\', 'u');
    assert u == ['\\', 'u'];
    HexStays(b, st, hex);
    AfterConcat(b, st, u, hex);
    forall i | 0 <= i <= |u + hex|
      ensures After(b, st, (u + hex)[..i]).inStr && After(b, st, (u + hex)[..i]).depth == d
    {
      if i < 2 {
        assert (u + hex)[..i] == if i == 0 then "" else ['\\'];
      } else {
        assert (u + hex)[..i] == u + hex[..i - 2];
        var front := hex[..i - 2];
        forall h | h in front ensures h != '\\' && h != '"' {
          assert h in hex;
        }
        HexStays(b, st, front);
        AfterConcat(b, st, u, hex[..i - 2]);
      }
    }
  }

  lemma {:induction false} HexStays(b: Pair, st: State, hex: string)
    requires st.inStr && !st.esc && forall h :: h in hex ==> h != '\\' && h != '"'
    ensures After(b, st, hex) == st
  {
    if hex == "" {
    } else {
      assert Last(hex) in hex && forall h :: h in Init(hex) ==> h in hex;
      HexStays(b, st, Init(hex));
    }
  }

  lemma {:induction false} CharsStay(b: Pair, d: int, cs: seq<StrChar>)
    requires ValidChars(cs)
    ensures After(b, State(d, true, false), PrintChars(cs)) == State(d, true, false)
    ensures forall i :: 0 <= i <= |PrintChars(cs)| ==> After(b, State(d, true, false), PrintChars(cs)[..i]).depth == d
  {
    if cs == [] {
    } else {
      var st, head, tail := State(d, true, false), PrintChar(cs[0]), PrintChars(cs[1..]);
      CharStays(b, d, cs[0]);
      CharsStay(b, d, cs[1..]);
      AfterConcat(b, st, head, tail);
      forall i | 0 <= i <= |head + tail| ensures After(b, st, (head + tail)[..i]).depth == d {
        if i <= |head| {
          assert (head + tail)[..i] == head[..i];
        } else {
          assert (head + tail)[..i] == head + tail[..i - |head|];
          AfterConcat(b, st, head, tail[..i - |head|]);
        }
      }
    }
  }

  predicate NoQuote(b: Pair) {
    b.open != '"' && b.close != '"' && b.open != b.close
  }

  /** A printed string is level, whatever brackets and escaped quotes it contains. */
  lemma StrLevel(b: Pair, cs: seq<StrChar>)
    requires ValidChars(cs)
    ensures Level(b, PrintStr(cs))
  {
    var body, q := PrintChars(cs), "\"";
    forall d ensures LevelAt(b, PrintStr(cs), d) {
      var st := State(d, true, false);
      CharsStay(b, d, cs);
      assert q == ['"'];
      TwoSteps(b, At(d), '"', '"');
      TwoSteps(b, st, '"', '"');
      AfterConcat(b, At(d), q, body);
      AfterConcat(b, At(d), q + body, q);
      assert PrintStr(cs) == (q + body) + q;
      forall i | 0 <= i <= |PrintStr(cs)| ensures After(b, At(d), PrintStr(cs)[..i]).depth >= d {
        if i == 0 {
          assert PrintStr(cs)[..0] == "";
        } else if i <= 1 + |body| {
          assert PrintStr(cs)[..i] == q + body[..i - 1];
          AfterConcat(b, At(d), q, body[..i - 1]);
        } else {
          assert PrintStr(cs)[..i] == PrintStr(cs);
        }
      }
    }
  }

  // ---------------------------------------------------------------- bracketed texts

  /** Between its first and last character, a bracketed text stays above the starting depth. */
  ghost predicate Enclosed(b: Pair, s: string) {
    forall d :: EnclosedAt(b, s, d)
  }

  ghost predicate EnclosedAt(b: Pair, s: string, d: int) {
    After(b, At(d), s) == At(d) && forall i :: 1 <= i < |s| ==> After(b, At(d), s[..i]).depth > d
  }

  lemma Bracketed(b: Pair, body: string)
    requires NoQuote(b) && Level(b, body)
    ensures Enclosed(b, [b.open] + body + [b.close]) && Level(b, [b.open] + body + [b.close])
  {
    var s := [b.open] + body + [b.close];
    forall d ensures EnclosedAt(b, s, d) && LevelAt(b, s, d) {
      assert LevelAt(b, body, d + 1);
      assert Init([b.open]) == "" && After(b, At(d), [b.open]) == At(d + 1);
      assert Init([b.close]) == "" && After(b, At(d + 1), [b.close]) == At(d);
      AfterConcat(b, At(d), [b.open], body);
      AfterConcat(b, At(d), [b.open] + body, [b.close]);
      forall i | 1 <= i < |s| ensures After(b, At(d), s[..i]).depth > d {
        assert s[..i] == [b.open] + body[..i - 1];
        AfterConcat(b, At(d), [b.open], body[..i - 1]);
      }
      assert s[..0] == "" && s[..|s|] == s;
    }
  }

  /** The same characters around a level text, when they are brackets of another kind. */
  lemma OtherBrackets(b: Pair, o: string, body: string, c: string)
    requires Quiet(b, o) && Quiet(b, c) && Level(b, body)
    ensures Level(b, o + body + c)
  {
    QuietLevel(b, o);
    QuietLevel(b, c);
    LevelConcat(b, o, body);
    LevelConcat(b, o + body, c);
  }

  predicate IsBracket(b: Pair) {
    b == SQUARE || b == CURLY
  }

  /** Every valid value prints to a level text, for both kinds of brackets. */
  lemma {:induction false} PrintLevel(b: Pair, v: Json)
    requires IsBracket(b) && Valid(v)
    ensures Level(b, Print(v))
    decreases v
  {
    match v
    case Word(text) =>
      WordQuiet(b, text);
      QuietLevel(b, text);
    case Num(_, _, _, _) =>
      NumberQuiet(b, v);
      QuietLevel(b, Print(v));
    case Str(chars) =>
      StrLevel(b, chars);
    case Arr(items, inner) =>
      ItemsLevel(b, items);
      BracketsLevel(b, SQUARE, inner, PrintItems(items));
    case Obj(fields, inner) =>
      FieldsLevel(b, fields);
      BracketsLevel(b, CURLY, inner, PrintFields(fields));
  }

  lemma BracketsLevel(b: Pair, own: Pair, inner: string, body: string)
    requires IsBracket(b) && IsBracket(own) && IsSpace(inner) && Level(b, body)
    ensures Level(b, [own.open] + inner + body + [own.close])
    ensures b == own ==> Enclosed(b, [own.open] + inner + body + [own.close])
  {
    QuietLevel(b, inner);
    LevelConcat(b, inner, body);
    assert [own.open] + inner + body + [own.close] == [own.open] + (inner + body) + [own.close];
    if b == own {
      Bracketed(b, inner + body);
    } else {
      OtherBrackets(b, [own.open], inner + body, [own.close]);
    }
  }

  lemma WordQuiet(b: Pair, text: string)
    requires IsBracket(b) && Valid(Word(text))
    ensures Quiet(b, text)
  {
    match text
    case "null" =>
    case "true" =>
    case "false" =>
    case "NaN" =>
    case "Infinity" =>
    case _ => assert text == "-Infinity";
  }

  lemma DigitsQuiet(b: Pair, s: string)
    requires IsBracket(b) && IsDigits(s)
    ensures Quiet(b, s)
  {
  }

  lemma QuietAdds(b: Pair, s: string, t: string)
    requires Quiet(b, s) && Quiet(b, t)
    ensures Quiet(b, s + t)
  {
  }

  lemma FractionQuiet(b: Pair, f: string)
    requires IsBracket(b) && (f == "" || (f[0] == '.' && IsDigits(f[1..])))
    ensures Quiet(b, f)
  {
    if f != "" {
      DigitsQuiet(b, f[1..]);
      assert f == [f[0]] + f[1..];
    }
  }

  lemma ExponentQuiet(b: Pair, e: string)
    requires IsBracket(b)
    requires e == "" || (e[0] in "eE" && |e| > 1 && IsDigits(if e[1] in "+-" then e[2..] else e[1..]))
    ensures Quiet(b, e)
  {
    if e != "" {
      DigitsQuiet(b, if e[1] in "+-" then e[2..] else e[1..]);
      assert e == [e[0]] + (if e[1] in "+-" then [e[1]] + e[2..] else e[1..]);
    }
  }

  lemma NumberQuiet(b: Pair, v: Json)
    requires IsBracket(b) && Valid(v) && v.Num?
    ensures Quiet(b, Print(v))
  {
    var sign := if v.minus then "-" else "";
    DigitsQuiet(b, v.whole);
    FractionQuiet(b, v.fraction);
    ExponentQuiet(b, v.exponent);
    QuietAdds(b, sign, v.whole);
    QuietAdds(b, sign + v.whole, v.fraction);
    QuietAdds(b, sign + v.whole + v.fraction, v.exponent);
  }

  lemma {:induction false} ItemLevel(b: Pair, i: Item)
    requires IsBracket(b) && ValidItem(i)
    ensures Level(b, PrintItem(i))
    decreases i
  {
    PrintLevel(b, i.value);
    OtherBrackets(b, i.before, Print(i.value), i.after);
  }

  lemma {:induction false} ItemsLevel(b: Pair, items: seq<Item>)
    requires IsBracket(b) && forall i :: i in items ==> ValidItem(i)
    ensures Level(b, PrintItems(items))
    decreases items
  {
    if items == [] {
      QuietLevel(b, "");
    } else {
      ItemLevel(b, items[0]);
      if |items| > 1 {
        ItemsLevel(b, items[1..]);
        QuietLevel(b, ",");
        LevelConcat(b, PrintItem(items[0]), ",");
        LevelConcat(b, PrintItem(items[0]) + ",", PrintItems(items[1..]));
      }
    }
  }

  lemma {:induction false} FieldLevel(b: Pair, f: Field)
    requires IsBracket(b) && ValidField(f)
    ensures Level(b, PrintField(f))
    decreases f
  {
    StrLevel(b, f.name);
    PrintLevel(b, f.value);
    OtherBrackets(b, f.before, PrintStr(f.name), f.colon + ":" + f.gap);
    OtherBrackets(b, "", Print(f.value), f.after);
    assert "" + Print(f.value) + f.after == Print(f.value) + f.after;
    LevelConcat(b, f.before + PrintStr(f.name) + (f.colon + ":" + f.gap), Print(f.value) + f.after);
    assert PrintField(f) == (f.before + PrintStr(f.name) + (f.colon + ":" + f.gap)) + (Print(f.value) + f.after);
  }

  lemma {:induction false} FieldsLevel(b: Pair, fields: seq<Field>)
    requires IsBracket(b) && forall f :: f in fields ==> ValidField(f)
    ensures Level(b, PrintFields(fields))
    decreases fields
  {
    if fields == [] {
      QuietLevel(b, "");
    } else {
      FieldLevel(b, fields[0]);
      if |fields| > 1 {
        FieldsLevel(b, fields[1..]);
        QuietLevel(b, ",");
        LevelConcat(b, PrintField(fields[0]), ",");
        LevelConcat(b, PrintField(fields[0]) + ",", PrintFields(fields[1..]));
      }
    }
  }

  /** The value kind whose text opens and closes with the brackets `b`. */
  predicate Brackets(b: Pair, v: Json) {
    (b == SQUARE && v.Arr?) || (b == CURLY && v.Obj?)
  }

  lemma PrintEnclosed(b: Pair, v: Json)
    requires Brackets(b, v) && Valid(v)
    ensures Enclosed(b, Print(v)) && |Print(v)| >= 2 && Print(v)[0] == b.open
  {
    match v
    case Arr(items, inner) =>
      ItemsLevel(b, items);
      BracketsLevel(b, SQUARE, inner, PrintItems(items));
    case Obj(fields, inner) =>
      FieldsLevel(b, fields);
      BracketsLevel(b, CURLY, inner, PrintFields(fields));
  }
}
