/** Quoting and splitting of command-line tokens in the Windows convention: double quotes group a
    segment and are removed, backslashes are literal. */
module CliQuoting {
  import opened Common

  predicate IsBlank(c: char) {
    c == ' ' || c == '\t'
  }

  function EscapeQuotes(value: string): string {
    if value == "" then ""
    else (if value[0] == '"' then "\\\"" else [value[0]]) + EscapeQuotes(value[1..])
  }

  function QuoteArg(value: string): string {
    if exists c :: c in value && IsBlank(c) then "\"" + EscapeQuotes(value) + "\"" else value
  }

  datatype State = State(tokens: seq<string>, buf: string, inQuotes: bool)

  function Step(st: State, c: char): State {
    if c == '"' then st.(inQuotes := !st.inQuotes)
    else if IsBlank(c) && !st.inQuotes then
      if st.buf != "" then State(st.tokens + [st.buf], "", false) else st
    else st.(buf := st.buf + [c])
  }

  function After(st: State, s: string): State {
    if s == "" then st else Step(After(st, Init(s)), Last(s))
  }

  datatype Error = UnclosedQuote

  function Split(s: string): Result<seq<string>, Error> {
    var st := After(State([], "", false), s);
    if st.inQuotes then Err(UnclosedQuote)
    else Ok(if st.buf != "" then st.tokens + [st.buf] else st.tokens)
  }

  /** The loop of the program. */
  method SplitCliArgs(s: string) returns (r: Result<seq<string>, Error>)
    ensures r == Split(s)
  {
    var tokens: seq<string>, buf: string, inQuotes := [], "", false;
    for i := 0 to |s|
      invariant State(tokens, buf, inQuotes) == After(State([], "", false), s[..i])
    {
      var ch := s[i];
      assert Init(s[..i + 1]) == s[..i];
      if ch == '"' {
        inQuotes := !inQuotes;
      } else if IsBlank(ch) && !inQuotes {
        if buf != "" {
          tokens := tokens + [buf];
          buf := "";
        }
      } else {
        buf := buf + [ch];
      }
    }
    assert s[..|s|] == s;
    if inQuotes {
      return Err(UnclosedQuote);
    }
    if buf != "" {
      tokens := tokens + [buf];
    }
    return Ok(tokens);
  }

  /** Quotes every token and joins them with single blanks. */
  function PrintArgs(tokens: seq<string>): string {
    if tokens == [] then ""
    else if |tokens| == 1 then QuoteArg(tokens[0])
    else PrintArgs(Init(tokens)) + " " + QuoteArg(Last(tokens))
  }

  // ---------------------------------------------------------------- what the splitter accepts

  function Quotes(s: string): nat {
    if s == "" then 0 else Quotes(Init(s)) + if Last(s) == '"' then 1 else 0
  }

  /** The splitter refuses exactly the strings with an odd number of quotes. */
  lemma {:induction false} QuotesParity(s: string)
    ensures After(State([], "", false), s).inQuotes <==> Quotes(s) % 2 == 1
    ensures Split(s).Err? <==> Quotes(s) % 2 == 1
  {
    if s == "" {
    } else {
      QuotesParity(Init(s));
    }
  }

  /** A token that quoting restores: not empty, and without a quote. */
  predicate Restorable(token: string) {
    token != "" && '"' !in token
  }

  lemma {:induction false} TokensRestorable(s: string)
    ensures var st := After(State([], "", false), s);
            (forall t :: t in st.tokens ==> Restorable(t)) && '"' !in st.buf
  {
    if s == "" {
    } else {
      TokensRestorable(Init(s));
    }
  }

  // ---------------------------------------------------------------- printing, then splitting

  lemma {:induction false} AfterConcat(st: State, s: string, t: string)
    ensures After(st, s + t) == After(After(st, s), t)
  {
    if t == "" {
      assert s + t == s;
    } else {
      AfterConcat(st, s, Init(t));
      assert Init(s + t) == s + Init(t);
    }
  }

  /** Text without quotes is collected as it is, inside quotes or without blanks. */
  lemma {:induction false} Collects(st: State, s: string)
    requires '"' !in s && (st.inQuotes || forall c :: c in s ==> !IsBlank(c))
    ensures After(st, s) == st.(buf := st.buf + s)
  {
    if s == "" {
      assert st.buf + s == st.buf;
    } else {
      assert Last(s) in s && forall c :: c in Init(s) ==> c in s;
      Collects(st, Init(s));
      assert st.buf + s == st.buf + Init(s) + [Last(s)];
    }
  }

  lemma {:induction false} NothingToEscape(value: string)
    requires '"' !in value
    ensures EscapeQuotes(value) == value
  {
    if value == "" {
    } else {
      NothingToEscape(value[1..]);
      assert value == [value[0]] + value[1..];
    }
  }

  /** A quoted segment is collected as one piece of a token. */
  lemma SegmentCollected(tokens: seq<string>, token: string)
    requires '"' !in token
    ensures After(State(tokens, "", false), "\"" + token + "\"") == State(tokens, token, false)
  {
    var st, q := State(tokens, "", false), "\"";
    var open, full := State(tokens, "", true), State(tokens, token, true);
    assert Init(q) == "" && Last(q) == '"';
    AfterConcat(st, q, token);
    assert After(st, q) == open;
    Collects(open, token);
    assert "" + token == token;
    AfterConcat(st, q + token, q);
    assert After(full, q) == State(tokens, token, false);
  }

  lemma QuotedCollected(tokens: seq<string>, token: string)
    requires Restorable(token)
    ensures After(State(tokens, "", false), QuoteArg(token)) == State(tokens, token, false)
  {
    NothingToEscape(token);
    if exists c :: c in token && IsBlank(c) {
      SegmentCollected(tokens, token);
    } else {
      Collects(State(tokens, "", false), token);
      assert "" + token == token;
    }
  }

  lemma {:induction false} PrintedCollected(tokens: seq<string>)
    requires tokens != [] && forall t :: t in tokens ==> Restorable(t)
    ensures After(State([], "", false), PrintArgs(tokens)) == State(Init(tokens), Last(tokens), false)
  {
    if |tokens| == 1 {
      QuotedCollected([], tokens[0]);
    } else {
      var start, front, token, blank := State([], "", false), Init(tokens), Last(tokens), " ";
      PrintedCollected(front);
      assert Restorable(Last(front));
      AfterConcat(start, PrintArgs(front), blank);
      assert Init(blank) == "";
      assert Init(front) + [Last(front)] == front;
      assert After(start, PrintArgs(front) + blank) == State(front, "", false);
      AfterConcat(start, PrintArgs(front) + blank, QuoteArg(token));
      QuotedCollected(front, token);
    }
  }

  /** Printing a token list and splitting it gives the list back exactly when every token is
      non-empty and free of quotes. */
  lemma PrintThenSplitIff(tokens: seq<string>)
    ensures Split(PrintArgs(tokens)) == Ok(tokens) <==> forall t :: t in tokens ==> Restorable(t)
  {
    TokensRestorable(PrintArgs(tokens));
    if tokens != [] && forall t :: t in tokens ==> Restorable(t) {
      PrintedCollected(tokens);
      assert Init(tokens) + [Last(tokens)] == tokens;
      assert Last(tokens) in tokens;
    }
  }

  /** Whatever the splitter accepts, its tokens survive printing and splitting again. */
  lemma SplitThenPrint(s: string)
    requires Split(s).Ok?
    ensures forall t :: t in Split(s).value ==> Restorable(t)
    ensures Split(PrintArgs(Split(s).value)) == Split(s)
  {
    TokensRestorable(s);
    PrintThenSplitIff(Split(s).value);
  }

  // ---------------------------------------------------------------- what splitting and printing are

  function Behind(front: seq<string>, st: State): State {
    State(front + st.tokens, st.buf, st.inQuotes)
  }

  /** Earlier tokens do not matter. */
  lemma {:induction false} TokensBefore(front: seq<string>, st: State, s: string)
    ensures After(Behind(front, st), s) == Behind(front, After(st, s))
  {
    if s == "" {
    } else {
      var before := After(st, Init(s));
      TokensBefore(front, st, Init(s));
      assert front + before.tokens + [before.buf] == front + (before.tokens + [before.buf]);
    }
  }

  lemma AfterBlank(a: string, c: char)
    requires (c == ' ' || c == '\t') && Split(a).Ok?
    ensures After(State([], "", false), a + [c]) == Behind(Split(a).value, State([], "", false))
  {
    assert Init(a + [c]) == a;
    assert Split(a).value + [] == Split(a).value;
  }

  /** A space or a tab outside quotes separates: what comes before and what comes after are split on
      their own. */
  lemma SplitAtBlank(a: string, c: char, b: string)
    requires (c == ' ' || c == '\t') && Quotes(a) % 2 == 0
    ensures Split(a).Ok?
    ensures Split(a + [c] + b) == match Split(b)
                                  case Err(e) => Err(e)
                                  case Ok(tokens) => Ok(Split(a).value + tokens)
  {
    var start := State([], "", false);
    QuotesParity(a);
    var front, end := Split(a).value, After(start, b);
    AfterBlank(a, c);
    AfterConcat(start, a + [c], b);
    TokensBefore(front, start, b);
    assert front + end.tokens + [end.buf] == front + (end.tokens + [end.buf]);
  }

  function Unquoted(s: string): string {
    Kept(s, (c: char) => c != '"')
  }

  /** A text whose spaces and tabs are all inside quotes is one token, without its quotes. */
  lemma {:induction false} WordCollected(s: string)
    requires forall i :: 0 <= i < |s| && (s[i] == ' ' || s[i] == '\t') ==> Quotes(s[..i]) % 2 == 1
    ensures After(State([], "", false), s) == State([], Unquoted(s), Quotes(s) % 2 == 1)
  {
    if s == "" {
    } else {
      forall i | 0 <= i < |Init(s)| ensures Init(s)[..i] == s[..i] {}
      WordCollected(Init(s));
      assert s[..|s| - 1] == Init(s);
    }
  }

  lemma SplitOfWord(s: string)
    requires Quotes(s) % 2 == 0
    requires forall i :: 0 <= i < |s| && (s[i] == ' ' || s[i] == '\t') ==> Quotes(s[..i]) % 2 == 1
    ensures Split(s) == Ok(if Unquoted(s) == "" then [] else [Unquoted(s)])
  {
    WordCollected(s);
    var none: seq<string> := [];
    assert After(State([], "", false), s) == State(none, Unquoted(s), false);
    assert none + [Unquoted(s)] == [Unquoted(s)];
  }

  /** A token is put in quotes exactly when it has a space or a tab; its own quotes then get a
      backslash each. */
  lemma QuotedIff(token: string)
    ensures QuoteArg(token) == if ' ' in token || '\t' in token then "\"" + EscapeQuotes(token) + "\"" else token
  {}

  lemma {:induction false} EscapesEachQuote(a: string, b: string)
    ensures EscapeQuotes(a + "\"" + b) == EscapeQuotes(a) + "\\\"" + EscapeQuotes(b)
    decreases |a|
  {
    var s := a + "\"" + b;
    if a == "" {
      assert s[1..] == b;
    } else {
      var first := if a[0] == '"' then "\\\"" else [a[0]];
      EscapesEachQuote(a[1..], b);
      assert s[1..] == a[1..] + "\"" + b;
      assert EscapeQuotes(s) == first + EscapeQuotes(a[1..] + "\"" + b);
      ConcatAssociates(first, EscapeQuotes(a[1..]) + "\\\"", EscapeQuotes(b));
      ConcatAssociates(first, EscapeQuotes(a[1..]), "\\\"");
    }
  }

  /** Printed token lists are joined by single spaces. */
  lemma {:induction false} PrintsJoined(a: seq<string>, b: seq<string>)
    requires a != [] && b != []
    ensures PrintArgs(a + b) == PrintArgs(a) + " " + PrintArgs(b)
  {
    var all := a + b;
    assert Last(all) == Last(b);
    if |b| == 1 {
      assert Init(all) == a;
    } else {
      PrintsJoined(a, Init(b));
      assert Init(all) == a + Init(b);
    }
  }

  /** A token with a quote and a blank comes back damaged. */
  lemma QuoteIsLost()
    ensures Split(PrintArgs(["a \"b"])) != Ok(["a \"b"])
  {
    PrintThenSplitIff(["a \"b"]);
    var t := "a \"b";
    assert t[2] == '"';
    assert t in [t] && !Restorable(t);
  }
}
