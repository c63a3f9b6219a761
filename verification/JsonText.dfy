/** JSON texts as concrete syntax trees: every text that sections 2 to 7 of RFC 8259 allow,
    with any whitespace and any choice of escapes, plus the words `NaN`, `Infinity` and
    `-Infinity` that the program's reader also accepts. */
module JsonText {
  datatype StrChar = Plain(c: char) | Escape(c: char) | Unicode(hex: string)

  datatype Json =
    | Word(text: string)
    | Num(minus: bool, whole: string, fraction: string, exponent: string)
    | Str(chars: seq<StrChar>)
    | Arr(items: seq<Item>, inner: string)
    | Obj(fields: seq<Field>, inner: string)

  datatype Item = Item(before: string, value: Json, after: string)

  datatype Field = Field(before: string, name: seq<StrChar>, colon: string, gap: string, value: Json, after: string)

  // ---------------------------------------------------------------- well-formed texts

  predicate IsSpace(s: string) {
    forall c :: c in s ==> c in " \t\n\r"
  }

  predicate IsDigits(s: string) {
    s != "" && forall c :: c in s ==> '0' <= c <= '9'
  }

  predicate ValidChar(c: StrChar) {
    match c
    case Plain(c) => c != '"' && c != '\\' && c >= ' '
    case Escape(c) => c in "\"\\/bfnrt"
    case Unicode(hex) => |hex| == 4 && forall h :: h in hex ==> h in "0123456789abcdefABCDEF"
  }

  predicate ValidChars(cs: seq<StrChar>) {
    forall c :: c in cs ==> ValidChar(c)
  }

  predicate ValidNumber(whole: string, fraction: string, exponent: string) {
    && IsDigits(whole) && (|whole| > 1 ==> whole[0] != '0')
    && (fraction == "" || (fraction[0] == '.' && IsDigits(fraction[1..])))
    && (exponent == "" || (exponent[0] in "eE" && |exponent| > 1
                           && IsDigits(if exponent[1] in "+-" then exponent[2..] else exponent[1..])))
  }

  predicate Valid(v: Json) {
    match v
    case Word(text) => text in ["null", "true", "false", "NaN", "Infinity", "-Infinity"]
    case Num(_, whole, fraction, exponent) => ValidNumber(whole, fraction, exponent)
    case Str(chars) => ValidChars(chars)
    case Arr(items, inner) =>
      IsSpace(inner) && (items != [] ==> inner == "") && forall i :: i in items ==> ValidItem(i)
    case Obj(fields, inner) =>
      IsSpace(inner) && (fields != [] ==> inner == "") && forall f :: f in fields ==> ValidField(f)
  }

  predicate ValidItem(i: Item) {
    IsSpace(i.before) && Valid(i.value) && IsSpace(i.after)
  }

  predicate ValidField(f: Field) {
    IsSpace(f.before) && ValidChars(f.name) && IsSpace(f.colon) && IsSpace(f.gap) && Valid(f.value) && IsSpace(f.after)
  }

  // ---------------------------------------------------------------- printing

  function PrintChar(c: StrChar): string {
    match c
    case Plain(c) => [c]
    case Escape(c) => ['\\', c]
    case Unicode(hex) => "\\u" + hex
  }

  function PrintChars(cs: seq<StrChar>): string {
    if cs == [] then "" else PrintChar(cs[0]) + PrintChars(cs[1..])
  }

  function PrintStr(cs: seq<StrChar>): string {
    "\"" + PrintChars(cs) + "\""
  }

  function Print(v: Json): string {
    match v
    case Word(text) => text
    case Num(minus, whole, fraction, exponent) => (if minus then "-" else "") + whole + fraction + exponent
    case Str(chars) => PrintStr(chars)
    case Arr(items, inner) => "[" + inner + PrintItems(items) + "]"
    case Obj(fields, inner) => "{" + inner + PrintFields(fields) + "}"
  }

  function PrintItem(i: Item): string {
    i.before + Print(i.value) + i.after
  }

  function PrintItems(items: seq<Item>): string {
    if items == [] then ""
    else if |items| == 1 then PrintItem(items[0])
    else PrintItem(items[0]) + "," + PrintItems(items[1..])
  }

  function PrintField(f: Field): string {
    f.before + PrintStr(f.name) + f.colon + ":" + f.gap + Print(f.value) + f.after
  }

  function PrintFields(fields: seq<Field>): string {
    if fields == [] then ""
    else if |fields| == 1 then PrintField(fields[0])
    else PrintField(fields[0]) + "," + PrintFields(fields[1..])
  }

  /** What the reader accepts: one value with whitespace around it. */
  ghost predicate IsJson(s: string) {
    exists before, v, after :: Reads(s, before, v, after)
  }

  ghost predicate Reads(s: string, before: string, v: Json, after: string) {
    IsSpace(before) && IsSpace(after) && Valid(v) && s == before + Print(v) + after
  }
}
