/** JSON values and their text: the lexer and parser as functions, and the stringifier's layout. */
module JsonText {
  import opened Wrappers
  import opened Characters

  const TAB: Unit := 9
  const NEWLINE: Unit := 10
  const RETURN: Unit := 13
  const SPACE: Unit := 32
  const QUOTE: Unit := 34
  const PLUS: Unit := 43
  const COMMA: Unit := 44
  const MINUS: Unit := 45
  const DOT: Unit := 46
  const ZERO: Unit := 48
  const COLON: Unit := 58
  const BACKSLASH: Unit := 92
  const LBRACKET: Unit := 91
  const RBRACKET: Unit := 93
  const LBRACE: Unit := 123
  const RBRACE: Unit := 125
  const NULL_TEXT: Text := [110, 117, 108, 108]
  const TRUE_TEXT: Text := [116, 114, 117, 101]
  const FALSE_TEXT: Text := [102, 97, 108, 115, 101]

  /** Numbers are carried as the text that denotes them. */
  datatype Json =
    | Null
    | Bool(b: bool)
    | Num(lexeme: Text)
    | Str(s: Text)
    | Arr(items: seq<Json>)
    | Obj(props: seq<Prop>)

  datatype Prop = Prop(key: Text, value: Json)

  // ---- Lexer ----

  predicate IsSpace(c: Unit) {
    c == TAB || c == RETURN || c == NEWLINE || c == SPACE
  }

  /** How many leading units are white space. */
  function Spaces(s: Text): (n: nat)
    ensures n <= |s|
  {
    if s == [] || !IsSpace(s[0]) then 0 else 1 + Spaces(s[1..])
  }

  function Digits(s: Text): (n: nat)
    ensures n <= |s|
  {
    if s == [] || !IsDigit(s[0]) then 0 else 1 + Digits(s[1..])
  }

  /** How many units of `s` the number branch takes; it is entered on a minus sign or a digit. */
  function NumberEnd(s: Text): (n: Option<nat>)
    requires s != []
    ensures n.Some? ==> 1 <= n.value <= |s|
  {
    var whole := 1 + Digits(s[1..]);
    if whole == 1 && s[0] == MINUS then None else
    var frac := FractionEnd(s, whole);
    if frac.None? then None else ExponentEnd(s, frac.value)
  }

  function FractionEnd(s: Text, i: nat): (n: Option<nat>)
    requires i <= |s|
    ensures n.Some? ==> i <= n.value <= |s|
  {
    if i < |s| && s[i] == DOT then
      var d := Digits(s[i + 1..]);
      if d == 0 then None else Some(i + 1 + d)
    else Some(i)
  }

  function ExponentEnd(s: Text, i: nat): (n: Option<nat>)
    requires i <= |s|
    ensures n.Some? ==> i <= n.value <= |s|
  {
    if i < |s| && (s[i] == 101 || s[i] == 69) then
      if i + 1 == |s| then None else
      var j := if s[i + 1] == MINUS || s[i + 1] == PLUS then i + 2 else i + 1;
      var d := Digits(s[j..]);
      if d == 0 then None else Some(j + d)
    else Some(i)
  }

  function HexValue4(s: Text): Option<Unit>
    requires |s| >= 4
  {
    var a, b, c, d := HexValue(s[0]), HexValue(s[1]), HexValue(s[2]), HexValue(s[3]);
    if a.Some? && b.Some? && c.Some? && d.Some? && a.value < 16 && b.value < 16 && c.value < 16 && d.value < 16
    then Some(a.value * 0x1000 + b.value * 0x100 + c.value * 0x10 + d.value) else None
  }

  /** What a one-letter escape stands for. */
  function Escape(e: Unit): Option<Unit> {
    if e == QUOTE || e == 47 || e == BACKSLASH then Some(e)
    else if e == 98 then Some(8)
    else if e == 102 then Some(12)
    else if e == 110 then Some(10)
    else if e == 114 then Some(13)
    else if e == 116 then Some(9)
    else None
  }

  datatype Scan = Scanned(text: Text, rest: Text) | ScanError

  function Prepend(c: Unit, s: Scan): Scan {
    if s.Scanned? then Scanned([c] + s.text, s.rest) else s
  }

  /** The rest of a string literal whose opening quote has been read. */
  function ScanString(s: Text): (r: Scan)
    ensures r.Scanned? ==> |r.rest| < |s|
  {
    if s == [] then ScanError
    else if s[0] == QUOTE then Scanned([], s[1..])
    else if s[0] == BACKSLASH then
      if |s| < 3 then ScanError
      else if s[1] == 117 then
        if |s| < 7 then ScanError else
        var h := HexValue4(s[2..6]);
        if h.None? then ScanError else Prepend(h.value, ScanString(s[6..]))
      else
        var e := Escape(s[1]);
        if e.None? then ScanError else Prepend(e.value, ScanString(s[2..]))
    else if s[0] < SPACE then ScanError
    else Prepend(s[0], ScanString(s[1..]))
  }

  datatype Tok =
    | Whitespace | StringTok(s: Text) | NumberTok(lexeme: Text) | NullTok | FalseTok | TrueTok
    | LBracketTok | RBracketTok | LBraceTok | RBraceTok | CommaTok | ColonTok | Eof

  /** The lexer's state: the current token and the text after it. */
  datatype Lex = Lex(tok: Tok, rest: Text)

  /** next_token on the text `s` that is left; None for a lexical error. */
  function NextToken(s: Text): (r: Option<Lex>)
    ensures r.Some? ==> |r.value.rest| <= |s| && (r.value.tok.Eof? <==> s == []) && (s != [] ==> |r.value.rest| < |s|)
  {
    if s == [] then Some(Lex(Eof, s)) else
    var c := s[0];
    if IsSpace(c) then Some(Lex(Whitespace, s[1 + Spaces(s[1..])..]))
    else if c == LBRACKET then Some(Lex(LBracketTok, s[1..]))
    else if c == RBRACKET then Some(Lex(RBracketTok, s[1..]))
    else if c == LBRACE then Some(Lex(LBraceTok, s[1..]))
    else if c == RBRACE then Some(Lex(RBraceTok, s[1..]))
    else if c == COMMA then Some(Lex(CommaTok, s[1..]))
    else if c == COLON then Some(Lex(ColonTok, s[1..]))
    else if NULL_TEXT <= s then Some(Lex(NullTok, s[4..]))
    else if FALSE_TEXT <= s then Some(Lex(FalseTok, s[5..]))
    else if TRUE_TEXT <= s then Some(Lex(TrueTok, s[4..]))
    else if c == MINUS || IsDigit(c) then
      var n := NumberEnd(s);
      if n.None? then None else Some(Lex(NumberTok(s[..n.value]), s[n.value..]))
    else if c == QUOTE then
      var r := ScanString(s[1..]);
      if r.ScanError? then None else Some(Lex(StringTok(r.text), r.rest))
    else None
  }

  // ---- Parser ----

  /** What is left to read. */
  function Left(l: Lex): nat {
    |l.rest| + if l.tok.Eof? then 0 else 1
  }

  function Advance(l: Lex): (r: Option<Lex>)
    ensures r.Some? ==> Left(r.value) <= Left(l) && (!l.tok.Eof? ==> Left(r.value) < Left(l))
  {
    NextToken(l.rest)
  }

  function SkipSpace(l: Lex): (r: Option<Lex>)
    ensures r.Some? ==> Left(r.value) <= Left(l) && !r.value.tok.Whitespace?
    decreases Left(l)
  {
    if !l.tok.Whitespace? then Some(l) else
    var n := Advance(l);
    if n.None? then None else SkipSpace(n.value)
  }

  /** Where the lexer stands on the text `s` once white space is skipped. */
  function Open(s: Text): (r: Option<Lex>) {
    var n := NextToken(s);
    if n.None? then None else SkipSpace(n.value)
  }

  /** Advance and skip. */
  function Past(l: Lex): (r: Option<Lex>)
    ensures r.Some? ==> Left(r.value) <= Left(l) && (!l.tok.Eof? ==> Left(r.value) < Left(l))
  {
    var n := Advance(l);
    if n.None? then None else SkipSpace(n.value)
  }

  datatype Parsed<+T> = Ok(value: T, lex: Lex) | SyntaxError

  function ParseValue(l: Lex): (r: Parsed<Json>)
    ensures r.Ok? ==> Left(r.lex) < Left(l)
    decreases Left(l), 2
  {
    var s := SkipSpace(l);
    if s.None? then SyntaxError else
    var n := Advance(s.value);
    if n.None? then SyntaxError else
    match s.value.tok
    case StringTok(t) => Ok(Str(t), n.value)
    case NumberTok(t) => Ok(Num(t), n.value)
    case NullTok => Ok(Null, n.value)
    case FalseTok => Ok(Bool(false), n.value)
    case TrueTok => Ok(Bool(true), n.value)
    case LBracketTok => ParseItems(n.value, [])
    case LBraceTok => ParseProps(n.value, [])
    case _ => SyntaxError
  }

  /** The rest of an array of which `items` have been read. */
  function ParseItems(l: Lex, items: seq<Json>): (r: Parsed<Json>)
    ensures r.Ok? ==> Left(r.lex) < Left(l)
    decreases Left(l), 3
  {
    var s := SkipSpace(l);
    if s.None? then SyntaxError
    else if s.value.tok.RBracketTok? then
      var n := Advance(s.value);
      if n.None? then SyntaxError else Ok(Arr(items), n.value)
    else
      var c := if items == [] then s else if s.value.tok.CommaTok? then Past(s.value) else None;
      if c.None? then SyntaxError else
      var v := ParseValue(c.value);
      if v.SyntaxError? then SyntaxError else ParseItems(v.lex, items + [v.value])
  }

  /** A property put into an object: an old one of the same name is overwritten where it stands. */
  function PutProp(props: seq<Prop>, key: Text, value: Json): seq<Prop> {
    if props == [] then [Prop(key, value)]
    else if props[0].key == key then [Prop(key, value)] + props[1..]
    else [props[0]] + PutProp(props[1..], key, value)
  }

  function ParseProps(l: Lex, props: seq<Prop>): (r: Parsed<Json>)
    ensures r.Ok? ==> Left(r.lex) < Left(l)
    decreases Left(l), 3
  {
    ParseMore(l, props, 0)
  }

  /** The rest of an object of which `count` properties have been read. */
  function ParseMore(l: Lex, props: seq<Prop>, count: nat): (r: Parsed<Json>)
    ensures r.Ok? ==> Left(r.lex) < Left(l)
    decreases Left(l), 2
  {
    var s := SkipSpace(l);
    if s.None? then SyntaxError
    else if s.value.tok.RBraceTok? then
      var n := Advance(s.value);
      if n.None? then SyntaxError else Ok(Obj(props), n.value)
    else
      var c := if count == 0 then s else if s.value.tok.CommaTok? then Past(s.value) else None;
      if c.None? then SyntaxError else
      var p := ParseProp(c.value);
      if p.SyntaxError? then SyntaxError else ParseMore(p.lex, PutProp(props, p.value.key, p.value.value), count + 1)
  }

  /** A name, a colon and a value. */
  function ParseProp(c: Lex): (r: Parsed<Prop>)
    ensures r.Ok? ==> Left(r.lex) < Left(c)
    decreases Left(c), 1
  {
    if !c.tok.StringTok? then SyntaxError else
    var k := Past(c);
    if k.None? || !k.value.tok.ColonTok? then SyntaxError else
    var b := Past(k.value);
    if b.None? then SyntaxError else
    var v := ParseValue(b.value);
    if v.SyntaxError? then SyntaxError else Ok(Prop(c.tok.s, v.value), v.lex)
  }

  /** JSON.parse. */
  function Parse(text: Text): Option<Json> {
    var l := NextToken(text);
    if l.None? then None else
    var v := ParseValue(l.value);
    if v.SyntaxError? then None else
    var s := SkipSpace(v.lex);
    if s.None? || !s.value.tok.Eof? then None else Some(v.value)
  }

  // ---- Stringifier ----

  function QuoteUnit(c: Unit): Text {
    if c == QUOTE || c == BACKSLASH then [BACKSLASH, c]
    else if c < SPACE then QuoteControl(c)
    else [c]
  }

  function QuoteControl(c: Unit): Text
    requires c < SPACE
  {
    if c == 8 then [BACKSLASH, 98]
    else if c == 9 then [BACKSLASH, 116]
    else if c == 10 then [BACKSLASH, 110]
    else if c == 12 then [BACKSLASH, 102]
    else if c == 13 then [BACKSLASH, 114]
    else [BACKSLASH, 117, ZERO, ZERO, if c >= 16 then 49 else ZERO, HexDigit(c % 16, 97)]
  }

  function QuoteBody(s: Text): Text {
    if s == [] then [] else QuoteUnit(s[0]) + QuoteBody(s[1..])
  }

  function Quote(s: Text): Text {
    [QUOTE] + QuoteBody(s) + [QUOTE]
  }

  /** A line break and indentation, when there is a gap. */
  function Break(gap: Text, indent: Text): Text {
    if gap == [] then [] else [NEWLINE] + indent
  }

  function Spacing(gap: Text): Text {
    if gap == [] then [] else [SPACE]
  }

  /** The text of a value at the given indentation. */
  function Stringify(v: Json, gap: Text, indent: Text): Text
    decreases v, 2
  {
    match v
    case Null => NULL_TEXT
    case Bool(b) => if b then TRUE_TEXT else FALSE_TEXT
    case Num(l) => l
    case Str(s) => Quote(s)
    case Arr(items) =>
      if items == [] then [LBRACKET, RBRACKET]
      else [LBRACKET] + (Break(gap, indent + gap) + (ItemsText(items, gap, indent + gap, true) + Closing(gap, indent, RBRACKET)))
    case Obj(props) =>
      if props == [] then [LBRACE, RBRACE]
      else [LBRACE] + (Break(gap, indent + gap) + (PropsText(props, gap, indent + gap, true) + Closing(gap, indent, RBRACE)))
  }

  function Closing(gap: Text, indent: Text, bracket: Unit): Text {
    Break(gap, indent) + [bracket]
  }

  /** A comma and the line break after it, except before the first. */
  function Sep(gap: Text, indent: Text, first: bool): Text {
    if first then [] else [COMMA] + Break(gap, indent)
  }

  /** Items, all but the first with a separator before it. */
  function ItemsText(items: seq<Json>, gap: Text, indent: Text, first: bool): Text
    decreases items, 1
  {
    if items == [] then []
    else Sep(gap, indent, first) + (Stringify(items[0], gap, indent) + ItemsText(items[1..], gap, indent, false))
  }

  function PropText(p: Prop, gap: Text, indent: Text): Text
    decreases p, 3
  {
    Quote(p.key) + ([COLON] + (Spacing(gap) + Stringify(p.value, gap, indent)))
  }

  function PropsText(props: seq<Prop>, gap: Text, indent: Text, first: bool): Text
    decreases props, 1
  {
    if props == [] then []
    else Sep(gap, indent, first) + (PropText(props[0], gap, indent) + PropsText(props[1..], gap, indent, false))
  }
}
