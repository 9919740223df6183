/** Parsing what was stringified gives back the tree. */
module JsonRoundTrip {
  import opened Wrappers
  import opened Characters
  import opened JsonText

  ghost predicate Blank(s: Text) {
    forall i :: 0 <= i < |s| ==> IsSpace(s[i])
  }

  /** A number lexeme: text the number branch takes as a whole. */
  predicate IsNumber(l: Text) {
    l != [] && (l[0] == MINUS || IsDigit(l[0])) && NumberEnd(l) == Some(|l|)
  }

  predicate HasKey(props: seq<Prop>, key: Text) {
    exists i :: 0 <= i < |props| && props[i].key == key
  }

  /** Number texts are numbers and the keys of every object are distinct. */
  predicate WellFormed(v: Json)
    decreases v, 1
  {
    match v
    case Num(l) => IsNumber(l)
    case Arr(items) => forall i :: 0 <= i < |items| ==> WellFormed(items[i])
    case Obj(props) => WellFormedProps(props)
    case _ => true
  }

  predicate WellFormedProps(props: seq<Prop>)
    decreases props, 0
  {
    && (forall i :: 0 <= i < |props| ==> WellFormed(props[i].value))
    && (forall i, j :: 0 <= i < j < |props| ==> props[i].key != props[j].key)
  }

  /** Text that cannot be taken for more of a number. */
  predicate EndsNumber(k: Text) {
    k == [] || !(IsDigit(k[0]) || k[0] == DOT || k[0] == 101 || k[0] == 69)
  }

  lemma Regroup<T>(a: seq<T>, b: seq<T>)
    requires b != []
    ensures a + [b[0]] != [] && a + [b[0]] + b[1..] == a + b
  {}

  lemma EmptyFirst<T>(a: seq<T>)
    ensures [] + a == a
  {}

  lemma Assoc<T>(a: seq<T>, b: seq<T>, c: seq<T>)
    ensures a + b + c == a + (b + c)
  {}

  // ---- Tokens ----

  lemma {:induction false} DigitsAppend(a: Text, k: Text)
    requires k == [] || !IsDigit(k[0])
    ensures Digits(a + k) == Digits(a)
  {
    if a == [] {
      assert a + k == k;
    } else {
      assert (a + k)[1..] == a[1..] + k;
      DigitsAppend(a[1..], k);
    }
  }

  lemma ExponentAppend(l: Text, k: Text, i: nat)
    requires i <= |l| && ExponentEnd(l, i) == Some(|l|) && EndsNumber(k)
    ensures ExponentEnd(l + k, i) == Some(|l|)
  {
    if i < |l| && (l[i] == 101 || l[i] == 69) {
      var j := if l[i + 1] == MINUS || l[i + 1] == PLUS then i + 2 else i + 1;
      assert (l + k)[j..] == l[j..] + k;
      DigitsAppend(l[j..], k);
    }
  }

  lemma NumberAppend(l: Text, k: Text)
    requires IsNumber(l) && EndsNumber(k)
    ensures NumberEnd(l + k) == Some(|l|)
  {
    hide ExponentEnd, FractionEnd;
    assert (l + k)[1..] == l[1..] + k;
    DigitsAppend(l[1..], k);
    var whole := 1 + Digits(l[1..]);
    FractionAppend(l, k, whole);
    ExponentAppend(l, k, FractionEnd(l, whole).value);
  }

  lemma FractionAppend(l: Text, k: Text, i: nat)
    requires i <= |l| && EndsNumber(k)
    ensures FractionEnd(l + k, i) == FractionEnd(l, i)
  {
    if i < |l| && l[i] == DOT {
      assert (l + k)[i + 1..] == l[i + 1..] + k;
      DigitsAppend(l[i + 1..], k);
    }
  }

  lemma NumberToken(l: Text, k: Text)
    requires IsNumber(l) && EndsNumber(k)
    ensures NextToken(l + k) == Some(Lex(NumberTok(l), k))
  {
    NumberAppend(l, k);
    var s := l + k;
    assert s[0] == l[0];
    assert !(NULL_TEXT <= s) && !(FALSE_TEXT <= s) && !(TRUE_TEXT <= s);
    assert s[..|l|] == l && s[|l|..] == k;
  }

  /** Reading back one quoted unit. */
  lemma ScanUnit(c: Unit, k: Text)
    requires k != []
    ensures ScanString(QuoteUnit(c) + k) == Prepend(c, ScanString(k))
  {
    var q := QuoteUnit(c);
    var s := q + k;
    assert s[|q|..] == k && s[0] == q[0];
    if c != QUOTE && c != BACKSLASH && c < SPACE && |q| == 6 {
      assert s[1] == 117;
      assert s[2..6] == [ZERO, ZERO, q[4], q[5]];
      assert HexValue4(s[2..6]) == Some(c);
    }
  }

  /** Quoting is undone, whatever follows. */
  lemma {:induction false} ScanQuoted(s: Text, k: Text)
    ensures ScanString(QuoteBody(s) + [QUOTE] + k) == Scanned(s, k)
  {
    if s == [] {
      assert QuoteBody(s) + [QUOTE] + k == [QUOTE] + k;
    } else {
      var rest := QuoteBody(s[1..]) + [QUOTE] + k;
      assert QuoteBody(s) + [QUOTE] + k == QuoteUnit(s[0]) + rest;
      ScanQuoted(s[1..], k);
      ScanUnit(s[0], rest);
      assert [s[0]] + s[1..] == s;
    }
  }

  lemma QuoteToken(s: Text, k: Text)
    ensures NextToken(Quote(s) + k) == Some(Lex(StringTok(s), k))
  {
    var t := Quote(s) + k;
    assert t[0] == QUOTE && t[1..] == QuoteBody(s) + [QUOTE] + k;
    ScanQuoted(s, k);
    hide ScanString, QuoteBody, Quote;
    assert !(NULL_TEXT <= t) && !(FALSE_TEXT <= t) && !(TRUE_TEXT <= t);
  }

  lemma {:induction false} SpacesAppend(ws: Text, x: Text)
    requires Blank(ws) && (x == [] || !IsSpace(x[0]))
    ensures Spaces(ws + x) == |ws|
  {
    if ws == [] {
      assert ws + x == x;
    } else {
      assert (ws + x)[1..] == ws[1..] + x;
      SpacesAppend(ws[1..], x);
    }
  }

  /** White space before a token makes no difference. */
  lemma SkipBlank(ws: Text, x: Text)
    requires Blank(ws) && (x == [] || !IsSpace(x[0]))
    ensures Open(ws + x) == Open(x)
  {
    if ws == [] {
      assert ws + x == x;
    } else {
      var s := ws + x;
      assert s[1..] == ws[1..] + x;
      SpacesAppend(ws[1..], x);
      assert s[1 + Spaces(s[1..])..] == x;
      assert NextToken(s) == Some(Lex(Whitespace, x));
    }
  }

  lemma BreakIsBlank(gap: Text, indent: Text)
    requires Blank(gap) && Blank(indent)
    ensures Blank(Break(gap, indent)) && Blank(Spacing(gap)) && Blank(indent + gap)
  {}

  lemma StartsSolid(v: Json, gap: Text, indent: Text)
    requires WellFormed(v)
    ensures Stringify(v, gap, indent) != [] && !IsSpace(Stringify(v, gap, indent)[0])
  {}

  lemma ScalarToken(v: Json, gap: Text, indent: Text, k: Text)
    requires WellFormed(v) && !v.Arr? && !v.Obj? && EndsNumber(k)
    ensures NextToken(Stringify(v, gap, indent) + k) == Some(Lex(ScalarTok(v), k))
  {
    if v.Num? {
      NumberToken(v.lexeme, k);
    } else if v.Str? {
      QuoteToken(v.s, k);
    } else {
      var t := Stringify(v, gap, indent);
      assert t <= t + k && (t + k)[|t|..] == k && (t + k)[0] == t[0];
    }
  }

  function ScalarTok(v: Json): Tok
    requires !v.Arr? && !v.Obj?
  {
    match v
    case Null => NullTok
    case Bool(b) => if b then TrueTok else FalseTok
    case Num(l) => NumberTok(l)
    case Str(s) => StringTok(s)
  }

  /** A value's text starts with a token of its own. */
  lemma StartsToken(v: Json, gap: Text, indent: Text, k: Text)
    requires WellFormed(v) && EndsNumber(k)
    ensures NextToken(Stringify(v, gap, indent) + k).Some?
    ensures var t := NextToken(Stringify(v, gap, indent) + k).value.tok; !t.Whitespace? && !t.RBracketTok? && !t.RBraceTok?
  {
    StartsSolid(v, gap, indent);
    if !v.Arr? && !v.Obj? {
      ScalarToken(v, gap, indent, k);
    }
  }

  // ---- Values ----

  /** Text that may follow a value: it lexes, and does not run into a number. */
  predicate MayFollow(k: Text) {
    EndsNumber(k) && NextToken(k).Some?
  }

  lemma ItemsMayFollow(items: seq<Json>, gap: Text, indent: Text, outer: Text, k: Text)
    ensures MayFollow(ItemsText(items, gap, indent, false) + (Closing(gap, outer, RBRACKET) + k))
  {
    var t := ItemsText(items, gap, indent, false) + (Closing(gap, outer, RBRACKET) + k);
    assert t[0] == COMMA || t[0] == NEWLINE || t[0] == RBRACKET;
  }

  lemma PropsMayFollow(props: seq<Prop>, gap: Text, indent: Text, outer: Text, k: Text)
    ensures MayFollow(PropsText(props, gap, indent, false) + (Closing(gap, outer, RBRACE) + k))
  {
    var t := PropsText(props, gap, indent, false) + (Closing(gap, outer, RBRACE) + k);
    assert t[0] == COMMA || t[0] == NEWLINE || t[0] == RBRACE;
  }

  /** Past the line break the closing bracket is found, and behind it `k`. */
  lemma CloseBack(gap: Text, outer: Text, bracket: Unit, k: Text)
    requires Blank(gap) && Blank(outer) && (bracket == RBRACKET || bracket == RBRACE)
    ensures Open(Closing(gap, outer, bracket) + k) == Some(Lex(if bracket == RBRACKET then RBracketTok else RBraceTok, k))
  {
    var x := [bracket] + k;
    Assoc(Break(gap, outer), [bracket], k);
    BreakIsBlank(gap, outer);
    ClosingToken(bracket, k);
    hide NextToken, Break, Blank;
    SkipBlank(Break(gap, outer), x);
  }

  lemma ClosingToken(bracket: Unit, k: Text)
    requires bracket == RBRACKET || bracket == RBRACE
    ensures Open([bracket] + k) == Some(Lex(if bracket == RBRACKET then RBracketTok else RBraceTok, k))
  {
    assert ([bracket] + k)[1..] == k;
  }

  /** A bracket is a token of its own. */
  lemma BracketToken(bracket: Unit, k: Text)
    requires bracket == LBRACKET || bracket == LBRACE
    ensures Open([bracket] + k) == Some(Lex(if bracket == LBRACKET then LBracketTok else LBraceTok, k))
  {
    assert ([bracket] + k)[1..] == k;
  }

  /** White space, if any, and then text that lexes, lexes. */
  lemma BlankLexes(ws: Text, x: Text)
    requires Blank(ws) && NextToken(x).Some?
    ensures NextToken(ws + x).Some?
  {
    if ws == [] {
      assert ws + x == x;
    } else {
      assert (ws + x)[0] == ws[0];
    }
  }

  /** The parser standing on a stringified value reads that value and stops right behind it. */
  lemma {:induction false} ValueBack(v: Json, gap: Text, indent: Text, l: Lex, k: Text)
    requires WellFormed(v) && Blank(gap) && Blank(indent) && MayFollow(k)
    requires SkipSpace(l) == Open(Stringify(v, gap, indent) + k)
    ensures ParseValue(l) == Ok(v, NextToken(k).value)
    decreases v, 2
  {
    StartsSolid(v, gap, indent);
    match v
    case Arr(items) => ArrayBack(items, gap, indent, l, k);
    case Obj(props) => ObjectBack(props, gap, indent, l, k);
    case _ => ScalarToken(v, gap, indent, k);
  }

  lemma OpensItems(l: Lex, n: Lex)
    requires SkipSpace(l).Some? && SkipSpace(l).value.tok.LBracketTok? && Advance(SkipSpace(l).value) == Some(n)
    ensures ParseValue(l) == ParseItems(n, [])
  {
    hide NextToken, SkipSpace;
  }

  lemma {:induction false} ArrayBack(items: seq<Json>, gap: Text, indent: Text, l: Lex, k: Text)
    requires WellFormed(Arr(items)) && Blank(gap) && Blank(indent) && MayFollow(k)
    requires SkipSpace(l) == Open(Stringify(Arr(items), gap, indent) + k)
    ensures ParseValue(l) == Ok(Arr(items), NextToken(k).value)
    decreases items, 1
  {
    var n := ArrayOpens(items, gap, indent, l, k);
    BreakIsBlank(gap, indent);
    assert forall i :: 0 <= i < |items| ==> WellFormed(items[i]);
    OpensItems(l, n);
    hide NextToken, WellFormed, WellFormedProps, Stringify, ParseMore, ParseProps, SkipSpace, ItemsText, Blank, Open, Closing;
    ItemsBack([], items, gap, indent + gap, indent, n, k);
    EmptyFirst(items);
  }

  /** Past the opening bracket the parser stands on the first item, or on the closing bracket. */
  lemma ArrayOpens(items: seq<Json>, gap: Text, indent: Text, l: Lex, k: Text) returns (n: Lex)
    requires WellFormed(Arr(items)) && Blank(gap) && Blank(indent)
    requires SkipSpace(l) == Open(Stringify(Arr(items), gap, indent) + k)
    ensures SkipSpace(l).Some? && SkipSpace(l).value.tok.LBracketTok? && Advance(SkipSpace(l).value) == Some(n)
    ensures SkipSpace(n) == Open(ItemsText(items, gap, indent + gap, true) + (Closing(gap, indent, RBRACKET) + k))
  {
    BreakIsBlank(gap, indent);
    ArrayText(items, gap, indent, k);
    if items != [] {
      FirstItem(items, gap, indent + gap, indent, k);
    }
    hide NextToken, SkipSpace, Open, Stringify, ItemsText, Closing, Break, Blank, WellFormed;
    if items == [] {
      n := OpensEmpty(gap, indent, LBRACKET, RBRACKET, k);
    } else {
      n := OpensFull(gap, indent + gap, LBRACKET, ItemsText(items, gap, indent + gap, true) + (Closing(gap, indent, RBRACKET) + k));
    }
  }

  /** The layout of an array, regrouped around what follows it. */
  lemma ArrayText(items: seq<Json>, gap: Text, indent: Text, k: Text)
    ensures var body := ItemsText(items, gap, indent + gap, true) + (Closing(gap, indent, RBRACKET) + k);
      && Stringify(Arr(items), gap, indent) + k ==
        [LBRACKET] + (if items == [] then [RBRACKET] + k else Break(gap, indent + gap) + body)
      && (items == [] ==> body == Closing(gap, indent, RBRACKET) + k)
  {
    var inner := indent + gap;
    Nested([LBRACKET], Break(gap, inner), ItemsText(items, gap, inner, true), Closing(gap, indent, RBRACKET), k);
    assert [LBRACKET, RBRACKET] + k == [LBRACKET] + ([RBRACKET] + k);
  }

  lemma Nested(a: Text, b: Text, c: Text, d: Text, k: Text)
    ensures a + (b + (c + d)) + k == a + (b + (c + (d + k)))
  {}

  lemma OpensEmpty(gap: Text, indent: Text, open: Unit, close: Unit, k: Text) returns (n: Lex)
    requires Blank(gap) && Blank(indent)
    requires (open == LBRACKET && close == RBRACKET) || (open == LBRACE && close == RBRACE)
    ensures NextToken([close] + k) == Some(n)
    ensures Open([open] + ([close] + k)) == Some(Lex(if open == LBRACKET then LBracketTok else LBraceTok, [close] + k))
    ensures SkipSpace(n) == Open(Closing(gap, indent, close) + k)
  {
    BracketToken(open, [close] + k);
    CloseBack(gap, indent, close, k);
    assert ([close] + k)[1..] == k;
    n := NextToken([close] + k).value;
  }

  lemma OpensFull(gap: Text, inner: Text, open: Unit, body: Text) returns (n: Lex)
    requires Blank(gap) && Blank(inner) && (open == LBRACKET || open == LBRACE)
    requires body != [] && !IsSpace(body[0]) && NextToken(body).Some?
    ensures NextToken(Break(gap, inner) + body) == Some(n)
    ensures Open([open] + (Break(gap, inner) + body)) ==
      Some(Lex(if open == LBRACKET then LBracketTok else LBraceTok, Break(gap, inner) + body))
    ensures SkipSpace(n) == Open(body)
  {
    var tail := Break(gap, inner) + body;
    BracketToken(open, tail);
    BreakIsBlank(gap, inner);
    SkipBlank(Break(gap, inner), body);
    BlankLexes(Break(gap, inner), body);
    n := NextToken(tail).value;
  }

  lemma FirstItem(items: seq<Json>, gap: Text, inner: Text, outer: Text, k: Text)
    requires items != [] && WellFormed(items[0])
    ensures var body := ItemsText(items, gap, inner, true) + (Closing(gap, outer, RBRACKET) + k);
      body != [] && !IsSpace(body[0]) && NextToken(body).Some?
  {
    hide NextToken, WellFormed, Closing, Stringify;
    var close := Closing(gap, outer, RBRACKET) + k;
    var rest := ItemsText(items[1..], gap, inner, false) + close;
    ItemSplit(items, gap, inner, close);
    ItemsMayFollow(items[1..], gap, inner, outer, k);
    StartsSolid(items[0], gap, inner);
    StartsToken(items[0], gap, inner, rest);
  }

  lemma ItemSplit(items: seq<Json>, gap: Text, indent: Text, close: Text)
    requires items != []
    ensures ItemsText(items, gap, indent, true) + close ==
      Stringify(items[0], gap, indent) + (ItemsText(items[1..], gap, indent, false) + close)
  {
    hide Stringify;
    var first, rest := Stringify(items[0], gap, indent), ItemsText(items[1..], gap, indent, false);
    EmptyFirst(first + rest);
    Assoc(first, rest, close);
  }

  lemma ItemsEnd(l: Lex, done: seq<Json>, k: Text)
    requires SkipSpace(l) == Some(Lex(RBracketTok, k)) && NextToken(k).Some?
    ensures ParseItems(l, done) == Ok(Arr(done), NextToken(k).value)
  {
    hide NextToken, ParseValue;
  }

  lemma ItemsStep(l: Lex, done: seq<Json>, c: Lex, v: Json, n: Lex)
    requires AtElement(l, done == [], c)
    requires !c.tok.RBracketTok? && ParseValue(c) == Ok(v, n)
    ensures ParseItems(l, done) == ParseItems(n, done + [v])
  {
    hide NextToken, SkipSpace;
  }

  /** The parser is about to read an element at `c`: it stands there, or on the comma before it. */
  predicate AtElement(l: Lex, first: bool, c: Lex) {
    var s := SkipSpace(l);
    s.Some? && if first then s.value == c else s.value.tok.CommaTok? && Past(s.value) == Some(c)
  }

  /** The array loop, standing behind `done` items with `items` to come. */
  lemma {:induction false} ItemsBack(done: seq<Json>, items: seq<Json>, gap: Text, indent: Text, outer: Text, l: Lex, k: Text)
    requires forall i :: 0 <= i < |items| ==> WellFormed(items[i])
    requires Blank(gap) && Blank(indent) && Blank(outer) && MayFollow(k)
    requires SkipSpace(l) == Open(ItemsText(items, gap, indent, done == []) + (Closing(gap, outer, RBRACKET) + k))
    ensures ParseItems(l, done) == Ok(Arr(done + items), NextToken(k).value)
    decreases items, 0
  {
    var close := Closing(gap, outer, RBRACKET) + k;
    if items == [] {
      assert ItemsText(items, gap, indent, done == []) + close == close;
      CloseBack(gap, outer, RBRACKET, k);
      ItemsEnd(l, done, k);
      assert done + items == done;
    } else {
      assert NextToken(k).Some?;
      var v, rest := items[0], items[1..];
      var after := ItemsText(rest, gap, indent, false) + close;
      ItemsMayFollow(rest, gap, indent, outer, k);
      var n := NextToken(after).value;
      hide NextToken, ParseValue, SkipSpace, WellFormed, WellFormedProps, Closing, Stringify, Blank;
      hide MayFollow, AtElement, Open, ItemsText;
      var c := NextItem(items, gap, indent, done == [], l, close);
      ValueBack(v, gap, indent, c, after);
      ItemsStep(l, done, c, v, n);
      assert done + [v] != [];
      ItemsBack(done + [v], rest, gap, indent, outer, n, k);
      Regroup(done, items);
    }
  }

  /** Past the comma, if one is due, the parser stands on the next item. */
  lemma NextItem(items: seq<Json>, gap: Text, indent: Text, first: bool, l: Lex, close: Text) returns (c: Lex)
    requires items != [] && WellFormed(items[0]) && Blank(gap) && Blank(indent)
    requires EndsNumber(ItemsText(items[1..], gap, indent, false) + close)
    requires SkipSpace(l) == Open(ItemsText(items, gap, indent, first) + close)
    ensures SkipSpace(c) == Some(c) == Open(Stringify(items[0], gap, indent) + (ItemsText(items[1..], gap, indent, false) + close))
    ensures !c.tok.RBracketTok?
    ensures AtElement(l, first, c)
  {
    hide NextToken, WellFormed, Stringify, Sep;
    var rest := ItemsText(items[1..], gap, indent, false) + close;
    var x := Stringify(items[0], gap, indent) + rest;
    StartsSolid(items[0], gap, indent);
    StartsToken(items[0], gap, indent, rest);
    assert ItemsText(items, gap, indent, first) + close == Sep(gap, indent, first) + x;
    OpenNext(gap, indent, first, l, Sep(gap, indent, first) + x, x);
    c := NextToken(x).value;
  }

  lemma CommaToken(k: Text)
    ensures Open([COMMA] + k) == Some(Lex(CommaTok, k))
  {
    assert ([COMMA] + k)[1..] == k;
  }

  /** Before the first element the parser already stands on it; before the others it stands on a comma. */
  lemma OpenNext(gap: Text, indent: Text, first: bool, l: Lex, t: Text, x: Text)
    requires Blank(gap) && Blank(indent) && x != [] && !IsSpace(x[0])
    requires NextToken(x).Some? && !NextToken(x).value.tok.Whitespace?
    requires t == Sep(gap, indent, first) + x
    requires SkipSpace(l) == Open(t)
    ensures first ==> SkipSpace(l) == NextToken(x)
    ensures !first ==> SkipSpace(l).Some? && SkipSpace(l).value.tok.CommaTok? && Past(SkipSpace(l).value) == NextToken(x)
  {
    if first {
      EmptyFirst(x);
    } else {
      var tail := Break(gap, indent) + x;
      BreakIsBlank(gap, indent);
      SepText(gap, indent, x);
      CommaToken(tail);
      hide NextToken, Break, Sep, Blank;
      SkipBlank(Break(gap, indent), x);
    }
  }

  lemma SepText(gap: Text, indent: Text, x: Text)
    ensures Sep(gap, indent, false) + x == [COMMA] + (Break(gap, indent) + x)
  {}

  // ---- Objects ----

  lemma OpensProps(l: Lex, n: Lex)
    requires SkipSpace(l).Some? && SkipSpace(l).value.tok.LBraceTok? && Advance(SkipSpace(l).value) == Some(n)
    ensures var none: seq<Prop> := []; ParseValue(l) == ParseMore(n, none, |none|)
  {
    hide NextToken, SkipSpace;
    assert ParseProps(n, []) == ParseMore(n, [], 0);
  }

  lemma {:induction false} ObjectBack(props: seq<Prop>, gap: Text, indent: Text, l: Lex, k: Text)
    requires WellFormed(Obj(props)) && Blank(gap) && Blank(indent) && MayFollow(k)
    requires SkipSpace(l) == Open(Stringify(Obj(props), gap, indent) + k)
    ensures ParseValue(l) == Ok(Obj(props), NextToken(k).value)
    decreases props, 1
  {
    var n := ObjectOpens(props, gap, indent, l, k);
    BreakIsBlank(gap, indent);
    assert WellFormedProps(props);
    OpensProps(l, n);
    hide NextToken, WellFormed, WellFormedProps, Stringify, ParseItems, ParseProps, SkipSpace, PropsText, Blank, Open, Closing;
    PropsBack([], props, gap, indent + gap, indent, n, k);
    EmptyFirst(props);
  }

  lemma ObjectOpens(props: seq<Prop>, gap: Text, indent: Text, l: Lex, k: Text) returns (n: Lex)
    requires WellFormed(Obj(props)) && Blank(gap) && Blank(indent)
    requires SkipSpace(l) == Open(Stringify(Obj(props), gap, indent) + k)
    ensures SkipSpace(l).Some? && SkipSpace(l).value.tok.LBraceTok? && Advance(SkipSpace(l).value) == Some(n)
    ensures SkipSpace(n) == Open(PropsText(props, gap, indent + gap, true) + (Closing(gap, indent, RBRACE) + k))
  {
    BreakIsBlank(gap, indent);
    ObjectText(props, gap, indent, k);
    if props != [] {
      FirstProp(props, gap, indent + gap, indent, k);
    }
    hide NextToken, SkipSpace, Open, Stringify, PropsText, Closing, Break, Blank, WellFormed;
    if props == [] {
      n := OpensEmpty(gap, indent, LBRACE, RBRACE, k);
    } else {
      n := OpensFull(gap, indent + gap, LBRACE, PropsText(props, gap, indent + gap, true) + (Closing(gap, indent, RBRACE) + k));
    }
  }

  /** The layout of an object, regrouped around what follows it. */
  lemma ObjectText(props: seq<Prop>, gap: Text, indent: Text, k: Text)
    ensures var body := PropsText(props, gap, indent + gap, true) + (Closing(gap, indent, RBRACE) + k);
      && Stringify(Obj(props), gap, indent) + k ==
        [LBRACE] + (if props == [] then [RBRACE] + k else Break(gap, indent + gap) + body)
      && (props == [] ==> body == Closing(gap, indent, RBRACE) + k)
  {
    var inner := indent + gap;
    Nested([LBRACE], Break(gap, inner), PropsText(props, gap, inner, true), Closing(gap, indent, RBRACE), k);
    assert [LBRACE, RBRACE] + k == [LBRACE] + ([RBRACE] + k);
  }

  lemma PropSplit(p: Prop, gap: Text, indent: Text, after: Text)
    ensures PropText(p, gap, indent) + after ==
      Quote(p.key) + ([COLON] + (Spacing(gap) + (Stringify(p.value, gap, indent) + after)))
  {}

  lemma FirstProp(props: seq<Prop>, gap: Text, inner: Text, outer: Text, k: Text)
    requires props != []
    ensures var body := PropsText(props, gap, inner, true) + (Closing(gap, outer, RBRACE) + k);
      body != [] && !IsSpace(body[0]) && NextToken(body).Some?
  {
    var close := Closing(gap, outer, RBRACE) + k;
    var p := props[0];
    var after := PropsText(props[1..], gap, inner, false) + close;
    var tail := [COLON] + (Spacing(gap) + (Stringify(p.value, gap, inner) + after));
    PropsSplit(props, gap, inner, close);
    PropSplit(p, gap, inner, after);
    hide NextToken, Stringify, PropsText, PropText, Closing, QuoteBody;
    QuoteToken(p.key, tail);
    assert (Quote(p.key) + tail)[0] == QUOTE;
  }

  lemma PropsSplit(props: seq<Prop>, gap: Text, indent: Text, close: Text)
    requires props != []
    ensures PropsText(props, gap, indent, true) + close ==
      PropText(props[0], gap, indent) + (PropsText(props[1..], gap, indent, false) + close)
  {
    hide PropText;
    var first, rest := PropText(props[0], gap, indent), PropsText(props[1..], gap, indent, false);
    EmptyFirst(first + rest);
    Assoc(first, rest, close);
  }

  /** Past the comma, if one is due, the parser stands on the next property's name. */
  lemma NextProp(props: seq<Prop>, gap: Text, indent: Text, first: bool, l: Lex, close: Text) returns (c: Lex)
    requires props != [] && Blank(gap) && Blank(indent)
    requires SkipSpace(l) == Open(PropsText(props, gap, indent, first) + close)
    ensures AtElement(l, first, c)
    ensures c == Lex(StringTok(props[0].key), [COLON] +
      (Spacing(gap) + (Stringify(props[0].value, gap, indent) + (PropsText(props[1..], gap, indent, false) + close))))
  {
    hide NextToken, Stringify, Sep;
    var after := PropsText(props[1..], gap, indent, false) + close;
    var x := PropText(props[0], gap, indent) + after;
    var tail := [COLON] + (Spacing(gap) + (Stringify(props[0].value, gap, indent) + after));
    assert PropsText(props, gap, indent, first) + close == Sep(gap, indent, first) + x;
    PropSplit(props[0], gap, indent, after);
    QuoteToken(props[0].key, tail);
    OpenNext(gap, indent, first, l, Sep(gap, indent, first) + x, x);
    c := NextToken(x).value;
  }

  /** Past the colon the parser stands on the property's value. */
  lemma ColonBack(gap: Text, x: Text, c: Lex) returns (d: Lex, b: Lex)
    requires Blank(gap) && x != [] && !IsSpace(x[0]) && NextToken(x).Some?
    requires c.rest == [COLON] + (Spacing(gap) + x)
    ensures Past(c) == Some(d) && d.tok.ColonTok? && Past(d) == Some(b) && SkipSpace(b) == Open(x)
  {
    BreakIsBlank(gap, []);
    var tail := Spacing(gap) + x;
    assert c.rest[1..] == tail;
    d := Lex(ColonTok, tail);
    SkipBlank(Spacing(gap), x);
    b := NextToken(x).value;
  }

  lemma MoreEnd(l: Lex, done: seq<Prop>, k: Text)
    requires SkipSpace(l) == Some(Lex(RBraceTok, k)) && NextToken(k).Some?
    ensures ParseMore(l, done, |done|) == Ok(Obj(done), NextToken(k).value)
  {
    hide NextToken, ParseValue;
  }

  lemma MoreStep(l: Lex, done: seq<Prop>, c: Lex, d: Lex, b: Lex, p: Prop, n: Lex)
    requires AtElement(l, done == [], c) && c.tok == StringTok(p.key)
    requires Past(c) == Some(d) && d.tok.ColonTok? && Past(d) == Some(b) && ParseValue(b) == Ok(p.value, n)
    requires !HasKey(done, p.key)
    ensures ParseMore(l, done, |done|) == ParseMore(n, done + [p], |done + [p]|)
  {
    PutNew(done, p.key, p.value);
    hide NextToken, SkipSpace, PutProp;
    assert ParseProp(c) == Ok(p, n);
  }

  lemma {:induction false} PutNew(props: seq<Prop>, key: Text, value: Json)
    requires !HasKey(props, key)
    ensures PutProp(props, key, value) == props + [Prop(key, value)]
  {
    if props != [] {
      assert props[0].key != key;
      assert !HasKey(props[1..], key);
      PutNew(props[1..], key, value);
      assert [props[0]] + (props[1..] + [Prop(key, value)]) == props + [Prop(key, value)];
    }
  }

  /** No name of `a` is a name of `b`. */
  ghost predicate KeysApart(a: seq<Prop>, b: seq<Prop>) {
    forall j :: 0 <= j < |b| ==> !HasKey(a, b[j].key)
  }

  lemma KeysStayApart(done: seq<Prop>, props: seq<Prop>)
    requires props != [] && KeysApart(done, props) && WellFormedProps(props)
    ensures KeysApart(done + [props[0]], props[1..]) && WellFormedProps(props[1..]) && WellFormed(props[0].value)
  {
    forall j | 0 <= j < |props[1..]| ensures !HasKey(done + [props[0]], props[1..][j].key) {
      assert props[1..][j] == props[j + 1] && !HasKey(done, props[j + 1].key);
    }
  }

  /** The object loop, standing behind `done` properties with `props` to come. */
  lemma {:induction false} PropsBack(done: seq<Prop>, props: seq<Prop>, gap: Text, indent: Text, outer: Text, l: Lex, k: Text)
    requires WellFormedProps(props) && KeysApart(done, props)
    requires Blank(gap) && Blank(indent) && Blank(outer) && MayFollow(k)
    requires SkipSpace(l) == Open(PropsText(props, gap, indent, done == []) + (Closing(gap, outer, RBRACE) + k))
    ensures ParseMore(l, done, |done|) == Ok(Obj(done + props), NextToken(k).value)
    decreases props, 0
  {
    var close := Closing(gap, outer, RBRACE) + k;
    if props == [] {
      assert PropsText(props, gap, indent, done == []) + close == close;
      CloseBack(gap, outer, RBRACE, k);
      MoreEnd(l, done, k);
      assert done + props == done;
    } else {
      assert NextToken(k).Some?;
      var p, rest := props[0], props[1..];
      var after := PropsText(rest, gap, indent, false) + close;
      var x := Stringify(p.value, gap, indent) + after;
      assert !HasKey(done, p.key);
      PropsMayFollow(rest, gap, indent, outer, k);
      KeysStayApart(done, props);
      StartsSolid(p.value, gap, indent);
      StartsToken(p.value, gap, indent, after);
      var n := NextToken(after).value;
      hide NextToken, ParseValue, SkipSpace, WellFormed, WellFormedProps, Closing, Stringify, Blank;
      hide MayFollow, AtElement, Open, PropsText, KeysApart, HasKey;
      var c := NextProp(props, gap, indent, done == [], l, close);
      var d, b := ColonBack(gap, x, c);
      ValueBack(p.value, gap, indent, b, after);
      MoreStep(l, done, c, d, b, p, n);
      Regroup(done, props);
      PropsBack(done + [p], rest, gap, indent, outer, n, k);
    }
  }

  /** The round trip: parsing the text of any well-formed tree, laid out with any white-space gap, gives the tree. */
  lemma ParseStringified(v: Json, gap: Text)
    requires WellFormed(v) && Blank(gap)
    ensures Parse(Stringify(v, gap, [])) == Some(v)
  {
    var t := Stringify(v, gap, []);
    assert t + [] == t;
    StartsToken(v, gap, [], []);
    ValueBack(v, gap, [], NextToken(t).value, []);
  }

  /** So stringified trees are told apart by their text, whatever the gaps. */
  lemma StringifyInjective(v: Json, w: Json, gap: Text, gap2: Text)
    requires WellFormed(v) && WellFormed(w) && Blank(gap) && Blank(gap2)
    requires Stringify(v, gap, []) == Stringify(w, gap2, [])
    ensures v == w
  {
    ParseStringified(v, gap);
    ParseStringified(w, gap2);
  }
}
