/** JSON.parse against the grammar of section 15.12.1 of ECMA-262 5.1, each text with the value it stands for. */
module JsonGrammar {
  import opened Wrappers
  import opened Characters
  import opened JsonText
  import opened JsonRoundTrip
  import opened JsonNumbers

  // ---- The grammar ----

  /** Units of the JSONStringCharacter in front. */
  function CharacterLength(t: Text): nat
    requires t != []
  {
    if t[0] != '\\' as int then 1 else if |t| > 1 && t[1] == 'u' as int then 6 else 2
  }

  /** Four digits that denote `c` in base 16. */
  ghost predicate Denotes(t: Text, c: Unit)
    requires |t| == 4
  {
    exists h: nat, i: nat, j: nat, k: nat ::
      && IsHexDigit(t[0], h) && IsHexDigit(t[1], i) && IsHexDigit(t[2], j) && IsHexDigit(t[3], k)
      && c == ((h * 16 + i) * 16 + j) * 16 + k
  }

  /** The letters of JSONEscapeCharacter and what they stand for. */
  predicate Stands(e: Unit, c: Unit) {
    || (e == '"' as int && c == '"' as int)
    || (e == '/' as int && c == '/' as int)
    || (e == '\\' as int && c == '\\' as int)
    || (e == 'b' as int && c == 8)
    || (e == 'f' as int && c == 12)
    || (e == 'n' as int && c == 10)
    || (e == 'r' as int && c == 13)
    || (e == 't' as int && c == 9)
  }

  /** A JSONStringCharacter that stands for `c` is in front: itself, an escape, or four hexadecimal digits. */
  ghost predicate StartsWith(t: Text, c: Unit)
    requires t != []
  {
    var n := CharacterLength(t);
    && n <= |t|
    && if n == 1 then t[0] == c && c != '"' as int && c >= 32
       else if n == 2 then Stands(t[1], c)
       else Denotes(t[2..6], c)
  }

  ghost predicate IsBody(t: Text, s: Text)
    decreases |t|
  {
    if t == [] then s == []
    else s != [] && StartsWith(t, s[0]) && IsBody(t[CharacterLength(t)..], s[1..])
  }

  ghost predicate IsString(t: Text, s: Text) {
    |t| >= 2 && t[0] == QUOTE && t[|t| - 1] == QUOTE && IsBody(t[1..|t| - 1], s)
  }

  predicate Enclosed(t: Text, open: Unit, close: Unit) {
    |t| >= 2 && t[0] == open && t[|t| - 1] == close
  }

  function Inside(t: Text): (s: Text)
    requires |t| >= 2
    ensures |s| < |t|
  {
    t[1..|t| - 1]
  }

  /** Properties put one after the other. */
  function PutAll(props: seq<Prop>, given: seq<Prop>): seq<Prop>
    decreases given
  {
    if given == [] then props else PutAll(PutProp(props, given[0].key, given[0].value), given[1..])
  }

  /** JSONValue; numbers may have superfluous zeros. */
  ghost predicate IsValue(t: Text, v: Json)
    decreases |t|, 0
  {
    match v
    case Null => t == NULL_TEXT
    case Bool(b) => t == if b then TRUE_TEXT else FALSE_TEXT
    case Num(l) => t == l && IsJsonNumber(WithoutExtraZeros(l))
    case Str(s) => IsString(t, s)
    case Arr(items) => Enclosed(t, LBRACKET, RBRACKET) && ((items == [] && Blank(Inside(t))) || Elements(Inside(t), items))
    case Obj(props) =>
      Enclosed(t, LBRACE, RBRACE) &&
      ((props == [] && Blank(Inside(t))) || exists given :: Members(Inside(t), given) && props == PutAll([], given))
  }

  /** JSONElementList: values with white space around them and commas between. */
  ghost predicate Elements(t: Text, items: seq<Json>)
    decreases |t|, 2
  {
    exists i: nat, j: nat :: Element(t, items, i, j)
  }

  /** The first element is between `i` and `j`. */
  ghost predicate Element(t: Text, items: seq<Json>, i: nat, j: nat)
    decreases |t|, 1
  {
    && items != [] && i < j <= |t|
    && Blank(t[..i]) && IsValue(t[i..j], items[0]) && MoreElements(t[j..], items[1..])
  }

  ghost predicate MoreElements(t: Text, items: seq<Json>)
    decreases |t|, 3
  {
    (items == [] && Blank(t)) || exists i: nat :: CommaAt(t, i) && Elements(t[i + 1..], items)
  }

  ghost predicate CommaAt(t: Text, i: nat) {
    i < |t| && t[i] == COMMA && Blank(t[..i])
  }

  /** JSONMemberList. */
  ghost predicate Members(t: Text, props: seq<Prop>)
    decreases |t|, 2
  {
    exists k: nat, i: nat, j: nat :: Member(t, props, k, i, j)
  }

  /** The first member has its colon at `k` and its value between `i` and `j`. */
  ghost predicate Member(t: Text, props: seq<Prop>, k: nat, i: nat, j: nat)
    decreases |t|, 1
  {
    && props != [] && k < i < j <= |t| && t[k] == COLON
    && IsName(t[..k], props[0].key) && Blank(t[k + 1..i])
    && IsValue(t[i..j], props[0].value) && MoreMembers(t[j..], props[1..])
  }

  ghost predicate MoreMembers(t: Text, props: seq<Prop>)
    decreases |t|, 3
  {
    (props == [] && Blank(t)) || exists i: nat :: CommaAt(t, i) && Members(t[i + 1..], props)
  }

  /** A string with white space around it. */
  ghost predicate IsName(t: Text, key: Text) {
    exists i: nat, j: nat :: NameAt(t, key, i, j)
  }

  ghost predicate NameAt(t: Text, key: Text, i: nat, j: nat) {
    i < j <= |t| && Blank(t[..i]) && IsString(t[i..j], key) && Blank(t[j..])
  }

  /** JSONText that stands for `v`. */
  ghost predicate IsJsonText(t: Text, v: Json) {
    exists i: nat, j: nat :: ValueAt(t, v, i, j)
  }

  ghost predicate ValueAt(t: Text, v: Json, i: nat, j: nat) {
    i < j <= |t| && Blank(t[..i]) && IsValue(t[i..j], v) && Blank(t[j..])
  }

  /** The characters that the names in this grammar stand for. */
  lemma Spelled(c: Unit)
    ensures [QUOTE, LBRACKET, RBRACKET, LBRACE, RBRACE, COMMA, COLON] ==
      ['"' as int, '[' as int, ']' as int, '{' as int, '}' as int, ',' as int, ':' as int]
    ensures [MINUS, PLUS, DOT, ZERO] == ['-' as int, '+' as int, '.' as int, '0' as int]
    ensures NULL_TEXT == ['n' as int, 'u' as int, 'l' as int, 'l' as int]
    ensures TRUE_TEXT == ['t' as int, 'r' as int, 'u' as int, 'e' as int]
    ensures FALSE_TEXT == ['f' as int, 'a' as int, 'l' as int, 's' as int, 'e' as int]
    ensures IsSpace(c) <==> c == 9 || c == 10 || c == 13 || c == 32
    ensures IsDigit(c) <==> '0' as int <= c <= '9' as int
  {}

  // ---- What the grammar has is read ----

  lemma DenotesExactly(t: Text, c: Unit)
    requires |t| == 4
    ensures Denotes(t, c) <==> HexValue4(t) == Some(c)
  {
    hide IsHexDigit, HexValue;
    if HexValue4(t) == Some(c) {
      var h, i, j, k := HexValue(t[0]).value, HexValue(t[1]).value, HexValue(t[2]).value, HexValue(t[3]).value;
      DigitsDenote(t, h, i, j, k);
    }
    if Denotes(t, c) {
      var h: nat, i: nat, j: nat, k: nat :|
        && IsHexDigit(t[0], h) && IsHexDigit(t[1], i) && IsHexDigit(t[2], j) && IsHexDigit(t[3], k)
        && c == ((h * 16 + i) * 16 + j) * 16 + k;
      DigitsDenote(t, h, i, j, k);
    }
  }

  lemma DigitsDenote(t: Text, h: nat, i: nat, j: nat, k: nat)
    requires |t| == 4
    ensures IsHexDigit(t[0], h) <==> HexValue(t[0]) == Some(h) && h < 16
    ensures IsHexDigit(t[1], i) <==> HexValue(t[1]) == Some(i) && i < 16
    ensures IsHexDigit(t[2], j) <==> HexValue(t[2]) == Some(j) && j < 16
    ensures IsHexDigit(t[3], k) <==> HexValue(t[3]) == Some(k) && k < 16
  {
    hide HexValue;
    HexValueExactly(t[0], h);
    HexValueExactly(t[1], i);
    HexValueExactly(t[2], j);
    HexValueExactly(t[3], k);
  }

  lemma StandsExactly(e: Unit, c: Unit)
    ensures Stands(e, c) <==> JsonText.Escape(e) == Some(c)
  {}


  lemma TakeFront(t: Text, n: nat, k: Text)
    requires n <= |t|
    ensures (t + k)[n..] == t[n..] + k && forall m :: 0 <= m < n ==> (t + k)[m] == t[m]
  {}

  lemma CharacterRead(t: Text, c: Unit, k: Text)
    requires t != [] && StartsWith(t, c) && k != []
    ensures ScanString(t + k) == Prepend(c, ScanString(t[CharacterLength(t)..] + k))
  {
    var n, all := CharacterLength(t), t + k;
    TakeFront(t, n, k);
    assert all[0] == t[0];
    if n == 6 {
      DenotesExactly(t[2..6], c);
      assert all[1] == t[1] && all[2..6] == t[2..6];
    } else if n == 2 {
      StandsExactly(t[1], c);
      assert all[1] == t[1];
    }
  }

  lemma {:induction false} BodyRead(t: Text, s: Text, k: Text)
    requires IsBody(t, s)
    ensures ScanString(t + ([QUOTE] + k)) == Scanned(s, k)
    decreases |t|
  {
    var rest := [QUOTE] + k;
    if t == [] {
      EmptyFirst(rest);
    } else {
      BodyRead(t[CharacterLength(t)..], s[1..], k);
      CharacterRead(t, s[0], rest);
      assert [s[0]] + s[1..] == s;
    }
  }

  lemma StringRead(t: Text, s: Text, k: Text)
    requires IsString(t, s)
    ensures NextToken(t + k) == Some(Lex(StringTok(s), k)) && t[0] == QUOTE
  {
    var body, all := t[1..|t| - 1], t + k;
    assert all[0] == QUOTE && all[1..] == body + ([QUOTE] + k);
    BodyRead(body, s, k);
    hide ScanString, IsBody;
    assert !(NULL_TEXT <= all) && !(FALSE_TEXT <= all) && !(TRUE_TEXT <= all);
  }

  lemma ScalarRead(t: Text, v: Json, k: Text)
    requires IsValue(t, v) && !v.Arr? && !v.Obj? && EndsNumber(k)
    ensures NextToken(t + k) == Some(Lex(ScalarTok(v), k))
  {
    if v.Str? {
      StringRead(t, v.s, k);
    } else {
      if v.Num? { AcceptedExactly(v.lexeme); }
      ScalarToken(v, [], [], k);
    }
  }

  lemma EnclosedSplit(t: Text, open: Unit, close: Unit, k: Text)
    requires Enclosed(t, open, close)
    ensures t + k == [open] + (Inside(t) + ([close] + k))
  {}

  /** A value's text starts with a token of its own. */
  lemma ValueLexes(t: Text, v: Json, k: Text)
    requires IsValue(t, v) && EndsNumber(k)
    ensures t != [] && !IsSpace(t[0]) && NextToken(t + k).Some?
    ensures var tok := NextToken(t + k).value.tok; !tok.Whitespace? && !tok.RBracketTok? && !tok.RBraceTok?
  {
    if v.Arr? || v.Obj? {
      assert (t + k)[0] == t[0];
    } else {
      ScalarRead(t, v, k);
      if v.Num? { AcceptedExactly(v.lexeme); }
    }
  }

  lemma Cut3(t: Text, i: nat, j: nat, k: Text)
    requires i <= j <= |t|
    ensures t + k == t[..i] + (t[i..j] + (t[j..] + k))
  {}

  lemma Cut2(t: Text, i: nat, k: Text)
    requires i < |t|
    ensures t + k == t[..i] + ([t[i]] + (t[i + 1..] + k))
  {}

  /** White space, and then perhaps a comma. */
  ghost predicate GoesOn(t: Text) {
    Blank(t) || exists i: nat :: CommaAt(t, i)
  }

  lemma ElementsGoOn(t: Text, items: seq<Json>)
    requires MoreElements(t, items)
    ensures GoesOn(t)
  {
    if !Blank(t) {
      var i: nat :| CommaAt(t, i) && Elements(t[i + 1..], items);
    }
  }

  lemma MembersGoOn(t: Text, props: seq<Prop>)
    requires MoreMembers(t, props)
    ensures GoesOn(t)
  {
    if !Blank(t) {
      var i: nat :| CommaAt(t, i) && Members(t[i + 1..], props);
    }
  }

  /** What follows an element lexes, and does not run into a number. */
  lemma MoreLexes(t: Text, close: Unit, k: Text)
    requires GoesOn(t) && (close == RBRACKET || close == RBRACE)
    ensures MayFollow(t + ([close] + k))
  {
    var all := t + ([close] + k);
    if t == [] {
      assert all[0] == close;
    } else if !Blank(t) {
      var i: nat :| CommaAt(t, i);
      assert all[0] == t[0] && (i > 0 ==> t[..i][0] == t[0]);
    } else {
      assert all[0] == t[0];
    }
  }

  lemma {:induction false} ValueRead(t: Text, v: Json, l: Lex, k: Text)
    requires IsValue(t, v) && MayFollow(k) && SkipSpace(l) == Open(t + k)
    ensures ParseValue(l) == Ok(v, NextToken(k).value)
    decreases |t|, 4
  {
    match v
    case Arr(items) => ArrayRead(t, items, l, k);
    case Obj(props) => ObjectRead(t, props, l, k);
    case _ => ScalarParsed(t, v, l, k);
  }

  lemma {:induction false} ScalarParsed(t: Text, v: Json, l: Lex, k: Text)
    requires !v.Arr? && !v.Obj? && IsValue(t, v) && MayFollow(k) && SkipSpace(l) == Open(t + k)
    ensures ParseValue(l) == Ok(v, NextToken(k).value)
  {
    assert EndsNumber(k) && NextToken(k).Some?;
    ScalarRead(t, v, k);
    hide NextToken, IsValue, Blank, EndsNumber, MayFollow, IsString;
    var x := Lex(ScalarTok(v), k);
    assert SkipSpace(x) == Some(x) && SkipSpace(l) == Some(x);
    assert Advance(x) == NextToken(k);
  }

  lemma {:induction false} ArrayRead(t: Text, items: seq<Json>, l: Lex, k: Text)
    requires IsValue(t, Arr(items)) && MayFollow(k) && SkipSpace(l) == Open(t + k)
    ensures ParseValue(l) == Ok(Arr(items), NextToken(k).value)
    decreases |t|, 3
  {
    var inner, x := Inside(t), Inside(t) + ([RBRACKET] + k);
    EnclosedSplit(t, LBRACKET, RBRACKET, k);
    BracketToken(LBRACKET, x);
    if items == [] && Blank(inner) {
      MoreLexes(inner, RBRACKET, k);
      OpensItems(l, NextToken(x).value);
      BlankClose(inner, RBRACKET, k);
      ItemsEnd(NextToken(x).value, [], k);
    } else {
      ElementsLex(inner, items, [RBRACKET] + k);
      var n := NextToken(x).value;
      OpensItems(l, n);
      var c := Open(x).value;
      ElementsRead(inner, items, [], c, k);
      ItemsStep(n, [], c, items[0], FirstRead(c));
      assert [] + items == items && [] + [items[0]] == [items[0]];
    }
  }

  /** Where the parser stands behind the value at `c`. */
  function FirstRead(c: Lex): Lex
    requires ParseValue(c).Ok?
  {
    ParseValue(c).lex
  }

  lemma BlankClose(ws: Text, close: Unit, k: Text)
    requires Blank(ws) && (close == RBRACKET || close == RBRACE)
    ensures Open(ws + ([close] + k)) == Some(Lex(if close == RBRACKET then RBracketTok else RBraceTok, k))
  {
    ClosingToken(close, k);
    SkipBlank(ws, [close] + k);
  }

  lemma ElementsLex(t: Text, items: seq<Json>, k: Text)
    requires Elements(t, items) && EndsNumber(k)
    ensures NextToken(t + k).Some? && Open(t + k).Some?
    ensures var c := Open(t + k).value; SkipSpace(c) == Some(c) && !c.tok.RBracketTok?
  {
    var i: nat, j: nat :| Element(t, items, i, j);
    var x := t[i..j] + (t[j..] + k);
    Cut3(t, i, j, k);
    ElementsGoOn(t[j..], items[1..]);
    MoreEnds(t[j..], k);
    ValueLexes(t[i..j], items[0], t[j..] + k);
    assert x[0] == t[i..j][0];
    BlankLexes(t[..i], x);
    SkipBlank(t[..i], x);
  }

  lemma MoreEnds(t: Text, k: Text)
    requires GoesOn(t) && EndsNumber(k)
    ensures EndsNumber(t + k)
  {
    if t != [] {
      assert (t + k)[0] == t[0];
      if i: nat :| CommaAt(t, i) {
        assert i > 0 ==> t[..i][0] == t[0];
      }
    } else {
      assert t + k == k;
    }
  }

  /** Standing on the first of some elements. */
  lemma {:induction false} ElementsRead(t: Text, items: seq<Json>, done: seq<Json>, c: Lex, k: Text)
    requires Elements(t, items) && MayFollow(k) && Open(t + ([RBRACKET] + k)) == Some(c)
    ensures items != [] && ParseValue(c).Ok? && ParseValue(c).value == items[0]
    ensures ParseItems(FirstRead(c), done + [items[0]]) == Ok(Arr(done + items), NextToken(k).value)
    decreases |t|, 6
  {
    var i: nat, j: nat :| Element(t, items, i, j);
    var after := t[j..] + ([RBRACKET] + k);
    ElementsGoOn(t[j..], items[1..]);
    MoreLexes(t[j..], RBRACKET, k);
    Cut3(t, i, j, [RBRACKET] + k);
    ValueOpens(t[..i], t[i..j], items[0], after);
    assert NextToken(after).Some? && SkipSpace(c) == Open(t[i..j] + after);
    hide NextToken, SkipSpace, ParseValue, ParseItems, Open, MayFollow, IsValue, Elements, MoreElements, Blank;
    ValueRead(t[i..j], items[0], c, after);
    MoreRead(t[j..], items[1..], done + [items[0]], NextToken(after).value, k);
    Regroup(done, items);
  }

  /** White space before a value. */
  lemma ValueOpens(ws: Text, t: Text, v: Json, k: Text)
    requires Blank(ws) && IsValue(t, v) && EndsNumber(k)
    ensures NextToken(ws + (t + k)).Some? && Open(ws + (t + k)) == Open(t + k) == NextToken(t + k)
    ensures NextToken(t + k).Some? && !NextToken(t + k).value.tok.Whitespace?
  {
    ValueLexes(t, v, k);
    assert (t + k)[0] == t[0];
    BlankLexes(ws, t + k);
    SkipBlank(ws, t + k);
  }

  /** Standing behind an element. */
  lemma {:induction false} MoreRead(t: Text, items: seq<Json>, done: seq<Json>, l: Lex, k: Text)
    requires MoreElements(t, items) && done != [] && MayFollow(k) && SkipSpace(l) == Open(t + ([RBRACKET] + k))
    ensures ParseItems(l, done) == Ok(Arr(done + items), NextToken(k).value)
    decreases |t|, 7
  {
    var close := [RBRACKET] + k;
    if items == [] && Blank(t) {
      BlankClose(t, RBRACKET, k);
      ItemsEnd(l, done, k);
      assert done + items == done;
    } else {
      var i: nat :| CommaAt(t, i) && Elements(t[i + 1..], items);
      var x := t[i + 1..] + close;
      Cut2(t, i, close);
      SkipBlank(t[..i], [COMMA] + x);
      CommaToken(x);
      ElementsLex(t[i + 1..], items, close);
      var c := Open(x).value;
      ElementsRead(t[i + 1..], items, done, c, k);
      ItemsStep(l, done, c, items[0], FirstRead(c));
    }
  }

  lemma {:induction false} ObjectRead(t: Text, props: seq<Prop>, l: Lex, k: Text)
    requires IsValue(t, Obj(props)) && MayFollow(k) && SkipSpace(l) == Open(t + k)
    ensures ParseValue(l) == Ok(Obj(props), NextToken(k).value)
    decreases |t|, 3
  {
    var inner, x := Inside(t), Inside(t) + ([RBRACE] + k);
    EnclosedSplit(t, LBRACE, RBRACE, k);
    BracketToken(LBRACE, x);
    if props == [] && Blank(inner) {
      MoreLexes(inner, RBRACE, k);
      OpensProps(l, NextToken(x).value);
      BlankClose(inner, RBRACE, k);
      MoreEnd(NextToken(x).value, [], k);
    } else {
      var given :| Members(inner, given) && props == PutAll([], given);
      MembersLex(inner, given, [RBRACE] + k);
      var n := NextToken(x).value;
      OpensProps(l, n);
      var c := Open(x).value;
      MembersRead(inner, given, [], 0, c, n, k);
    }
  }

  lemma NameLexes(t: Text, key: Text, x: Text)
    requires IsName(t, key)
    ensures NextToken(t + ([COLON] + x)).Some? && Open(t + ([COLON] + x)).Some?
    ensures var c := Open(t + ([COLON] + x)).value; c.tok == StringTok(key) && Past(c) == Some(Lex(ColonTok, x))
  {
    var i: nat, j: nat :| NameAt(t, key, i, j);
    Cut3(t, i, j, [COLON] + x);
    StringOpens(t[..i], t[i..j], key, t[j..] + ([COLON] + x));
    ColonToken(x);
    hide IsString, NextToken, Blank;
    SkipBlank(t[j..], [COLON] + x);
  }

  lemma StringOpens(ws: Text, t: Text, key: Text, k: Text)
    requires Blank(ws) && IsString(t, key)
    ensures NextToken(ws + (t + k)).Some? && Open(ws + (t + k)) == Some(Lex(StringTok(key), k))
  {
    StringRead(t, key, k);
    assert (t + k)[0] == t[0];
    hide IsString, NextToken, Blank;
    BlankLexes(ws, t + k);
    SkipBlank(ws, t + k);
  }

  lemma ColonToken(k: Text)
    ensures Open([COLON] + k) == Some(Lex(ColonTok, k))
  {
    assert ([COLON] + k)[1..] == k;
  }

  lemma MembersLex(t: Text, props: seq<Prop>, k: Text)
    requires Members(t, props)
    ensures NextToken(t + k).Some? && Open(t + k).Some? && Open(t + k).value.tok.StringTok?
  {
    var m: nat, i: nat, j: nat :| Member(t, props, m, i, j);
    Cut2(t, m, k);
    NameLexes(t[..m], props[0].key, t[m + 1..] + k);
  }

  /** From the name of the first member to its value. */
  lemma MemberOpens(t: Text, props: seq<Prop>, m: nat, i: nat, j: nat, c: Lex, k: Text) returns (d: Lex, b: Lex)
    requires Member(t, props, m, i, j) && NextToken(k).Some? && Open(t + ([RBRACE] + k)) == Some(c)
    ensures c.tok == StringTok(props[0].key) && Past(c) == Some(d) && d.tok.ColonTok? && Past(d) == Some(b)
    ensures SkipSpace(b) == Open(t[i..j] + (t[j..] + ([RBRACE] + k)))
    ensures MayFollow(t[j..] + ([RBRACE] + k))
  {
    var close := [RBRACE] + k;
    var after := t[j..] + close;
    MembersGoOn(t[j..], props[1..]);
    MoreLexes(t[j..], RBRACE, k);
    Cut2(t, m, close);
    NameLexes(t[..m], props[0].key, t[m + 1..] + close);
    CutValue(t, m, i, j, close);
    ValueOpens(t[m + 1..i], t[i..j], props[0].value, after);
    d, b := Lex(ColonTok, t[m + 1..] + close), NextToken(t[i..j] + after).value;
  }

  /** Standing on the first of some members, by way of `l`. */
  lemma {:induction false} MembersRead(t: Text, props: seq<Prop>, done: seq<Prop>, count: nat, c: Lex, l: Lex, k: Text)
    requires Members(t, props) && MayFollow(k) && Open(t + ([RBRACE] + k)) == Some(c) && AtElement(l, count == 0, c)
    ensures ParseMore(l, done, count) == Ok(Obj(PutAll(done, props)), NextToken(k).value)
    decreases |t|, 6
  {
    var m: nat, i: nat, j: nat :| Member(t, props, m, i, j);
    var after := t[j..] + ([RBRACE] + k);
    var d, b := MemberOpens(t, props, m, i, j, c, k);
    assert NextToken(after).Some?;
    hide NextToken, SkipSpace, ParseValue, ParseMore, ParseProp, Open, MayFollow, IsValue, Members, MoreMembers, Blank, AtElement, Past, IsName;
    ValueRead(t[i..j], props[0].value, b, after);
    var n, next: nat := NextToken(after).value, count + 1;
    MoreMembersRead(t[j..], props[1..], PutProp(done, props[0].key, props[0].value), next, n, k);
    PropRead(c, d, b, props[0], n);
    PropStep(l, done, count, next, c, props[0], n);
    PutFirst(done, props);
  }

  lemma PutFirst(done: seq<Prop>, props: seq<Prop>)
    requires props != []
    ensures PutAll(done, props) == PutAll(PutProp(done, props[0].key, props[0].value), props[1..])
  {
  }

  lemma PropRead(c: Lex, d: Lex, b: Lex, p: Prop, n: Lex)
    requires c.tok == StringTok(p.key) && Past(c) == Some(d) && d.tok.ColonTok? && Past(d) == Some(b)
    requires ParseValue(b) == Ok(p.value, n)
    ensures ParseProp(c) == Ok(p, n)
  {
    hide NextToken, SkipSpace;
  }

  lemma CutValue(t: Text, m: nat, i: nat, j: nat, k: Text)
    requires m < i <= j <= |t|
    ensures t[m + 1..] + k == t[m + 1..i] + (t[i..j] + (t[j..] + k))
  {}

  lemma PropStep(l: Lex, done: seq<Prop>, count: nat, next: nat, c: Lex, p: Prop, n: Lex)
    requires next == count + 1
    requires AtElement(l, count == 0, c) && c.tok.StringTok? && ParseProp(c) == Ok(p, n)
    ensures ParseMore(l, done, count) == ParseMore(n, PutProp(done, p.key, p.value), next)
  {
    hide NextToken, SkipSpace, PutProp, ParseProp;
  }

  lemma {:induction false} MoreMembersRead(t: Text, props: seq<Prop>, done: seq<Prop>, count: nat, l: Lex, k: Text)
    requires MoreMembers(t, props) && count > 0 && MayFollow(k) && SkipSpace(l) == Open(t + ([RBRACE] + k))
    ensures ParseMore(l, done, count) == Ok(Obj(PutAll(done, props)), NextToken(k).value)
    decreases |t|, 7
  {
    var close := [RBRACE] + k;
    if props == [] && Blank(t) {
      BlankClose(t, RBRACE, k);
      CloseMore(l, done, count, k);
    } else {
      var i: nat :| CommaAt(t, i) && Members(t[i + 1..], props);
      var x := t[i + 1..] + close;
      Cut2(t, i, close);
      SkipBlank(t[..i], [COMMA] + x);
      CommaToken(x);
      MembersLex(t[i + 1..], props, close);
      MembersRead(t[i + 1..], props, done, count, Open(x).value, l, k);
    }
  }

  lemma CloseMore(l: Lex, done: seq<Prop>, count: nat, k: Text)
    requires SkipSpace(l) == Some(Lex(RBraceTok, k)) && NextToken(k).Some?
    ensures ParseMore(l, done, count) == Ok(Obj(done), NextToken(k).value)
  {
    hide NextToken, ParseValue;
  }

  /** Every text of the grammar is parsed to what it stands for. */
  lemma TextRead(t: Text, v: Json)
    requires IsJsonText(t, v)
    ensures Parse(t) == Some(v)
  {
    var i: nat, j: nat :| ValueAt(t, v, i, j);
    var ws := t[j..];
    Cut3(t, i, j, []);
    assert t + [] == t && ws + [] == ws;
    WhiteSpaceEnds(ws);
    ValueOpens(t[..i], t[i..j], v, ws);
    ValueRead(t[i..j], v, NextToken(t).value, ws);
    ParseEnds(t, v, ws);
  }

  lemma WhiteSpaceEnds(ws: Text)
    requires Blank(ws)
    ensures MayFollow(ws) && Open(ws) == Some(Lex(Eof, []))
  {
    BlankLexes(ws, []);
    SkipBlank(ws, []);
    assert ws + [] == ws;
  }

  lemma ParseEnds(t: Text, v: Json, ws: Text)
    requires Blank(ws) && NextToken(t).Some? && NextToken(ws).Some? && ParseValue(NextToken(t).value) == Ok(v, NextToken(ws).value)
    ensures Parse(t) == Some(v)
  {
    WhiteSpaceEnds(ws);
    hide NextToken, SkipSpace, ParseValue;
  }

  // ---- Properties of the same name ----

  /** Which property first has this name. */
  function First(given: seq<Prop>, key: Text): (n: nat)
    ensures n <= |given|
  {
    if given == [] || given[0].key == key then 0 else 1 + First(given[1..], key)
  }

  /** What the last property of this name holds. */
  function Last(given: seq<Prop>, key: Text): Option<Json> {
    if given == [] then None
    else if given[|given| - 1].key == key then Some(given[|given| - 1].value)
    else Last(given[..|given| - 1], key)
  }

  /** `props` has every name once, in the order of first mention, each with the value of its last mention. */
  ghost predicate LaterWins(given: seq<Prop>, props: seq<Prop>) {
    && (forall key :: HasKey(props, key) <==> HasKey(given, key))
    && (forall i, j :: 0 <= i < j < |props| ==> First(given, props[i].key) < First(given, props[j].key))
    && (forall i :: 0 <= i < |props| ==> Last(given, props[i].key) == Some(props[i].value))
  }

  lemma {:induction false} FirstAppend(given: seq<Prop>, p: Prop, key: Text)
    ensures HasKey(given, key) <==> First(given, key) < |given|
    ensures First(given + [p], key) == if HasKey(given, key) || p.key == key then First(given, key) else |given| + 1
  {
    var all := given + [p];
    if given == [] {
      assert all[0] == p && First(all[1..], key) == 0;
    } else {
      assert all[0] == given[0] && all[1..] == given[1..] + [p];
      FirstAppend(given[1..], p, key);
      if HasKey(given[1..], key) {
        var i :| 0 <= i < |given[1..]| && given[1..][i].key == key;
        assert given[i + 1].key == key;
      }
      if HasKey(given, key) && given[0].key != key {
        var i :| 0 <= i < |given| && given[i].key == key;
        assert given[1..][i - 1].key == key;
      }
    }
  }

  lemma LastAppend(given: seq<Prop>, p: Prop, key: Text)
    ensures Last(given + [p], key) == if p.key == key then Some(p.value) else Last(given, key)
    ensures HasKey(given + [p], key) <==> HasKey(given, key) || p.key == key
  {
    var all := given + [p];
    assert all[|given|] == p && all[..|given|] == given;
    if HasKey(given, key) {
      var i :| 0 <= i < |given| && given[i].key == key;
      assert all[i].key == key;
    }
  }

  /** A put overwrites where the name stands, or appends. */
  lemma {:induction false} PutShape(props: seq<Prop>, p: Prop) returns (i: nat)
    ensures i <= |props| && (i < |props| ==> props[i].key == p.key)
    ensures !HasKey(props[..i], p.key)
    ensures PutProp(props, p.key, p.value) == PutAt(props, p, i)
  {
    if props == [] || props[0].key == p.key {
      i := 0;
    } else {
      var j := PutShape(props[1..], p);
      i := j + 1;
      forall m | 0 <= m < i ensures props[..i][m].key != p.key {
        assert m > 0 ==> props[..i][m] == props[1..][..j][m - 1];
      }
    }
  }

  lemma PutStep(given: seq<Prop>, props: seq<Prop>, p: Prop)
    requires LaterWins(given, props)
    ensures LaterWins(given + [p], PutProp(props, p.key, p.value))
  {
    var n := PutShape(props, p);
    hide PutProp, First, Last, HasKey;
    PutSameNames(given, props, p, n);
    PutLastValues(given, props, p, n);
    PutFirstPlaces(given, props, p, n);
  }

  function PutAt(props: seq<Prop>, p: Prop, n: nat): seq<Prop> {
    if n < |props| then props[n := p] else props + [p]
  }

  lemma PutSameNames(given: seq<Prop>, props: seq<Prop>, p: Prop, n: nat)
    requires forall key :: HasKey(props, key) <==> HasKey(given, key)
    requires n <= |props| && (n < |props| ==> props[n].key == p.key)
    ensures forall key :: HasKey(PutAt(props, p, n), key) <==> HasKey(given + [p], key)
  {
    forall key ensures HasKey(PutAt(props, p, n), key) <==> HasKey(given + [p], key) {
      LastAppend(given, p, key);
      PutKeys(props, p, n, key);
    }
  }

  lemma PutLastValues(given: seq<Prop>, props: seq<Prop>, p: Prop, n: nat)
    requires LaterWins(given, props) && n <= |props| && !HasKey(props[..n], p.key) && (n < |props| ==> props[n].key == p.key)
    ensures var put := PutAt(props, p, n);
      forall i :: 0 <= i < |put| ==> Last(given + [p], put[i].key) == Some(put[i].value)
  {
    var put := PutAt(props, p, n);
    forall i | 0 <= i < |put| ensures Last(given + [p], put[i].key) == Some(put[i].value) {
      LastAppend(given, p, put[i].key);
      if i != n {
        PutOnce(given, props, p, n, i);
      }
    }
  }

  lemma PutFirstPlaces(given: seq<Prop>, props: seq<Prop>, p: Prop, n: nat)
    requires LaterWins(given, props) && n <= |props| && !HasKey(props[..n], p.key) && (n < |props| ==> props[n].key == p.key)
    ensures var put := PutAt(props, p, n);
      forall i, j :: 0 <= i < j < |put| ==> First(given + [p], put[i].key) < First(given + [p], put[j].key)
  {
    var put := PutAt(props, p, n);
    forall i, j | 0 <= i < j < |put| ensures First(given + [p], put[i].key) < First(given + [p], put[j].key) {
      Named(given, props, i);
      assert put[i].key == props[i].key;
      FirstAppend(given, p, put[i].key);
      FirstAppend(given, p, put[j].key);
      if j < |props| {
        Named(given, props, j);
        assert put[j].key == props[j].key;
      } else {
        assert props[..n] == props;
        assert !HasKey(given, p.key);
      }
    }
  }

  lemma Named(given: seq<Prop>, props: seq<Prop>, i: nat)
    requires LaterWins(given, props) && i < |props|
    ensures HasKey(given, props[i].key)
  {
    assert HasKey(props, props[i].key);
  }

  lemma PutKeys(props: seq<Prop>, p: Prop, n: nat, key: Text)
    requires n <= |props| && (n < |props| ==> props[n].key == p.key)
    ensures HasKey(PutAt(props, p, n), key) <==> HasKey(props, key) || key == p.key
  {
    var put := PutAt(props, p, n);
    assert put[n].key == p.key;
    if HasKey(props, key) {
      var i :| 0 <= i < |props| && props[i].key == key;
      assert put[i].key == key;
    }
  }

  /** No name stands twice. */
  lemma PutOnce(given: seq<Prop>, props: seq<Prop>, p: Prop, n: nat, i: nat)
    requires LaterWins(given, props) && n <= |props| && !HasKey(props[..n], p.key) && i < |props| && i != n
    requires n < |props| ==> props[n].key == p.key
    ensures props[i].key != p.key
  {
    if i < n {
      assert props[..n][i] == props[i];
    }
  }

  lemma {:induction false} PutAllStep(done: seq<Prop>, props: seq<Prop>, given: seq<Prop>)
    requires LaterWins(done, props)
    ensures LaterWins(done + given, PutAll(props, given))
    decreases |given|
  {
    if given == [] {
      assert done + given == done;
    } else {
      PutStep(done, props, given[0]);
      assert Prop(given[0].key, given[0].value) == given[0];
      hide LaterWins, PutProp;
      PutAllStep(done + [given[0]], PutProp(props, given[0].key, given[0].value), given[1..]);
      Regroup(done, given);
    }
  }

  /** Of properties with one name the first says where it stands and the last what it holds. */
  lemma LastValueFirstPlace(given: seq<Prop>)
    ensures LaterWins(given, PutAll([], given))
  {
    assert LaterWins([], []);
    PutAllStep([], [], given);
    EmptyFirst(given);
  }

  // ---- What is read the grammar has ----

  lemma {:induction false} SpacesBlank(s: Text)
    ensures Blank(s[..Spaces(s)])
  {
    if s != [] && IsSpace(s[0]) {
      SpacesBlank(s[1..]);
      assert forall m :: 0 < m < Spaces(s) ==> s[..Spaces(s)][m] == s[1..][..Spaces(s[1..])][m - 1];
    }
  }

  lemma BlankJoin(s: Text, i: nat, j: nat)
    requires i <= j <= |s| && Blank(s[..i]) && Blank(s[i..j])
    ensures Blank(s[..j])
  {
    forall m | 0 <= m < j ensures IsSpace(s[..j][m]) {
      assert s[..j][m] == if m < i then s[..i][m] else s[i..j][m - i];
    }
  }

  /** The token found behind white space. */
  lemma {:induction false} OpenDerived(s: Text) returns (i: nat)
    requires Open(s).Some?
    ensures i <= |s| && Blank(s[..i]) && NextToken(s[i..]) == Open(s)
    decreases |s|
  {
    if !NextToken(s).value.tok.Whitespace? {
      i := 0;
      assert s[0..] == s;
    } else {
      var m := SpaceToken(s);
      hide NextToken, Blank, SkipSpace;
      var n := OpenDerived(s[m..]);
      i := m + n;
      assert s[m..][n..] == s[i..] && s[m..][..n] == s[m..i];
      BlankJoin(s, m, i);
    }
  }

  lemma SpaceToken(s: Text) returns (m: nat)
    requires Open(s).Some? && NextToken(s).value.tok.Whitespace?
    ensures 0 < m <= |s| && Blank(s[..m]) && Open(s) == Open(s[m..])
  {
    m := 1 + Spaces(s[1..]);
    SpacesBlank(s[1..]);
    forall x | 0 <= x < m ensures IsSpace(s[..m][x]) {
      assert x > 0 ==> s[..m][x] == s[1..][..m - 1][x - 1];
    }
  }

  lemma {:induction false} BodyDerived(s: Text) returns (m: nat)
    requires ScanString(s).Scanned?
    ensures m < |s| && s[m] == QUOTE && ScanString(s).rest == s[m + 1..] && IsBody(s[..m], ScanString(s).text)
    decreases |s|
  {
    if s[0] == QUOTE {
      m := 0;
      assert s[..0] == [];
    } else {
      var n := CharacterLength(s);
      var r := BodyDerived(s[n..]);
      m := n + r;
      BodyCuts(s, n, r, m);
      CharacterDerived(s);
      BodyStep(s, m, ScanString(s).text);
    }
  }

  lemma BodyCuts(s: Text, n: nat, r: nat, m: nat)
    requires m == n + r < |s|
    ensures s[n..][r + 1..] == s[m + 1..] && s[n..m] == s[n..][..r] && s[n..][r] == s[m]
  {}

  lemma CharacterDerived(s: Text)
    requires ScanString(s).Scanned? && s[0] != QUOTE
    ensures var x := ScanString(s).text; x != [] && StartsWith(s, x[0])
  {
    var x := ScanString(s).text;
    if CharacterLength(s) == 6 {
      DenotesExactly(s[2..6], x[0]);
    } else if CharacterLength(s) == 2 {
      StandsExactly(s[1], x[0]);
    }
  }

  lemma BodyStep(s: Text, m: nat, x: Text)
    requires 0 < m <= |s| && x != [] && CharacterLength(s) <= m && StartsWith(s, x[0])
    requires IsBody(s[CharacterLength(s)..m], x[1..])
    ensures IsBody(s[..m], x)
  {
    var t, n := s[..m], CharacterLength(s);
    assert t[0] == s[0] && (m > 1 ==> t[1] == s[1]);
    if m >= 6 {
      DigitsOf(s, m);
    }
    assert t[n..] == s[n..m];
  }

  lemma DigitsOf(s: Text, m: nat)
    requires 6 <= m <= |s|
    ensures s[..m][2..6] == s[2..6]
  {}

  lemma {:induction false} DigitsTake(s: Text, n: nat)
    requires Digits(s) <= n <= |s|
    ensures Digits(s[..n]) == Digits(s)
  {
    if s != [] && IsDigit(s[0]) {
      assert s[..n][1..] == s[1..][..n - 1];
      DigitsTake(s[1..], n - 1);
    }
  }

  /** The number branch depends on nothing behind the number. */
  lemma NumberTake(s: Text)
    requires s != [] && (s[0] == MINUS || IsDigit(s[0])) && NumberEnd(s).Some?
    ensures IsNumber(s[..NumberEnd(s).value])
  {
    var n := NumberEnd(s).value;
    var whole := 1 + Digits(s[1..]);
    TakeDrop(s, n);
    DigitsTake(s[1..], n - 1);
    hide FractionEnd, ExponentEnd, Digits;
    FractionTake(s, whole, n);
    ExponentTake(s, FractionEnd(s, whole).value);
  }

  lemma TakeDrop(s: Text, n: nat)
    requires 1 <= n <= |s|
    ensures s[..n][1..] == s[1..][..n - 1]
  {}

  lemma FractionTake(s: Text, i: nat, n: nat)
    requires i <= |s| && FractionEnd(s, i).Some? && FractionEnd(s, i).value <= n <= |s|
    ensures FractionEnd(s[..n], i) == FractionEnd(s, i)
  {
    if i < |s| && s[i] == DOT {
      assert s[..n][i + 1..] == s[i + 1..][..n - i - 1];
      DigitsTake(s[i + 1..], n - i - 1);
    }
  }

  lemma ExponentTake(s: Text, i: nat)
    requires i <= |s| && ExponentEnd(s, i).Some?
    ensures ExponentEnd(s[..ExponentEnd(s, i).value], i) == ExponentEnd(s, i)
  {
    if i < |s| && (s[i] == 101 || s[i] == 69) {
      var n := ExponentEnd(s, i).value;
      var j := if s[i + 1] == MINUS || s[i + 1] == PLUS then i + 2 else i + 1;
      assert s[..n][j..] == s[j..][..n - j];
      DigitsTake(s[j..], n - j);
    }
  }

  /** A token that is a value on its own. */
  lemma ScalarDerived(s: Text, x: Lex) returns (m: nat, v: Json)
    requires NextToken(s) == Some(x) && (x.tok.StringTok? || x.tok.NumberTok? || x.tok.NullTok? || x.tok.FalseTok? || x.tok.TrueTok?)
    ensures 0 < m <= |s| && x.rest == s[m..] && IsValue(s[..m], v) && !v.Arr? && !v.Obj? && ScalarTok(v) == x.tok
  {
    match x.tok
    case StringTok(t) =>
      m := StringDerived(s);
      v := Str(t);
    case NumberTok(l) =>
      NumberTake(s);
      AcceptedExactly(l);
      m, v := |l|, Num(l);
    case NullTok => m, v := 4, Null;
    case FalseTok => m, v := 5, Bool(false);
    case TrueTok => m, v := 4, Bool(true);
  }

  lemma StringDerived(s: Text) returns (m: nat)
    requires NextToken(s).Some? && NextToken(s).value.tok.StringTok?
    ensures 0 < m <= |s| && NextToken(s).value.rest == s[m..] && IsString(s[..m], NextToken(s).value.tok.s)
  {
    var b := BodyDerived(s[1..]);
    m := b + 2;
    assert s[1..][b + 1..] == s[m..] && s[..m][1..m - 1] == s[1..][..b] && s[..m][m - 1] == s[1..][b];
  }

  // Ends of cuts are passed along with their sums.

  lemma DropDrop(s: Text, i: nat, a: nat, p: nat)
    requires p == i + a <= |s|
    ensures s[i..][a..] == s[p..]
  {}

  lemma DropSlice(s: Text, i: nat, a: nat, b: nat, p: nat, q: nat)
    requires a <= b && p == i + a && q == i + b <= |s|
    ensures s[i..][a..b] == s[p..q]
  {}

  /** Brackets, commas and colons are where their tokens are. */
  lemma PunctuatorAt(t: Text, x: Lex)
    requires NextToken(t) == Some(x)
    ensures (x.tok.LBracketTok? ==> t != [] && t[0] == LBRACKET && x.rest == t[1..])
    ensures (x.tok.RBracketTok? ==> t != [] && t[0] == RBRACKET && x.rest == t[1..])
    ensures (x.tok.LBraceTok? ==> t != [] && t[0] == LBRACE && x.rest == t[1..])
    ensures (x.tok.RBraceTok? ==> t != [] && t[0] == RBRACE && x.rest == t[1..])
    ensures (x.tok.CommaTok? ==> t != [] && t[0] == COMMA && x.rest == t[1..])
    ensures (x.tok.ColonTok? ==> t != [] && t[0] == COLON && x.rest == t[1..])
  {}

  /** Behind white space a punctuator: where it is, and that the lexer goes on right behind it, at `p`. */
  lemma FindPunctuator(s: Text) returns (i: nat, p: nat, x: Lex)
    requires Open(s).Some?
    ensures i <= |s| && Blank(s[..i]) && Open(s) == Some(x) == NextToken(s[i..]) && !x.tok.Whitespace?
    ensures x.tok.LBracketTok? || x.tok.RBracketTok? || x.tok.LBraceTok? || x.tok.RBraceTok? || x.tok.CommaTok? || x.tok.ColonTok? ==>
      p == i + 1 <= |s| && x.rest == s[p..]
    ensures x.tok.LBracketTok? ==> s[i] == LBRACKET
    ensures x.tok.RBracketTok? ==> s[i] == RBRACKET
    ensures x.tok.LBraceTok? ==> s[i] == LBRACE
    ensures x.tok.RBraceTok? ==> s[i] == RBRACE
    ensures x.tok.CommaTok? ==> s[i] == COMMA
    ensures x.tok.ColonTok? ==> s[i] == COLON
  {
    i := OpenDerived(s);
    x := Open(s).value;
    p := i + 1;
    PunctuatorAt(s[i..], x);
    if i < |s| {
      DropDrop(s, i, 1, p);
    }
  }

  // ---- What a successful parse went through ----

  lemma ValueParts(l: Lex)
    requires ParseValue(l).Ok?
    ensures SkipSpace(l).Some? && Advance(SkipSpace(l).value).Some?
    ensures var x := SkipSpace(l).value; var n := Advance(x).value;
      match x.tok
      case LBracketTok => ParseValue(l) == ParseItems(n, [])
      case LBraceTok => ParseValue(l) == ParseMore(n, [], 0)
      case StringTok(_) | NumberTok(_) | NullTok | FalseTok | TrueTok => ParseValue(l).lex == n
      case _ => false
    ensures var x := SkipSpace(l).value;
      match x.tok
      case StringTok(t) => ParseValue(l).value == Str(t)
      case NumberTok(t) => ParseValue(l).value == Num(t)
      case NullTok => ParseValue(l).value == Null
      case FalseTok => ParseValue(l).value == Bool(false)
      case TrueTok => ParseValue(l).value == Bool(true)
      case _ => true
  {
    hide NextToken, SkipSpace;
  }

  lemma ItemsParts(l: Lex, done: seq<Json>)
    requires ParseItems(l, done).Ok?
    ensures SkipSpace(l).Some?
    ensures var x := SkipSpace(l).value;
      if x.tok.RBracketTok? then Advance(x).Some? && ParseItems(l, done) == Ok(Arr(done), Advance(x).value)
      else
        && (done != [] ==> x.tok.CommaTok? && Past(x).Some?)
        && var c := if done == [] then x else Past(x).value;
           ParseValue(c).Ok? && ParseItems(l, done) == ParseItems(FirstRead(c), done + [ParseValue(c).value])
  {
    hide NextToken, SkipSpace;
  }

  lemma MoreParts(l: Lex, done: seq<Prop>, count: nat, next: nat)
    requires ParseMore(l, done, count).Ok? && next == count + 1
    ensures SkipSpace(l).Some?
    ensures var x := SkipSpace(l).value;
      if x.tok.RBraceTok? then Advance(x).Some? && ParseMore(l, done, count) == Ok(Obj(done), Advance(x).value)
      else
        && (count != 0 ==> x.tok.CommaTok? && Past(x).Some?)
        && var c := if count == 0 then x else Past(x).value;
           ParseProp(c).Ok? &&
           ParseMore(l, done, count) == ParseMore(ParseProp(c).lex, PutProp(done, ParseProp(c).value.key, ParseProp(c).value.value), next)
  {
    hide NextToken, SkipSpace, PutProp, ParseProp;
  }

  lemma PropParts(c: Lex)
    requires ParseProp(c).Ok?
    ensures c.tok.StringTok? && Past(c).Some? && Past(c).value.tok.ColonTok? && Past(Past(c).value).Some?
    ensures var b := Past(Past(c).value).value;
      ParseValue(b).Ok? && ParseProp(c) == Ok(Prop(c.tok.s, ParseValue(b).value), FirstRead(b))
  {
    hide NextToken, SkipSpace;
  }

  // ---- The texts it went through ----

  /** The value the parser reads, and the white space before it. */
  lemma {:induction false} ValueDerived(s: Text) returns (i: nat, j: nat)
    requires NextToken(s).Some? && ParseValue(NextToken(s).value).Ok?
    ensures var r := ParseValue(NextToken(s).value);
      i < j <= |s| && Blank(s[..i]) && IsValue(s[i..j], r.value) && NextToken(s[j..]) == Some(r.lex)
    decreases |s|, 0
  {
    var l := NextToken(s).value;
    ValueParts(l);
    assert Open(s) == SkipSpace(l);
    var p, x;
    i, p, x := FindPunctuator(s);
    hide SkipSpace, Open, IsValue, Blank, NextToken, ParseValue;
    if x.tok.LBracketTok? {
      var e, end, more := ItemsDerived(s[p..], []);
      EmptyFirst(more);
      j := ArrayDerived(s, i, p, e, end, more);
    } else if x.tok.LBraceTok? {
      var e, end, given := MembersDerived(s[p..], [], 0);
      j := ObjectDerived(s, i, p, e, end, given);
    } else {
      j := ScalarAt(s, i, x, ParseValue(l).value);
    }
  }

  lemma ScalarAt(s: Text, i: nat, x: Lex, v: Json) returns (j: nat)
    requires i <= |s| && NextToken(s[i..]) == Some(x) && !v.Arr? && !v.Obj? && x.tok == ScalarTok(v)
    ensures i < j <= |s| && x.rest == s[j..] && IsValue(s[i..j], v)
  {
    var m, w := ScalarDerived(s[i..], x);
    j := i + m;
    DropSlice(s, i, 0, m, i, j);
    DropDrop(s, i, m, j);
    assert ScalarTok(w) == ScalarTok(v) ==> w == v;
  }

  lemma EnclosedAt(s: Text, i: nat, p: nat, e: nat, end: nat, open: Unit, close: Unit) returns (j: nat)
    requires p == i + 1 && end == e + 1 && p + end <= |s| && s[i] == open && s[p..][e] == close
    ensures i < j <= |s| && Enclosed(s[i..j], open, close) && Inside(s[i..j]) == s[p..][..e] && s[p..][end..] == s[j..]
  {
    j := p + end;
    var t := s[i..j];
    assert |t| == e + 2 && t[|t| - 1] == s[j - 1] == s[p..][e];
    assert |Inside(t)| == e;
    forall m | 0 <= m < e ensures Inside(t)[m] == s[p..][..e][m] {
      assert Inside(t)[m] == t[m + 1] == s[i + 1 + m];
    }
    DropDrop(s, p, end, j);
  }

  lemma ArrayDerived(s: Text, i: nat, p: nat, e: nat, end: nat, items: seq<Json>) returns (j: nat)
    requires p == i + 1 && end == e + 1 && p + end <= |s| && s[i] == LBRACKET && s[p..][e] == RBRACKET
    requires (items == [] && Blank(s[p..][..e])) || Elements(s[p..][..e], items)
    ensures i < j <= |s| && IsValue(s[i..j], Arr(items)) && s[p..][end..] == s[j..]
  {
    j := EnclosedAt(s, i, p, e, end, LBRACKET, RBRACKET);
  }

  lemma ObjectDerived(s: Text, i: nat, p: nat, e: nat, end: nat, given: seq<Prop>) returns (j: nat)
    requires p == i + 1 && end == e + 1 && p + end <= |s| && s[i] == LBRACE && s[p..][e] == RBRACE
    requires (given == [] && Blank(s[p..][..e])) || Members(s[p..][..e], given)
    ensures i < j <= |s| && IsValue(s[i..j], Obj(PutAll([], given))) && s[p..][end..] == s[j..]
  {
    j := EnclosedAt(s, i, p, e, end, LBRACE, RBRACE);
  }

  /** The elements up to the closing bracket at `e`. */
  lemma {:induction false} ItemsDerived(s: Text, done: seq<Json>) returns (e: nat, end: nat, more: seq<Json>)
    requires NextToken(s).Some? && ParseItems(NextToken(s).value, done).Ok?
    ensures var r := ParseItems(NextToken(s).value, done);
      && end == e + 1 <= |s| && s[e] == RBRACKET && NextToken(s[end..]) == Some(r.lex) && r.value == Arr(done + more)
      && if done == [] then (more == [] && Blank(s[..e])) || Elements(s[..e], more) else MoreElements(s[..e], more)
    decreases |s|, 2
  {
    var l := NextToken(s).value;
    ItemsParts(l, done);
    assert Open(s) == SkipSpace(l);
    var i, p, x := FindPunctuator(s);
    if x.tok.RBracketTok? {
      e, end, more := i, p, [];
      assert done + more == done;
    } else if done == [] {
      hide NextToken, SkipSpace, Blank, Elements, Open;
      e, end, more := ElementsDerived(s, done, i);
    } else {
      var t := s[p..];
      assert Past(x) == Open(t);
      var n, _, c := FindPunctuator(t);
      hide NextToken, SkipSpace, Blank, Elements, Open, ParseValue, ParseItems;
      var f, stop;
      f, stop, more := ElementsDerived(t, done, n);
      e, end := CommaCuts(s, i, p, f, stop);
      CommaBefore(s[..e], i, p, more);
    }
  }

  lemma CommaBefore(t: Text, i: nat, p: nat, items: seq<Json>)
    requires i < |t| && p == i + 1 && t[i] == COMMA && Blank(t[..i]) && Elements(t[p..], items)
    ensures MoreElements(t, items)
  {
    assert CommaAt(t, i) && t[i + 1..] == t[p..];
  }

  lemma CommaBeforeName(t: Text, i: nat, p: nat, props: seq<Prop>)
    requires i < |t| && p == i + 1 && t[i] == COMMA && Blank(t[..i]) && Members(t[p..], props)
    ensures MoreMembers(t, props)
  {
    assert CommaAt(t, i) && t[i + 1..] == t[p..];
  }

  lemma CommaCuts(s: Text, i: nat, p: nat, f: nat, stop: nat) returns (e: nat, end: nat)
    requires p == i + 1 && stop == f + 1 && p + f < |s|
    ensures i < e && end == e + 1 <= |s|
    ensures s[..e][..i] == s[..i] && s[..e][i] == s[i] && s[..e][p..] == s[p..][..f] && s[p..][f] == s[e] && s[p..][stop..] == s[end..]
  {
    e, end := p + f, p + stop;
  }

  /** The elements from the one that begins at `i`. */
  lemma {:induction false} ElementsDerived(s: Text, done: seq<Json>, i: nat) returns (e: nat, end: nat, more: seq<Json>)
    requires i <= |s| && Blank(s[..i]) && NextToken(s[i..]).Some?
    requires var v := ParseValue(NextToken(s[i..]).value); v.Ok? && ParseItems(v.lex, done + [v.value]).Ok?
    ensures var v := ParseValue(NextToken(s[i..]).value); var r := ParseItems(v.lex, done + [v.value]);
      && end == e + 1 <= |s| && s[e] == RBRACKET && NextToken(s[end..]) == Some(r.lex) && r.value == Arr(done + more)
      && Elements(s[..e], more)
    decreases |s|, 1
  {
    var t := s[i..];
    var v := ParseValue(NextToken(t).value);
    hide NextToken, ParseValue, ParseItems, IsValue, MoreElements, Blank;
    var a, b := ValueDerived(t);
    var f, stop, rest := ItemsDerived(t[b..], done + [v.value]);
    more := [v.value] + rest;
    var p, q;
    p, q, e, end := ElementCuts(s, i, a, b, f, stop);
    BlankJoin(s, i, p);
    Regroup(done, more);
    assert more[1..] == rest;
    assert Element(s[..e], more, p, q);
  }

  lemma ElementCuts(s: Text, i: nat, a: nat, b: nat, f: nat, stop: nat) returns (p: nat, q: nat, e: nat, end: nat)
    requires i <= |s| && a < b && i + b + f < |s| && stop == f + 1
    ensures i <= p < q <= e && end == e + 1 <= |s|
    ensures s[i..][..a] == s[i..p] && s[i..][a..b] == s[..e][p..q] && s[i..][b..][..f] == s[..e][q..]
    ensures s[i..][b..][f] == s[e] && s[i..][b..][stop..] == s[end..] && s[..e][..p] == s[..p]
  {
    p, q, e, end := i + a, i + b, i + b + f, i + b + stop;
    DropSlice(s, i, 0, a, i, p);
    DropSlice(s, i, a, b, p, q);
    DropDrop(s, i, b, q);
    DropSlice(s, q, 0, f, q, e);
    DropDrop(s, q, stop, end);
    TakeSlice(s, e, p, q);
    assert s[q..][f] == s[e];
  }

  lemma TakeSlice(s: Text, e: nat, p: nat, q: nat)
    requires p <= q <= e <= |s|
    ensures s[..e][p..q] == s[p..q] && s[..e][q..] == s[q..e] && s[..e][..p] == s[..p]
  {}

  /** The members up to the closing brace at `e`. */
  lemma {:induction false} MembersDerived(s: Text, done: seq<Prop>, count: nat) returns (e: nat, end: nat, given: seq<Prop>)
    requires NextToken(s).Some? && ParseMore(NextToken(s).value, done, count).Ok?
    ensures var r := ParseMore(NextToken(s).value, done, count);
      && end == e + 1 <= |s| && s[e] == RBRACE && NextToken(s[end..]) == Some(r.lex) && r.value == Obj(PutAll(done, given))
      && if count == 0 then (given == [] && Blank(s[..e])) || Members(s[..e], given) else MoreMembers(s[..e], given)
    decreases |s|, 3
  {
    var l, next: nat := NextToken(s).value, count + 1;
    MoreParts(l, done, count, next);
    assert Open(s) == SkipSpace(l);
    var i, p, x := FindPunctuator(s);
    if x.tok.RBraceTok? {
      e, end, given := i, p, [];
    } else if count == 0 {
      hide NextToken, SkipSpace, Blank, Members, Open, PutProp, PutAll, ParseProp, ParseMore;
      e, end, given := NamedDerived(s, done, next, i);
    } else {
      var t := s[p..];
      assert Past(x) == Open(t);
      var n, _, c := FindPunctuator(t);
      hide NextToken, SkipSpace, Blank, Members, Open, PutProp, PutAll, ParseProp, ParseMore;
      var f, stop;
      f, stop, given := NamedDerived(t, done, next, n);
      e, end := CommaCuts(s, i, p, f, stop);
      CommaBeforeName(s[..e], i, p, given);
    }
  }

  /** The members from the one whose name begins at `i`. */
  lemma {:induction false} NamedDerived(s: Text, done: seq<Prop>, next: nat, i: nat) returns (e: nat, end: nat, given: seq<Prop>)
    requires i <= |s| && Blank(s[..i]) && NextToken(s[i..]).Some? && next > 0
    requires var p := ParseProp(NextToken(s[i..]).value); p.Ok? && ParseMore(p.lex, PutProp(done, p.value.key, p.value.value), next).Ok?
    ensures var p := ParseProp(NextToken(s[i..]).value); var r := ParseMore(p.lex, PutProp(done, p.value.key, p.value.value), next);
      && end == e + 1 <= |s| && s[e] == RBRACE && NextToken(s[end..]) == Some(r.lex) && r.value == Obj(PutAll(done, given))
      && Members(s[..e], given)
    decreases |s|, 2
  {
    var p := ParseProp(NextToken(s[i..]).value);
    var m, k, a, b := PropDerived(s, i);
    var put := PutProp(done, p.value.key, p.value.value);
    hide NextToken, ParseProp, ParseMore, IsValue, MoreMembers, Blank, IsName, PutProp;
    var f, stop, rest := MembersDerived(s[b..], put, next);
    given := [p.value] + rest;
    e, end := MemberCuts(s, m, k, a, b, f, stop);
    assert given[1..] == rest;
    PutFirst(done, given);
    assert Member(s[..e], given, m, a, b);
  }

  lemma MemberCuts(s: Text, m: nat, k: nat, a: nat, b: nat, f: nat, stop: nat) returns (e: nat, end: nat)
    requires m < k == m + 1 <= a < b && b + f < |s| && stop == f + 1
    ensures b <= e && end == e + 1 <= |s|
    ensures s[..e][..m] == s[..m] && s[..e][m] == s[m] && s[..e][m + 1..a] == s[k..a] && s[..e][a..b] == s[a..b]
    ensures s[b..][..f] == s[..e][b..] && s[b..][f] == s[e] && s[b..][stop..] == s[end..]
  {
    e, end := b + f, b + stop;
  }

  /** A name that begins at `i`, its colon at `m`, and its value between `a` and `b`. */
  lemma {:induction false} PropDerived(s: Text, i: nat) returns (m: nat, k: nat, a: nat, b: nat)
    requires i <= |s| && Blank(s[..i]) && NextToken(s[i..]).Some? && ParseProp(NextToken(s[i..]).value).Ok?
    ensures var p := ParseProp(NextToken(s[i..]).value);
      && m < k == m + 1 <= a < b <= |s| && s[m] == COLON && IsName(s[..m], p.value.key) && Blank(s[k..a])
      && IsValue(s[a..b], p.value.value) && NextToken(s[b..]) == Some(p.lex)
    decreases |s|, 1
  {
    var c := NextToken(s[i..]).value;
    PropParts(c);
    var d;
    m, k, d := NameDerived(s, i, c);
    assert Past(d) == Open(s[k..]);
    var q, _, w := FindPunctuator(s[k..]);
    var t := s[k..][q..];
    hide NextToken, SkipSpace, ParseValue, Open, Past, IsValue, IsName, Blank, ParseProp;
    var x, y := ValueDerived(t);
    var r;
    r, a, b := PropCuts(s, k, q, x, y);
    BlankJoin(s[k..], q, r);
  }

  lemma NameDerived(s: Text, i: nat, c: Lex) returns (m: nat, k: nat, d: Lex)
    requires i <= |s| && Blank(s[..i]) && NextToken(s[i..]) == Some(c) && c.tok.StringTok?
    requires Past(c).Some? && Past(c).value.tok.ColonTok?
    ensures Past(c) == Some(d) && k == m + 1 <= |s| && s[m] == COLON && d.rest == s[k..] && IsName(s[..m], c.tok.s)
  {
    var n := StringDerived(s[i..]);
    var j := i + n;
    DropDrop(s, i, n, j);
    DropSlice(s, i, 0, n, i, j);
    assert Past(c) == Open(s[j..]);
    var o, o1;
    o, o1, d := FindPunctuator(s[j..]);
    m, k := j + o, j + o1;
    DropDrop(s, j, o1, k);
    hide NextToken, IsString, Blank, IsName;
    NameJoin(s, c.tok.s, i, j, o, m);
  }

  lemma NameJoin(s: Text, key: Text, i: nat, j: nat, o: nat, m: nat)
    requires i < j && m == j + o <= |s| && Blank(s[..i]) && IsString(s[i..j], key) && Blank(s[j..][..o])
    ensures IsName(s[..m], key)
  {
    hide IsString;
    var t := s[..m];
    assert t[..i] == s[..i] && t[i..j] == s[i..j] && t[j..] == s[j..][..o];
    assert NameAt(t, key, i, j);
  }

  lemma PropCuts(s: Text, k: nat, q: nat, x: nat, y: nat) returns (r: nat, a: nat, b: nat)
    requires x < y && k + q + y <= |s|
    ensures q <= r && k <= a < b <= |s| && r <= |s[k..]|
    ensures s[k..][q..][x..y] == s[a..b] && s[k..][q..][y..] == s[b..] && s[k..][q..][..x] == s[k..][q..r] && s[k..][..r] == s[k..a]
  {
    r, a, b := q + x, k + q + x, k + q + y;
  }

  /** JSON.parse gives a value for a text exactly when the text is one of the grammar and stands for that value. */
  lemma ParsesExactly(t: Text, v: Json)
    ensures Parse(t) == Some(v) <==> IsJsonText(t, v)
  {
    if IsJsonText(t, v) {
      TextRead(t, v);
    }
    if Parse(t) == Some(v) {
      var i, j := ValueDerived(t);
      TextEnds(t[j..]);
      assert ValueAt(t, v, i, j);
    }
  }

  lemma TextEnds(s: Text)
    requires Open(s).Some? && Open(s).value.tok.Eof?
    ensures Blank(s)
  {
    var n := OpenDerived(s);
    assert s[n..] == [] && s[..n] == s;
  }

  /** So the grammar gives a text one value at most. */
  lemma OneMeaning(t: Text, v: Json, w: Json)
    requires IsJsonText(t, v) && IsJsonText(t, w)
    ensures v == w
  {
    ParsesExactly(t, v);
    ParsesExactly(t, w);
  }
}
