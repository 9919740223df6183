/** The JSON lexer with its mutable position, the recursive parser on it, and the quoting loop. */
module JsonParser {
  import opened Wrappers
  import opened Characters
  import opened JsonText

  /** `s` put in front of what a scan found. */
  function After(s: Text, r: Scan): Scan {
    if r.Scanned? then Scanned(s + r.text, r.rest) else r
  }

  lemma AfterPrepend(s: Text, c: Unit, r: Scan)
    ensures After(s, Prepend(c, r)) == After(s + [c], r)
  {
    if r.Scanned? {
      assert s + ([c] + r.text) == s + [c] + r.text;
    }
  }

  lemma AfterEnds(s: Text, r: Scan)
    ensures After([], r) == r
    ensures After(s, ScanError) == ScanError
    ensures r.Scanned? ==> After(s, Scanned([], r.rest)) == Scanned(s, r.rest)
  {
    if r.Scanned? {
      assert s + [] == s && [] + r.text == r.text;
    }
  }

  /** The rest of the string literal that goes on at `i`. */
  function Literal(text: Text, i: nat): Scan
    requires i <= |text|
  {
    ScanString(text[i..])
  }

  /** One plain unit, the closing quote, or the end of the text. */
  lemma LiteralStep(text: Text, i: nat)
    requires i <= |text|
    ensures i == |text| ==> Literal(text, i) == ScanError
    ensures i < |text| && text[i] == QUOTE ==> Literal(text, i) == Scanned([], text[i + 1..])
    ensures i < |text| && text[i] == BACKSLASH && i + 1 == |text| ==> Literal(text, i) == ScanError
    ensures i < |text| && text[i] < SPACE ==> Literal(text, i) == ScanError
    ensures i < |text| && text[i] != QUOTE && text[i] != BACKSLASH && text[i] >= SPACE ==>
      Literal(text, i) == Prepend(text[i], Literal(text, i + 1))
  {
    if i < |text| {
      assert text[i..][1..] == text[i + 1..];
    }
  }

  class Lexer {
    const text: Text
    var pos: nat
    var tok: Tok

    ghost predicate Valid()
      reads this
    {
      pos <= |text|
    }

    /** The current token and the text behind it. */
    ghost function State(): Lex
      requires Valid()
      reads this
    {
      Lex(tok, text[pos..])
    }

    constructor (text: Text)
      ensures this.text == text && pos == 0 && tok == Eof
    {
      this.text := text;
      pos := 0;
      tok := Eof;
    }

    method DecimalDigits(start: nat) returns (end: nat)
      requires start <= |text|
      ensures start <= end <= |text| && end == start + Digits(text[start..])
    {
      end := start;
      while end < |text| && IsDigit(text[end])
        invariant start <= end <= |text|
        invariant Digits(text[start..]) == end - start + Digits(text[end..])
      {
        assert text[end..][1..] == text[end + 1..];
        end := end + 1;
      }
    }

    /** The fraction, if there is one, of the number that starts at `start`. */
    method ScanFraction(start: nat, i: nat) returns (end: Option<nat>)
      requires start <= i <= |text|
      ensures var n := FractionEnd(text[start..], i - start);
        if n.None? then end.None? else end == Some(start + n.value)
    {
      end := Some(i);
      if i < |text| && text[i] == DOT {
        assert text[start..][i - start + 1..] == text[i + 1..];
        var j := DecimalDigits(i + 1);
        end := if j == i + 1 then None else Some(j);
      }
    }

    /** The exponent, if there is one, of the number that starts at `start`. */
    method ScanExponent(start: nat, i: nat) returns (end: Option<nat>)
      requires start <= i <= |text|
      ensures var n := ExponentEnd(text[start..], i - start);
        if n.None? then end.None? else end == Some(start + n.value)
    {
      end := Some(i);
      if i < |text| && (text[i] == 101 || text[i] == 69) {
        var j := i + 1;
        if j == |text| {
          return None;
        }
        if text[j] == MINUS || text[j] == PLUS {
          j := j + 1;
        }
        assert text[start..][j - start..] == text[j..];
        var e := DecimalDigits(j);
        end := if e == j then None else Some(e);
      }
    }

    /** The end of the number that starts at `start`. */
    method ScanNumber(start: nat) returns (end: Option<nat>)
      requires start < |text|
      ensures var n := NumberEnd(text[start..]);
        if n.None? then end.None? else end == Some(start + n.value)
    {
      hide FractionEnd, ExponentEnd;
      assert text[start..][1..] == text[start + 1..];
      var i := DecimalDigits(start + 1);
      if i == start + 1 && text[start] == MINUS {
        return None;
      }
      end := ScanFraction(start, i);
      if end.Some? {
        end := ScanExponent(start, end.value);
      }
    }

    /** The unit an escape stands for, `i` being behind the backslash, and where the literal goes on. */
    method ScanEscape(i: nat) returns (c: Option<Unit>, end: nat)
      requires 0 < i < |text| && text[i - 1] == BACKSLASH
      ensures i < end <= |text|
      ensures Literal(text, i - 1) == if c.None? then ScanError else Prepend(c.value, Literal(text, end))
    {
      hide HexValue4, Escape;
      ghost var left := text[i - 1..];
      end := i + 1;
      if end == |text| {
        return None, end;
      }
      if text[i] == 117 {
        if end + 5 > |text| {
          return None, end;
        }
        assert left[2..6] == text[end..end + 4] && left[6..] == text[end + 4..];
        c := HexValue4(text[end..end + 4]);
        end := end + 4;
      } else {
        assert left[2..] == text[end..];
        c := Escape(text[i]);
      }
    }

    /** The string literal whose opening quote stands just before `start`: its value and its end. */
    method ScanQuoted(start: nat) returns (s: Text, end: Option<nat>)
      requires start <= |text|
      ensures var r := Literal(text, start);
        if r.ScanError? then end.None? else end.Some? && end.value <= |text| && s == r.text && text[end.value..] == r.rest
    {
      hide After, Literal, Prepend;
      AfterEnds([], Literal(text, start));
      s := [];
      var i := start;
      var escape := false;
      while true
        invariant start <= i <= |text|
        invariant escape ==> start < i && text[i - 1] == BACKSLASH
        invariant Literal(text, start) == After(s, Literal(text, if escape then i - 1 else i))
        decreases |text| - i
      {
        AfterEnds(s, ScanError);
        LiteralStep(text, if escape then i - 1 else i);
        if i == |text| {
          return s, None;
        }
        if escape {
          var c, next := ScanEscape(i);
          if c.None? {
            return s, None;
          }
          AfterPrepend(s, c.value, Literal(text, next));
          s, i, escape := s + [c.value], next, false;
        } else {
          var c := text[i];
          i := i + 1;
          if c == QUOTE {
            AfterEnds(s, Scanned([], text[i..]));
            return s, Some(i);
          } else if c == BACKSLASH {
            escape := true;
          } else if c < SPACE {
            return s, None;
          } else {
            AfterPrepend(s, c, Literal(text, i));
            s := s + [c];
          }
        }
      }
    }

    method ScanSpaces(start: nat) returns (end: nat)
      requires start <= |text|
      ensures start <= end <= |text| && end == start + Spaces(text[start..])
    {
      end := start;
      while end < |text| && IsSpace(text[end])
        invariant start <= end <= |text|
        invariant Spaces(text[start..]) == end - start + Spaces(text[end..])
      {
        assert text[end..][1..] == text[end + 1..];
        end := end + 1;
      }
    }

    /** Moves to the next token; false where the program throws a syntax error. */
    method NextToken() returns (ok: bool)
      requires Valid()
      modifies this
      ensures Valid() && ok == JsonText.NextToken(old(text[pos..])).Some?
      ensures ok ==> State() == JsonText.NextToken(old(text[pos..])).value
    {
      hide NumberEnd, FractionEnd, ExponentEnd;
      if pos >= |text| {
        tok := Eof;
        return true;
      }
      ghost var s := text[pos..];
      var c := text[pos];
      assert s[1..] == text[pos + 1..];
      if IsSpace(c) {
        var end := ScanSpaces(pos + 1);
        assert s[1 + Spaces(s[1..])..] == text[end..];
        tok, pos := Whitespace, end;
      } else if c == LBRACKET {
        tok, pos := LBracketTok, pos + 1;
      } else if c == RBRACKET {
        tok, pos := RBracketTok, pos + 1;
      } else if c == LBRACE {
        tok, pos := LBraceTok, pos + 1;
      } else if c == RBRACE {
        tok, pos := RBraceTok, pos + 1;
      } else if c == COMMA {
        tok, pos := CommaTok, pos + 1;
      } else if c == COLON {
        tok, pos := ColonTok, pos + 1;
      } else if NULL_TEXT <= text[pos..] {
        assert s[4..] == text[pos + 4..];
        tok, pos := NullTok, pos + 4;
      } else if FALSE_TEXT <= text[pos..] {
        assert s[5..] == text[pos + 5..];
        tok, pos := FalseTok, pos + 5;
      } else if TRUE_TEXT <= text[pos..] {
        assert s[4..] == text[pos + 4..];
        tok, pos := TrueTok, pos + 4;
      } else if c == MINUS || IsDigit(c) {
        var end := ScanNumber(pos);
        if end.None? {
          return false;
        }
        assert s[..end.value - pos] == text[pos..end.value] && s[end.value - pos..] == text[end.value..];
        tok, pos := NumberTok(text[pos..end.value]), end.value;
      } else if c == QUOTE {
        var t, end := ScanQuoted(pos + 1);
        if end.None? {
          return false;
        }
        tok, pos := StringTok(t), end.value;
      } else {
        return false;
      }
      return true;
    }

    method SkipWhitespace() returns (ok: bool)
      requires Valid()
      modifies this
      ensures Valid() && ok == SkipSpace(old(State())).Some?
      ensures ok ==> State() == SkipSpace(old(State())).value
    {
      while tok.Whitespace?
        invariant Valid() && SkipSpace(State()) == SkipSpace(old(State()))
        decreases Left(State())
      {
        ok := NextToken();
        if !ok {
          return;
        }
      }
      ok := true;
    }

    /** Moves past the current token and the white space after it. */
    method Step() returns (ok: bool)
      requires Valid()
      modifies this
      ensures Valid() && ok == Past(old(State())).Some?
      ensures ok ==> State() == Past(old(State())).value
    {
      ok := NextToken();
      if ok {
        ok := SkipWhitespace();
      }
    }

    method Array() returns (v: Option<Json>)
      requires Valid()
      modifies this
      ensures Valid() && (ParseItems(old(State()), []) == if v.None? then SyntaxError else Ok(v.value, State()))
      decreases Left(State()), 3
    {
      var items := [];
      while true
        invariant Valid() && Left(State()) <= Left(old(State()))
        invariant ParseItems(State(), items) == ParseItems(old(State()), [])
        decreases Left(State())
      {
        var ok := SkipWhitespace();
        if !ok {
          return None;
        }
        if tok.RBracketTok? {
          ok := NextToken();
          return if ok then Some(Arr(items)) else None;
        }
        if |items| != 0 {
          if !tok.CommaTok? {
            return None;
          }
          ok := Step();
          if !ok {
            return None;
          }
        }
        var item := Value();
        if item.None? {
          return None;
        }
        items := items + [item.value];
      }
    }

    method Object() returns (v: Option<Json>)
      requires Valid()
      modifies this
      ensures Valid() && (ParseProps(old(State()), []) == if v.None? then SyntaxError else Ok(v.value, State()))
      decreases Left(State()), 3
    {
      var props := [];
      var i := 0;
      while true
        invariant Valid() && i >= 0 && Left(State()) <= Left(old(State()))
        invariant ParseMore(State(), props, i) == ParseProps(old(State()), [])
        decreases Left(State())
      {
        var ok := SkipWhitespace();
        if !ok {
          return None;
        }
        if tok.RBraceTok? {
          ok := NextToken();
          return if ok then Some(Obj(props)) else None;
        }
        if i != 0 {
          if !tok.CommaTok? {
            return None;
          }
          ok := Step();
          if !ok {
            return None;
          }
        }
        var p := Property();
        if p.None? {
          return None;
        }
        props := PutProp(props, p.value.key, p.value.value);
        i := i + 1;
      }
    }

    /** A name, a colon and a value. */
    method Property() returns (p: Option<Prop>)
      requires Valid()
      modifies this
      ensures Valid() && (ParseProp(old(State())) == if p.None? then SyntaxError else Ok(p.value, State()))
      decreases Left(State()), 1
    {
      if !tok.StringTok? {
        return None;
      }
      var key := tok.s;
      var ok := Step();
      if !ok || !tok.ColonTok? {
        return None;
      }
      ok := Step();
      if !ok {
        return None;
      }
      var v := Value();
      p := if v.None? then None else Some(Prop(key, v.value));
    }

    method Value() returns (v: Option<Json>)
      requires Valid()
      modifies this
      ensures Valid() && (ParseValue(old(State())) == if v.None? then SyntaxError else Ok(v.value, State()))
      decreases Left(State()), 2
    {
      hide JsonText.NextToken;
      var ok := SkipWhitespace();
      if !ok {
        return None;
      }
      var t := tok;
      ok := NextToken();
      if !ok {
        return None;
      }
      match t {
        case StringTok(s) => v := Some(Str(s));
        case NumberTok(s) => v := Some(Num(s));
        case NullTok => v := Some(Null);
        case FalseTok => v := Some(Bool(false));
        case TrueTok => v := Some(Bool(true));
        case LBracketTok => v := Array();
        case LBraceTok => v := Object();
        case _ => v := None;
      }
    }
  }

  /** JSON.parse without a reviver. */
  method ParseText(text: Text) returns (v: Option<Json>)
    ensures v == Parse(text)
  {
    var lex := new Lexer(text);
    assert text[0..] == text;
    var ok := lex.NextToken();
    if !ok {
      return None;
    }
    v := lex.Value();
    if v.None? {
      return None;
    }
    ok := lex.SkipWhitespace();
    if !ok || !lex.tok.Eof? {
      return None;
    }
  }

  /** json_quote. */
  method QuoteText(s: Text) returns (res: Text)
    ensures res == Quote(s)
  {
    res := [QUOTE];
    for i := 0 to |s|
      invariant res + (QuoteBody(s[i..]) + [QUOTE]) == Quote(s)
    {
      assert s[i..][1..] == s[i + 1..];
      ghost var was := res;
      if s[i] == QUOTE || s[i] == BACKSLASH {
        res := res + [BACKSLASH, s[i]];
      } else if s[i] < SPACE {
        res := res + QuoteControl(s[i]);
      } else {
        res := res + [s[i]];
      }
      Shift(was, QuoteUnit(s[i]), QuoteBody(s[i + 1..]), [QUOTE]);
    }
    assert s[|s|..] == [];
    res := res + [QUOTE];
  }

  lemma Shift(a: Text, b: Text, c: Text, d: Text)
    ensures a + (b + c + d) == a + b + (c + d)
  {}
}
