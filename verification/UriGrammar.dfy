/** Which texts decode_uri and unescape accept, and what they make of them. */
module UriGrammar {
  import opened Wrappers
  import opened Characters
  import opened Unicode
  import opened Uri

  // ---- unescape ----

  /** How many units stand for the next one: itself, %XX or %uXXXX. */
  function EscapeLength(s: Text): nat
    requires s != []
  {
    if s[0] != '%' as int then 1 else if |s| > 1 && s[1] == 'u' as int then 6 else 3
  }

  ghost predicate TwoDigits(a: Unit, b: Unit, v: nat) {
    exists h: nat, l: nat :: IsHexDigit(a, h) && IsHexDigit(b, l) && v == h * 16 + l
  }

  /** The units in front stand for `c`. */
  ghost predicate StandsFor(s: Text, c: Unit)
    requires s != []
  {
    var n := EscapeLength(s);
    && n <= |s|
    && if n == 1 then c == s[0]
       else if n == 3 then TwoDigits(s[1], s[2], c)
       else exists hi: nat, lo: nat :: TwoDigits(s[2], s[3], hi) && TwoDigits(s[4], s[5], lo) && c == hi * 0x100 + lo
  }

  ghost predicate Unescapes(s: Text, t: Text)
    decreases |s|
  {
    if s == [] then t == [] else t != [] && StandsFor(s, t[0]) && Unescapes(s[EscapeLength(s)..], t[1..])
  }

  lemma TwoDigitsExactly(a: Unit, b: Unit, v: nat)
    ensures TwoDigits(a, b, v) <==> HexValue2(a, b) == Some(v)
  {
    hide HexValue, IsHexDigit;
    if HexValue2(a, b) == Some(v) {
      var h, l := HexValue(a).value, HexValue(b).value;
      HexValueExactly(a, h);
      HexValueExactly(b, l);
    }
    if TwoDigits(a, b, v) {
      var h: nat, l: nat :| IsHexDigit(a, h) && IsHexDigit(b, l) && v == h * 16 + l;
      HexValueExactly(a, h);
      HexValueExactly(b, l);
    }
  }

  /** What unescape makes of the units in front. */
  function FrontUnit(s: Text): Option<Unit>
    requires s != []
  {
    if s[0] != PERCENT then Some(s[0])
    else if |s| < 3 || (s[1] == LETTER_U && |s| < 6) then None
    else if s[1] == LETTER_U then
      var hi, lo := HexValue2(s[2], s[3]), HexValue2(s[4], s[5]);
      if hi.None? || lo.None? then None else Some(hi.value * 0x100 + lo.value)
    else HexValue2(s[1], s[2])
  }

  lemma StandsForExactly(s: Text, c: Unit)
    requires s != []
    ensures StandsFor(s, c) <==> FrontUnit(s) == Some(c)
  {
    hide TwoDigits, HexValue2;
    var n := EscapeLength(s);
    if n == 3 && |s| >= 3 {
      TwoDigitsExactly(s[1], s[2], c);
    } else if n == 6 && |s| >= 6 {
      if FrontUnit(s) == Some(c) {
        var hi, lo := HexValue2(s[2], s[3]).value, HexValue2(s[4], s[5]).value;
        TwoDigitsExactly(s[2], s[3], hi);
        TwoDigitsExactly(s[4], s[5], lo);
      }
      if StandsFor(s, c) {
        var hi: nat, lo: nat :| TwoDigits(s[2], s[3], hi) && TwoDigits(s[4], s[5], lo) && c == hi * 0x100 + lo;
        TwoDigitsExactly(s[2], s[3], hi);
        TwoDigitsExactly(s[4], s[5], lo);
      }
    }
  }

  lemma UnescapeStep(s: Text)
    requires s != []
    ensures FrontUnit(s).None? ==> Unescape(s) == None
    ensures FrontUnit(s).Some? ==> EscapeLength(s) <= |s| && Unescape(s) == Cons(FrontUnit(s).value, Unescape(s[EscapeLength(s)..]))
  {
    hide HexValue2;
  }

  /** unescape gives `t` exactly when the text is a sequence of plain units and complete escapes that stands for it. */
  lemma {:induction false} UnescapesExactly(s: Text, t: Text)
    ensures Unescape(s) == Some(t) <==> Unescapes(s, t)
    decreases |s|
  {
    if s != [] {
      UnescapeStep(s);
      hide Unescape, FrontUnit, StandsFor;
      if t != [] {
        StandsForExactly(s, t[0]);
        assert [t[0]] + t[1..] == t;
        if FrontUnit(s) == Some(t[0]) {
          UnescapesExactly(s[EscapeLength(s)..], t[1..]);
        }
      }
      if Unescape(s) == Some(t) {
        var rest := Unescape(s[EscapeLength(s)..]).value;
        assert t == [FrontUnit(s).value] + rest && t[1..] == rest;
        UnescapesExactly(s[EscapeLength(s)..], rest);
      }
    }
  }

  // ---- decode_uri ----

  /** The percent escapes of these bytes are in front. */
  ghost predicate Percents(s: Text, b: seq<Byte>) {
    3 * |b| <= |s| && forall j | 0 <= j < |b| :: s[3 * j] == '%' as int && TwoDigits(s[3 * j + 1], s[3 * j + 2], b[j])
  }

  /** The bytes of one character. */
  predicate OneForm(b: seq<Byte>) {
    && 1 <= |b| <= 4 && StartsCharacter(b)
    && |b| == if b[0] < 0x80 then 1 else if b[0] < 0xE0 then 2 else if b[0] < 0xF0 then 3 else 4
  }

  /** Some percent escapes in front are one character, whose units `t` begins with. */
  ghost predicate Character(s: Text, t: Text, b: seq<Byte>)
    decreases |s|, 0
  {
    && Percents(s, b) && OneForm(b)
    && var u := Utf32ToUtf16(Utf8ToUtf32(b).codePoint);
       |u| <= |t| && t[..|u|] == u && Decodes(s[3 * |b|..], t[|u|..])
  }

  ghost predicate Decodes(s: Text, t: Text)
    decreases |s|, 1
  {
    if s == [] then t == []
    else if s[0] != '%' as int then t != [] && t[0] == s[0] && Decodes(s[1..], t[1..])
    else exists b: seq<Byte> :: Character(s, t, b)
  }

  lemma GetByteExactly(s: Text, v: Byte)
    ensures GetByte(s) == Some(v) <==> |s| >= 3 && s[0] == '%' as int && TwoDigits(s[1], s[2], v)
  {
    hide TwoDigits, HexValue2;
    if |s| >= 3 {
      TwoDigitsExactly(s[1], s[2], v);
    }
  }

  lemma {:induction false} GetBytesExactly(s: Text, b: seq<Byte>)
    ensures GetBytes(s, |b|) == Some(b) <==> Percents(s, b)
    decreases |b|
  {
    if b != [] {
      GetByteExactly(s, b[0]);
      assert [b[0]] + b[1..] == b;
      hide GetByte, TwoDigits;
      if |s| >= 3 {
        GetBytesExactly(s[3..], b[1..]);
        PercentsStep(s, b);
      }
      if GetBytes(s, |b|) == Some(b) {
        var rest := GetBytes(s[3..], |b| - 1).value;
        assert [GetByte(s).value] + rest == b;
        assert rest == b[1..];
      }
    }
  }

  lemma PercentsStep(s: Text, b: seq<Byte>)
    requires b != [] && |s| >= 3
    ensures Percents(s, b) <==> s[0] == '%' as int && TwoDigits(s[1], s[2], b[0]) && Percents(s[3..], b[1..])
  {
    hide TwoDigits;
    var r, c := s[3..], b[1..];
    if 3 * |b| <= |s| {
      forall j | 1 <= j < |b|
        ensures r[3 * (j - 1)] == s[3 * j] && r[3 * (j - 1) + 1] == s[3 * j + 1] && r[3 * (j - 1) + 2] == s[3 * j + 2] && c[j - 1] == b[j]
      {}
      if Percents(s, b) {
        assert s[3 * 0] == '%' as int && TwoDigits(s[3 * 0 + 1], s[3 * 0 + 2], b[0]);
        forall i | 0 <= i < |c| ensures r[3 * i] == '%' as int && TwoDigits(r[3 * i + 1], r[3 * i + 2], c[i]) {
          var j := i + 1;
          assert s[3 * j] == '%' as int && TwoDigits(s[3 * j + 1], s[3 * j + 2], b[j]);
        }
      }
      if s[0] == '%' as int && TwoDigits(s[1], s[2], b[0]) && Percents(r, c) {
        forall j | 0 <= j < |b| ensures s[3 * j] == '%' as int && TwoDigits(s[3 * j + 1], s[3 * j + 2], b[j]) {
          if j > 0 {
            var i := j - 1;
            assert r[3 * i] == '%' as int && TwoDigits(r[3 * i + 1], r[3 * i + 2], c[i]);
          }
        }
      }
    }
  }

  /** The bytes of the character in front of the text, if decode_uri accepts it. */
  function FrontBytes(s: Text): Option<seq<Byte>> {
    var lead := GetByte(s);
    if lead.None? || Utf8Length(lead.value) == 0 then None else
    var b := GetBytes(s, Utf8Length(lead.value));
    if b.None? || Utf8ToUtf32(b.value).length != |b.value| || UnitsOf(b.value) == [] then None else b
  }

  function UnitsOf(b: seq<Byte>): Text
    requires b != []
  {
    Utf32ToUtf16(Utf8ToUtf32(b).codePoint)
  }

  lemma DecodeStep(s: Text)
    requires s != [] && s[0] == PERCENT
    ensures var b := FrontBytes(s);
      if b.None? then Decode(s) == None
      else
        && b.value != [] && 3 * |b.value| <= |s|
        && var rest := Decode(s[3 * |b.value|..]);
           Decode(s) == if rest.None? then None else Some(UnitsOf(b.value) + rest.value)
  {
    hide GetByte, GetBytes, Utf8Length, Utf8ToUtf32, Utf32ToUtf16;
  }

  lemma FormLength(b: seq<Byte>)
    requires b != [] && StartsCharacter(b)
    ensures OneForm(b) <==> |b| == Utf8Length(b[0])
  {}

  lemma ScalarsWritten(cp: nat)
    ensures IsScalar(cp) <==> Utf32ToUtf16(cp) != []
  {}

  lemma FrontBytesExactly(s: Text, b: seq<Byte>)
    ensures FrontBytes(s) == Some(b) <==> Percents(s, b) && OneForm(b)
  {
    if b != [] {
      GetBytesExactly(s, b);
      LeadByte(s, b);
      OneCharacter(b);
      ScalarsWritten(Utf8ToUtf32(b).codePoint);
      if StartsCharacter(b) { FormLength(b); }
      hide GetByte, GetBytes, Utf8Length, Utf8ToUtf32, Utf32ToUtf16, StartsCharacter, Percents, IsScalar, Utf8Count, OverlongAt;
      if FrontBytes(s) == Some(b) {
        assert GetBytes(s, |b|) == Some(b);
      }
    }
  }

  /** The first of the bytes is the lead byte. */
  lemma LeadByte(s: Text, b: seq<Byte>)
    requires b != []
    ensures GetBytes(s, |b|) == Some(b) ==> GetByte(s) == Some(b[0])
  {}

  /** decode_uri gives `t` exactly when the text is a sequence of plain units and percent-encoded characters that stands
      for it. */
  lemma {:induction false} DecodesExactly(s: Text, t: Text)
    ensures Decode(s) == Some(t) <==> Decodes(s, t)
    decreases |s|
  {
    if s != [] {
      if s[0] != PERCENT {
        PlainExactly(s, t);
      } else {
        DecodeStep(s);
        hide Decode, FrontBytes, OneForm, Percents;
        if Decode(s) == Some(t) {
          var b := FrontBytes(s).value;
          var u := UnitsOf(b);
          FrontBytesExactly(s, b);
          var rest := Decode(s[3 * |b|..]).value;
          assert t[..|u|] == u && t[|u|..] == rest;
          DecodesExactly(s[3 * |b|..], rest);
          assert Character(s, t, b);
        }
        if Decodes(s, t) {
          var b := CharacterInFront(s, t);
          FrontBytesExactly(s, b);
          var u := UnitsOf(b);
          DecodesExactly(s[3 * |b|..], t[|u|..]);
          assert u + t[|u|..] == t;
        }
      }
    }
  }

  lemma CharacterInFront(s: Text, t: Text) returns (b: seq<Byte>)
    requires s != [] && s[0] == PERCENT && Decodes(s, t)
    ensures Character(s, t, b)
  {
    b :| Character(s, t, b);
  }

  lemma {:induction false} PlainExactly(s: Text, t: Text)
    requires s != [] && s[0] != PERCENT
    ensures Decode(s) == Some(t) <==> Decodes(s, t)
    decreases |s|, 0
  {
    if t != [] {
      DecodesExactly(s[1..], t[1..]);
      assert [t[0]] + t[1..] == t;
    }
    if Decode(s) == Some(t) {
      assert t[1..] == Decode(s[1..]).value;
    }
  }
}
