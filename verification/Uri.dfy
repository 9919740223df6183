/** URI encoding and decoding, and escape and unescape, as functions on UTF-16 text. */
module Uri {
  import opened Wrappers
  import opened Characters
  import opened Unicode

  const PERCENT: Unit := 37
  const LETTER_U: Unit := 117
  /** -_.!~*'() */
  const MARKS: Text := [45, 95, 46, 33, 126, 42, 39, 40, 41]
  /** ;/?:@&=+$, */
  const RESERVED: Text := [59, 47, 63, 58, 64, 38, 61, 43, 36, 44]
  /** @*_+-./ */
  const ESCAPE_MARKS: Text := [64, 42, 95, 43, 45, 46, 47]

  predicate IsAlphaOrDigit(c: Unit) {
    65 <= c <= 90 || 97 <= c <= 122 || IsDigit(c)
  }

  /** The list search converts the unit to a narrow character first, which drops its upper half. */
  predicate IsInList(c: Unit, list: Text) {
    (c % 0x100) in list
  }

  predicate IsUriUnescaped(c: Unit) {
    IsAlphaOrDigit(c) || IsInList(c, MARKS)
  }

  /** What encodeURI leaves alone. */
  predicate EncodeUriKeeps(c: Unit) {
    IsUriUnescaped(c) || IsInList(c, RESERVED) || c == 35
  }

  predicate EscapeKeeps(c: Unit) {
    IsAlphaOrDigit(c) || IsInList(c, ESCAPE_MARKS)
  }

  function HexByte(b: Byte): Text {
    [HexDigit(b / 16, 65), HexDigit(b % 16, 65)]
  }

  function HexValue2(a: Unit, b: Unit): (r: Option<nat>)
    ensures r.Some? ==> r.value < 0x100
  {
    var x, y := HexValue(a), HexValue(b);
    if x.Some? && y.Some? then Some(x.value * 16 + y.value) else None
  }

  lemma HexByteBack(b: Byte)
    ensures HexValue2(HexByte(b)[0], HexByte(b)[1]) == Some(b)
  {}

  // ---- Encoding ----

  function PercentBytes(b: seq<Byte>): Text {
    if b == [] then [] else [PERCENT] + HexByte(b[0]) + PercentBytes(b[1..])
  }

  /** encode_uri_helper with the units `raw` accepts left alone; None for a URI error. */
  function Encode(s: Text, raw: Unit -> bool): Option<Text> {
    if s == [] then Some([])
    else if raw(s[0]) then
      var rest := Encode(s[1..], raw);
      if rest.None? then None else Some([s[0]] + rest.value)
    else
      var c := Utf16ToUtf32(s);
      if c.length == 0 then None else
      var e := Utf32ToUtf8(c.codePoint);
      if e == [] then None else
      var rest := Encode(s[c.length..], raw);
      if rest.None? then None else Some(PercentBytes(e) + rest.value)
  }

  /** The byte of a percent escape that `s` starts with. */
  function GetByte(s: Text): (r: Option<Byte>) {
    if |s| < 3 || s[0] != PERCENT then None else HexValue2(s[1], s[2])
  }

  /** The bytes of the `n` percent escapes that `s` starts with. */
  function GetBytes(s: Text, n: nat): (r: Option<seq<Byte>>)
    ensures r.Some? ==> |r.value| == n && 3 * n <= |s|
  {
    if n == 0 then Some([]) else
    var b := GetByte(s);
    if b.None? then None else
    var rest := GetBytes(s[3..], n - 1);
    if rest.None? then None else Some([b.value] + rest.value)
  }

  /** decode_uri; None for any error. */
  function Decode(s: Text): Option<Text>
    decreases |s|
  {
    if s == [] then Some([])
    else if s[0] != PERCENT then
      var rest := Decode(s[1..]);
      if rest.None? then None else Some([s[0]] + rest.value)
    else
      var lead := GetByte(s);
      if lead.None? || Utf8Length(lead.value) == 0 then None else
      var n := Utf8Length(lead.value);
      var b := GetBytes(s, n);
      if b.None? then None else
      var c := Utf8ToUtf32(b.value);
      if c.length != n then None else
      var u := Utf32ToUtf16(c.codePoint);
      if u == [] then None else
      var rest := Decode(s[3 * n..]);
      if rest.None? then None else Some(u + rest.value)
  }

  lemma GetByteBack(b: Byte, k: Text)
    ensures GetByte([PERCENT] + HexByte(b) + k) == Some(b) && ([PERCENT] + HexByte(b) + k)[3..] == k
  {
    HexByteBack(b);
  }

  lemma {:induction false} GetBytesBack(b: seq<Byte>, k: Text)
    ensures GetBytes(PercentBytes(b) + k, |b|) == Some(b)
    ensures |PercentBytes(b)| == 3 * |b|
    decreases |b|
  {
    if b != [] {
      var rest := PercentBytes(b[1..]) + k;
      assert PercentBytes(b) + k == [PERCENT] + HexByte(b[0]) + rest;
      GetByteBack(b[0], rest);
      GetBytesBack(b[1..], k);
      assert [b[0]] + b[1..] == b;
    }
  }

  /** Decoding one encoded character. */
  lemma DecodeOne(cp: nat, k: Text)
    requires IsScalar(cp)
    ensures Decode(PercentBytes(Utf32ToUtf8(cp)) + k) ==
      if Decode(k).None? then None else Some(Utf32ToUtf16(cp) + Decode(k).value)
  {
    var e := Utf32ToUtf8(cp);
    var s := PercentBytes(e) + k;
    Utf8Inverse(cp, []);
    assert e + [] == e;
    LengthFits(cp);
    GetBytesBack(e, k);
    assert s[0] == PERCENT;
    assert GetBytes(s, |e|) == Some(e) && GetByte(s) == Some(e[0]);
    assert s[3 * |e|..] == k;
  }

  /** decode_uri undoes any successful encoding, whichever units were left alone, as long as the percent sign was not. */
  lemma {:induction false} DecodeEncoded(s: Text, raw: Unit -> bool)
    requires !raw(PERCENT) && Encode(s, raw).Some?
    ensures Decode(Encode(s, raw).value) == Some(s)
  {
    hide Utf8ToUtf32, Utf16ToUtf32, Utf32ToUtf8, Utf32ToUtf16, GetByte;
    if s != [] {
      var t := Encode(s, raw).value;
      if raw(s[0]) {
        var rest := Encode(s[1..], raw).value;
        DecodeEncoded(s[1..], raw);
        assert t[0] == s[0] && t[1..] == rest;
        assert [s[0]] + s[1..] == s;
      } else {
        var c := Utf16ToUtf32(s);
        var rest := Encode(s[c.length..], raw).value;
        DecodeEncoded(s[c.length..], raw);
        Utf16Unique(s);
        DecodeOne(c.codePoint, rest);
        assert s[..c.length] + s[c.length..] == s;
      }
    }
  }

  /** Encoding succeeds exactly when the surrogates that are not left alone stand in pairs. */
  lemma {:induction false} EncodeSucceeds(s: Text, raw: Unit -> bool)
    ensures Encode(s, raw).Some? <==> WellPaired(s, raw)
  {
    if s != [] {
      WellPairedStep(s, raw);
      var c := Utf16ToUtf32(s);
      if raw(s[0]) {
        EncodeSucceeds(s[1..], raw);
      } else if c.length != 0 {
        Utf16Unique(s);
        EncodeSucceeds(s[c.length..], raw);
      }
    }
  }

  lemma KeepsNoPercent()
    ensures !IsUriUnescaped(PERCENT) && !EncodeUriKeeps(PERCENT) && !EscapeKeeps(PERCENT)
  {}

  // ---- Narrow units one by one ----

  /** Which of the narrow units are left alone. */
  lemma KeptExactly(c: Unit)
    requires c < 0x100
    ensures var ch := c as char; var plain := 'A' <= ch <= 'Z' || 'a' <= ch <= 'z' || '0' <= ch <= '9';
      && (IsUriUnescaped(c) <==> plain || ch in "-_.!~*'()")
      && (EncodeUriKeeps(c) <==> plain || ch in "-_.!~*'()" || ch in ";/?:@&=+$," || ch == '#')
      && (EscapeKeeps(c) <==> plain || ch in "@*_+-./")
  {
    hide IsInList;
    MarksRead(c);
    ReservedRead(c);
    EscapeMarksRead(c);
  }

  lemma MarksRead(c: Unit)
    requires c < 0x100
    ensures IsInList(c, MARKS) <==> c as char in "-_.!~*'()"
  {
    assert "-_.!~*'()" == seq(9, i requires 0 <= i < 9 => MARKS[i] as char);
  }

  lemma ReservedRead(c: Unit)
    requires c < 0x100
    ensures IsInList(c, RESERVED) <==> c as char in ";/?:@&=+$,"
  {
    assert ";/?:@&=+$," == seq(10, i requires 0 <= i < 10 => RESERVED[i] as char);
  }

  lemma EscapeMarksRead(c: Unit)
    requires c < 0x100
    ensures IsInList(c, ESCAPE_MARKS) <==> c as char in "@*_+-./"
  {
    assert "@*_+-./" == seq(7, i requires 0 <= i < 7 => ESCAPE_MARKS[i] as char);
  }

  function UpperCase(d: nat): Unit
    requires d < 16
  {
    "0123456789ABCDEF"[d] as int
  }

  /** Bytes are written in upper case. */
  lemma HexByteWritten(b: Byte)
    ensures HexByte(b) == [UpperCase(b / 16), UpperCase(b % 16)]
  {
    HexDigitWritten(b / 16);
    HexDigitWritten(b % 16);
  }

  lemma HexDigitWritten(d: nat)
    requires d < 16
    ensures HexDigit(d, 65) == UpperCase(d)
  {
    assert d < 10 ==> "0123456789ABCDEF"[d] as int == 48 + d;
    assert 10 <= d ==> "0123456789ABCDEF"[d] as int == 55 + d;
  }

  /** A character of ASCII that is not left alone becomes a percent sign and its two digits. */
  lemma AsciiEncoded(c: Unit, raw: Unit -> bool)
    requires c < 0x80
    ensures Encode([c], raw) ==
      Some(if raw(c) then [c] else ['%' as int, UpperCase(c / 16), UpperCase(c % 16)])
  {
    var s: Text := [c];
    assert s[1..] == [];
    assert Encode(s[1..], raw) == Some([]);
    HexByteWritten(c);
    if !raw(c) {
      assert Utf16ToUtf32(s) == Conv(1, c);
      assert Utf32ToUtf8(c) == [c];
      var e: seq<Byte> := [c];
      assert e[1..] == [];
      assert PercentBytes(e) == [PERCENT] + HexByte(c) + PercentBytes([]);
      assert PercentBytes(e) + [] == [PERCENT, UpperCase(c / 16), UpperCase(c % 16)];
      assert Encode(s, raw) == Some(PercentBytes(e) + []);
    } else {
      assert [s[0]] + [] == s;
    }
  }

  // ---- What narrowing does ----

  /** The lists as they read, without narrowing. */
  predicate ListedUnescaped(c: Unit) {
    IsAlphaOrDigit(c) || c in MARKS
  }

  predicate ListedKeeps(c: Unit) {
    ListedUnescaped(c) || c in RESERVED || c == 35
  }

  /** A unit at `i` that only `loose` leaves alone, and that is not taken as the second half of a pair. */
  predicate Exposed(s: Text, i: nat, loose: Unit -> bool, strict: Unit -> bool)
    requires i < |s|
  {
    loose(s[i]) && !strict(s[i]) && !(IsLow(s[i]) && PrecededByHigh(s, i, loose))
  }

  ghost predicate NoneExposed(s: Text, loose: Unit -> bool, strict: Unit -> bool) {
    forall i | 0 <= i < |s| :: !Exposed(s, i, loose, strict)
  }

  /** `loose` leaves alone whatever `strict` does, and beyond that only wide units. */
  ghost predicate Widens(loose: Unit -> bool, strict: Unit -> bool) {
    forall c: Unit :: (strict(c) ==> loose(c)) && (loose(c) && !strict(c) ==> c >= 0x100)
  }

  /** Taking one character off the front. */
  lemma ExposedStep(s: Text, loose: Unit -> bool, strict: Unit -> bool)
    requires s != [] && (loose(s[0]) || Utf16ToUtf32(s).length != 0)
    ensures var n := if loose(s[0]) then 1 else Utf16ToUtf32(s).length;
      NoneExposed(s, loose, strict) <==> !Exposed(s, 0, loose, strict) && NoneExposed(s[n..], loose, strict)
  {
    var n := if loose(s[0]) then 1 else Utf16ToUtf32(s).length;
    var t := s[n..];
    forall i | n <= i < |s| ensures Exposed(s, i, loose, strict) <==> Exposed(t, i - n, loose, strict) {
      assert t[i - n] == s[i] && (i > n ==> t[i - n - 1] == s[i - 1]);
    }
    assert n == 2 ==> !Exposed(s, 1, loose, strict);
    if NoneExposed(s, loose, strict) {
      forall i | 0 <= i < |t| ensures !Exposed(t, i, loose, strict) {
        assert !Exposed(s, i + n, loose, strict);
      }
    }
    if !Exposed(s, 0, loose, strict) && NoneExposed(t, loose, strict) {
      forall i | 0 <= i < |s| ensures !Exposed(s, i, loose, strict) {
        assert i < n || !Exposed(t, i - n, loose, strict);
      }
    }
  }

  /** When both encodings succeed they agree exactly if no unit is exposed. */
  lemma {:induction false} AgreeExactly(s: Text, loose: Unit -> bool, strict: Unit -> bool)
    requires Widens(loose, strict)
    ensures NoneExposed(s, loose, strict) ==> Encode(s, loose) == Encode(s, strict)
    ensures Encode(s, loose).Some? && Encode(s, loose) == Encode(s, strict) ==> NoneExposed(s, loose, strict)
    decreases |s|
  {
    if s != [] && (loose(s[0]) || Utf16ToUtf32(s).length != 0) {
      ExposedStep(s, loose, strict);
      var n := if loose(s[0]) then 1 else Utf16ToUtf32(s).length;
      AgreeExactly(s[n..], loose, strict);
      if loose(s[0]) && !strict(s[0]) {
        assert Exposed(s, 0, loose, strict);
        WideIsNotPercent(s, loose, strict);
      } else if Encode(s, loose).Some? && Encode(s, strict).Some? {
        SameFront(s, n, loose, strict);
      }
    } else if s != [] {
      assert Encode(s, loose) == Encode(s, strict) == None;
    }
  }

  /** A unit left alone on one side and percent-encoded on the other tells the texts apart. */
  lemma WideIsNotPercent(s: Text, loose: Unit -> bool, strict: Unit -> bool)
    requires s != [] && loose(s[0]) && !strict(s[0]) && s[0] != PERCENT
    ensures Encode(s, loose).Some? ==> Encode(s, loose) != Encode(s, strict)
  {
    if Encode(s, loose).Some? && Encode(s, strict).Some? {
      assert Encode(s, loose).value[0] == s[0];
      Utf16Unique(s);
      LengthFits(Utf16ToUtf32(s).codePoint);
      assert Encode(s, strict).value[0] == PERCENT;
    }
  }

  /** The same front on both sides cancels. */
  lemma SameFront(s: Text, n: nat, loose: Unit -> bool, strict: Unit -> bool)
    requires s != [] && loose(s[0]) == strict(s[0]) && n == (if loose(s[0]) then 1 else Utf16ToUtf32(s).length)
    requires Encode(s, loose).Some? && Encode(s, strict).Some?
    ensures Encode(s[n..], loose).Some? && Encode(s[n..], strict).Some?
    ensures Encode(s, loose) == Encode(s, strict) ==> Encode(s[n..], loose) == Encode(s[n..], strict)
  {
    var head := if loose(s[0]) then [s[0]] else PercentBytes(Utf32ToUtf8(Utf16ToUtf32(s).codePoint));
    var a, b := Encode(s[n..], loose).value, Encode(s[n..], strict).value;
    assert (head + a)[|head|..] == a && (head + b)[|head|..] == b;
  }

  lemma ListNarrows(c: Unit, list: Text)
    requires forall x | x in list :: x < 0x100
    ensures c in list <==> c < 0x100 && IsInList(c, list)
  {}

  lemma ListsAreNarrow()
    ensures (forall x | x in MARKS :: x < 0x100) && (forall x | x in RESERVED :: x < 0x100)
  {}

  /** Which units the narrowing lets through. */
  lemma LetThrough(c: Unit)
    ensures ListedUnescaped(c) ==> IsUriUnescaped(c) && c < 0x100
    ensures IsUriUnescaped(c) && !ListedUnescaped(c) <==> c >= 0x100 && c % 0x100 in MARKS
    ensures ListedKeeps(c) ==> EncodeUriKeeps(c) && c < 0x100
    ensures EncodeUriKeeps(c) && !ListedKeeps(c) <==> c >= 0x100 && (c % 0x100 in MARKS || c % 0x100 in RESERVED)
  {
    ListsAreNarrow();
    ListNarrows(c, MARKS);
    ListNarrows(c, RESERVED);
  }

  lemma ListsWiden()
    ensures Widens(IsUriUnescaped, ListedUnescaped) && Widens(EncodeUriKeeps, ListedKeeps)
  {
    hide IsUriUnescaped, ListedUnescaped, EncodeUriKeeps, ListedKeeps;
    forall c: Unit
      ensures (ListedUnescaped(c) ==> IsUriUnescaped(c)) && (IsUriUnescaped(c) && !ListedUnescaped(c) ==> c >= 0x100)
      ensures (ListedKeeps(c) ==> EncodeUriKeeps(c)) && (EncodeUriKeeps(c) && !ListedKeeps(c) ==> c >= 0x100)
    {
      LetThrough(c);
    }
  }

  /** Letting no surrogate through is asking for well-formed text. */
  lemma NoSurrogates(s: Text, raw: Unit -> bool)
    requires forall c: Unit | raw(c) :: c < 0x100
    ensures WellPaired(s, raw) <==> WellFormed16(s)
  {
    if WellPaired(s, raw) {
      forall i | 0 <= i < |s| && IsLow(s[i]) ensures PrecededByHigh(s, i, c => false) {
        assert PrecededByHigh(s, i, raw);
      }
    }
    if WellFormed16(s) {
      forall i | 0 <= i < |s| && IsLow(s[i]) ensures PrecededByHigh(s, i, raw) {
        assert PrecededByHigh(s, i, c => false);
      }
    }
  }

  /**
   * For every text: encodeURIComponent gives what its list as it reads would give exactly when neither succeeds, or
   * no wide unit, but for second halves of pairs, has the lower half of a mark (see LetThrough).
   */
  lemma NarrowingExactly(s: Text)
    ensures Encode(s, IsUriUnescaped) == Encode(s, ListedUnescaped) <==>
      (!WellPaired(s, IsUriUnescaped) && !WellFormed16(s)) || NoneExposed(s, IsUriUnescaped, ListedUnescaped)
  {
    hide IsUriUnescaped, ListedUnescaped, Widens, NoneExposed, Encode, WellPaired;
    ListsWiden();
    AgreeExactly(s, IsUriUnescaped, ListedUnescaped);
    EncodeSucceeds(s, IsUriUnescaped);
    EncodeSucceeds(s, ListedUnescaped);
    forall c: Unit | ListedUnescaped(c) ensures c < 0x100 {
      LetThrough(c);
    }
    NoSurrogates(s, ListedUnescaped);
  }

  /** The same for encodeURI. */
  lemma NarrowingExactlyUri(s: Text)
    ensures Encode(s, EncodeUriKeeps) == Encode(s, ListedKeeps) <==>
      (!WellPaired(s, EncodeUriKeeps) && !WellFormed16(s)) || NoneExposed(s, EncodeUriKeeps, ListedKeeps)
  {
    hide EncodeUriKeeps, ListedKeeps, Widens, NoneExposed, Encode, WellPaired;
    ListsWiden();
    AgreeExactly(s, EncodeUriKeeps, ListedKeeps);
    EncodeSucceeds(s, EncodeUriKeeps);
    EncodeSucceeds(s, ListedKeeps);
    forall c: Unit | ListedKeeps(c) ensures c < 0x100 {
      LetThrough(c);
    }
    NoSurrogates(s, ListedKeeps);
  }

  /** The first half of the pair at `i` is left alone and the second is not. */
  predicate SplitsPair(s: Text, i: nat, raw: Unit -> bool) {
    i + 1 < |s| && IsHigh(s[i]) && IsLow(s[i + 1]) && raw(s[i]) && !raw(s[i + 1])
  }

  /** A well-formed text is refused exactly when some pair is split so. */
  lemma RefusedExactly(s: Text, raw: Unit -> bool)
    requires WellFormed16(s)
    ensures Encode(s, raw).None? <==> exists i :: 0 <= i < |s| && SplitsPair(s, i, raw)
  {
    EncodeSucceeds(s, raw);
    if i :| 0 <= i < |s| && SplitsPair(s, i, raw) {
      assert !PrecededByHigh(s, i + 1, raw);
    } else {
      forall i | 0 <= i < |s| && IsHigh(s[i]) && !raw(s[i]) ensures FollowedByLow(s, i) {}
      forall i | 0 <= i < |s| && IsLow(s[i]) && !raw(s[i]) ensures PrecededByHigh(s, i, raw) {
        assert PrecededByHigh(s, i, c => false);
        assert !SplitsPair(s, i - 1, raw);
      }
    }
  }

  /** Because the list search narrows, a wide unit can pass for a mark, and a proper pair can be refused. */
  lemma NarrowingShows()
    ensures IsUriUnescaped(0x12D) && Encode([0x12D], IsUriUnescaped) == Some([0x12D])
    ensures WellFormed16([0xD82D, 0xDC00]) && Encode([0xD82D, 0xDC00], IsUriUnescaped) == None
  {
    assert 0x12D % 0x100 == MARKS[0] && 0xD82D % 0x100 == MARKS[0];
    var one: Text := [0x12D];
    assert one[1..] == [];
    assert Encode(one[1..], IsUriUnescaped) == Some([]) && [one[0]] + [] == one;
    var pair: Text := [0xD82D, 0xDC00];
    assert IsLow(pair[1]) && FollowedByLow(pair, 0) && PrecededByHigh(pair, 1, c => false);
    assert pair[1..] == [0xDC00];
    assert 0xDC00 % 0x100 == 0 && 0 !in MARKS;
    assert Encode(pair[1..], IsUriUnescaped) == None;
  }

  // ---- escape and unescape ----

  function EscapeUnit(c: Unit): Text {
    if EscapeKeeps(c) then [c] else Escaped(c)
  }

  function Escaped(c: Unit): Text {
    if c > 255 then [PERCENT, LETTER_U] + HexByte(c / 0x100) + HexByte(c % 0x100) else [PERCENT] + HexByte(c)
  }

  function Escape(s: Text): Text {
    if s == [] then [] else EscapeUnit(s[0]) + Escape(s[1..])
  }

  /** unescape; None for any error. */
  function Unescape(s: Text): Option<Text>
    decreases |s|
  {
    if s == [] then Some([])
    else if s[0] != PERCENT then Cons(s[0], Unescape(s[1..]))
    else if |s| < 3 || (s[1] == LETTER_U && |s| < 6) then None
    else if s[1] == LETTER_U then
      var hi, lo := HexValue2(s[2], s[3]), HexValue2(s[4], s[5]);
      if hi.None? || lo.None? then None else Cons(hi.value * 0x100 + lo.value, Unescape(s[6..]))
    else
      var b := HexValue2(s[1], s[2]);
      if b.None? then None else Cons(b.value, Unescape(s[3..]))
  }

  function Cons(c: Unit, r: Option<Text>): Option<Text> {
    if r.None? then None else Some([c] + r.value)
  }

  /** A unit that escape does not leave alone: a percent sign and two digits, or a percent sign, a u and four. */
  lemma UnitEscaped(c: Unit)
    ensures Escape([c]) ==
      if EscapeKeeps(c) then [c]
      else if c < 0x100 then ['%' as int, UpperCase(c / 16), UpperCase(c % 16)]
      else var hi, lo := c / 0x100, c % 0x100;
        ['%' as int, 'u' as int, UpperCase(hi / 16), UpperCase(hi % 16), UpperCase(lo / 16), UpperCase(lo % 16)]
  {
    var s: Text := [c];
    assert s[1..] == [];
    assert Escape(s) == EscapeUnit(c);
    if c < 0x100 {
      HexByteWritten(c);
    } else {
      HexByteWritten(c / 0x100);
      HexByteWritten(c % 0x100);
    }
  }

  lemma UnescapeOne(c: Unit, k: Text)
    ensures Unescape(EscapeUnit(c) + k) == Cons(c, Unescape(k))
  {
    var e := EscapeUnit(c);
    var s := e + k;
    KeepsNoPercent();
    assert s[0] == e[0] && s[|e|..] == k;
    if !EscapeKeeps(c) {
      assert s[1] == e[1] && s[2] == e[2];
      if c > 255 {
        assert s[3] == e[3] && s[4] == e[4] && s[5] == e[5];
        HexByteBack(c / 0x100);
        HexByteBack(c % 0x100);
      } else {
        HexByteBack(c);
      }
    }
  }

  /** unescape undoes escape on every text, well-formed or not. */
  lemma {:induction false} UnescapeEscaped(s: Text)
    ensures Unescape(Escape(s)) == Some(s)
  {
    if s != [] {
      UnescapeEscaped(s[1..]);
      UnescapeOne(s[0], Escape(s[1..]));
      assert [s[0]] + s[1..] == s;
    }
  }

  /** The list of escape as it reads. */
  predicate ListedEscape(c: Unit) {
    IsAlphaOrDigit(c) || c in ESCAPE_MARKS
  }

  /** What escape would give without narrowing. */
  function EscapeListed(s: Text): Text {
    if s == [] then [] else (if ListedEscape(s[0]) then [s[0]] else Escaped(s[0])) + EscapeListed(s[1..])
  }

  lemma EscapeLetsThrough(c: Unit)
    ensures ListedEscape(c) ==> EscapeKeeps(c) && c < 0x100
    ensures EscapeKeeps(c) && !ListedEscape(c) <==> c >= 0x100 && c % 0x100 in ESCAPE_MARKS
  {
    ListNarrows(c, ESCAPE_MARKS);
  }

  /** escape gives what its list as it reads would give exactly when no wide unit has the lower half of a mark. */
  lemma {:induction false} EscapeExactly(s: Text)
    ensures Escape(s) == EscapeListed(s) <==> forall i :: 0 <= i < |s| ==> !(s[i] >= 0x100 && s[i] % 0x100 in ESCAPE_MARKS)
  {
    if s != [] {
      var a, b := Escape(s[1..]), EscapeListed(s[1..]);
      EscapeLetsThrough(s[0]);
      EscapeExactly(s[1..]);
      if s[0] >= 0x100 && s[0] % 0x100 in ESCAPE_MARKS {
        assert Escape(s)[0] == s[0] && EscapeListed(s)[0] == PERCENT;
      } else {
        var e := EscapeUnit(s[0]);
        assert Escape(s) == e + a && EscapeListed(s) == e + b;
        assert (e + a)[|e|..] == a && (e + b)[|e|..] == b;
      }
    }
  }

  /** A wide unit that escape leaves alone. */
  lemma EscapeNarrows()
    ensures Escape([0x140]) == [0x140] && EscapeListed([0x140]) == [PERCENT, LETTER_U, 48, 49, 52, 48]
  {
    var s: Text := [0x140];
    assert s[1..] == [] && 0x140 % 0x100 == ESCAPE_MARKS[0];
    EscapeLetsThrough(0x140);
    assert Escape(s[1..]) == [] && EscapeListed(s[1..]) == [];
    assert Escaped(0x140) == [PERCENT, LETTER_U, 48, 49, 52, 48];
  }
}
