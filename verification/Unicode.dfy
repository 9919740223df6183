/** UTF-8, UTF-16 and UTF-32: the conversions of single characters and the transcoding loops over whole strings. */
module Unicode {
  import opened Wrappers
  import opened Characters

  type Byte = c: int | 0 <= c < 0x100

  const HIGH_SURROGATE := 0xD800
  const LOW_SURROGATE := 0xDC00
  const LAST_SURROGATE := 0xDFFF
  const MAX_CODE_POINT := 0x11_0000

  /** How many source units were used, 0 for none, and the character they encode. */
  datatype Conv = Conv(length: nat, codePoint: nat)

  const INVALID := Conv(0, 0)

  predicate IsHigh(c: Unit) {
    HIGH_SURROGATE <= c < LOW_SURROGATE
  }

  predicate IsLow(c: Unit) {
    LOW_SURROGATE <= c <= LAST_SURROGATE
  }

  /** A character that has an encoding: a code point that is not a surrogate. */
  predicate IsScalar(cp: nat) {
    cp < HIGH_SURROGATE || LAST_SURROGATE < cp < MAX_CODE_POINT
  }

  // ---- Single characters ----

  function Utf16Length(lead: Unit): nat {
    if lead < HIGH_SURROGATE || lead > LAST_SURROGATE then 1
    else if lead < LOW_SURROGATE then 2 else 0
  }

  function Utf16ToUtf32(s: seq<Unit>): (c: Conv)
    requires s != []
    ensures c.length <= |s| && c.length <= 2
  {
    var l := Utf16Length(s[0]);
    if l == 0 || l > |s| then INVALID
    else if l == 1 then Conv(1, s[0])
    else if !IsLow(s[1]) then INVALID
    else Conv(2, 0x1_0000 + (s[0] - HIGH_SURROGATE) * 0x400 + (s[1] - LOW_SURROGATE))
  }

  function Utf32ToUtf16(cp: nat): seq<Unit> {
    if !IsScalar(cp) then []
    else if cp < 0x1_0000 then [cp]
    else [HIGH_SURROGATE + (cp - 0x1_0000) / 0x400, LOW_SURROGATE + (cp - 0x1_0000) % 0x400]
  }

  function Utf8Length(lead: Byte): nat {
    if lead < 0x80 then 1
    else if 0xC0 <= lead < 0xE0 then 2
    else if 0xE0 <= lead < 0xF0 then 3
    else if 0xF0 <= lead < 0xF8 then 4
    else 0
  }

  /** The bits that a lead byte of an `l`-byte sequence contributes. */
  function LeadBits(lead: Byte, l: nat): nat
    requires 2 <= l <= 4
  {
    if l == 2 then lead % 0x40 else if l == 3 then lead % 0x20 else lead % 0x10
  }

  /** The code point with the six bits of one more continuation byte. */
  function PushSextet(cp: nat, b: Byte): nat {
    cp * 0x40 + b % 0x40
  }

  /** Continuation bytes carry six bits each; None when one of them is not a continuation byte. */
  function Continue(cp: nat, s: seq<Byte>): Option<nat>
    decreases |s|
  {
    if s == [] then Some(cp)
    else if !(0x80 <= s[0] < 0xC0) then None
    else Continue(PushSextet(cp, s[0]), s[1..])
  }

  function Utf8ToUtf32(s: seq<Byte>): (c: Conv)
    requires s != []
    ensures c.length <= |s|
  {
    var l := Utf8Length(s[0]);
    if l == 0 || l > |s| then INVALID
    else if l == 1 then Conv(1, s[0])
    else
      var cp := Continue(LeadBits(s[0], l), s[1..l]);
      if cp.None? then INVALID else Conv(l, cp.value)
  }

  function Utf8Count(cp: nat): nat {
    if cp < 0x80 then 1 else if cp < 0x800 then 2 else if cp < 0x1_0000 then 3 else if cp < MAX_CODE_POINT then 4 else 0
  }

  function Utf32ToUtf8(cp: nat): seq<Byte> {
    if cp < 0x80 then [cp]
    else if cp < 0x800 then [0xC0 + cp / 0x40, 0x80 + cp % 0x40]
    else if cp < 0x1_0000 then [0xE0 + cp / 0x1000, 0x80 + cp / 0x40 % 0x40, 0x80 + cp % 0x40]
    else if cp < MAX_CODE_POINT then [0xF0 + cp / 0x4_0000, 0x80 + cp / 0x1000 % 0x40, 0x80 + cp / 0x40 % 0x40, 0x80 + cp % 0x40]
    else []
  }

  /** UTF-16 encoding is undone, whatever follows. */
  lemma Utf16Inverse(cp: nat, k: seq<Unit>)
    requires IsScalar(cp)
    ensures Utf32ToUtf16(cp) != [] && Utf16ToUtf32(Utf32ToUtf16(cp) + k) == Conv(|Utf32ToUtf16(cp)|, cp)
  {
    var e := Utf32ToUtf16(cp);
    assert (e + k)[0] == e[0];
    if |e| == 2 {
      assert (e + k)[1] == e[1];
    }
  }

  /** What decodes is a scalar, and encoding it gives back the units that were read. */
  lemma Utf16Unique(s: seq<Unit>)
    requires s != [] && Utf16ToUtf32(s).length != 0
    ensures var c := Utf16ToUtf32(s); IsScalar(c.codePoint) && Utf32ToUtf16(c.codePoint) == s[..c.length]
  {}

  /** Two-byte sequences. */
  lemma Continue1(cp: nat, a: Byte)
    ensures Continue(cp, [a]) == if 0x80 <= a < 0xC0 then Some(cp * 0x40 + a % 0x40) else None
  {
    assert [a][1..] == [];
  }

  /** Three-byte sequences. */
  lemma Continue2(cp: nat, a: Byte, b: Byte)
    ensures Continue(cp, [a, b]) ==
      if 0x80 <= a < 0xC0 && 0x80 <= b < 0xC0 then Some((cp * 0x40 + a % 0x40) * 0x40 + b % 0x40) else None
  {
    assert [a, b][1..] == [b];
    Continue1(cp * 0x40 + a % 0x40, b);
  }

  /** Four-byte sequences. */
  lemma Continue3(cp: nat, a: Byte, b: Byte, c: Byte)
    ensures Continue(cp, [a, b, c]) ==
      if 0x80 <= a < 0xC0 && 0x80 <= b < 0xC0 && 0x80 <= c < 0xC0
      then Some(((cp * 0x40 + a % 0x40) * 0x40 + b % 0x40) * 0x40 + c % 0x40) else None
  {
    assert [a, b, c][1..] == [b, c];
    Continue2(cp * 0x40 + a % 0x40, b, c);
  }

  /** Taking six bits off the end. */
  lemma Sextet(q: nat, r: nat)
    requires r < 0x40
    ensures (q * 0x40 + r) / 0x40 == q && (q * 0x40 + r) % 0x40 == r
  {}

  lemma Sextets(n: nat)
    ensures n == n / 0x40 * 0x40 + n % 0x40
    ensures n / 0x40 / 0x40 == n / 0x1000 && n / 0x1000 / 0x40 == n / 0x4_0000
  {}

  lemma TailByte(r: nat)
    requires r < 0x40
    ensures 0x80 <= 0x80 + r < 0xC0 && (0x80 + r) % 0x40 == r
  {}

  /** UTF-8 encoding is undone, whatever follows. */
  lemma Utf8Inverse(cp: nat, k: seq<Byte>)
    requires cp < MAX_CODE_POINT
    ensures |Utf32ToUtf8(cp)| == Utf8Count(cp) >= 1
    ensures Utf8ToUtf32(Utf32ToUtf8(cp) + k) == Conv(|Utf32ToUtf8(cp)|, cp)
  {
    var e := Utf32ToUtf8(cp);
    assert (e + k)[0] == e[0] && (e + k)[1..|e|] == e[1..];
    LengthFits(cp);
    if |e| > 1 {
      ContinueEncoded(cp);
    }
  }

  lemma LengthFits(cp: nat)
    requires cp < MAX_CODE_POINT
    ensures |Utf32ToUtf8(cp)| == Utf8Count(cp) && Utf8Length(Utf32ToUtf8(cp)[0]) == Utf8Count(cp)
  {}

  lemma ContinueEncoded(cp: nat)
    requires 0x80 <= cp < MAX_CODE_POINT
    ensures Continue(LeadBits(Utf32ToUtf8(cp)[0], Utf8Count(cp)), Utf32ToUtf8(cp)[1..]) == Some(cp)
  {
    hide Continue;
    var e := Utf32ToUtf8(cp);
    LeadFits(cp);
    var d := TailBytes(cp);
    if cp < 0x800 {
      assert e[1..] == [d.2];
      Continue1(cp / 0x40, d.2);
    } else if cp < 0x1_0000 {
      assert e[1..] == [d.1, d.2];
      Continue2(cp / 0x1000, d.1, d.2);
    } else {
      assert e[1..] == [d.0, d.1, d.2];
      Continue3(cp / 0x4_0000, d.0, d.1, d.2);
    }
  }

  lemma LeadFits(cp: nat)
    requires 0x80 <= cp < MAX_CODE_POINT
    ensures LeadBits(Utf32ToUtf8(cp)[0], Utf8Count(cp)) ==
      if cp < 0x800 then cp / 0x40 else if cp < 0x1_0000 then cp / 0x1000 else cp / 0x4_0000
  {}

  /** The tail bytes of a code point, and how they add up. */
  lemma TailBytes(cp: nat) returns (d: (Byte, Byte, Byte))
    ensures d == (0x80 + cp / 0x1000 % 0x40, 0x80 + cp / 0x40 % 0x40, 0x80 + cp % 0x40)
    ensures IsTail(d.0) && IsTail(d.1) && IsTail(d.2)
    ensures cp / 0x4_0000 * 0x40 + d.0 % 0x40 == cp / 0x1000
    ensures cp / 0x1000 * 0x40 + d.1 % 0x40 == cp / 0x40
    ensures cp / 0x40 * 0x40 + d.2 % 0x40 == cp
  {
    var n, m := cp / 0x40, cp / 0x1000;
    Sextets(cp);
    Sextets(n);
    Sextets(m);
    TailByte(cp % 0x40);
    TailByte(n % 0x40);
    TailByte(m % 0x40);
    d := (0x80 + m % 0x40, 0x80 + n % 0x40, 0x80 + cp % 0x40);
  }

  /** What decodes to a code point: the point's own encoding is no longer than the bytes read, and is them if as long. */
  lemma Utf8Shortest(s: seq<Byte>)
    requires s != [] && Utf8ToUtf32(s).length != 0 && Utf8ToUtf32(s).codePoint < MAX_CODE_POINT
    ensures var c := Utf8ToUtf32(s); |Utf32ToUtf8(c.codePoint)| <= c.length
    ensures var c := Utf8ToUtf32(s); |Utf32ToUtf8(c.codePoint)| == c.length ==> Utf32ToUtf8(c.codePoint) == s[..c.length]
  {
    var l := Utf8ToUtf32(s).length;
    hide Continue;
    if l == 2 {
      assert s[..2] == [s[0], s[1]] && s[1..2] == [s[1]];
      Continue1(LeadBits(s[0], 2), s[1]);
      Shortest2(s[0], s[1]);
    } else if l == 3 {
      assert s[..3] == [s[0], s[1], s[2]] && s[1..3] == [s[1], s[2]];
      Continue2(LeadBits(s[0], 3), s[1], s[2]);
      Shortest3(s[0], s[1], s[2]);
    } else if l == 4 {
      assert s[..4] == [s[0], s[1], s[2], s[3]] && s[1..4] == [s[1], s[2], s[3]];
      Continue3(LeadBits(s[0], 4), s[1], s[2], s[3]);
      Shortest4(s[0], s[1], s[2], s[3]);
    }
  }

  predicate IsTail(b: Byte) {
    0x80 <= b < 0xC0
  }

  lemma Shortest2(a: Byte, b: Byte)
    requires 0xC0 <= a < 0xE0 && IsTail(b)
    ensures var cp := LeadBits(a, 2) * 0x40 + b % 0x40;
      Utf8Count(cp) <= 2 && |Utf32ToUtf8(cp)| == Utf8Count(cp) && (Utf8Count(cp) == 2 ==> Utf32ToUtf8(cp) == [a, b])
  {
    Sextet(LeadBits(a, 2), b % 0x40);
  }

  lemma Shortest3(a: Byte, b: Byte, c: Byte)
    requires 0xE0 <= a < 0xF0 && IsTail(b) && IsTail(c)
    ensures var cp := (LeadBits(a, 3) * 0x40 + b % 0x40) * 0x40 + c % 0x40;
      Utf8Count(cp) <= 3 && |Utf32ToUtf8(cp)| == Utf8Count(cp) && (Utf8Count(cp) == 3 ==> Utf32ToUtf8(cp) == [a, b, c])
  {
    var n := LeadBits(a, 3) * 0x40 + b % 0x40;
    Sextet(LeadBits(a, 3), b % 0x40);
    Sextet(n, c % 0x40);
    Sextets(n * 0x40 + c % 0x40);
  }

  lemma Shortest4(a: Byte, b: Byte, c: Byte, d: Byte)
    requires 0xF0 <= a < 0xF8 && IsTail(b) && IsTail(c) && IsTail(d)
    ensures var cp := ((LeadBits(a, 4) * 0x40 + b % 0x40) * 0x40 + c % 0x40) * 0x40 + d % 0x40;
      cp < MAX_CODE_POINT ==>
      |Utf32ToUtf8(cp)| == Utf8Count(cp) && (Utf8Count(cp) == 4 ==> Utf32ToUtf8(cp) == [a, b, c, d])
  {
    var cp := ((LeadBits(a, 4) * 0x40 + b % 0x40) * 0x40 + c % 0x40) * 0x40 + d % 0x40;
    assert a == 0xF0 + LeadBits(a, 4);
    hide LeadBits;
    Split4(LeadBits(a, 4), b % 0x40, c % 0x40, d % 0x40);
    TailSelf(b);
    TailSelf(c);
    TailSelf(d);
    if 0x1_0000 <= cp < MAX_CODE_POINT {
      assert Utf32ToUtf8(cp) == [a, b, c, d];
    }
  }

  lemma TailSelf(b: Byte)
    requires IsTail(b)
    ensures b == 0x80 + b % 0x40
  {}

  lemma Split4(a: nat, b: nat, c: nat, d: nat)
    requires b < 0x40 && c < 0x40 && d < 0x40
    ensures var cp := ((a * 0x40 + b) * 0x40 + c) * 0x40 + d;
      cp / 0x4_0000 == a && cp / 0x1000 % 0x40 == b && cp / 0x40 % 0x40 == c && cp % 0x40 == d
  {
    var m := a * 0x40 + b;
    var n := m * 0x40 + c;
    Sextet(a, b);
    Sextet(m, c);
    Sextet(n, d);
    Sextets(n * 0x40 + d);
  }

  // ---- Whole strings ----

  /** utf16_to_utf8; None where the program throws. */
  function Utf16ToUtf8(s: seq<Unit>): Option<seq<Byte>> {
    if s == [] then Some([]) else
    var c := Utf16ToUtf32(s);
    if c.length == 0 then None else
    var e := Utf32ToUtf8(c.codePoint);
    if e == [] then None else
    var rest := Utf16ToUtf8(s[c.length..]);
    if rest.None? then None else Some(e + rest.value)
  }

  /** utf8_to_utf16; None where the program throws. */
  function Utf8ToUtf16(b: seq<Byte>): Option<seq<Unit>> {
    if b == [] then Some([]) else
    var c := Utf8ToUtf32(b);
    if c.length == 0 then None else
    var e := Utf32ToUtf16(c.codePoint);
    if e == [] then None else
    var rest := Utf8ToUtf16(b[c.length..]);
    if rest.None? then None else Some(e + rest.value)
  }

  /**
   * Surrogates stand in pairs, except that those let through by `raw` need not:
   * a high one that is not let through has a low one behind it, a low one that is not has such a high one before it.
   */
  ghost predicate WellPaired(s: seq<Unit>, raw: Unit -> bool) {
    && (forall i :: 0 <= i < |s| && IsHigh(s[i]) && !raw(s[i]) ==> FollowedByLow(s, i))
    && (forall i :: 0 <= i < |s| && IsLow(s[i]) && !raw(s[i]) ==> PrecededByHigh(s, i, raw))
  }

  predicate FollowedByLow(s: seq<Unit>, i: nat) {
    i + 1 < |s| && IsLow(s[i + 1])
  }

  predicate PrecededByHigh(s: seq<Unit>, i: nat, raw: Unit -> bool) {
    0 < i <= |s| && IsHigh(s[i - 1]) && !raw(s[i - 1])
  }

  /** Well-formed UTF-16: every surrogate is half of a pair. */
  ghost predicate WellFormed16(s: seq<Unit>) {
    WellPaired(s, c => false)
  }

  /** Taking one character off the front, a raw unit or a decoded one. */
  lemma WellPairedStep(s: seq<Unit>, raw: Unit -> bool)
    requires s != []
    ensures WellPaired(s, raw) <==>
      (raw(s[0]) || Utf16ToUtf32(s).length != 0) &&
      WellPaired(s[if raw(s[0]) then 1 else Utf16ToUtf32(s).length..], raw)
  {
    var n := if raw(s[0]) then 1 else Utf16ToUtf32(s).length;
    if raw(s[0]) || n != 0 {
      var t := s[n..];
      if WellPaired(s, raw) {
        forall i | 0 <= i < |t| && IsHigh(t[i]) && !raw(t[i]) ensures FollowedByLow(t, i) {
          assert FollowedByLow(s, i + n);
        }
        forall i | 0 <= i < |t| && IsLow(t[i]) && !raw(t[i]) ensures PrecededByHigh(t, i, raw) {
          assert PrecededByHigh(s, i + n, raw);
        }
      }
      if WellPaired(t, raw) {
        forall i | 0 <= i < |s| && IsHigh(s[i]) && !raw(s[i]) ensures FollowedByLow(s, i) {
          if i >= n {
            assert t[i - n] == s[i] && FollowedByLow(t, i - n);
          }
        }
        forall i | 0 <= i < |s| && IsLow(s[i]) && !raw(s[i]) ensures PrecededByHigh(s, i, raw) {
          if i >= n {
            assert t[i - n] == s[i] && PrecededByHigh(t, i - n, raw);
          }
        }
      }
    } else if IsLow(s[0]) {
      assert !PrecededByHigh(s, 0, raw);
    } else {
      assert !FollowedByLow(s, 0);
    }
  }

  /** utf16_to_utf8 succeeds exactly on well-formed UTF-16. */
  lemma {:induction false} Utf16ToUtf8Succeeds(s: seq<Unit>)
    ensures Utf16ToUtf8(s).Some? <==> WellFormed16(s)
  {
    if s != [] {
      WellPairedStep(s, c => false);
      var c := Utf16ToUtf32(s);
      if c.length != 0 {
        Utf16Unique(s);
        Utf16ToUtf8Succeeds(s[c.length..]);
      }
    }
  }

  /** And utf8_to_utf16 then returns the input. */
  lemma {:induction false} Utf8RoundTrip(s: seq<Unit>)
    requires Utf16ToUtf8(s).Some?
    ensures Utf8ToUtf16(Utf16ToUtf8(s).value) == Some(s)
  {
    hide Utf8ToUtf32, Utf16ToUtf32, Utf32ToUtf8, Utf32ToUtf16;
    if s != [] {
      var c := Utf16ToUtf32(s);
      var e := Utf32ToUtf8(c.codePoint);
      var rest := Utf16ToUtf8(s[c.length..]).value;
      Utf8RoundTrip(s[c.length..]);
      Utf16Unique(s);
      Utf8Inverse(c.codePoint, rest);
      assert (e + rest)[|e|..] == rest;
      assert s[..c.length] + s[c.length..] == s;
    }
  }

  // ---- Which bytes are accepted, and which come back ----

  /** The bytes of one character in front: a lead byte and its tail bytes, no surrogate, in three bytes or in four, and
      nothing beyond 10FFFF. */
  predicate StartsCharacter(b: seq<Byte>)
    requires b != []
  {
    || b[0] < 0x80
    || (0xC0 <= b[0] < 0xE0 && |b| >= 2 && IsTail(b[1]))
    || (0xE0 <= b[0] < 0xF0 && |b| >= 3 && IsTail(b[1]) && IsTail(b[2]) && !(b[0] == 0xED && b[1] >= 0xA0))
    || (0xF0 <= b[0] <= 0xF4 && |b| >= 4 && IsTail(b[1]) && IsTail(b[2]) && IsTail(b[3]) && !(b[0] == 0xF4 && b[1] >= 0x90)
        && !(b[0] == 0xF0 && b[1] == 0x8D && b[2] >= 0xA0))
  }

  predicate IsCharacters(b: seq<Byte>) {
    b == [] || (StartsCharacter(b) && IsCharacters(b[Utf8Length(b[0])..]))
  }

  /** A lead byte at `i` with which only forms begin that are longer than needed. */
  predicate OverlongAt(b: seq<Byte>, i: nat)
    requires i < |b|
  {
    || b[i] == 0xC0 || b[i] == 0xC1
    || (i + 1 < |b| && b[i] == 0xE0 && b[i + 1] < 0xA0)
    || (i + 1 < |b| && b[i] == 0xF0 && b[i + 1] < 0x90)
  }

  ghost predicate NoOverlong(b: seq<Byte>) {
    forall i | 0 <= i < |b| :: !OverlongAt(b, i)
  }

  lemma Ranges2(a: Byte, b: Byte)
    requires 0xC0 <= a < 0xE0 && IsTail(b)
    ensures var cp := LeadBits(a, 2) * 0x40 + b % 0x40; IsScalar(cp) && (Utf8Count(cp) == 2 <==> a >= 0xC2)
  {
    assert LeadBits(a, 2) == a - 0xC0 && b % 0x40 == b - 0x80;
  }

  lemma Ranges3(a: Byte, b: Byte, c: Byte)
    requires 0xE0 <= a < 0xF0 && IsTail(b) && IsTail(c)
    ensures var cp := (LeadBits(a, 3) * 0x40 + b % 0x40) * 0x40 + c % 0x40;
      && (IsScalar(cp) <==> !(a == 0xED && b >= 0xA0))
      && (Utf8Count(cp) == 3 <==> !(a == 0xE0 && b < 0xA0))
  {
    assert LeadBits(a, 3) == a - 0xE0 && b % 0x40 == b - 0x80 && c % 0x40 == c - 0x80;
  }

  lemma Ranges4(a: Byte, b: Byte, c: Byte, d: Byte)
    requires 0xF0 <= a < 0xF8 && IsTail(b) && IsTail(c) && IsTail(d)
    ensures var cp := ((LeadBits(a, 4) * 0x40 + b % 0x40) * 0x40 + c % 0x40) * 0x40 + d % 0x40;
      && (IsScalar(cp) <==> a <= 0xF4 && !(a == 0xF4 && b >= 0x90) && !(a == 0xF0 && b == 0x8D && c >= 0xA0))
      && (IsScalar(cp) ==> (Utf8Count(cp) == 4 <==> !(a == 0xF0 && b < 0x90)))
  {
    assert LeadBits(a, 4) == a - 0xF0 && b % 0x40 == b - 0x80 && c % 0x40 == c - 0x80 && d % 0x40 == d - 0x80;
  }

  /** One character: accepted, and taken in its shortest form. */
  lemma OneCharacter(b: seq<Byte>)
    requires b != []
    ensures var c := Utf8ToUtf32(b);
      && (c.length != 0 && IsScalar(c.codePoint) <==> StartsCharacter(b))
      && (StartsCharacter(b) ==> c.length == Utf8Length(b[0]) && (c.length == Utf8Count(c.codePoint) <==> !OverlongAt(b, 0)))
  {
    hide Continue, LeadBits, IsScalar, Utf8Count;
    var l := Utf8Length(b[0]);
    if l == 1 {
      Ranges1(b[0]);
    } else if l <= |b| {
      if l == 2 {
        assert b[1..2] == [b[1]];
        Continue1(LeadBits(b[0], 2), b[1]);
        if IsTail(b[1]) { Ranges2(b[0], b[1]); }
      } else if l == 3 {
        assert b[1..3] == [b[1], b[2]];
        Continue2(LeadBits(b[0], 3), b[1], b[2]);
        if IsTail(b[1]) && IsTail(b[2]) { Ranges3(b[0], b[1], b[2]); }
      } else if l == 4 {
        assert b[1..4] == [b[1], b[2], b[3]];
        Continue3(LeadBits(b[0], 4), b[1], b[2], b[3]);
        if IsTail(b[1]) && IsTail(b[2]) && IsTail(b[3]) { Ranges4(b[0], b[1], b[2], b[3]); }
      }
    }
  }

  /** The character that accepted bytes denote, table 3-6 of the Unicode Standard. */
  lemma Utf8Denotes(b: seq<Byte>)
    requires b != [] && StartsCharacter(b)
    ensures var cp := Utf8ToUtf32(b).codePoint;
      cp ==
        if b[0] < 0x80 then b[0]
        else if b[0] < 0xE0 then (b[0] as int - 0xC0) * 0x40 + (b[1] as int - 0x80)
        else if b[0] < 0xF0 then (b[0] as int - 0xE0) * 0x1000 + (b[1] as int - 0x80) * 0x40 + (b[2] as int - 0x80)
        else (b[0] as int - 0xF0) * 0x4_0000 + (b[1] as int - 0x80) * 0x1000 + (b[2] as int - 0x80) * 0x40 + (b[3] as int - 0x80)
  {
    hide Continue, IsScalar, Utf8Count;
    if b[0] >= 0xF0 {
      assert b[1..4] == [b[1], b[2], b[3]];
      Continue3(LeadBits(b[0], 4), b[1], b[2], b[3]);
      TailValue(b[2]);
      TailValue(b[3]);
    } else if b[0] >= 0xE0 {
      assert b[1..3] == [b[1], b[2]];
      Continue2(LeadBits(b[0], 3), b[1], b[2]);
      TailValue(b[2]);
    } else if b[0] >= 0xC0 {
      assert b[1..2] == [b[1]];
      Continue1(LeadBits(b[0], 2), b[1]);
    }
    if b[0] >= 0xC0 {
      TailValue(b[1]);
      LeadValue(b[0]);
    }
  }

  lemma TailValue(b: Byte)
    requires IsTail(b)
    ensures b % 0x40 == b - 0x80
  {}

  lemma LeadValue(a: Byte)
    requires 0xC0 <= a < 0xF8
    ensures a < 0xE0 ==> LeadBits(a, 2) == a - 0xC0
    ensures 0xE0 <= a < 0xF0 ==> LeadBits(a, 3) == a - 0xE0
    ensures 0xF0 <= a ==> LeadBits(a, 4) == a - 0xF0
  {}

  /** The character that accepted units denote, table 3-5 of the Unicode Standard. */
  lemma Utf16Denotes(s: seq<Unit>)
    requires s != []
    ensures var c := Utf16ToUtf32(s);
      if s[0] < 0xD800 || s[0] > 0xDFFF then c == Conv(1, s[0])
      else if s[0] < 0xDC00 && |s| > 1 && 0xDC00 <= s[1] <= 0xDFFF then
        c == Conv(2, 0x1_0000 + (s[0] as int - 0xD800) * 0x400 + (s[1] as int - 0xDC00))
      else c.length == 0
  {}

  lemma Ranges1(a: Byte)
    requires a < 0x80
    ensures IsScalar(a) && Utf8Count(a) == 1
  {}

  /** utf8_to_utf16 succeeds exactly on such characters one after the other, overlong forms among them. */
  lemma {:induction false} Utf8ToUtf16Succeeds(b: seq<Byte>)
    ensures Utf8ToUtf16(b).Some? <==> IsCharacters(b)
  {
    if b != [] {
      OneCharacter(b);
      var c := Utf8ToUtf32(b);
      if c.length != 0 && IsScalar(c.codePoint) {
        Utf8ToUtf16Succeeds(b[c.length..]);
      }
    }
  }

  /** Overlong forms begin where characters do. */
  lemma OverlongStep(b: seq<Byte>)
    requires b != [] && StartsCharacter(b)
    ensures NoOverlong(b) <==> !OverlongAt(b, 0) && NoOverlong(b[Utf8Length(b[0])..])
  {
    var n := Utf8Length(b[0]);
    var t := b[n..];
    forall i | n <= i < |b| ensures OverlongAt(b, i) <==> OverlongAt(t, i - n) {
      assert t[i - n] == b[i] && (i + 1 < |b| ==> t[i + 1 - n] == b[i + 1]);
    }
    forall i | 0 < i < n ensures !OverlongAt(b, i) {
      assert IsTail(b[i]);
    }
    if NoOverlong(b) {
      forall i | 0 <= i < |t| ensures !OverlongAt(t, i) {
        assert !OverlongAt(b, i + n);
      }
    }
    if !OverlongAt(b, 0) && NoOverlong(t) {
      forall i | 0 <= i < |b| ensures !OverlongAt(b, i) {
        assert i < n || !OverlongAt(t, i - n);
      }
    }
  }

  /** In the other direction exactly the bytes without overlong forms come back; the decoder accepts the others too. */
  lemma {:induction false} Utf16RoundTrip(b: seq<Byte>)
    requires Utf8ToUtf16(b).Some?
    ensures Utf16ToUtf8(Utf8ToUtf16(b).value).Some? && |Utf16ToUtf8(Utf8ToUtf16(b).value).value| <= |b|
    ensures Utf16ToUtf8(Utf8ToUtf16(b).value).value == b <==> NoOverlong(b)
  {
    hide OverlongAt, StartsCharacter, NoOverlong, Utf8Length;
    if b == [] {
      assert NoOverlong(b) by { NothingOverlong(); }
    } else {
      var c := Utf8ToUtf32(b);
      var e := Utf32ToUtf16(c.codePoint);
      var rest := Utf8ToUtf16(b[c.length..]).value;
      OneCharacter(b);
      OverlongStep(b);
      Utf16RoundTrip(b[c.length..]);
      Utf16Inverse(c.codePoint, rest);
      assert (e + rest)[|e|..] == rest;
      Utf8Inverse(c.codePoint, []);
      Utf8Shortest(b);
      var back := Utf16ToUtf8(rest).value;
      var f := Utf32ToUtf8(c.codePoint);
      assert b == b[..c.length] + b[c.length..];
      if |f| == c.length {
        assert (f + back)[|f|..] == back && b[c.length..] == b[|f|..];
      }
    }
  }

  lemma NothingOverlong()
    ensures NoOverlong([])
  {
  }

  /** A two-byte form of the null character is accepted, and does not come back. */
  lemma OverlongAccepted()
    ensures Utf8ToUtf16([0xC0, 0x80]) == Some([0]) && Utf16ToUtf8([0]) == Some([0])
  {
    var b: seq<Byte> := [0xC0, 0x80];
    assert b[1..2] == [0x80] && b[2..] == [];
    Continue1(0, 0x80);
    assert Utf8ToUtf32(b) == Conv(2, 0) && Utf32ToUtf16(0) == [0];
    assert Utf8ToUtf16(b[2..]) == Some([]) && Utf32ToUtf16(0) + [] == [0];
    var s: seq<Unit> := [0];
    assert s[1..] == [] && Utf16ToUtf8(s[1..]) == Some([]);
    assert Utf32ToUtf8(0) + [] == [0] && Utf16ToUtf32(s) == Conv(1, 0);
  }
}
