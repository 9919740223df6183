/** The loops that write into buffers: transcoding, URI coding, escape and unescape. */
module Transcoding {
  import opened Wrappers
  import opened Characters
  import opened Unicode
  import opened Uri

  lemma HeadTail<T>(s: seq<T>, a: nat, b: nat)
    requires a < b <= |s|
    ensures s[a..b][0] == s[a] && s[a..b][1..] == s[a + 1..b]
  {}

  lemma Inner<T>(s: seq<T>, start: nat, l: nat)
    requires 1 <= l && start + l <= |s|
    ensures s[start..][0] == s[start] && s[start..][1..l] == s[start + 1..start + l]
  {}

  /** utf8_to_utf32 on the bytes of `src` from `start` on. */
  method DecodeUtf8(src: seq<Byte>, start: nat) returns (c: Conv)
    requires start < |src|
    ensures c == Utf8ToUtf32(src[start..])
  {
    var lead := src[start];
    var l := Utf8Length(lead);
    if l == 0 || l > |src| - start {
      return INVALID;
    } else if l == 1 {
      return Conv(1, lead);
    }
    Inner(src, start, l);
    var cp := DecodeTail(src, start, l);
    c := if cp.None? then INVALID else Conv(l, cp.value);
  }

  /** The code point of the `l`-byte sequence at `start`; None when a continuation byte is invalid. */
  method DecodeTail(src: seq<Byte>, start: nat, l: nat) returns (res: Option<nat>)
    requires 2 <= l <= 4 && start + l <= |src|
    ensures res == Continue(LeadBits(src[start], l), src[start + 1..start + l])
  {
    hide LeadBits, PushSextet;
    var cp := LeadBits(src[start], l);
    for i := 1 to l
      invariant Continue(cp, src[start + i..start + l]) == Continue(LeadBits(src[start], l), src[start + 1..start + l])
    {
      HeadTail(src, start + i, start + l);
      var here := src[start + i];
      if !(0x80 <= here < 0xC0) {
        return None;
      }
      cp := PushSextet(cp, here);
    }
    return Some(cp);
  }

  /** utf32_to_utf8 into a buffer. */
  method WriteUtf8(cp: nat, out: array<Byte>) returns (len: nat)
    requires out.Length >= 4
    modifies out
    ensures len == |Utf32ToUtf8(cp)| <= 4 && out[..len] == Utf32ToUtf8(cp)
    ensures out[len..] == old(out[..])[len..]
  {
    if cp < 0x80 {
      out[0] := cp;
      len := 1;
    } else if cp < 0x800 {
      out[0], out[1] := 0xC0 + cp / 0x40, 0x80 + cp % 0x40;
      len := 2;
    } else if cp < 0x1_0000 {
      out[0], out[1], out[2] := 0xE0 + cp / 0x1000, 0x80 + cp / 0x40 % 0x40, 0x80 + cp % 0x40;
      len := 3;
    } else if cp < MAX_CODE_POINT {
      out[0], out[1] := 0xF0 + cp / 0x4_0000, 0x80 + cp / 0x1000 % 0x40;
      out[2], out[3] := 0x80 + cp / 0x40 % 0x40, 0x80 + cp % 0x40;
      len := 4;
    } else {
      len := 0;
    }
  }

  /** utf32_to_utf16 into a buffer. */
  method WriteUtf16(cp: nat, out: array<Unit>) returns (len: nat)
    requires out.Length >= 2
    modifies out
    ensures len == |Utf32ToUtf16(cp)| && out[..len] == Utf32ToUtf16(cp)
    ensures out[len..] == old(out[..])[len..]
  {
    if !IsScalar(cp) {
      len := 0;
    } else if cp < 0x1_0000 {
      out[0] := cp;
      len := 1;
    } else {
      out[0], out[1] := HIGH_SURROGATE + (cp - 0x1_0000) / 0x400, LOW_SURROGATE + (cp - 0x1_0000) % 0x400;
      len := 2;
    }
  }

  /** What is to come, put behind what is there. */
  function Onto<T>(a: seq<T>, r: Option<seq<T>>): Option<seq<T>> {
    if r.None? then None else Some(a + r.value)
  }

  lemma OntoOnto<T>(a: seq<T>, b: seq<T>, r: Option<seq<T>>)
    ensures Onto(a, Onto(b, r)) == Onto(a + b, r)
  {
    if r.Some? {
      assert a + (b + r.value) == a + b + r.value;
    }
  }

  lemma OntoEnds<T>(a: seq<T>, r: Option<seq<T>>)
    ensures Onto([], r) == r && Onto(a, Some([])) == Some(a) && Onto(a, None) == None
  {
    assert a + [] == a && (r.Some? ==> [] + r.value == r.value);
  }

  lemma Skip<T>(s: seq<T>, i: nat, n: nat)
    requires i + n <= |s|
    ensures s[i..][n..] == s[i + n..]
  {}

  /** One character of `s`, at `i`, converted by way of `buffer`; None for a conversion error. */
  method OneToUtf16(s: seq<Byte>, i: nat, buffer: array<Unit>) returns (u: Option<seq<Unit>>, len: nat)
    requires i < |s| && buffer.Length == 2
    modifies buffer
    ensures u.Some? ==> len > 0 && i + len <= |s|
    ensures Utf8ToUtf16(s[i..]) == if u.None? then None else Onto(u.value, Utf8ToUtf16(s[i + len..]))
  {
    var c := DecodeUtf8(s, i);
    len := c.length;
    if c.length == 0 {
      return None, len;
    }
    var n := WriteUtf16(c.codePoint, buffer);
    if n == 0 {
      return None, len;
    }
    Skip(s, i, len);
    u := Some(buffer[..n]);
  }

  /** utf8_to_utf16. */
  method ToUtf16(s: seq<Byte>) returns (res: Option<seq<Unit>>)
    ensures res == Utf8ToUtf16(s)
  {
    var done: seq<Unit> := [];
    var buffer := new Unit[2];
    var i := 0;
    OntoEnds([], Utf8ToUtf16(s));
    while i < |s|
      invariant 0 <= i <= |s|
      invariant Onto(done, Utf8ToUtf16(s[i..])) == Utf8ToUtf16(s)
    {
      hide Onto;
      OntoEnds(done, None);
      var u, len := OneToUtf16(s, i, buffer);
      if u.None? {
        return None;
      }
      OntoOnto(done, u.value, Utf8ToUtf16(s[i + len..]));
      done := done + u.value;
      i := i + len;
    }
    OntoEnds(done, None);
    return Some(done);
  }

  /** One character of `s`, at `i`, converted by way of `buffer`; None for a conversion error. */
  method OneToUtf8(s: seq<Unit>, i: nat, buffer: array<Byte>) returns (u: Option<seq<Byte>>, len: nat)
    requires i < |s| && buffer.Length == 4
    modifies buffer
    ensures u.Some? ==> len > 0 && i + len <= |s|
    ensures Utf16ToUtf8(s[i..]) == if u.None? then None else Onto(u.value, Utf16ToUtf8(s[i + len..]))
  {
    var c := Utf16ToUtf32(s[i..]);
    len := c.length;
    if c.length == 0 {
      return None, len;
    }
    var n := WriteUtf8(c.codePoint, buffer);
    if n == 0 {
      return None, len;
    }
    Skip(s, i, len);
    u := Some(buffer[..n]);
  }

  /** utf16_to_utf8. */
  method ToUtf8(s: seq<Unit>) returns (res: Option<seq<Byte>>)
    ensures res == Utf16ToUtf8(s)
  {
    var done: seq<Byte> := [];
    var buffer := new Byte[4];
    var i := 0;
    OntoEnds([], Utf16ToUtf8(s));
    while i < |s|
      invariant 0 <= i <= |s|
      invariant Onto(done, Utf16ToUtf8(s[i..])) == Utf16ToUtf8(s)
    {
      hide Onto;
      OntoEnds(done, None);
      var u, len := OneToUtf8(s, i, buffer);
      if u.None? {
        return None;
      }
      OntoOnto(done, u.value, Utf16ToUtf8(s[i + len..]));
      done := done + u.value;
      i := i + len;
    }
    OntoEnds(done, None);
    return Some(done);
  }

  method PutPercentBytes(start: Text, b: seq<Byte>) returns (res: Text)
    ensures res == start + PercentBytes(b)
  {
    res := start;
    for j := 0 to |b|
      invariant res + PercentBytes(b[j..]) == start + PercentBytes(b)
    {
      assert b[j..][1..] == b[j + 1..];
      var p := [PERCENT] + HexByte(b[j]);
      Regroup(res, p, PercentBytes(b[j + 1..]));
      res := res + p;
    }
    assert b[|b|..] == [];
  }

  /** The next character, left alone or percent-encoded by way of `buffer`; None for an encoding error. */
  method EncodeCharacter(s: Text, i: nat, raw: Unit -> bool, buffer: array<Byte>) returns (u: Option<Text>, len: nat)
    requires i < |s| && buffer.Length == 4
    modifies buffer
    ensures u.Some? ==> len > 0 && i + len <= |s|
    ensures Encode(s[i..], raw) == if u.None? then None else Onto(u.value, Encode(s[i + len..], raw))
  {
    hide Utf16ToUtf32, Utf32ToUtf8;
    if raw(s[i]) {
      Skip(s, i, 1);
      return Some([s[i]]), 1;
    }
    var c := Utf16ToUtf32(s[i..]);
    len := c.length;
    if c.length == 0 {
      return None, len;
    }
    var n := WriteUtf8(c.codePoint, buffer);
    if n == 0 {
      return None, len;
    }
    Skip(s, i, len);
    var p := PutPercentBytes([], buffer[..n]);
    assert p == PercentBytes(buffer[..n]);
    u := Some(p);
  }

  /** encode_uri_helper. */
  method EncodeUri(s: Text, raw: Unit -> bool) returns (res: Option<Text>)
    ensures res == Encode(s, raw)
  {
    var done: Text := [];
    var buffer := new Byte[4];
    var i := 0;
    OntoEnds([], Encode(s, raw));
    while i < |s|
      invariant 0 <= i <= |s|
      invariant Onto(done, Encode(s[i..], raw)) == Encode(s, raw)
    {
      hide Onto;
      OntoEnds(done, None);
      var u, len := EncodeCharacter(s, i, raw, buffer);
      if u.None? {
        return None;
      }
      OntoOnto(done, u.value, Encode(s[i + len..], raw));
      done := done + u.value;
      i := i + len;
    }
    OntoEnds(done, None);
    return Some(done);
  }

  /** The bytes of one character, lead byte included; None for any error. */
  method ReadBytes(s: Text, start: nat, n: nat) returns (buf: Option<seq<Byte>>)
    requires start <= |s|
    ensures buf == GetBytes(s[start..], n)
  {
    var b: seq<Byte> := [];
    var i := start;
    OntoEnds([], GetBytes(s[start..], n));
    for j := 0 to n
      invariant i == start + 3 * j <= |s|
      invariant Onto(b, GetBytes(s[i..], n - j)) == GetBytes(s[start..], n)
    {
      OntoEnds(b, None);
      var next := GetByte(s[i..]);
      if next.None? {
        return None;
      }
      Skip(s, i, 3);
      OntoOnto(b, [next.value], GetBytes(s[i + 3..], n - j - 1));
      b := b + [next.value];
      i := i + 3;
    }
    OntoEnds(b, None);
    return Some(b);
  }

  /** The next character, as it stands or from percent escapes, and what it takes; None for any error. */
  method DecodeCharacter(s: Text, i: nat, buffer: array<Unit>) returns (u: Option<Text>, taken: nat)
    requires i < |s| && buffer.Length == 2
    modifies buffer
    ensures u.Some? ==> taken > 0 && i + taken <= |s|
    ensures Decode(s[i..]) == if u.None? then None else Onto(u.value, Decode(s[i + taken..]))
  {
    taken := 0;
    if s[i] != PERCENT {
      Skip(s, i, 1);
      return Some([s[i]]), 1;
    }
    var lead := GetByte(s[i..]);
    if lead.None? || Utf8Length(lead.value) == 0 {
      return None, 0;
    }
    var len := Utf8Length(lead.value);
    var buf := ReadBytes(s, i, len);
    if buf.None? {
      return None, 0;
    }
    var c := DecodeUtf8(buf.value, 0);
    assert buf.value[0..] == buf.value;
    if c.length != len {
      return None, 0;
    }
    var n := WriteUtf16(c.codePoint, buffer);
    if n == 0 {
      return None, 0;
    }
    taken := 3 * len;
    Skip(s, i, taken);
    u := Some(buffer[..n]);
  }

  /** decode_uri; None where the program throws or gives up. */
  method DecodeUri(s: Text) returns (res: Option<Text>)
    ensures res == Decode(s)
  {
    var done: Text := [];
    var buffer := new Unit[2];
    var i := 0;
    OntoEnds([], Decode(s));
    while i < |s|
      invariant 0 <= i <= |s|
      invariant Onto(done, Decode(s[i..])) == Decode(s)
    {
      hide Onto;
      OntoEnds(done, None);
      var u, taken := DecodeCharacter(s, i, buffer);
      if u.None? {
        return None;
      }
      OntoOnto(done, u.value, Decode(s[i + taken..]));
      done := done + u.value;
      i := i + taken;
    }
    OntoEnds(done, None);
    return Some(done);
  }

  lemma Regroup<T>(a: seq<T>, b: seq<T>, c: seq<T>)
    ensures a + (b + c) == a + b + c
  {}

  /** escape. */
  method EscapeText(s: Text) returns (res: Text)
    ensures res == Escape(s)
  {
    hide HexByte;
    res := [];
    for i := 0 to |s|
      invariant res + Escape(s[i..]) == Escape(s)
    {
      Skip(s, i, 1);
      var c := s[i];
      var e: Text;
      if EscapeKeeps(c) {
        e := [c];
      } else if c > 255 {
        e := [PERCENT, LETTER_U] + HexByte(c / 0x100) + HexByte(c % 0x100);
      } else {
        e := [PERCENT] + HexByte(c);
      }
      assert e == EscapeUnit(c);
      Regroup(res, e, Escape(s[i + 1..]));
      res := res + e;
    }
    assert s[|s|..] == [];
  }

  lemma OntoCons(a: Text, c: Unit, r: Option<Text>)
    ensures Onto(a, Cons(c, r)) == Onto(a + [c], r)
  {
    OntoOnto(a, [c], r);
  }

  /** unescape; None where the program throws. */
  method UnescapeText(s: Text) returns (res: Option<Text>)
    ensures res == Unescape(s)
  {
    var done: Text := [];
    var i := 0;
    OntoEnds([], Unescape(s));
    while i < |s|
      invariant 0 <= i <= |s|
      invariant Onto(done, Unescape(s[i..])) == Unescape(s)
    {
      hide Onto, Cons;
      OntoEnds(done, None);
      ghost var left := s[i..];
      if s[i] != PERCENT {
        Skip(s, i, 1);
        OntoCons(done, s[i], Unescape(s[i + 1..]));
        done := done + [s[i]];
        i := i + 1;
      } else {
        i := i + 1;
        if i + 2 > |s| || (s[i] == LETTER_U && i + 5 > |s|) {
          return None;
        }
        if s[i] == LETTER_U {
          var hi, lo := HexValue2(s[i + 1], s[i + 2]), HexValue2(s[i + 3], s[i + 4]);
          if hi.None? || lo.None? {
            return None;
          }
          Skip(s, i - 1, 6);
          OntoCons(done, hi.value * 0x100 + lo.value, Unescape(s[i + 5..]));
          done := done + [hi.value * 0x100 + lo.value];
          i := i + 5;
        } else {
          var b := HexValue2(s[i], s[i + 1]);
          if b.None? {
            return None;
          }
          Skip(s, i - 1, 3);
          OntoCons(done, b.value, Unescape(s[i + 2..]));
          done := done + [b.value];
          i := i + 2;
        }
      }
    }
    OntoEnds(done, None);
    return Some(done);
  }
}
