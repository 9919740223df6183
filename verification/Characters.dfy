/** UTF-16 text and its digits. */
module Characters {
  import opened Wrappers

  /** UTF-16 code units. */
  type Unit = c: int | 0 <= c < 0x1_0000
  type Text = seq<Unit>

  predicate IsDigit(c: Unit) {
    48 <= c <= 57
  }

  /** A hexadecimal digit; `ten` is the letter used for 10. */
  function HexDigit(d: nat, ten: Unit): Unit
    requires d < 16 && ten < 0x80
  {
    if d < 10 then 48 + d else ten + (d - 10)
  }

  function HexValue(c: Unit): Option<nat> {
    if IsDigit(c) then Some(c - 48)
    else if 97 <= c <= 102 then Some(c - 87)
    else if 65 <= c <= 70 then Some(c - 55)
    else None
  }

  /** A hexadecimal digit, in either case, and its value. */
  predicate IsHexDigit(c: Unit, v: nat) {
    v < 16 && (c == "0123456789abcdef"[v] as int || c == "0123456789ABCDEF"[v] as int)
  }

  lemma HexValueExactly(c: Unit, v: nat)
    ensures HexValue(c) == Some(v) <==> IsHexDigit(c, v)
  {
    assert v < 10 ==> "0123456789abcdef"[v] as int == "0123456789ABCDEF"[v] as int == 48 + v;
    assert 10 <= v < 16 ==> "0123456789abcdef"[v] as int == 87 + v && "0123456789ABCDEF"[v] as int == 55 + v;
  }
}
