/** Array index names: writing an index as a numeral, and reading one back with 32-bit arithmetic. */
module Indices {
  import opened Characters
  import opened Integers

  function DigitValue(c: Unit): nat
    requires IsDigit(c)
  {
    var d: int := c;
    d - 48
  }

  predicate IsNumeral(s: Text) {
    s != [] && forall i :: 0 <= i < |s| ==> IsDigit(s[i])
  }

  /** The numeral of `n`, without leading zeros. */
  function Decimal(n: nat): (s: Text)
    ensures IsNumeral(s)
  {
    if n < 10 then [48 + n] else Decimal(n / 10) + [48 + n % 10]
  }

  /** The number a string of digits denotes. */
  function Value(s: Text): nat
    requires forall i :: 0 <= i < |s| ==> IsDigit(s[i])
  {
    if s == [] then 0 else Value(s[..|s| - 1]) * 10 + DigitValue(s[|s| - 1])
  }

  /** The digits, zero first. */
  lemma OneDigit(d: nat)
    requires d < 10
    ensures Decimal(d) == ["0123456789"[d] as int] && Value(["0123456789"[d] as int]) == d
  {
    assert "0123456789"[d] as int == 48 + d;
    var s: Text := [48 + d];
    assert s[..0] == [];
  }

  function TenTo(k: nat): nat {
    if k == 0 then 1 else 10 * TenTo(k - 1)
  }

  lemma {:induction false} ValueBelow(s: Text)
    requires forall i :: 0 <= i < |s| ==> IsDigit(s[i])
    ensures Value(s) < TenTo(|s|)
  {
    if s != [] {
      ValueBelow(s[..|s| - 1]);
    }
  }

  lemma {:induction false} ValueDecimal(n: nat)
    ensures Value(Decimal(n)) == n
  {
    if n < 10 {
      assert Decimal(n)[..0] == [];
    } else {
      ValueDecimal(n / 10);
      var s := Decimal(n);
      assert s[..|s| - 1] == Decimal(n / 10);
    }
  }

  lemma {:induction false} DecimalShort(n: nat, k: nat)
    requires n < TenTo(k + 1)
    ensures |Decimal(n)| <= k + 1
    decreases k
  {
    assert TenTo(1) == 10 * TenTo(0);
    if n >= 10 && k > 0 {
      DecimalShort(n / 10, k - 1);
    }
  }

  /**
   * index_value_from_string: the accumulation wraps at 32 bits, and the wrap is noticed only when it
   * makes the number smaller than it was before the last digit.
   */
  function IndexValue(s: Text): nat {
    if |s| > 10 || !IsNumeral(s) then INVALID_INDEX else
    var v := Value(s);
    if v < TWO_TO_THE_32 then v
    else if v % TWO_TO_THE_32 < v / 10 then INVALID_INDEX
    else v % TWO_TO_THE_32
  }

  lemma TenToTheTen()
    ensures TenTo(9) == 10_0000_0000 && TenTo(10) == 100_0000_0000
  {
    assert TenTo(3) == 1000;
    assert TenTo(6) == 100_0000;
    assert TenTo(9) == 10_0000_0000;
  }

  /** Every index is read back from its name. */
  lemma IndexRoundTrip(n: nat)
    requires n < TWO_TO_THE_32
    ensures IndexValue(Decimal(n)) == n
  {
    TenToTheTen();
    DecimalShort(n, 9);
    ValueDecimal(n);
  }

  /** So different indices have different names. */
  lemma NamesDiffer(m: nat, n: nat)
    requires m < TWO_TO_THE_32 && n < TWO_TO_THE_32 && m != n
    ensures Decimal(m) != Decimal(n)
  {
    IndexRoundTrip(m);
    IndexRoundTrip(n);
  }

  /** A ten-digit numeral beyond 32 bits whose wrap goes unnoticed. */
  predicate WrapsUnnoticed(s: Text) {
    IsNumeral(s) && |s| == 10 && Value(s) >= TWO_TO_THE_32 && Value(s) / 10 <= Value(s) % TWO_TO_THE_32
    && Value(s) % TWO_TO_THE_32 != INVALID_INDEX
  }

  /**
   * A string is read as an index it does not denote exactly when it is a ten-digit numeral beyond 32 bits
   * whose wrapped value is no smaller than the number without its last digit.
   */
  lemma MisreadExactly(s: Text)
    ensures (IndexValue(s) != INVALID_INDEX && !(IsNumeral(s) && Value(s) == IndexValue(s))) <==> WrapsUnnoticed(s)
  {
    if IsNumeral(s) && |s| <= 9 {
      ValueBelow(s);
      TenToTheTen();
      TenToGrows(|s|, 9);
    }
  }

  /** A numeral without superfluous zeros in front. */
  predicate IsCanonical(s: Text) {
    IsNumeral(s) && (|s| > 1 ==> s[0] != 48)
  }

  lemma {:induction false} ValuePositive(s: Text)
    requires IsNumeral(s) && s[0] != 48
    ensures Value(s) > 0
  {
    if |s| > 1 {
      ValuePositive(s[..|s| - 1]);
    } else {
      assert s[..0] == [];
    }
  }

  /** Canonical numerals are the ones that are written for numbers. */
  lemma {:induction false} CanonicalExactly(s: Text)
    requires IsNumeral(s)
    ensures IsCanonical(s) <==> s == Decimal(Value(s))
    decreases |s|
  {
    var front, d := s[..|s| - 1], DigitValue(s[|s| - 1]);
    if |s| == 1 {
      assert front == [] && Value(s) == d;
    } else {
      assert IsNumeral(front) && front[0] == s[0];
      CanonicalExactly(front);
      assert Value(s) / 10 == Value(front) && Value(s) % 10 == d;
      assert s == front + [s[|s| - 1]];
      if s[0] != 48 {
        ValuePositive(front);
      } else if Value(s) >= 10 {
        DecimalFront(Value(s));
      }
    }
  }

  /** No numeral that is written starts with a zero, but 0 itself. */
  lemma {:induction false} DecimalFront(n: nat)
    requires n > 0
    ensures Decimal(n)[0] != 48
  {
    if n >= 10 {
      DecimalFront(n / 10);
    }
  }

  /**
   * A string is read as an index although it is not that index's name (section 15.4 of ECMA-262) exactly when it is a
   * numeral of at most ten digits with a superfluous zero in front, or one that wraps unnoticed.
   */
  lemma NotANameExactly(s: Text)
    ensures (IndexValue(s) != INVALID_INDEX && s != Decimal(IndexValue(s))) <==>
      (IsNumeral(s) && 1 < |s| <= 10 && s[0] == 48) || WrapsUnnoticed(s)
  {
    MisreadExactly(s);
    if IsNumeral(s) && |s| <= 10 {
      CanonicalExactly(s);
      if |s| > 1 && s[0] == 48 {
        LeadingZeroSmall(s);
      }
      ValueDecimal(IndexValue(s));
    }
  }

  lemma {:induction false} DropZero(s: Text)
    requires IsNumeral(s) && s[0] == 48
    ensures Value(s) == Value(s[1..])
  {
    if |s| == 1 {
      assert s[..0] == [] && s[1..] == [];
    } else {
      var front, back := s[..|s| - 1], s[1..];
      DropZero(front);
      assert back[..|back| - 1] == front[1..];
    }
  }

  lemma LeadingZeroSmall(s: Text)
    requires IsNumeral(s) && |s| <= 10 && s[0] == 48
    ensures Value(s) < 10_0000_0000
  {
    DropZero(s);
    ValueBelow(s[1..]);
    TenToTheTen();
    TenToGrows(|s| - 1, 9);
  }

  /** 01 is read as index 1. */
  lemma LeadingZeroMisread()
    ensures IndexValue([48, 49]) == 1 && [48, 49] != Decimal(1)
  {
    var s: Text := [48, 49];
    var front: Text := [48];
    assert s[..1] == front && front[..0] == [];
    assert Value(front) == 0 && Value(s) == 1;
  }

  lemma {:induction false} TenToGrows(j: nat, k: nat)
    requires j <= k
    ensures TenTo(j) <= TenTo(k)
    decreases k
  {
    if j < k {
      TenToGrows(j, k - 1);
    }
  }

  /** Such numerals exist. */
  lemma NinesMisread()
    ensures IndexValue(Decimal(99_9999_9999)) == 14_1006_5407
  {
    TenToTheTen();
    DecimalShort(99_9999_9999, 9);
    ValueDecimal(99_9999_9999);
  }

  /** index_string: the digits are written into a buffer from its end. */
  method IndexString(index: nat) returns (name: Text)
    requires index < INVALID_INDEX
    ensures name == Decimal(index)
  {
    TenToTheTen();
    DecimalShort(index, 9);
    var buffer := new Unit[11];
    var p := buffer.Length;
    var left := index;
    assert buffer[p..] == [];
    while true
      invariant 0 <= p <= buffer.Length
      invariant Decimal(left) + buffer[p..] == Decimal(index)
      decreases left
    {
      assert |Decimal(left)| >= 1;
      p := p - 1;
      ghost var was := buffer[p + 1..];
      buffer[p] := 48 + left % 10;
      assert buffer[p + 1..] == was && buffer[p..] == [48 + left % 10] + was;
      if left / 10 == 0 {
        return buffer[p..];
      }
      assert Decimal(left) + was == Decimal(left / 10) + ([48 + left % 10] + was);
      left := left / 10;
    }
  }

  lemma NextDigit(s: Text, i: nat)
    requires i < |s| <= 10 && forall k :: 0 <= k <= i ==> IsDigit(s[k])
    ensures Value(s[..i + 1]) == Value(s[..i]) * 10 + DigitValue(s[i])
    ensures Value(s[..i]) < 10_0000_0000 && (i < 9 ==> Value(s[..i + 1]) < 10_0000_0000) && Value(s[..0]) == 0
  {
    TenToTheTen();
    assert s[..i + 1][..i] == s[..i] && s[..0] == [];
    ValueBelow(s[..i]);
    ValueBelow(s[..i + 1]);
    TenToGrows(i, 9);
    if i < 9 {
      TenToGrows(i + 1, 9);
    }
  }

  /** `index` is what has been accumulated from the first `i` digits, and no wrap has been noticed. */
  predicate Accumulated(s: Text, i: nat, index: nat)
    requires i <= |s| && forall k :: 0 <= k < i ==> IsDigit(s[k])
  {
    var v := Value(s[..i]);
    if i <= 9 then index == v else index == v % TWO_TO_THE_32 && (v < TWO_TO_THE_32 || index >= v / 10)
  }

  lemma AccumulateDigit(s: Text, i: nat, last: nat)
    requires i < |s| <= 10 && (forall k :: 0 <= k <= i ==> IsDigit(s[k])) && Accumulated(s, i, last)
    ensures var index := (last * 10 + DigitValue(s[i])) % TWO_TO_THE_32;
      if index < last then i == 9 && IndexValue(s) == INVALID_INDEX else Accumulated(s, i + 1, index)
  {
    NextDigit(s, i);
    var v := Value(s[..i + 1]);
    assert last == Value(s[..i]) && v == last * 10 + DigitValue(s[i]) && v / 10 == last;
    hide Value;
    if i == 9 {
      assert s[..10] == s;
    } else {
      assert v % TWO_TO_THE_32 == v;
    }
  }

  lemma AccumulateEnds(s: Text, index: nat)
    ensures Accumulated(s, 0, 0)
    ensures IsNumeral(s) && |s| <= 10 && Accumulated(s, |s|, index) ==> IndexValue(s) == index
  {
    assert s[..0] == [] && s[..|s|] == s;
    if IsNumeral(s) && |s| <= 10 {
      NextDigit(s, |s| - 1);
    }
  }

  /** index_value_from_string, with the wrapping multiplication and addition written out. */
  method ReadIndex(s: Text) returns (index: nat)
    ensures index == IndexValue(s)
  {
    if |s| == 0 || |s| > 10 {
      return INVALID_INDEX;
    }
    hide Accumulated, Value, DigitValue;
    index := 0;
    AccumulateEnds(s, 0);
    for i := 0 to |s|
      invariant (forall k :: 0 <= k < i ==> IsDigit(s[k])) && Accumulated(s, i, index)
    {
      var c := s[i];
      if !IsDigit(c) {
        return INVALID_INDEX;
      }
      AccumulateDigit(s, i, index);
      var last := index;
      index := (last * 10 + DigitValue(c)) % TWO_TO_THE_32;
      if index < last {
        return INVALID_INDEX;
      }
    }
    AccumulateEnds(s, index);
  }
}
