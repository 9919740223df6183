/** The number branch of the JSON lexer against the JSONNumber grammar of section 15.12.1.1 of ECMA-262 5.1. */
module JsonNumbers {
  import opened Wrappers
  import opened Characters
  import opened JsonText
  import opened JsonRoundTrip

  // ---- The grammar ----

  predicate AllDigits(s: Text) {
    s != [] && forall i :: 0 <= i < |s| ==> IsDigit(s[i])
  }

  predicate IsMinus(s: Text) {
    s == [] || s == [MINUS]
  }

  /** Zero, or digits that do not start with one. */
  predicate IsInteger(s: Text) {
    AllDigits(s) && (s[0] == ZERO ==> |s| == 1)
  }

  predicate IsFraction(s: Text) {
    s == [] || (s[0] == DOT && AllDigits(s[1..]))
  }

  predicate IsExponent(s: Text) {
    s == [] ||
    (|s| > 1 && (s[0] == 101 || s[0] == 69) &&
     (AllDigits(s[1..]) || ((s[1] == PLUS || s[1] == MINUS) && AllDigits(s[2..]))))
  }

  /** Sign, digits, fraction and exponent, with cuts at `i`, `j` and `k`. */
  predicate Parts(l: Text, i: nat, j: nat, k: nat) {
    && i <= j <= k <= |l|
    && IsMinus(l[..i]) && AllDigits(l[i..j]) && IsFraction(l[j..k]) && IsExponent(l[k..])
  }

  /** A JSONNumber: its integer has no superfluous zeros. */
  ghost predicate IsJsonNumber(l: Text) {
    exists i: nat, j: nat, k: nat :: Parts(l, i, j, k) && IsInteger(l[i..j])
  }

  // ---- What the lexer takes ----

  lemma {:induction false} DigitsAre(s: Text)
    ensures forall m :: 0 <= m < Digits(s) ==> IsDigit(s[m])
    ensures Digits(s) < |s| ==> !IsDigit(s[Digits(s)])
  {
    if s != [] && IsDigit(s[0]) {
      DigitsAre(s[1..]);
    }
  }

  lemma {:induction false} DigitsExactly(s: Text, n: nat)
    requires n <= |s| && (forall m :: 0 <= m < n ==> IsDigit(s[m])) && (n < |s| ==> !IsDigit(s[n]))
    ensures Digits(s) == n
  {
    if n > 0 {
      DigitsExactly(s[1..], n - 1);
    }
  }

  /** Where the number branch finds the integer, the fraction and the exponent to end. */
  lemma NumberParts(l: Text) returns (i: nat, j: nat, k: nat)
    requires IsNumber(l)
    ensures Parts(l, i, j, k)
  {
    i := if l[0] == MINUS then 1 else 0;
    DigitsAre(l[1..]);
    j := 1 + Digits(l[1..]);
    k := FractionEnd(l, j).value;
    assert forall m :: 0 <= m < j - 1 ==> IsDigit(l[1..][m]) && l[1..][m] == l[m + 1];
    assert AllDigits(l[i..j]) by {
      forall m | 0 <= m < j - i ensures IsDigit(l[i..j][m]) {
        assert i + m == 0 || l[i + m] == l[1..][i + m - 1];
      }
    }
    FractionShape(l, j);
    ExponentShape(l, k);
  }

  lemma FractionShape(l: Text, j: nat)
    requires j <= |l| && FractionEnd(l, j).Some?
    ensures IsFraction(l[j..FractionEnd(l, j).value])
  {
    if j < |l| && l[j] == DOT {
      DigitsAre(l[j + 1..]);
      var k := FractionEnd(l, j).value;
      assert l[j..k][1..] == l[j + 1..][..k - j - 1];
    }
  }

  lemma ExponentShape(l: Text, k: nat)
    requires k <= |l| && ExponentEnd(l, k) == Some(|l|)
    ensures IsExponent(l[k..])
  {
    if k < |l| {
      var j := if l[k + 1] == MINUS || l[k + 1] == PLUS then k + 2 else k + 1;
      DigitsAre(l[j..]);
      assert l[k..][j - k..] == l[j..];
      assert AllDigits(l[j..]);
    }
  }

  /** And text with such parts is taken whole. */
  lemma PartsTaken(l: Text, i: nat, j: nat, k: nat)
    requires Parts(l, i, j, k)
    ensures IsNumber(l)
  {
    assert l[..i] == [] || l[..i] == [MINUS];
    assert forall m :: i <= m < j ==> l[m] == l[i..j][m - i];
    assert j < |l| ==> l[j] == if j < k then l[j..k][0] else l[k..][0];
    DigitsExactly(l[1..], j - 1);
    FractionTaken(l, j, k);
    ExponentTaken(l, k);
  }

  lemma FractionTaken(l: Text, j: nat, k: nat)
    requires j <= k <= |l| && IsFraction(l[j..k]) && IsExponent(l[k..])
    ensures FractionEnd(l, j) == Some(k)
  {
    if j < k {
      var s := l[j..k];
      assert s[0] == l[j];
      assert forall m :: 0 <= m < k - j - 1 ==> l[j + 1..][m] == s[1..][m];
      assert k < |l| ==> l[j + 1..][k - j - 1] == l[k..][0];
      DigitsExactly(l[j + 1..], k - j - 1);
    } else {
      assert k < |l| ==> l[k] == l[k..][0];
    }
  }

  lemma ExponentTaken(l: Text, k: nat)
    requires k <= |l| && IsExponent(l[k..])
    ensures ExponentEnd(l, k) == Some(|l|)
  {
    if k < |l| {
      var s := l[k..];
      assert l[k] == s[0] && l[k + 1] == s[1];
      var j := if l[k + 1] == MINUS || l[k + 1] == PLUS then 2 else 1;
      assert s[j..] == l[k + j..];
      if j == 2 {
        assert !IsDigit(s[1]) && s[1..][0] == s[1];
      }
      DigitsExactly(l[k + j..], |l| - k - j);
    }
  }

  // ---- Superfluous zeros ----

  /** After the optional minus, a zero with a digit behind it. */
  predicate HasExtraZero(l: Text) {
    var i := if l != [] && l[0] == MINUS then 1 else 0;
    i + 1 < |l| && l[i] == ZERO && IsDigit(l[i + 1])
  }

  /** Zeros that have a digit behind them, dropped from the front. */
  function DropZeros(s: Text): Text {
    if |s| > 1 && s[0] == ZERO && IsDigit(s[1]) then DropZeros(s[1..]) else s
  }

  /** The same behind the optional minus. */
  function WithoutExtraZeros(l: Text): Text {
    if l != [] && l[0] == MINUS then [MINUS] + DropZeros(l[1..]) else DropZeros(l)
  }

  /** The cut behind the sign is where the sign is. */
  lemma MinusCut(l: Text, i: nat, j: nat, k: nat)
    requires Parts(l, i, j, k)
    ensures i == (if l[0] == MINUS then 1 else 0) && i < j
  {
    assert l[i..j][0] == l[i];
    if i > 0 {
      assert l[..i] == [MINUS];
    }
  }

  lemma BehindDigits(l: Text, i: nat, j: nat, k: nat)
    requires Parts(l, i, j, k)
    ensures j < |l| ==> !IsDigit(l[j])
  {
    assert j < k ==> l[j..k][0] == l[j];
    assert j == k < |l| ==> l[k..][0] == l[j];
  }

  lemma ExtraZeroShows(l: Text, i: nat, j: nat, k: nat)
    requires Parts(l, i, j, k)
    ensures IsInteger(l[i..j]) <==> !HasExtraZero(l)
  {
    MinusCut(l, i, j, k);
    BehindDigits(l, i, j, k);
    assert l[i..j][0] == l[i] && (j > i + 1 ==> l[i..j][1] == l[i + 1]);
  }

  /** An accepted text is outside the grammar exactly when it has a superfluous zero. */
  lemma OutsideExactly(l: Text)
    requires IsNumber(l)
    ensures !IsJsonNumber(l) <==> HasExtraZero(l)
  {
    var i, j, k := NumberParts(l);
    ExtraZeroShows(l, i, j, k);
    if IsJsonNumber(l) {
      var i': nat, j': nat, k': nat :| Parts(l, i', j', k') && IsInteger(l[i'..j']);
      ExtraZeroShows(l, i', j', k');
    }
  }

  /** Pieces put together are taken whole. */
  lemma PiecesTaken(a: Text, b: Text, c: Text, d: Text)
    requires IsMinus(a) && AllDigits(b) && IsFraction(c) && IsExponent(d)
    ensures IsNumber(a + (b + (c + d)))
  {
    var l := a + (b + (c + d));
    var i := |a|;
    var j := i + |b|;
    var k := j + |c|;
    assert l[..i] == a && l[i..j] == b && l[j..k] == c && l[k..] == d;
    hide IsMinus, AllDigits, IsFraction, IsExponent, IsNumber;
    PartsTaken(l, i, j, k);
  }

  /** The pieces of a number behind its sign. */
  lemma Pieces(sign: Text, s: Text) returns (b: Text, c: Text, d: Text)
    requires IsMinus(sign) && s != [] && s[0] != MINUS && IsNumber(sign + s)
    ensures s == b + (c + d) && AllDigits(b) && IsFraction(c) && IsExponent(d)
    ensures c + d != [] ==> !IsDigit((c + d)[0])
  {
    hide IsNumber;
    var l := sign + s;
    var i, j, k := NumberParts(l);
    MinusCut(l, i, j, k);
    BehindDigits(l, i, j, k);
    hide IsFraction, IsExponent, AllDigits;
    assert i == |sign|;
    b, c, d := l[i..j], l[j..k], l[k..];
    Cut3(sign, s, j, k);
  }

  lemma Cut3(a: Text, s: Text, j: nat, k: nat)
    requires |a| <= j <= k <= |a + s|
    ensures s == (a + s)[|a|..j] + ((a + s)[j..k] + (a + s)[k..])
    ensures (a + s)[j..k] + (a + s)[k..] == (a + s)[j..]
  {}

  lemma MoreDigits(s: Text, b: Text, e: Text)
    requires s == b + e && b != [] && |s| > 1 && IsDigit(s[1]) && (e != [] ==> !IsDigit(e[0]))
    ensures |b| > 1
  {
    assert e == s[|b|..];
  }

  /** Dropping one superfluous zero leaves a number. */
  lemma DropOne(sign: Text, s: Text)
    requires IsMinus(sign) && |s| > 1 && s[0] == ZERO && IsDigit(s[1]) && IsNumber(sign + s)
    ensures IsNumber(sign + s[1..])
  {
    hide IsNumber, IsFraction, IsExponent;
    var b, c, d := Pieces(sign, s);
    MoreDigits(s, b, c + d);
    assert s[1..] == b[1..] + (c + d);
    PiecesTaken(sign, b[1..], c, d);
  }

  /** Adding one leaves a number. */
  lemma AddOne(sign: Text, s: Text)
    requires IsMinus(sign) && s != [] && IsDigit(s[0]) && IsNumber(sign + s)
    ensures IsNumber(sign + ([ZERO] + s))
  {
    hide IsNumber, IsFraction, IsExponent;
    var b, c, d := Pieces(sign, s);
    assert [ZERO] + s == [ZERO] + b + (c + d);
    PiecesTaken(sign, [ZERO] + b, c, d);
  }

  lemma {:induction false} ZerosDropped(sign: Text, s: Text)
    requires IsMinus(sign)
    ensures IsNumber(sign + s) <==> IsNumber(sign + DropZeros(s))
    ensures var d := DropZeros(s); !(|d| > 1 && d[0] == ZERO && IsDigit(d[1]))
    ensures s != [] ==> DropZeros(s) != [] && (s[0] != MINUS ==> DropZeros(s)[0] != MINUS)
    decreases |s|
  {
    if |s| > 1 && s[0] == ZERO && IsDigit(s[1]) {
      assert [ZERO] + s[1..] == s;
      if IsNumber(sign + s) {
        DropOne(sign, s);
      }
      if IsNumber(sign + s[1..]) {
        AddOne(sign, s[1..]);
      }
      ZerosDropped(sign, s[1..]);
    }
  }

  /** The lexer takes exactly the texts that are JSONNumbers once superfluous zeros are dropped. */
  lemma AcceptedExactly(l: Text)
    ensures IsNumber(l) <==> IsJsonNumber(WithoutExtraZeros(l))
  {
    var d := WithoutExtraZeros(l);
    if l != [] && l[0] == MINUS {
      assert [MINUS] + l[1..] == l;
      ZerosDropped([MINUS], l[1..]);
    } else {
      assert [] + l == l && [] + DropZeros(l) == DropZeros(l);
      ZerosDropped([], l);
    }
    assert IsNumber(l) <==> IsNumber(d);
    if IsNumber(d) {
      OutsideExactly(d);
    }
    if IsJsonNumber(d) {
      var i: nat, j: nat, k: nat :| Parts(d, i, j, k) && IsInteger(d[i..j]);
      PartsTaken(d, i, j, k);
    }
  }

  /** 01 is read as a number. */
  lemma LeadingZeroRead()
    ensures Parse([ZERO, 49]) == Some(Num([ZERO, 49])) && !IsJsonNumber([ZERO, 49])
  {
    var l: Text := [ZERO, 49];
    assert AllDigits(l[0..2]) && l[..0] == [] && l[2..2] == [] && l[2..] == [];
    PartsTaken(l, 0, 2, 2);
    OutsideExactly(l);
    ParseStringified(Num(l), []);
  }
}
