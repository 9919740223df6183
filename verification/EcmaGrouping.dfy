/** Where the parser's grouping differs from that of ECMA-262: `&&` and `||` share a level, commas group to the
    right, and the target of an assignment may be any operand. */
module EcmaGrouping {
  import opened Expressions
  import opened ExpressionRoundTrip

  // ---- The grammar, sections 11.5 to 11.14 of ECMA-262 ----

  predicate MultiplicativeExpression(t: Tree) {
    t.Leaf? || (t.Bin? && t.op in {Multiply, Divide, Mod} && MultiplicativeExpression(t.l) && t.r.Leaf?)
  }

  predicate AdditiveExpression(t: Tree) {
    MultiplicativeExpression(t) || (t.Bin? && t.op in {Plus, Minus} && AdditiveExpression(t.l) && MultiplicativeExpression(t.r))
  }

  predicate ShiftExpression(t: Tree) {
    AdditiveExpression(t) || (t.Bin? && t.op in {LShift, RShift, RShiftShift} && ShiftExpression(t.l) && AdditiveExpression(t.r))
  }

  predicate RelationalExpression(t: Tree) {
    ShiftExpression(t) ||
    (t.Bin? && t.op in {Lt, Gt, LtEqual, GtEqual, InstanceOf, In} && RelationalExpression(t.l) && ShiftExpression(t.r))
  }

  predicate EqualityExpression(t: Tree) {
    RelationalExpression(t) ||
    (t.Bin? && t.op in {EqualEqual, NotEqual, EqualEqualEqual, NotEqualEqual}
     && EqualityExpression(t.l) && RelationalExpression(t.r))
  }

  predicate BitwiseAndExpression(t: Tree) {
    EqualityExpression(t) || (t.Bin? && t.op == And && BitwiseAndExpression(t.l) && EqualityExpression(t.r))
  }

  predicate BitwiseXorExpression(t: Tree) {
    BitwiseAndExpression(t) || (t.Bin? && t.op == Xor && BitwiseXorExpression(t.l) && BitwiseAndExpression(t.r))
  }

  predicate BitwiseOrExpression(t: Tree) {
    BitwiseXorExpression(t) || (t.Bin? && t.op == Or && BitwiseOrExpression(t.l) && BitwiseXorExpression(t.r))
  }

  predicate LogicalAndExpression(t: Tree) {
    BitwiseOrExpression(t) || (t.Bin? && t.op == AndAnd && LogicalAndExpression(t.l) && BitwiseOrExpression(t.r))
  }

  predicate LogicalOrExpression(t: Tree) {
    LogicalAndExpression(t) || (t.Bin? && t.op == OrOr && LogicalOrExpression(t.l) && LogicalAndExpression(t.r))
  }

  predicate AssignmentOperator(op: Op) {
    op in {Equal, MultiplyEqual, DivideEqual, ModEqual, PlusEqual, MinusEqual, LShiftEqual, RShiftEqual, RShiftShiftEqual,
           AndEqual, XorEqual, OrEqual}
  }

  /** The target of an assignment is a left-hand-side expression, an operand here. */
  predicate AssignmentExpression(t: Tree) {
    LogicalOrExpression(t) || (t.Bin? && AssignmentOperator(t.op) && t.l.Leaf? && AssignmentExpression(t.r))
  }

  /** Expression of section 11.14: what the grammar derives. */
  predicate EcmaDerives(t: Tree) {
    AssignmentExpression(t) || (t.Bin? && t.op == Comma && EcmaDerives(t.l) && AssignmentExpression(t.r))
  }

  // ---- The same by levels ----

  /** How tightly operators bind, and which levels group to the right. */
  datatype Table = Table(level: Op -> nat, right: nat -> bool)

  const PROGRAM := Table(Precedence, RightToLeft)
  const ECMA := Table(EcmaPrecedence, EcmaRight)

  function EcmaPrecedence(op: Op): nat {
    match op
    case Multiply | Divide | Mod => 5
    case Plus | Minus => 6
    case LShift | RShift | RShiftShift => 7
    case Lt | Gt | LtEqual | GtEqual | InstanceOf | In => 8
    case EqualEqual | NotEqual | EqualEqualEqual | NotEqualEqual => 9
    case And => 10
    case Xor => 11
    case Or => 12
    case AndAnd => 13
    case OrOr => 14
    case Equal | MultiplyEqual | DivideEqual | ModEqual | PlusEqual | MinusEqual | LShiftEqual | RShiftEqual
       | RShiftShiftEqual | AndEqual | XorEqual | OrEqual => 15
    case Comma => 16
  }

  /** Assignments group to the right, everything else to the left. */
  predicate EcmaRight(level: nat) {
    level == 15
  }

  function LevelBy(f: Table, t: Tree): nat {
    if t.Bin? then f.level(t.op) else 0
  }

  /** Grouped as a table asks for. */
  predicate GroupedBy(f: Table, t: Tree) {
    t.Bin? ==>
      var p := f.level(t.op);
      && GroupedBy(f, t.l) && GroupedBy(f, t.r)
      && (if f.right(p) then LevelBy(f, t.l) < p && LevelBy(f, t.r) <= p
          else LevelBy(f, t.l) <= p && LevelBy(f, t.r) < p)
  }

  predicate EcmaGrouped(t: Tree) {
    GroupedBy(ECMA, t)
  }

  predicate AssignsLeaves(t: Tree) {
    t.Bin? ==> AssignsLeaves(t.l) && AssignsLeaves(t.r) && (AssignmentOperator(t.op) ==> t.l.Leaf?)
  }

  /** An expression up to this level. */
  predicate Fits(t: Tree, level: nat) {
    EcmaGrouped(t) && AssignsLeaves(t) && LevelBy(ECMA, t) <= level
  }

  lemma {:induction false} FitsBin(t: Tree, level: nat)
    requires t.Bin?
    ensures var p := EcmaPrecedence(t.op);
      Fits(t, level) <==>
        p <= level && if EcmaRight(p) then t.l.Leaf? && Fits(t.r, p) else Fits(t.l, p) && Fits(t.r, p - 1)
  {
    var p := EcmaPrecedence(t.op);
    assert AssignmentOperator(t.op) <==> EcmaRight(p);
    assert EcmaGrouped(t) <==>
      && EcmaGrouped(t.l) && EcmaGrouped(t.r)
      && if EcmaRight(p) then LevelBy(ECMA, t.l) < p && LevelBy(ECMA, t.r) <= p
         else LevelBy(ECMA, t.l) <= p && LevelBy(ECMA, t.r) < p;
    assert t.l.Leaf? ==> Fits(t.l, 0);
    assert EcmaRight(p) ==> (Fits(t, level) <==> p <= level && t.l.Leaf? && Fits(t.r, p));
    assert !EcmaRight(p) ==> (Fits(t, level) <==> p <= level && Fits(t.l, p) && Fits(t.r, p - 1));
  }

  lemma {:induction false} FitsAlone(noIn: bool, t: Tree, level: nat)
    requires Plain(noIn, t) && level <= 4
    ensures Fits(t, level) <==> t.Leaf?
  {}

  lemma {:induction false} MultiplicativeFits(noIn: bool, t: Tree)
    requires Plain(noIn, t)
    ensures MultiplicativeExpression(t) <==> Fits(t, 5)
  {
    if t.Bin? {
      hide Fits;
      FitsBin(t, 5);
      FitsAlone(noIn, t.r, 4);
      MultiplicativeFits(noIn, t.l);
    } else {
      FitsAlone(noIn, t, 0);
    }
  }

  lemma {:induction false} AdditiveFits(noIn: bool, t: Tree)
    requires Plain(noIn, t)
    ensures AdditiveExpression(t) <==> Fits(t, 6)
  {
    MultiplicativeFits(noIn, t);
    if t.Bin? {
      hide Fits, MultiplicativeExpression;
      FitsBin(t, 5);
      FitsBin(t, 6);
      AdditiveFits(noIn, t.l);
      MultiplicativeFits(noIn, t.r);
    }
  }

  lemma {:induction false} ShiftFits(noIn: bool, t: Tree)
    requires Plain(noIn, t)
    ensures ShiftExpression(t) <==> Fits(t, 7)
  {
    AdditiveFits(noIn, t);
    if t.Bin? {
      hide Fits, AdditiveExpression;
      FitsBin(t, 6);
      FitsBin(t, 7);
      ShiftFits(noIn, t.l);
      AdditiveFits(noIn, t.r);
    }
  }

  lemma {:induction false} RelationalFits(noIn: bool, t: Tree)
    requires Plain(noIn, t)
    ensures RelationalExpression(t) <==> Fits(t, 8)
  {
    ShiftFits(noIn, t);
    if t.Bin? {
      hide Fits, ShiftExpression;
      FitsBin(t, 7);
      FitsBin(t, 8);
      RelationalFits(noIn, t.l);
      ShiftFits(noIn, t.r);
    }
  }

  lemma {:induction false} EqualityFits(noIn: bool, t: Tree)
    requires Plain(noIn, t)
    ensures EqualityExpression(t) <==> Fits(t, 9)
  {
    RelationalFits(noIn, t);
    if t.Bin? {
      hide Fits, RelationalExpression;
      FitsBin(t, 8);
      FitsBin(t, 9);
      EqualityFits(noIn, t.l);
      RelationalFits(noIn, t.r);
    }
  }

  lemma {:induction false} BitwiseAndFits(noIn: bool, t: Tree)
    requires Plain(noIn, t)
    ensures BitwiseAndExpression(t) <==> Fits(t, 10)
  {
    EqualityFits(noIn, t);
    if t.Bin? {
      hide Fits, EqualityExpression;
      FitsBin(t, 9);
      FitsBin(t, 10);
      BitwiseAndFits(noIn, t.l);
      EqualityFits(noIn, t.r);
    }
  }

  lemma {:induction false} BitwiseXorFits(noIn: bool, t: Tree)
    requires Plain(noIn, t)
    ensures BitwiseXorExpression(t) <==> Fits(t, 11)
  {
    BitwiseAndFits(noIn, t);
    if t.Bin? {
      hide Fits, BitwiseAndExpression;
      FitsBin(t, 10);
      FitsBin(t, 11);
      BitwiseXorFits(noIn, t.l);
      BitwiseAndFits(noIn, t.r);
    }
  }

  lemma {:induction false} BitwiseOrFits(noIn: bool, t: Tree)
    requires Plain(noIn, t)
    ensures BitwiseOrExpression(t) <==> Fits(t, 12)
  {
    BitwiseXorFits(noIn, t);
    if t.Bin? {
      hide Fits, BitwiseXorExpression;
      FitsBin(t, 11);
      FitsBin(t, 12);
      BitwiseOrFits(noIn, t.l);
      BitwiseXorFits(noIn, t.r);
    }
  }

  lemma {:induction false} LogicalAndFits(noIn: bool, t: Tree)
    requires Plain(noIn, t)
    ensures LogicalAndExpression(t) <==> Fits(t, 13)
  {
    BitwiseOrFits(noIn, t);
    if t.Bin? {
      hide Fits, BitwiseOrExpression;
      FitsBin(t, 12);
      FitsBin(t, 13);
      LogicalAndFits(noIn, t.l);
      BitwiseOrFits(noIn, t.r);
    }
  }

  lemma {:induction false} LogicalOrFits(noIn: bool, t: Tree)
    requires Plain(noIn, t)
    ensures LogicalOrExpression(t) <==> Fits(t, 14)
  {
    LogicalAndFits(noIn, t);
    if t.Bin? {
      hide Fits, LogicalAndExpression;
      FitsBin(t, 13);
      FitsBin(t, 14);
      LogicalOrFits(noIn, t.l);
      LogicalAndFits(noIn, t.r);
    }
  }

  lemma {:induction false} AssignmentFits(noIn: bool, t: Tree)
    requires Plain(noIn, t)
    ensures AssignmentExpression(t) <==> Fits(t, 15)
  {
    LogicalOrFits(noIn, t);
    if t.Bin? {
      hide Fits, LogicalOrExpression;
      FitsBin(t, 14);
      FitsBin(t, 15);
      AssignmentFits(noIn, t.r);
    }
  }

  /** The productions derive what is grouped by these levels and assigns to operands only. */
  lemma {:induction false} DerivesExactly(noIn: bool, t: Tree)
    requires Plain(noIn, t)
    ensures EcmaDerives(t) <==> EcmaGrouped(t) && AssignsLeaves(t)
  {
    DerivesFits(noIn, t);
    assert LevelBy(ECMA, t) <= 16;
  }

  lemma {:induction false} DerivesFits(noIn: bool, t: Tree)
    requires Plain(noIn, t)
    ensures EcmaDerives(t) <==> Fits(t, 16)
  {
    AssignmentFits(noIn, t);
    if t.Bin? {
      hide Fits, AssignmentExpression;
      FitsBin(t, 15);
      FitsBin(t, 16);
      DerivesFits(noIn, t.l);
      AssignmentFits(noIn, t.r);
    }
  }

  lemma EcmaLevels(op: Op)
    ensures EcmaPrecedence(op) == if op == OrOr then 14 else Precedence(op)
    ensures IsLogical(op) <==> Precedence(op) == 13
    ensures op == Comma <==> Precedence(op) == 16
    ensures Precedence(op) != 14
  {}

  /** The parser orders every two operators as ECMA-262 does, except that it does not tell `&&` from `||`. */
  lemma LevelsAgree(a: Op, b: Op)
    ensures (Precedence(a) < Precedence(b) <==> EcmaPrecedence(a) < EcmaPrecedence(b)) <==> !(a == AndAnd && b == OrOr)
    ensures RightToLeft(Precedence(a)) <==> EcmaRight(EcmaPrecedence(a)) || a == Comma
  {
    EcmaLevels(a);
    EcmaLevels(b);
    hide Precedence, EcmaPrecedence;
  }

  lemma {:induction false} GroupedIsByTable(t: Tree)
    ensures GroupedBy(PROGRAM, t) <==> Grouped(t)
  {
    if t.Bin? {
      GroupedIsByTable(t.l);
      GroupedIsByTable(t.r);
    }
  }

  // ---- A table allows one tree over a sequence ----

  lemma {:induction false} YieldNonempty(noIn: bool, t: Tree)
    requires Plain(noIn, t)
    ensures Yield(t) != [] && (t.Bin? ==> |Yield(t)| >= 3)
  {
    if t.Bin? {
      YieldNonempty(noIn, t.l);
      YieldNonempty(noIn, t.r);
    }
  }

  lemma ConcatAt(l: seq<Tok>, o: Tok, r: seq<Tok>, i: nat)
    requires i < |l| + 1 + |r|
    ensures |l + [o] + r| == |l| + 1 + |r|
    ensures (l + [o] + r)[i] == if i < |l| then l[i] else if i == |l| then o else r[i - |l| - 1]
  {}

  lemma {:induction false} YieldAt(t: Tree, i: nat)
    requires t.Bin? && i < |Yield(t)|
    ensures var l, r := Yield(t.l), Yield(t.r);
      && |Yield(t)| == |l| + 1 + |r|
      && Yield(t)[i] == if i < |l| then l[i] else if i == |l| then Operator(t.op) else r[i - |l| - 1]
  {
    assert |Yield(t)| == |Yield(t.l)| + 1 + |Yield(t.r)|;
    ConcatAt(Yield(t.l), Operator(t.op), Yield(t.r), i);
  }

  /** No operator of the sequence binds looser than the root. */
  lemma {:induction false} RootLoosest(f: Table, t: Tree, i: nat)
    requires GroupedBy(f, t) && i < |Yield(t)| && Yield(t)[i].Operator?
    ensures f.level(Yield(t)[i].op) <= LevelBy(f, t)
  {
    if t.Bin? {
      YieldAt(t, i);
      var k := |Yield(t.l)|;
      if i < k {
        RootLoosest(f, t.l, i);
      } else if i > k {
        RootLoosest(f, t.r, i - k - 1);
      }
    }
  }

  lemma BeforeRoot(f: Table, t: Tree, i: nat)
    requires t.Bin? && GroupedBy(f, t) && i < |Yield(t.l)| && Yield(t)[i].Operator?
    ensures f.level(Yield(t)[i].op) <= LevelBy(f, t.l) <= f.level(t.op)
  {
    YieldAt(t, i);
    RootLoosest(f, t.l, i);
  }

  lemma BehindRoot(f: Table, t: Tree, i: nat)
    requires t.Bin? && GroupedBy(f, t) && |Yield(t.l)| < i < |Yield(t)| && Yield(t)[i].Operator?
    ensures f.level(Yield(t)[i].op) <= LevelBy(f, t.r) <= f.level(t.op)
  {
    YieldAt(t, i);
    RootLoosest(f, t.r, i - |Yield(t.l)| - 1);
  }

  /** The root of one tree cannot stand before the root of the other. */
  lemma RootsMeet(f: Table, t: Tree, u: Tree)
    requires t.Bin? && u.Bin? && GroupedBy(f, t) && GroupedBy(f, u) && Yield(t) == Yield(u)
    ensures |Yield(t.l)| >= |Yield(u.l)|
  {
    var i, j := |Yield(t.l)|, |Yield(u.l)|;
    assert i < |Yield(t)| && j < |Yield(u)|;
    YieldAt(t, i);
    YieldAt(u, j);
    if i < j {
      BehindRoot(f, t, j);
      BeforeRoot(f, u, i);
    }
  }

  lemma {:induction false} OneTree(noIn: bool, f: Table, t: Tree, u: Tree)
    requires Plain(noIn, t) && Plain(noIn, u) && GroupedBy(f, t) && GroupedBy(f, u) && Yield(t) == Yield(u)
    ensures t == u
  {
    YieldNonempty(noIn, t);
    YieldNonempty(noIn, u);
    if t.Bin? {
      assert u.Bin?;
      RootsMeet(f, t, u);
      RootsMeet(f, u, t);
      var k := |Yield(t.l)|;
      Ends(Yield(t.l), Operator(t.op), Yield(t.r));
      Ends(Yield(u.l), Operator(u.op), Yield(u.r));
      YieldAt(t, k);
      YieldAt(u, k);
      OneTree(noIn, f, t.l, u.l);
      OneTree(noIn, f, t.r, u.r);
    }
  }

  // ---- The tree that ECMA-262 asks for ----

  function EcmaAttach(op: Op, l: Tree, r: Tree): Tree
    decreases r
  {
    if op == AndAnd && l.Bin? && l.op == OrOr then Bin(OrOr, l.l, Bin(AndAnd, l.r, r))
    else if op == Comma && r.Bin? && r.op == Comma then Bin(Comma, EcmaAttach(Comma, l, r.l), r.r)
    else Bin(op, l, r)
  }

  /** The tree with every `&&` taken out of the `||` on its left and commas grouped to the left. */
  function Ecma(t: Tree): Tree {
    if t.Bin? then EcmaAttach(t.op, Ecma(t.l), Ecma(t.r)) else t
  }

  predicate IsLogical(op: Op) {
    op == AndAnd || op == OrOr
  }

  lemma {:induction false} EcmaAttachGrouped(op: Op, l: Tree, r: Tree)
    requires EcmaGrouped(l) && EcmaGrouped(r)
    requires var p := Precedence(op);
      if RightToLeft(p) then LevelBy(ECMA, l) < p && LevelBy(ECMA, r) <= p
      else LevelBy(ECMA, l) <= (if IsLogical(op) then 14 else p) && LevelBy(ECMA, r) < p
    ensures EcmaGrouped(EcmaAttach(op, l, r))
    decreases r
  {
    EcmaLevels(op);
    EcmaLevels(AndAnd);
    EcmaLevels(OrOr);
    if l.Bin? { EcmaLevels(l.op); }
    if r.Bin? { EcmaLevels(r.op); }
    hide EcmaGrouped, Precedence, EcmaPrecedence;
    if op == AndAnd && l.Bin? && l.op == OrOr {
      GroupedParts(l);
      GroupedStep(AndAnd, l.r, r);
      GroupedStep(OrOr, l.l, Bin(AndAnd, l.r, r));
    } else if op == Comma && r.Bin? && r.op == Comma {
      GroupedParts(r);
      EcmaAttachGrouped(Comma, l, r.l);
      GroupedStep(Comma, EcmaAttach(Comma, l, r.l), r.r);
    } else {
      GroupedStep(op, l, r);
    }
  }

  lemma {:induction false} GroupedStep(op: Op, l: Tree, r: Tree)
    requires EcmaGrouped(l) && EcmaGrouped(r)
    requires var p := EcmaPrecedence(op);
      if EcmaRight(p) then LevelBy(ECMA, l) < p && LevelBy(ECMA, r) <= p
      else LevelBy(ECMA, l) <= p && LevelBy(ECMA, r) < p
    ensures EcmaGrouped(Bin(op, l, r))
  {}

  lemma {:induction false} GroupedParts(t: Tree)
    requires t.Bin? && EcmaGrouped(t)
    ensures EcmaGrouped(t.l) && EcmaGrouped(t.r)
    ensures var p := EcmaPrecedence(t.op);
      if EcmaRight(p) then LevelBy(ECMA, t.l) < p && LevelBy(ECMA, t.r) <= p
      else LevelBy(ECMA, t.l) <= p && LevelBy(ECMA, t.r) < p
  {}

  lemma {:induction false} EcmaAttachYield(noIn: bool, op: Op, l: Tree, r: Tree)
    requires Plain(noIn, l) && Plain(noIn, r) && !(noIn && op == In)
    ensures Yield(EcmaAttach(op, l, r)) == Yield(l) + [Operator(op)] + Yield(r) && Plain(noIn, EcmaAttach(op, l, r))
    decreases r
  {
    if op == AndAnd && l.Bin? && l.op == OrOr {
      Joined(Yield(l.l), [Operator(OrOr)], Yield(l.r), [Operator(AndAnd)], Yield(r));
    } else if op == Comma && r.Bin? && r.op == Comma {
      EcmaAttachYield(noIn, Comma, l, r.l);
      Joined(Yield(l), [Operator(Comma)], Yield(r.l), [Operator(Comma)], Yield(r.r));
    }
  }

  lemma {:induction false} EcmaYield(noIn: bool, t: Tree)
    requires Plain(noIn, t)
    ensures Plain(noIn, Ecma(t)) && Yield(Ecma(t)) == Yield(t)
  {
    if t.Bin? {
      EcmaYield(noIn, t.l);
      EcmaYield(noIn, t.r);
      EcmaAttachYield(noIn, t.op, Ecma(t.l), Ecma(t.r));
    }
  }

  lemma {:induction false} EcmaIsGrouped(t: Tree)
    requires Grouped(t)
    ensures EcmaGrouped(Ecma(t)) && LevelBy(ECMA, Ecma(t)) <= EcmaLevel(t)
  {
    if t.Bin? {
      EcmaIsGrouped(t.l);
      EcmaIsGrouped(t.r);
      hide GroupedBy, EcmaGrouped, EcmaAttach;
      EcmaAttachGrouped(t.op, Ecma(t.l), Ecma(t.r));
      EcmaAttachLevel(t.op, Ecma(t.l), Ecma(t.r));
    }
  }

  lemma {:induction false} EcmaAttachLevel(op: Op, l: Tree, r: Tree)
    ensures LevelBy(ECMA, EcmaAttach(op, l, r)) <= if IsLogical(op) then 14 else Precedence(op)
  {}

  /** The loosest level that the root may get. */
  function EcmaLevel(t: Tree): nat {
    if t.Bin? && IsLogical(t.op) then 14 else Level(t)
  }

  // ---- When the parser's tree is that tree ----

  /** An assignment or comma. */
  predicate Looser(tok: Tok) {
    tok.Operator? && (AssignmentOperator(tok.op) || tok.op == Comma)
  }

  /** A `||` at `i` and behind it, with no assignment or comma between them, a `&&` at `j`. */
  predicate OrThenAnd(toks: seq<Tok>, i: nat, j: nat) {
    && i < j < |toks| && toks[i] == Operator(OrOr) && toks[j] == Operator(AndAnd)
    && forall k | i < k < j :: !Looser(toks[k])
  }

  predicate OrBeforeAnd(toks: seq<Tok>) {
    exists i, j | 0 <= i < j < |toks| :: OrThenAnd(toks, i, j)
  }

  predicate TwoCommas(toks: seq<Tok>) {
    exists i, j :: 0 <= i < j < |toks| && toks[i] == toks[j] == Operator(Comma)
  }

  lemma OrBeforeAndInside(a: seq<Tok>, b: seq<Tok>, c: seq<Tok>)
    requires OrBeforeAnd(b)
    ensures OrBeforeAnd(a + b + c)
  {
    var i, j :| 0 <= i < j < |b| && OrThenAnd(b, i, j);
    var s := a + b + c;
    assert forall k | i <= k <= j :: s[|a| + k] == b[k];
    forall k | |a| + i < k < |a| + j ensures !Looser(s[k]) {
      assert s[k] == b[k - |a|];
    }
    assert OrThenAnd(s, |a| + i, |a| + j);
  }

  lemma TwoCommasInside(a: seq<Tok>, b: seq<Tok>, c: seq<Tok>)
    requires TwoCommas(b)
    ensures TwoCommas(a + b + c)
  {
    var i, j :| 0 <= i < j < |b| && b[i] == b[j] == Operator(Comma);
    var s := a + b + c;
    assert s[|a| + i] == s[|a| + j] == Operator(Comma);
  }

  lemma ShowsInside(a: seq<Tok>, b: seq<Tok>, c: seq<Tok>)
    requires OrBeforeAnd(b) || TwoCommas(b)
    ensures OrBeforeAnd(a + b + c) || TwoCommas(a + b + c)
  {
    hide OrBeforeAnd, TwoCommas;
    if OrBeforeAnd(b) {
      OrBeforeAndInside(a, b, c);
    } else {
      TwoCommasInside(a, b, c);
    }
  }

  lemma Around(a: seq<Tok>, b: seq<Tok>, c: seq<Tok>)
    ensures [] + a + (b + c) == a + b + c && a + b + c + [] == a + b + c
  {}

  lemma {:induction false} NotEcmaShows(noIn: bool, t: Tree)
    requires Plain(noIn, t) && Grouped(t) && !EcmaGrouped(t)
    ensures OrBeforeAnd(Yield(t)) || TwoCommas(Yield(t))
  {
    var l, r, o := Yield(t.l), Yield(t.r), [Operator(t.op)];
    if !EcmaGrouped(t.l) {
      NotEcmaShows(noIn, t.l);
      Around(l, o, r);
      ShowsInside([], l, o + r);
    } else if !EcmaGrouped(t.r) {
      NotEcmaShows(noIn, t.r);
      Around(l, o, r);
      ShowsInside(l + o, r, []);
    } else if t.op == Comma {
      assert t.r.Bin? && t.r.op == Comma;
      CommasShow(t);
    } else {
      assert t.op == AndAnd && t.l.Bin? && t.l.op == OrOr;
      RootShows(t);
    }
  }

  lemma {:induction false} CommasShow(t: Tree)
    requires t.Bin? && t.op == Comma && t.r.Bin? && t.r.op == Comma
    ensures TwoCommas(Yield(t))
  {
    var i, j := |Yield(t.l)|, |Yield(t.r.l)|;
    assert |Yield(t)| == i + 1 + |Yield(t.r)| && |Yield(t.r)| == j + 1 + |Yield(t.r.r)|;
    YieldAt(t, i);
    YieldAt(t.r, j);
    YieldAt(t, i + 1 + j);
  }

  /** Grouped in both tables at once a tree has at most one comma. */
  lemma {:induction false} OneComma(t: Tree, i: nat, j: nat)
    requires Grouped(t) && EcmaGrouped(t) && i < j < |Yield(t)|
    ensures !(Yield(t)[i] == Yield(t)[j] == Operator(Comma))
  {
    if Yield(t)[i] == Yield(t)[j] == Operator(Comma) {
      GroupedIsByTable(t);
      RootLoosest(PROGRAM, t, i);
      YieldAt(t, i);
      YieldAt(t, j);
      if i < |Yield(t.l)| {
        BeforeRoot(PROGRAM, t, i);
      } else {
        BehindRoot(ECMA, t, j);
      }
    }
  }

  /** A tree up to the level of `||` has no assignment or comma. */
  lemma {:induction false} NotLooser(t: Tree, k: nat)
    requires Grouped(t) && Level(t) <= 13 && k < |Yield(t)|
    ensures !Looser(Yield(t)[k])
  {
    GroupedIsByTable(t);
    if Yield(t)[k].Operator? {
      RootLoosest(PROGRAM, t, k);
    }
  }

  lemma {:induction false} RootShows(t: Tree)
    requires t.Bin? && t.op == AndAnd && t.l.Bin? && t.l.op == OrOr && Grouped(t)
    ensures OrBeforeAnd(Yield(t))
  {
    var i, j := |Yield(t.l.l)|, |Yield(t.l)|;
    assert Grouped(t.l) && Grouped(t.l.r) && Level(t.l.r) <= 13;
    hide Grouped, Looser;
    YieldAt(t, j);
    assert i < j;
    YieldAt(t, i);
    YieldAt(t.l, i);
    forall k | i < k < j ensures !Looser(Yield(t)[k]) {
      YieldAt(t, k);
      YieldAt(t.l, k);
      NotLooser(t.l.r, k - i - 1);
    }
    assert OrThenAnd(Yield(t), i, j);
  }

  /** Nothing left of the root binds looser than it, in either table. */
  lemma RootBehindOr(t: Tree, i: nat)
    requires t.Bin? && Grouped(t) && EcmaGrouped(t) && i < |Yield(t.l)| && Yield(t)[i] == Operator(OrOr)
    ensures EcmaPrecedence(t.op) >= 14 && Precedence(t.op) >= 13
  {
    GroupedIsByTable(t);
    BeforeRoot(ECMA, t, i);
    BeforeRoot(PROGRAM, t, i);
  }

  /** What stands right of the root binds tighter than it, or the root is no logical operator. */
  lemma {:induction false} RootBeforeAnd(t: Tree, j: nat)
    requires t.Bin? && Grouped(t) && |Yield(t.l)| < j < |Yield(t)| && Yield(t)[j] == Operator(AndAnd)
    ensures Precedence(t.op) > 13
  {
    GroupedIsByTable(t);
    BehindRoot(PROGRAM, t, j);
  }

  /** The root of an ECMA tree is not among an `||`, the `&&` behind it and what is between. */
  lemma RootApart(t: Tree, i: nat, j: nat)
    requires t.Bin? && Grouped(t) && EcmaGrouped(t) && OrThenAnd(Yield(t), i, j)
    ensures j < |Yield(t.l)| || |Yield(t.l)| < i
  {
    hide Grouped, EcmaGrouped;
    var k := |Yield(t.l)|;
    assert Yield(t)[k] == Operator(t.op);
    if i < k <= j {
      RootBehindOr(t, i);
    }
    if i <= k < j {
      RootBeforeAnd(t, j);
    }
  }

  /** So both are on one side of the root. */
  lemma {:induction false} OnOneSide(t: Tree, i: nat, j: nat)
    requires t.Bin? && Grouped(t) && EcmaGrouped(t) && OrThenAnd(Yield(t), i, j)
    ensures var k := |Yield(t.l)|;
      (j < k && OrThenAnd(Yield(t.l), i, j)) || (k < i && OrThenAnd(Yield(t.r), i - k - 1, j - k - 1))
  {
    RootApart(t, i, j);
    SideOf(Yield(t.l), Operator(t.op), Yield(t.r), i, j);
  }

  lemma {:induction false} EcmaShowsNot(t: Tree, i: nat, j: nat)
    requires Grouped(t) && EcmaGrouped(t)
    ensures !OrThenAnd(Yield(t), i, j)
  {
    if t.Bin? && OrThenAnd(Yield(t), i, j) {
      OnOneSide(t, i, j);
      EcmaShowsNot(t.l, i, j);
      if |Yield(t.l)| < i {
        EcmaShowsNot(t.r, i - |Yield(t.l)| - 1, j - |Yield(t.l)| - 1);
      }
    }
  }

  lemma SideOf(l: seq<Tok>, o: Tok, r: seq<Tok>, i: nat, j: nat)
    requires OrThenAnd(l + [o] + r, i, j) && (j < |l| || |l| < i)
    ensures if j < |l| then OrThenAnd(l, i, j) else OrThenAnd(r, i - |l| - 1, j - |l| - 1)
  {
    var s := l + [o] + r;
    assert |s| == |l| + 1 + |r|;
    Ends(l, o, r);
    if j < |l| {
      OrThenAndPrefix(s, l, i, j);
    } else {
      OrThenAndShift(s, r, |l| + 1, i, j);
    }
  }

  lemma Ends(l: seq<Tok>, o: Tok, r: seq<Tok>)
    ensures (l + [o] + r)[..|l|] == l && (l + [o] + r)[|l| + 1..] == r
  {}

  lemma OrThenAndPrefix(s: seq<Tok>, l: seq<Tok>, i: nat, j: nat)
    requires OrThenAnd(s, i, j) && j < |l| <= |s| && s[..|l|] == l
    ensures OrThenAnd(l, i, j)
  {
    assert forall m | i <= m <= j :: s[m] == l[m];
  }

  lemma OrThenAndShift(s: seq<Tok>, r: seq<Tok>, n: nat, i: nat, j: nat)
    requires OrThenAnd(s, i, j) && n <= i && |s| == n + |r| && s[n..] == r
    ensures OrThenAnd(r, i - n, j - n)
  {
    assert forall m | i <= m <= j :: s[m] == r[m - n];
    forall k | i - n < k < j - n ensures !Looser(r[k]) {
      assert r[k] == s[k + n];
    }
  }

  /** A tree grouped by the parser's table is grouped by that of ECMA-262 exactly when no `||` stands before a `&&` in
      one run and no comma before another. */
  lemma EcmaExactly(noIn: bool, t: Tree)
    requires Plain(noIn, t) && Grouped(t)
    ensures EcmaGrouped(t) <==> !OrBeforeAnd(Yield(t)) && !TwoCommas(Yield(t))
    ensures EcmaGrouped(t) <==> Ecma(t) == t
  {
    if !EcmaGrouped(t) {
      NotEcmaShows(noIn, t);
    } else if OrBeforeAnd(Yield(t)) {
      var i, j :| 0 <= i < j < |Yield(t)| && OrThenAnd(Yield(t), i, j);
      EcmaShowsNot(t, i, j);
    } else if TwoCommas(Yield(t)) {
      var i: nat, j: nat :| i < j < |Yield(t)| && Yield(t)[i] == Yield(t)[j] == Operator(Comma);
      OneComma(t, i, j);
    }
    EcmaIsGrouped(t);
    EcmaYield(noIn, t);
    if EcmaGrouped(t) {
      OneTree(noIn, ECMA, t, Ecma(t));
    }
  }

  // ---- Targets of assignments ----

  /** The operand before an assignment operator at `i` belongs to an operator before it that binds tighter. */
  predicate AssignsToOperation(toks: seq<Tok>, i: nat) {
    && 2 <= i < |toks| && toks[i].Operator? && AssignmentOperator(toks[i].op)
    && toks[i - 2].Operator? && !Looser(toks[i - 2])
  }

  predicate AssignsToOperands(toks: seq<Tok>) {
    forall i: nat | i < |toks| :: !AssignsToOperation(toks, i)
  }

  lemma OddSum(a: nat, b: nat)
    requires a % 2 == 1 && b % 2 == 1
    ensures (a + 1 + b) % 2 == 1
  {}

  lemma OddBehind(a: nat, i: nat)
    requires a % 2 == 1 && i > a
    ensures (i - a - 1) % 2 == i % 2
  {}

  lemma {:induction false} YieldAlternates(noIn: bool, t: Tree, i: nat)
    requires Plain(noIn, t) && i < |Yield(t)|
    ensures |Yield(t)| % 2 == 1 && (Yield(t)[i].Operator? <==> i % 2 == 1)
  {
    if t.Bin? {
      YieldNonempty(noIn, t.l);
      YieldNonempty(noIn, t.r);
      var k := |Yield(t.l)|;
      YieldAt(t, i);
      hide Yield;
      YieldAlternates(noIn, t.l, if i < k then i else 0);
      YieldAlternates(noIn, t.r, if i > k then i - k - 1 else 0);
      OddSum(k, |Yield(t.r)|);
      if i > k {
        OddBehind(k, i);
      }
    }
  }

  /** An assignment to something else than an operand shows in the tokens. */
  lemma {:induction false} TargetShows(noIn: bool, t: Tree)
    requires Plain(noIn, t) && EcmaGrouped(t) && !AssignsLeaves(t)
    ensures !AssignsToOperands(Yield(t))
  {
    var l, r, o := Yield(t.l), Yield(t.r), [Operator(t.op)];
    if !AssignsLeaves(t.l) {
      TargetShows(noIn, t.l);
      Around(l, o, r);
      OperationInside([], l, o + r);
    } else if !AssignsLeaves(t.r) {
      TargetShows(noIn, t.r);
      Around(l, o, r);
      OperationInside(l + o, r, []);
    } else {
      RootAssigns(noIn, t);
    }
  }

  lemma {:induction false} RootAssigns(noIn: bool, t: Tree)
    requires Plain(noIn, t) && EcmaGrouped(t) && t.Bin? && AssignmentOperator(t.op) && t.l.Bin?
    ensures !AssignsToOperands(Yield(t))
  {
    var k := |Yield(t.l)|;
    YieldNonempty(noIn, t.l);
    YieldAlternates(noIn, t.l, k - 2);
    assert k < |Yield(t)|;
    YieldAt(t, k);
    YieldAt(t, k - 2);
    GroupedParts(t);
    LooserLevel(t.op);
    LooserLevel(Yield(t)[k - 2].op);
    hide Yield, EcmaGrouped, EcmaPrecedence, AssignmentOperator;
    BeforeRoot(ECMA, t, k - 2);
    assert AssignsToOperation(Yield(t), k);
  }

  lemma LooserLevel(op: Op)
    ensures AssignmentOperator(op) <==> EcmaPrecedence(op) == 15
    ensures Looser(Operator(op)) <==> EcmaPrecedence(op) >= 15
  {}

  lemma OperationInside(a: seq<Tok>, b: seq<Tok>, c: seq<Tok>)
    requires !AssignsToOperands(b)
    ensures !AssignsToOperands(a + b + c)
  {
    var i: nat :| i < |b| && AssignsToOperation(b, i);
    var s := a + b + c;
    assert s[|a| + i] == b[i] && s[|a| + i - 2] == b[i - 2];
    assert AssignsToOperation(s, |a| + i);
  }

  /** Where all targets are operands no such thing shows. */
  lemma {:induction false} TargetsHide(noIn: bool, t: Tree, i: nat)
    requires Plain(noIn, t) && EcmaGrouped(t) && AssignsLeaves(t)
    ensures !AssignsToOperation(Yield(t), i)
  {
    if t.Bin? && AssignsToOperation(Yield(t), i) {
      var k := |Yield(t.l)|;
      OperationSide(Yield(t.l), Operator(t.op), Yield(t.r), i);
      if i < k {
        TargetsHide(noIn, t.l, i);
      } else if i == k + 1 {
        YieldNonempty(noIn, t.r);
        YieldAlternates(noIn, t.r, 0);
      } else if i == k + 2 {
        BehindRoot(ECMA, t, i);
      } else if i > k + 2 {
        TargetsHide(noIn, t.r, i - k - 1);
      }
    }
  }

  /** An assignment is within a side, or its target begins where the right side does. */
  lemma OperationSide(l: seq<Tok>, o: Tok, r: seq<Tok>, i: nat)
    requires AssignsToOperation(l + [o] + r, i)
    ensures i < |l| ==> AssignsToOperation(l, i)
    ensures i == |l| ==> |l| >= 2
    ensures i == |l| + 1 ==> |r| > 0 && r[0].Operator?
    ensures i == |l| + 2 ==> o.Operator? && !Looser(o)
    ensures i > |l| + 2 ==> AssignsToOperation(r, i - |l| - 1)
  {
    ConcatAt(l, o, r, i);
    ConcatAt(l, o, r, i - 2);
  }

  lemma AssignsExactly(noIn: bool, t: Tree)
    requires Plain(noIn, t) && EcmaGrouped(t)
    ensures AssignsLeaves(t) <==> AssignsToOperands(Yield(t))
  {
    if AssignsLeaves(t) {
      forall i: nat | i < |Yield(t)| ensures !AssignsToOperation(Yield(t), i) {
        TargetsHide(noIn, t, i);
      }
    } else {
      TargetShows(noIn, t);
    }
  }

  // ---- The parser and the grammar ----

  /** `u` is a tree that ECMA-262 derives over these tokens. */
  predicate EcmaTree(noIn: bool, u: Tree, toks: seq<Tok>) {
    Plain(noIn, u) && EcmaDerives(u) && Yield(u) == toks
  }

  /**
   * For every sequence of operands and operators: the grammar of ECMA-262 has a tree over the tokens the parser takes
   * exactly when every assignment is to an operand, and then one only; the parser returns a tree of that grammar exactly
   * when besides no `||` stands before a `&&` without an assignment or comma between, and no comma before another.
   */
  lemma ParsesAsEcmaExactly(noIn: bool, n: nat, toks: seq<Tok>)
    requires Alternating(noIn, toks)
    ensures var all := [Atom(n)] + toks; var r := Expression(noIn, all);
      && r.Parsed? && |r.rest| <= |all|
      && var taken := all[..|all| - |r.rest|];
         && Yield(r.tree) == taken
         && ((exists u :: EcmaTree(noIn, u, taken)) <==> AssignsToOperands(taken))
         && (forall u, v | EcmaTree(noIn, u, taken) && EcmaTree(noIn, v, taken) :: u == v)
         && (EcmaTree(noIn, r.tree, taken) <==> AssignsToOperands(taken) && !OrBeforeAnd(taken) && !TwoCommas(taken))
  {
    ParsesUniquely(noIn, n, toks);
    var all := [Atom(n)] + toks;
    var r := Expression(noIn, all);
    var e, taken := Ecma(r.tree), all[..|all| - |r.rest|];
    assert taken == Yield(r.tree);
    EcmaIsGrouped(r.tree);
    EcmaYield(noIn, r.tree);
    EcmaExactly(noIn, r.tree);
    AssignsExactly(noIn, e);
    DerivesExactly(noIn, r.tree);
    DerivesExactly(noIn, e);
    forall u | EcmaTree(noIn, u, taken) ensures u == e {
      DerivesExactly(noIn, u);
      OneTree(noIn, ECMA, u, e);
    }
    if AssignsToOperands(taken) {
      assert EcmaTree(noIn, e, taken);
    }
  }

  /** a || b && c is read as (a || b) && c. */
  lemma OrBindsFirst(a: nat, b: nat, c: nat)
    ensures Expression(false, [Atom(a), Operator(OrOr), Atom(b), Operator(AndAnd), Atom(c), End]) ==
      Parsed(Bin(AndAnd, Bin(OrOr, Leaf(a), Leaf(b)), Leaf(c)), [End])
  {
    var t := Bin(AndAnd, Bin(OrOr, Leaf(a), Leaf(b)), Leaf(c));
    var l := Bin(OrOr, Leaf(a), Leaf(b));
    assert PrintInside(Leaf(a), 13) == [Atom(a)] && PrintInside(Leaf(b), 13) == [Atom(b)];
    assert PrintInside(l, 13) == Print(l) == [Atom(a), Operator(OrOr), Atom(b)];
    assert PrintInside(Leaf(c), 13) == [Atom(c)];
    assert Print(t) + [End] == [Atom(a), Operator(OrOr), Atom(b), Operator(AndAnd), Atom(c), End];
    ReadAll(false, t, [End]);
  }

  /** a + b = c is read as (a + b) = c; ECMA-262 has no tree for it. */
  lemma SumAssigned(a: nat, b: nat, c: nat)
    ensures Expression(false, [Atom(a), Operator(Plus), Atom(b), Operator(Equal), Atom(c), End]) ==
      Parsed(Bin(Equal, Bin(Plus, Leaf(a), Leaf(b)), Leaf(c)), [End])
    ensures !exists u :: EcmaTree(false, u, [Atom(a), Operator(Plus), Atom(b), Operator(Equal), Atom(c)])
  {
    var l := Bin(Plus, Leaf(a), Leaf(b));
    var t := Bin(Equal, l, Leaf(c));
    var toks := [Atom(a), Operator(Plus), Atom(b), Operator(Equal), Atom(c)];
    PrintBin(Equal, l, Leaf(c));
    PrintBin(Plus, Leaf(a), Leaf(b));
    assert Print(t) == toks;
    assert Print(t) + [End] == [Atom(a), Operator(Plus), Atom(b), Operator(Equal), Atom(c), End];
    ReadAll(false, t, [End]);
    assert AssignsToOperation(toks, 3);
    forall u | EcmaTree(false, u, toks) ensures AssignsToOperands(toks) {
      DerivesExactly(false, u);
      AssignsExactly(false, u);
    }
  }

  lemma {:induction false} CommasDerived(a: Tree, b: Tree, c: Tree)
    requires a.Leaf? && b.Leaf? && c.Leaf?
    ensures var u := Bin(Comma, Bin(Comma, a, b), c); Plain(false, u) && EcmaDerives(u)
  {
    AssignmentFits(false, a);
    AssignmentFits(false, b);
    AssignmentFits(false, c);
    hide AssignmentExpression;
    var l := Bin(Comma, a, b);
    assert EcmaDerives(a);
    assert EcmaDerives(l);
  }

  /** a, b, c is read as a, (b, c). */
  lemma CommasToTheRight(a: nat, b: nat, c: nat)
    ensures Expression(false, [Atom(a), Operator(Comma), Atom(b), Operator(Comma), Atom(c), End]) ==
      Parsed(Bin(Comma, Leaf(a), Bin(Comma, Leaf(b), Leaf(c))), [End])
    ensures EcmaTree(false, Bin(Comma, Bin(Comma, Leaf(a), Leaf(b)), Leaf(c)),
                     [Atom(a), Operator(Comma), Atom(b), Operator(Comma), Atom(c)])
  {
    var r := Bin(Comma, Leaf(b), Leaf(c));
    var t := Bin(Comma, Leaf(a), r);
    PrintBin(Comma, Leaf(a), r);
    PrintBin(Comma, Leaf(b), Leaf(c));
    assert Print(t) + [End] == [Atom(a), Operator(Comma), Atom(b), Operator(Comma), Atom(c), End];
    ReadAll(false, t, [End]);
    var u := Bin(Comma, Bin(Comma, Leaf(a), Leaf(b)), Leaf(c));
    assert Yield(Bin(Comma, Leaf(a), Leaf(b))) == [Atom(a), Operator(Comma), Atom(b)];
    CommasDerived(Leaf(a), Leaf(b), Leaf(c));
  }
}
