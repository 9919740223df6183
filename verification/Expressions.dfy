/** Binary expressions: the precedence table, the printer, and precedence climbing as functions on
    token sequences. */
module Expressions {

  datatype Op =
    | Multiply | Divide | Mod | Plus | Minus | LShift | RShift | RShiftShift
    | Lt | LtEqual | Gt | GtEqual | In | InstanceOf
    | EqualEqual | EqualEqualEqual | NotEqual | NotEqualEqual
    | And | Xor | Or | AndAnd | OrOr
    | Equal | PlusEqual | MinusEqual | MultiplyEqual | DivideEqual | ModEqual
    | LShiftEqual | RShiftEqual | RShiftShiftEqual | AndEqual | OrEqual | XorEqual
    | Comma

  const ASSIGNMENT: nat := 15
  const COMMA: nat := 16

  function Precedence(op: Op): (p: nat)
    ensures 5 <= p <= COMMA
  {
    match op
    case Multiply | Divide | Mod => 5
    case Plus | Minus => 6
    case LShift | RShift | RShiftShift => 7
    case Lt | LtEqual | Gt | GtEqual | In | InstanceOf => 8
    case EqualEqual | EqualEqualEqual | NotEqual | NotEqualEqual => 9
    case And => 10
    case Xor => 11
    case Or => 12
    case AndAnd | OrOr => 13
    case Comma => COMMA
    case _ => ASSIGNMENT
  }

  /** Operators of one level associate the same way. */
  predicate RightToLeft(level: nat) {
    level >= ASSIGNMENT
  }

  /** Atoms stand for everything that is no binary or conditional expression. */
  datatype Tree = Leaf(n: nat) | Bin(op: Op, l: Tree, r: Tree) | Cond(c: Tree, l: Tree, r: Tree)

  datatype Tok = Atom(n: nat) | LParen | RParen | Question | Colon | Operator(op: Op) | End

  /** What print_with_parentheses compares. */
  function Level(t: Tree): nat {
    if t.Bin? then Precedence(t.op) else 0
  }

  // ---- Printer ----

  function Print(t: Tree): seq<Tok>
    decreases t, 0
  {
    match t
    case Leaf(n) => [Atom(n)]
    case Bin(op, l, r) => PrintInside(l, Precedence(op)) + [Operator(op)] + PrintInside(r, Precedence(op))
    case Cond(c, l, r) => Print(c) + [Question] + Print(l) + [Colon] + Print(r)
  }

  function PrintInside(t: Tree, outer: nat): seq<Tok>
    decreases t, 1
  {
    if Level(t) > outer then [LParen] + Print(t) + [RParen] else Print(t)
  }

  // ---- Parser ----

  datatype Parse = Parsed(tree: Tree, rest: seq<Tok>) | Failed

  /** The precedence the parser sees next; `noIn` is set in the head of a for statement. */
  function Next(noIn: bool, toks: seq<Tok>): nat {
    if toks == [] then COMMA + 1 else
    match toks[0]
    case Operator(op) => if noIn && op == In then 100 else Precedence(op)
    case Question => ASSIGNMENT
    case _ => COMMA + 1
  }

  function Unary(noIn: bool, toks: seq<Tok>): (r: Parse)
    ensures r.Parsed? ==> |r.rest| < |toks|
    decreases |toks|, 0
  {
    if toks == [] then Failed else
    match toks[0]
    case Atom(n) => Parsed(Leaf(n), toks[1..])
    case LParen =>
      var e := Expression(noIn, toks[1..]);
      if e.Failed? || e.rest == [] || e.rest[0] != RParen then Failed else Parsed(e.tree, e.rest[1..])
    case _ => Failed
  }

  function Assignment(noIn: bool, toks: seq<Tok>): (r: Parse)
    ensures r.Parsed? ==> |r.rest| < |toks|
    decreases |toks|, 3
  {
    var u := Unary(noIn, toks);
    if u.Failed? then Failed else Climb(noIn, u.tree, u.rest, ASSIGNMENT)
  }

  function Expression(noIn: bool, toks: seq<Tok>): (r: Parse)
    ensures r.Parsed? ==> |r.rest| < |toks|
    decreases |toks|, 4
  {
    var a := Assignment(noIn, toks);
    if a.Failed? then Failed else Climb(noIn, a.tree, a.rest, COMMA)
  }

  /** parse_expression1: operators up to level `outer` are taken into `lhs`. */
  function Climb(noIn: bool, lhs: Tree, toks: seq<Tok>, outer: nat): (r: Parse)
    requires outer <= COMMA
    ensures r.Parsed? ==> |r.rest| <= |toks| && (Next(noIn, toks) <= outer ==> |r.rest| < |toks|)
    decreases |toks|, 1
  {
    var level := Next(noIn, toks);
    if level > outer then Parsed(lhs, toks)
    else if toks[0].Question? then
      var l := Assignment(noIn, toks[1..]);
      if l.Failed? || l.rest == [] || l.rest[0] != Colon then Failed else
      var r := Assignment(noIn, l.rest[1..]);
      if r.Failed? then Failed else Climb(noIn, Cond(lhs, l.tree, r.tree), r.rest, outer)
    else
      var u := Unary(noIn, toks[1..]);
      if u.Failed? then Failed else
      var r := Tighter(noIn, u.tree, u.rest, level);
      if r.Failed? then Failed else Climb(noIn, Bin(toks[0].op, lhs, r.tree), r.rest, outer)
  }

  /** Its inner loop: operators that bind tighter than `level` are taken into `rhs` first. */
  function Tighter(noIn: bool, rhs: Tree, toks: seq<Tok>, level: nat): (r: Parse)
    requires level <= COMMA
    ensures r.Parsed? ==> |r.rest| <= |toks|
    decreases |toks|, 2
  {
    var ahead := Next(noIn, toks);
    if ahead > level || (ahead == level && !RightToLeft(ahead)) then Parsed(rhs, toks) else
    var r := Climb(noIn, rhs, toks, ahead);
    if r.Failed? then Failed else Tighter(noIn, r.tree, r.rest, level)
  }
}
