/** Parsing what was printed, and the tree the parser picks among all trees with the same operands. */
module ExpressionRoundTrip {
  import opened Expressions

  /** Atoms and binary operators, `in` only where the parser accepts it. */
  predicate Plain(noIn: bool, t: Tree) {
    match t
    case Leaf(_) => true
    case Bin(op, l, r) => !(noIn && op == In) && Plain(noIn, l) && Plain(noIn, r)
    case Cond(_, _, _) => false
  }

  /** Any tree, `in` only where the parser accepts it. */
  predicate Accepts(noIn: bool, t: Tree) {
    match t
    case Leaf(_) => true
    case Bin(op, l, r) => !(noIn && op == In) && Accepts(noIn, l) && Accepts(noIn, r)
    case Cond(c, l, r) => Accepts(noIn, c) && Accepts(noIn, l) && Accepts(noIn, r)
  }

  lemma {:induction false} PlainIsAccepted(noIn: bool, t: Tree)
    requires Plain(noIn, t)
    ensures Accepts(noIn, t)
  {
    if t.Bin? {
      PlainIsAccepted(noIn, t.l);
      PlainIsAccepted(noIn, t.r);
    }
  }

  lemma {:induction false} AllAccepted(t: Tree)
    ensures Accepts(false, t)
  {
    match t
    case Leaf(_) =>
    case Bin(_, l, r) =>
      AllAccepted(l);
      AllAccepted(r);
    case Cond(c, l, r) =>
      AllAccepted(c);
      AllAccepted(l);
      AllAccepted(r);
  }

  /**
   * Trees that need no parentheses but those written around looser operators: children of the operator's own level
   * stand only on the side it associates to, a conditional is a left operand only of a comma and a right operand only
   * of an assignment or a comma, its condition is no conditional, assignment or comma, and its branches are no comma.
   */
  predicate Associated(t: Tree) {
    match t
    case Leaf(_) => true
    case Bin(op, l, r) =>
      var p := Precedence(op);
      && (if RightToLeft(p) then Level(l) != p else Level(r) != p)
      && (l.Cond? ==> p == COMMA) && (r.Cond? ==> p >= ASSIGNMENT)
      && Associated(l) && Associated(r)
    case Cond(c, l, r) =>
      && !c.Cond? && Level(c) < ASSIGNMENT && Level(l) <= ASSIGNMENT && Level(r) <= ASSIGNMENT
      && Associated(c) && Associated(l) && Associated(r)
  }

  /** The level at which the parser takes a tree in. */
  function Binds(t: Tree): nat {
    if t.Cond? then ASSIGNMENT else Level(t)
  }

  /** The parser sees an operator that the tree ending here cannot take in. */
  predicate Stops(noIn: bool, toks: seq<Tok>, level: nat) {
    Next(noIn, toks) > level || (Next(noIn, toks) == level && !RightToLeft(level))
  }

  // ---- Reading a printed tree ----

  lemma PrintAhead(t: Tree, k: seq<Tok>)
    requires t.Bin?
    ensures var p := Precedence(t.op); Print(t) + k == PrintInside(t.l, p) + ([Operator(t.op)] + PrintInside(t.r, p) + k)
  {}

  lemma CondAhead(t: Tree, k: seq<Tok>)
    requires t.Cond?
    ensures Print(t) + k == Print(t.c) + Branches(t, k)
    ensures Branches(t, k) == [Question] + (Print(t.l) + ([Colon] + (Print(t.r) + k)))
  {}

  /** What is printed behind the condition, and what follows. */
  function Branches(t: Tree, k: seq<Tok>): seq<Tok>
    requires t.Cond?
  {
    [Question] + Print(t.l) + [Colon] + Print(t.r) + k
  }

  /** Once the first operand of printed `t` is read, the climbing loop at any level that admits `t` gets
      to the point where it holds `t`. */
  lemma {:induction false} ClimbReaches(noIn: bool, t: Tree, k: seq<Tok>, outer: nat)
    requires Accepts(noIn, t) && Associated(t) && Stops(noIn, k, Binds(t)) && Binds(t) <= outer <= COMMA
    ensures var u := Unary(noIn, Print(t) + k);
      u.Parsed? && Climb(noIn, u.tree, u.rest, outer) == Climb(noIn, t, k, outer)
    decreases t, 3
  {
    match t
    case Leaf(n) =>
      assert Print(t) + k == [Atom(n)] + k;
    case Bin(_, _, _) =>
      ClimbReachesBin(noIn, t, k, outer);
    case Cond(c, l, r) =>
      CondAhead(t, k);
      ClimbReaches(noIn, c, Branches(t, k), outer);
      ClimbCond(noIn, t, k, outer);
  }

  lemma {:induction false} ClimbReachesBin(noIn: bool, t: Tree, k: seq<Tok>, outer: nat)
    requires t.Bin? && Accepts(noIn, t) && Associated(t) && Stops(noIn, k, Level(t)) && Level(t) <= outer <= COMMA
    ensures var u := Unary(noIn, Print(t) + k);
      u.Parsed? && Climb(noIn, u.tree, u.rest, outer) == Climb(noIn, t, k, outer)
    decreases t, 2
  {
    var p := Level(t);
    var k' := [Operator(t.op)] + PrintInside(t.r, p) + k;
    PrintAhead(t, k);
    if Level(t.l) > p {
      UnaryParenthesised(noIn, t.l, k');
    } else {
      ClimbReaches(noIn, t.l, k', outer);
    }
    ClimbOne(noIn, t, k, outer);
  }

  /** The same for the inner loop. */
  lemma {:induction false} TighterReaches(noIn: bool, t: Tree, k: seq<Tok>, level: nat)
    requires Accepts(noIn, t) && Associated(t) && Stops(noIn, k, Binds(t)) && level <= COMMA
    requires Binds(t) < level || (Binds(t) == level && RightToLeft(level))
    ensures var u := Unary(noIn, Print(t) + k);
      u.Parsed? && Tighter(noIn, u.tree, u.rest, level) == Tighter(noIn, t, k, level)
    decreases t, 3
  {
    match t
    case Leaf(n) =>
      assert Print(t) + k == [Atom(n)] + k;
    case Bin(_, _, _) =>
      TighterReachesBin(noIn, t, k, level);
    case Cond(c, l, r) =>
      CondAhead(t, k);
      TighterReaches(noIn, c, Branches(t, k), level);
      ClimbCond(noIn, t, k, ASSIGNMENT);
      TighterHolds(noIn, c, Branches(t, k), t, k, ASSIGNMENT, level);
  }

  lemma {:induction false} TighterReachesBin(noIn: bool, t: Tree, k: seq<Tok>, level: nat)
    requires t.Bin? && Accepts(noIn, t) && Associated(t) && Stops(noIn, k, Level(t)) && level <= COMMA
    requires Level(t) < level || (Level(t) == level && RightToLeft(level))
    ensures var u := Unary(noIn, Print(t) + k);
      u.Parsed? && Tighter(noIn, u.tree, u.rest, level) == Tighter(noIn, t, k, level)
    decreases t, 2
  {
    var p := Level(t);
    var k' := [Operator(t.op)] + PrintInside(t.r, p) + k;
    PrintAhead(t, k);
    if Level(t.l) > p {
      UnaryParenthesised(noIn, t.l, k');
    } else {
      TighterReaches(noIn, t.l, k', level);
    }
    ClimbOne(noIn, t, k, p);
    TighterHolds(noIn, t.l, k', t, k, p, level);
  }

  /** One round of the inner loop, in which the outer loop comes to hold `t`. */
  lemma TighterHolds(noIn: bool, first: Tree, toks: seq<Tok>, t: Tree, k: seq<Tok>, p: nat, level: nat)
    requires p == Next(noIn, toks) && level <= COMMA && (p < level || (p == level && RightToLeft(level)))
    requires Climb(noIn, first, toks, p) == Climb(noIn, t, k, p) && Stops(noIn, k, p) && |k| <= |toks|
    ensures Tighter(noIn, first, toks, level) == Tighter(noIn, t, k, level)
  {
    if Next(noIn, k) > p {
      assert Climb(noIn, t, k, p) == Parsed(t, k);
    } else {
      assert Next(noIn, k) == p;
    }
  }

  /** One round of the climbing loop takes in the operator of `t` and the whole of its right side. */
  lemma {:induction false} ClimbOne(noIn: bool, t: Tree, k: seq<Tok>, outer: nat)
    requires t.Bin? && Accepts(noIn, t) && Associated(t) && Stops(noIn, k, Level(t)) && Level(t) <= outer <= COMMA
    ensures Climb(noIn, t.l, [Operator(t.op)] + PrintInside(t.r, Level(t)) + k, outer) == Climb(noIn, t, k, outer)
    decreases t, 1
  {
    var p := Level(t);
    var k' := [Operator(t.op)] + PrintInside(t.r, p) + k;
    assert k'[1..] == PrintInside(t.r, p) + k;
    assert Next(noIn, k') == p;
    if Level(t.r) > p {
      UnaryParenthesised(noIn, t.r, k);
    } else {
      TighterReaches(noIn, t.r, k, p);
    }
    assert Tighter(noIn, t.r, k, p) == Parsed(t.r, k);
  }

  /** One round takes in both branches of a conditional. */
  lemma {:induction false} ClimbCond(noIn: bool, t: Tree, k: seq<Tok>, outer: nat)
    requires t.Cond? && Accepts(noIn, t) && Associated(t) && Stops(noIn, k, ASSIGNMENT) && ASSIGNMENT <= outer <= COMMA
    ensures Climb(noIn, t.c, Branches(t, k), outer) == Climb(noIn, t, k, outer)
    ensures Next(noIn, Branches(t, k)) == ASSIGNMENT
    decreases t, 1
  {
    CondAhead(t, k);
    var toks, behind := Branches(t, k), [Colon] + (Print(t.r) + k);
    assert toks[1..] == Print(t.l) + behind && behind[1..] == Print(t.r) + k;
    ReadAssignment(noIn, t.l, behind);
    ReadAssignment(noIn, t.r, k);
  }

  /** A parenthesised tree is read as one operand. */
  lemma {:induction false} UnaryParenthesised(noIn: bool, t: Tree, k: seq<Tok>)
    requires Accepts(noIn, t) && Associated(t)
    ensures Unary(noIn, [LParen] + Print(t) + [RParen] + k) == Parsed(t, k)
    decreases t, 6
  {
    var rest := [RParen] + k;
    var all := [LParen] + Print(t) + [RParen] + k;
    assert all[1..] == Print(t) + rest;
    ReadAll(noIn, t, rest);
    assert rest[1..] == k;
  }

  /** Everything but a comma before what no assignment goes on with. */
  lemma {:induction false} ReadAssignment(noIn: bool, t: Tree, rest: seq<Tok>)
    requires Accepts(noIn, t) && Associated(t) && Binds(t) <= ASSIGNMENT < Next(noIn, rest)
    ensures Assignment(noIn, Print(t) + rest) == Parsed(t, rest)
    decreases t, 4
  {
    ClimbReaches(noIn, t, rest, ASSIGNMENT);
  }

  /** A whole expression before any token that is no operator. */
  lemma {:induction false} ReadAll(noIn: bool, t: Tree, rest: seq<Tok>)
    requires Accepts(noIn, t) && Associated(t) && Next(noIn, rest) > COMMA
    ensures Expression(noIn, Print(t) + rest) == Parsed(t, rest)
    decreases t, 5
  {
    if Binds(t) <= ASSIGNMENT {
      ReadAssignment(noIn, t, rest);
    } else {
      var k' := [Operator(t.op)] + PrintInside(t.r, COMMA) + rest;
      PrintAhead(t, rest);
      assert Binds(t.l) <= ASSIGNMENT && PrintInside(t.l, COMMA) == Print(t.l) && Next(noIn, k') == COMMA;
      ReadAssignment(noIn, t.l, k');
      ClimbOne(noIn, t, rest, COMMA);
    }
  }

  // ---- Parentheses ----

  function Parens(toks: seq<Tok>): nat {
    if toks == [] then 0 else (if toks[0] == LParen then 1 else 0) + Parens(toks[1..])
  }

  /** Without parentheses an operator at level `p` behind the tree would take a part of it. */
  predicate LosesLeft(t: Tree, p: nat) {
    Binds(t) > p || (Binds(t) == p && RightToLeft(p))
  }

  predicate LosesRight(t: Tree, p: nat) {
    Binds(t) > p || (Binds(t) == p && !RightToLeft(p))
  }

  function One(yes: bool): nat {
    if yes then 1 else 0
  }

  /** The pairs of parentheses without which the tree would not be read. */
  function Needed(t: Tree): nat {
    match t
    case Leaf(_) => 0
    case Bin(op, l, r) => Needed(l) + One(LosesLeft(l, Precedence(op))) + Needed(r) + One(LosesRight(r, Precedence(op)))
    case Cond(c, l, r) =>
      Needed(c) + One(LosesLeft(c, ASSIGNMENT)) + Needed(l) + One(LosesRight(l, ASSIGNMENT)) + Needed(r) + One(LosesRight(r, ASSIGNMENT))
  }

  /** The pairs that are written. */
  function Written(t: Tree): nat {
    match t
    case Leaf(_) => 0
    case Bin(op, l, r) => Written(l) + One(Level(l) > Precedence(op)) + Written(r) + One(Level(r) > Precedence(op))
    case Cond(c, l, r) => Written(c) + Written(l) + Written(r)
  }

  lemma {:induction false} WrittenNeeded(t: Tree)
    ensures Written(t) <= Needed(t) && (Written(t) == Needed(t) <==> Associated(t))
  {
    match t
    case Leaf(_) =>
    case Bin(_, l, r) =>
      WrittenNeeded(l);
      WrittenNeeded(r);
    case Cond(c, l, r) =>
      WrittenNeeded(c);
      WrittenNeeded(l);
      WrittenNeeded(r);
  }

  lemma {:induction false} ParensConcat(a: seq<Tok>, b: seq<Tok>)
    ensures Parens(a + b) == Parens(a) + Parens(b)
  {
    if a == [] {
      assert a + b == b;
    } else {
      assert (a + b)[1..] == a[1..] + b;
      ParensConcat(a[1..], b);
    }
  }

  lemma {:induction false} PrintedParens(t: Tree)
    ensures Parens(Print(t)) == Written(t)
    decreases t, 0
  {
    match t
    case Leaf(_) =>
    case Bin(op, l, r) =>
      var p := Precedence(op);
      PrintedInside(l, p);
      PrintedInside(r, p);
      ParensConcat(PrintInside(l, p) + [Operator(op)], PrintInside(r, p));
      ParensConcat(PrintInside(l, p), [Operator(op)]);
    case Cond(c, l, r) =>
      PrintedParens(c);
      PrintedParens(l);
      PrintedParens(r);
      ParensConcat(Print(c) + [Question] + Print(l) + [Colon], Print(r));
      ParensConcat(Print(c) + [Question] + Print(l), [Colon]);
      ParensConcat(Print(c) + [Question], Print(l));
      ParensConcat(Print(c), [Question]);
  }

  lemma {:induction false} PrintedInside(t: Tree, p: nat)
    ensures Parens(PrintInside(t, p)) == Written(t) + One(Level(t) > p)
    decreases t, 1
  {
    PrintedParens(t);
    if Level(t) > p {
      ParensConcat([LParen] + Print(t), [RParen]);
      ParensConcat([LParen], Print(t));
    }
  }

  /** `have` pairs are enough for the tree, whatever operator comes next. */
  predicate Settled(noIn: bool, t: Tree, have: int, toks: seq<Tok>) {
    Accepts(noIn, t) && have >= Needed(t) + One(LosesLeft(t, Next(noIn, toks)))
  }

  /** What the parser returns, it has seen the parentheses for. */
  lemma {:induction false} UnaryParens(noIn: bool, toks: seq<Tok>)
    requires Unary(noIn, toks).Parsed?
    ensures var u := Unary(noIn, toks);
      Accepts(noIn, u.tree) && Parens(toks) - Parens(u.rest) >= Needed(u.tree) + One(!u.tree.Leaf?)
    decreases |toks|, 0
  {
    if toks[0] == LParen {
      ExpressionParens(noIn, toks[1..]);
    }
  }

  lemma {:induction false} AssignmentParens(noIn: bool, toks: seq<Tok>)
    requires Assignment(noIn, toks).Parsed?
    ensures var a := Assignment(noIn, toks); var have := Parens(toks) - Parens(a.rest);
      && Settled(noIn, a.tree, have, a.rest) && Next(noIn, a.rest) > ASSIGNMENT
      && have >= Needed(a.tree) + One(LosesRight(a.tree, ASSIGNMENT))
    decreases |toks|, 4
  {
    var u := Unary(noIn, toks);
    UnaryParens(noIn, toks);
    ClimbParens(noIn, u.tree, u.rest, ASSIGNMENT, Parens(toks) - Parens(u.rest));
  }

  lemma {:induction false} ExpressionParens(noIn: bool, toks: seq<Tok>)
    requires Expression(noIn, toks).Parsed?
    ensures var e := Expression(noIn, toks);
      Accepts(noIn, e.tree) && Parens(toks) - Parens(e.rest) >= Needed(e.tree)
    decreases |toks|, 5
  {
    var a := Assignment(noIn, toks);
    AssignmentParens(noIn, toks);
    ClimbParens(noIn, a.tree, a.rest, COMMA, Parens(toks) - Parens(a.rest));
  }

  lemma {:induction false} ClimbParens(noIn: bool, lhs: Tree, toks: seq<Tok>, outer: nat, have: int)
    requires outer <= COMMA && Settled(noIn, lhs, have, toks) && Climb(noIn, lhs, toks, outer).Parsed?
    ensures var r := Climb(noIn, lhs, toks, outer);
      && Settled(noIn, r.tree, have + Parens(toks) - Parens(r.rest), r.rest) && Next(noIn, r.rest) > outer
      && (r == Parsed(lhs, toks) || Binds(r.tree) <= outer)
    decreases |toks|, 2
  {
    var level := Next(noIn, toks);
    if level <= outer {
      var t: Tree, rest: seq<Tok>;
      if toks[0].Question? {
        t, rest := CondParens(noIn, lhs, toks, outer, have);
      } else {
        t, rest := BinParens(noIn, lhs, toks, outer, have);
      }
      ClimbParens(noIn, t, rest, outer, have + Parens(toks) - Parens(rest));
    }
  }

  /** One round of the climbing loop that takes in a conditional. */
  lemma {:induction false} CondParens(noIn: bool, lhs: Tree, toks: seq<Tok>, outer: nat, have: int)
    returns (t: Tree, rest: seq<Tok>)
    requires Next(noIn, toks) <= outer <= COMMA && toks[0].Question?
    requires Settled(noIn, lhs, have, toks) && Climb(noIn, lhs, toks, outer).Parsed?
    ensures |rest| < |toks| && Climb(noIn, lhs, toks, outer) == Climb(noIn, t, rest, outer)
    ensures Settled(noIn, t, have + Parens(toks) - Parens(rest), rest) && Binds(t) <= outer
    decreases |toks|, 1
  {
    var l := Assignment(noIn, toks[1..]);
    AssignmentParens(noIn, toks[1..]);
    var r := Assignment(noIn, l.rest[1..]);
    AssignmentParens(noIn, l.rest[1..]);
    t, rest := Cond(lhs, l.tree, r.tree), r.rest;
  }

  /** One that takes in an operator and its right side. */
  lemma {:induction false} BinParens(noIn: bool, lhs: Tree, toks: seq<Tok>, outer: nat, have: int)
    returns (t: Tree, rest: seq<Tok>)
    requires Next(noIn, toks) <= outer <= COMMA && !toks[0].Question?
    requires Settled(noIn, lhs, have, toks) && Climb(noIn, lhs, toks, outer).Parsed?
    ensures |rest| < |toks| && Climb(noIn, lhs, toks, outer) == Climb(noIn, t, rest, outer)
    ensures Settled(noIn, t, have + Parens(toks) - Parens(rest), rest) && Binds(t) <= outer
    decreases |toks|, 1
  {
    var level := Next(noIn, toks);
    var u := Unary(noIn, toks[1..]);
    UnaryParens(noIn, toks[1..]);
    var r := Tighter(noIn, u.tree, u.rest, level);
    TighterParens(noIn, u.tree, u.rest, level, Parens(toks[1..]) - Parens(u.rest));
    t, rest := Bin(toks[0].op, lhs, r.tree), r.rest;
  }

  lemma {:induction false} TighterParens(noIn: bool, rhs: Tree, toks: seq<Tok>, level: nat, have: int)
    requires level <= COMMA && Settled(noIn, rhs, have, toks) && Tighter(noIn, rhs, toks, level).Parsed?
    requires have >= Needed(rhs) + One(LosesRight(rhs, level))
    ensures var r := Tighter(noIn, rhs, toks, level); var have' := have + Parens(toks) - Parens(r.rest);
      && Settled(noIn, r.tree, have', r.rest) && Stops(noIn, r.rest, level)
      && have' >= Needed(r.tree) + One(LosesRight(r.tree, level))
    decreases |toks|, 3
  {
    var ahead := Next(noIn, toks);
    if !(ahead > level || (ahead == level && !RightToLeft(ahead))) {
      ClimbParens(noIn, rhs, toks, ahead, have);
      var r := Climb(noIn, rhs, toks, ahead);
      TighterParens(noIn, r.tree, r.rest, level, have + Parens(toks) - Parens(r.rest));
    }
  }

  /** For every tree: what is printed is read as that tree exactly when it needs no parentheses that are not written. */
  lemma ParsePrinted(noIn: bool, t: Tree)
    ensures Expression(noIn, Print(t) + [End]) == Parsed(t, [End]) <==> Accepts(noIn, t) && Associated(t)
  {
    if Accepts(noIn, t) && Associated(t) {
      ReadAll(noIn, t, [End]);
    }
    if Expression(noIn, Print(t) + [End]) == Parsed(t, [End]) {
      ExpressionParens(noIn, Print(t) + [End]);
      ParensConcat(Print(t), [End]);
      PrintedParens(t);
      WrittenNeeded(t);
    }
  }

  // ---- Trees that lose their parentheses ----

  /** `l op r` with the operators regrouped to the side `op` associates to. */
  function Attach(op: Op, l: Tree, r: Tree): (t: Tree)
    ensures Level(t) == Precedence(op)
    decreases if RightToLeft(Precedence(op)) then l else r
  {
    if RightToLeft(Precedence(op)) then
      if Level(l) == Precedence(op) then Bin(l.op, l.l, Attach(op, l.r, r)) else Bin(op, l, r)
    else
      if Level(r) == Precedence(op) then Bin(r.op, Attach(op, l, r.l), r.r) else Bin(op, l, r)
  }

  function Regroup(t: Tree): (r: Tree)
    ensures Level(r) == Level(t)
  {
    if t.Bin? then Attach(t.op, Regroup(t.l), Regroup(t.r)) else t
  }

  lemma {:induction false} AttachAssociated(noIn: bool, op: Op, l: Tree, r: Tree)
    requires Associated(l) && Associated(r) && Plain(noIn, l) && Plain(noIn, r) && !(noIn && op == In)
    ensures Associated(Attach(op, l, r)) && Plain(noIn, Attach(op, l, r))
    ensures Print(Attach(op, l, r)) == Print(Bin(op, l, r))
    decreases if RightToLeft(Precedence(op)) then l else r
  {
    var p := Precedence(op);
    if RightToLeft(p) && Level(l) == p {
      AttachAssociated(noIn, op, l.r, r);
      PrintsToRight(op, l, r, Attach(op, l.r, r));
    } else if !RightToLeft(p) && Level(r) == p {
      AttachAssociated(noIn, op, l, r.l);
      PrintsToLeft(op, l, r, Attach(op, l, r.l));
    }
  }

  lemma Joined(a: seq<Tok>, b: seq<Tok>, c: seq<Tok>, d: seq<Tok>, e: seq<Tok>)
    ensures a + b + (c + d + e) == a + b + c + d + e
  {}

  lemma PrintBin(op: Op, l: Tree, r: Tree)
    ensures Print(Bin(op, l, r)) == PrintInside(l, Precedence(op)) + [Operator(op)] + PrintInside(r, Precedence(op))
    ensures Level(l) == Precedence(op) ==> PrintInside(l, Precedence(op)) == Print(l)
    ensures Level(r) == Precedence(op) ==> PrintInside(r, Precedence(op)) == Print(r)
  {}

  /** Moving the left operand's own right part under `op` leaves the tokens alone. */
  lemma PrintsToRight(op: Op, l: Tree, r: Tree, inner: Tree)
    requires l.Bin? && Level(l) == Level(inner) == Precedence(op) && Print(inner) == Print(Bin(op, l.r, r))
    ensures Print(Bin(l.op, l.l, inner)) == Print(Bin(op, l, r))
  {
    var p := Precedence(op);
    PrintBin(l.op, l.l, inner);
    PrintBin(op, l.r, r);
    PrintBin(op, l, r);
    PrintBin(l.op, l.l, l.r);
    assert l == Bin(l.op, l.l, l.r);
    Joined(PrintInside(l.l, p), [Operator(l.op)], PrintInside(l.r, p), [Operator(op)], PrintInside(r, p));
  }

  /** Moving the right operand's own left part under `op` leaves the tokens alone. */
  lemma PrintsToLeft(op: Op, l: Tree, r: Tree, inner: Tree)
    requires r.Bin? && Level(r) == Level(inner) == Precedence(op) && Print(inner) == Print(Bin(op, l, r.l))
    ensures Print(Bin(r.op, inner, r.r)) == Print(Bin(op, l, r))
  {
    var p := Precedence(op);
    PrintBin(r.op, inner, r.r);
    PrintBin(op, l, r.l);
    PrintBin(op, l, r);
    PrintBin(r.op, r.l, r.r);
    assert r == Bin(r.op, r.l, r.r);
    Joined(PrintInside(l, p), [Operator(op)], PrintInside(r.l, p), [Operator(r.op)], PrintInside(r.r, p));
  }

  lemma {:induction false} RegroupAssociated(noIn: bool, t: Tree)
    requires Plain(noIn, t)
    ensures Associated(Regroup(t)) && Plain(noIn, Regroup(t)) && Print(Regroup(t)) == Print(t)
    ensures Regroup(t) == t <==> Associated(t)
  {
    if t.Bin? {
      RegroupAssociated(noIn, t.l);
      RegroupAssociated(noIn, t.r);
      AttachAssociated(noIn, t.op, Regroup(t.l), Regroup(t.r));
      AttachSame(t.op, Regroup(t.l), Regroup(t.r));
    }
  }

  function Size(t: Tree): nat {
    if t.Bin? then 1 + Size(t.l) + Size(t.r) else 0
  }

  /** Regrouping moves something exactly when there is an operator of the same level on the wrong side. */
  lemma AttachSame(op: Op, l: Tree, r: Tree)
    ensures Attach(op, l, r) == Bin(op, l, r) <==>
      if RightToLeft(Precedence(op)) then Level(l) != Precedence(op) else Level(r) != Precedence(op)
  {
    if RightToLeft(Precedence(op)) {
      if Level(l) == Precedence(op) { assert Size(l.l) < Size(l); }
    } else {
      if Level(r) == Precedence(op) { assert Size(r.r) < Size(r); }
    }
  }

  /** Without conditionals what is printed can always be read, as the regrouped tree. */
  lemma ParseRegrouped(noIn: bool, t: Tree)
    requires Plain(noIn, t)
    ensures Expression(noIn, Print(t) + [End]) == Parsed(Regroup(t), [End])
    ensures Regroup(t) == t <==> Associated(t)
  {
    RegroupAssociated(noIn, t);
    PlainIsAccepted(noIn, Regroup(t));
    ReadAll(noIn, Regroup(t), [End]);
  }

  /** (a ? b : c) + d is printed as a ? b : c + d and read as a ? b : (c + d). */
  lemma ConditionalRegrouped(a: nat, b: nat, c: nat, d: nat)
    ensures var t := Bin(Plus, Cond(Leaf(a), Leaf(b), Leaf(c)), Leaf(d));
      Expression(false, Print(t) + [End]) == Parsed(Cond(Leaf(a), Leaf(b), Bin(Plus, Leaf(c), Leaf(d))), [End])
  {
    var t := Bin(Plus, Cond(Leaf(a), Leaf(b), Leaf(c)), Leaf(d));
    var u := Cond(Leaf(a), Leaf(b), Bin(Plus, Leaf(c), Leaf(d)));
    PrintBin(Plus, Cond(Leaf(a), Leaf(b), Leaf(c)), Leaf(d));
    PrintBin(Plus, Leaf(c), Leaf(d));
    assert Print(t) == Print(u);
    ReadAll(false, u, [End]);
  }

  /** a ? (b, c) : d is printed as a ? b, c : d, which cannot be read. */
  lemma CommaBranchFails(a: nat, b: nat, c: nat, d: nat)
    ensures Expression(false, Print(Cond(Leaf(a), Bin(Comma, Leaf(b), Leaf(c)), Leaf(d))) + [End]) == Failed
  {
    var branch := Bin(Comma, Leaf(b), Leaf(c));
    PrintBin(Comma, Leaf(b), Leaf(c));
    var toks := Print(Cond(Leaf(a), branch, Leaf(d))) + [End];
    assert Print(branch) == [Atom(b), Operator(Comma), Atom(c)];
    assert Print(Cond(Leaf(a), branch, Leaf(d))) == Print(Leaf(a)) + [Question] + Print(branch) + [Colon] + Print(Leaf(d));
    var behind := [Operator(Comma), Atom(c), Colon, Atom(d), End];
    assert toks[0] == Atom(a) && toks[1..] == [Question, Atom(b)] + behind;
    CommaInBranch(Leaf(a), b, behind);
    assert Assignment(false, toks) == Failed;
  }

  lemma {:induction false} CommaInBranch(lhs: Tree, b: nat, behind: seq<Tok>)
    requires behind != [] && behind[0] == Operator(Comma)
    ensures Climb(false, lhs, [Question, Atom(b)] + behind, ASSIGNMENT) == Failed
  {
    var toks := [Question, Atom(b)] + behind;
    assert toks[1..] == [Atom(b)] + behind && toks[1..][1..] == behind;
    assert Assignment(false, toks[1..]) == Parsed(Leaf(b), behind);
  }

  // ---- Sequences of operands and operators ----

  /** Operands and operators from left to right, without parentheses. */
  function Yield(t: Tree): seq<Tok> {
    match t
    case Leaf(n) => [Atom(n)]
    case Bin(op, l, r) => Yield(l) + [Operator(op)] + Yield(r)
    case Cond(c, l, r) => []
  }

  /** The grouping the tables ask for: children bind tighter, and as tight only on the associative side. */
  predicate Grouped(t: Tree) {
    t.Bin? ==>
      var p := Precedence(t.op);
      && Grouped(t.l) && Grouped(t.r)
      && (if RightToLeft(p) then Level(t.l) < p && Level(t.r) <= p else Level(t.l) <= p && Level(t.r) < p)
  }

  lemma {:induction false} GroupedPrints(noIn: bool, t: Tree)
    requires Plain(noIn, t) && Grouped(t)
    ensures Associated(t) && Print(t) == Yield(t)
  {
    if t.Bin? {
      GroupedPrints(noIn, t.l);
      GroupedPrints(noIn, t.r);
    }
  }

  /** operator operand operator operand ... up to something that is no operator here. */
  predicate Alternating(noIn: bool, toks: seq<Tok>) {
    if toks != [] && toks[0].Operator? && !(noIn && toks[0].op == In) then
      |toks| >= 2 && toks[1].Atom? && Alternating(noIn, toks[2..])
    else Next(noIn, toks) > COMMA
  }

  /** What the climbing loop gives for such a sequence: everything up to level `outer`, grouped. */
  predicate Climbed(noIn: bool, lhs: Tree, toks: seq<Tok>, outer: nat, r: Parse) {
    && r.Parsed? && Alternating(noIn, r.rest) && Next(noIn, r.rest) > outer
    && Plain(noIn, r.tree) && Grouped(r.tree)
    && Yield(r.tree) + r.rest == Yield(lhs) + toks
    && (r.tree == lhs || Level(r.tree) <= outer)
  }

  lemma {:induction false} ClimbGroups(noIn: bool, lhs: Tree, toks: seq<Tok>, outer: nat)
    requires Plain(noIn, lhs) && Grouped(lhs) && Alternating(noIn, toks) && Stops(noIn, toks, Level(lhs)) && outer <= COMMA
    ensures Climbed(noIn, lhs, toks, outer, Climb(noIn, lhs, toks, outer))
    decreases |toks|, 1
  {
    var level := Next(noIn, toks);
    if level <= outer {
      hide Grouped, Plain, Yield;
      assert toks[1..][1..] == toks[2..];
      var u := Unary(noIn, toks[1..]);
      assert u == Parsed(Leaf(toks[1].n), toks[2..]);
      LeafGrouped(noIn, toks[1].n);
      TighterGroups(noIn, u.tree, u.rest, level);
      var r := Tighter(noIn, u.tree, u.rest, level);
      var t := Bin(toks[0].op, lhs, r.tree);
      BinGrouped(noIn, toks, lhs, r.tree, r.rest);
      ClimbGroups(noIn, t, r.rest, outer);
    }
  }

  lemma LeafGrouped(noIn: bool, n: nat)
    ensures Plain(noIn, Leaf(n)) && Grouped(Leaf(n)) && Yield(Leaf(n)) == [Atom(n)]
  {
  }

  lemma BinGrouped(noIn: bool, toks: seq<Tok>, l: Tree, r: Tree, rest: seq<Tok>)
    requires |toks| >= 2 && toks[0].Operator? && !(noIn && toks[0].op == In)
    requires Plain(noIn, l) && Plain(noIn, r) && Grouped(l) && Grouped(r)
    requires Yield(r) + rest == [toks[1]] + toks[2..]
    requires var p := Precedence(toks[0].op);
      if RightToLeft(p) then Level(l) < p && Level(r) <= p else Level(l) <= p && Level(r) < p
    ensures var t := Bin(toks[0].op, l, r);
      Plain(noIn, t) && Grouped(t) && Yield(t) + rest == Yield(l) + toks
  {
    var t := Bin(toks[0].op, l, r);
    assert Yield(t) + rest == Yield(l) + ([toks[0]] + (Yield(r) + rest));
    assert [toks[0]] + ([toks[1]] + toks[2..]) == toks;
  }

  lemma {:induction false} TighterGroups(noIn: bool, rhs: Tree, toks: seq<Tok>, level: nat)
    requires Plain(noIn, rhs) && Grouped(rhs) && Alternating(noIn, toks) && Level(rhs) < Next(noIn, toks) && level <= COMMA
    requires Level(rhs) < level || (Level(rhs) == level && RightToLeft(level))
    ensures var r := Tighter(noIn, rhs, toks, level);
      && r.Parsed? && |r.rest| <= |toks| && Alternating(noIn, r.rest) && Stops(noIn, r.rest, level)
      && Plain(noIn, r.tree) && Grouped(r.tree) && Yield(r.tree) + r.rest == Yield(rhs) + toks
      && (Level(r.tree) < level || (Level(r.tree) == level && RightToLeft(level)))
    decreases |toks|, 2
  {
    var ahead := Next(noIn, toks);
    if !(ahead > level || (ahead == level && !RightToLeft(ahead))) {
      ClimbGroups(noIn, rhs, toks, ahead);
      var r := Climb(noIn, rhs, toks, ahead);
      assert r.tree != rhs;
      TighterGroups(noIn, r.tree, r.rest, level);
    }
  }

  lemma {:induction false} GroupedIsRead(noIn: bool, t: Tree, rest: seq<Tok>)
    requires Plain(noIn, t) && Grouped(t) && Next(noIn, rest) > COMMA
    ensures Expression(noIn, Yield(t) + rest) == Parsed(t, rest)
  {
    GroupedPrints(noIn, t);
    PlainIsAccepted(noIn, t);
    ReadAll(noIn, t, rest);
  }

  /** For every sequence of operands and operators the parser consumes all of it and returns the one
      grouped tree over it. */
  lemma ParsesUniquely(noIn: bool, n: nat, toks: seq<Tok>)
    requires Alternating(noIn, toks)
    ensures var r := Expression(noIn, [Atom(n)] + toks);
      && r.Parsed? && Next(noIn, r.rest) > COMMA
      && Plain(noIn, r.tree) && Grouped(r.tree) && Yield(r.tree) + r.rest == [Atom(n)] + toks
      && forall t | Plain(noIn, t) && Grouped(t) && Yield(t) + r.rest == [Atom(n)] + toks :: t == r.tree
  {
    var all := [Atom(n)] + toks;
    assert all[1..] == toks;
    ClimbGroups(noIn, Leaf(n), toks, ASSIGNMENT);
    var a := Climb(noIn, Leaf(n), toks, ASSIGNMENT);
    ClimbGroups(noIn, a.tree, a.rest, COMMA);
    var r := Climb(noIn, a.tree, a.rest, COMMA);
    assert Unary(noIn, all) == Parsed(Leaf(n), toks);
    assert Assignment(noIn, all) == a;
    forall t | Plain(noIn, t) && Grouped(t) && Yield(t) + r.rest == all
      ensures t == r.tree
    {
      GroupedIsRead(noIn, t, r.rest);
    }
  }
}
