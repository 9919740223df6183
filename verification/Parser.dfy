/** The expression parser as the program runs it: a token cursor and two nested loops. */
module Parser {
  import opened Expressions

  class Cursor {
    const noIn: bool
    var toks: seq<Tok>  // from the current token on

    constructor (noIn: bool, toks: seq<Tok>)
      ensures this.noIn == noIn && this.toks == toks
    {
      this.noIn, this.toks := noIn, toks;
    }

    /** `result` is what a parse from the old position gives, and the cursor is where it stops. */
    twostate predicate Follows(ok: bool, t: Tree, result: Parse)
      reads this
    {
      if ok then result == Parsed(t, toks) else result == Failed
    }

    method ParseUnary() returns (ok: bool, t: Tree)
      modifies this
      ensures Follows(ok, t, Unary(noIn, old(toks)))
      decreases |toks|, 0
    {
      ok, t := false, Leaf(0);
      if toks == [] {
        return;
      }
      var tok := toks[0];
      match tok
      case Atom(n) =>
        toks := toks[1..];
        return true, Leaf(n);
      case LParen =>
        toks := toks[1..];
        ok, t := ParseExpression();
        if !ok || toks == [] || toks[0] != RParen {
          return false, t;
        }
        toks := toks[1..];
      case _ =>
    }

    method ParseAssignment() returns (ok: bool, t: Tree)
      modifies this
      ensures Follows(ok, t, Assignment(noIn, old(toks)))
      decreases |toks|, 3
    {
      ok, t := ParseUnary();
      if ok {
        ok, t := ParseExpression1(t, ASSIGNMENT);
      }
    }

    method ParseExpression() returns (ok: bool, t: Tree)
      modifies this
      ensures Follows(ok, t, Expression(noIn, old(toks)))
      decreases |toks|, 4
    {
      ok, t := ParseAssignment();
      if ok {
        ok, t := ParseExpression1(t, COMMA);
      }
    }

    method ParseExpression1(first: Tree, outer: nat) returns (ok: bool, lhs: Tree)
      requires outer <= COMMA
      modifies this
      ensures Follows(ok, lhs, Climb(noIn, first, old(toks), outer))
      decreases |toks|, 1
    {
      lhs := first;
      while true
        invariant |toks| <= |old(toks)|
        invariant Climb(noIn, lhs, toks, outer) == Climb(noIn, first, old(toks), outer)
        decreases |toks|
      {
        var level := Next(noIn, toks);
        if level > outer {
          return true, lhs;
        }
        var tok := toks[0];
        toks := toks[1..];
        if tok.Question? {
          var l, r;
          ok, l := ParseAssignment();
          if !ok || toks == [] || toks[0] != Colon {
            return false, lhs;
          }
          toks := toks[1..];
          ok, r := ParseAssignment();
          if !ok {
            return false, lhs;
          }
          lhs := Cond(lhs, l, r);
          continue;
        }
        var rhs;
        ok, rhs := ParseUnary();
        if !ok {
          return false, lhs;
        }
        ghost var rhs0, toks0 := rhs, toks;
        while true
          invariant |toks| <= |toks0|
          invariant Tighter(noIn, rhs, toks, level) == Tighter(noIn, rhs0, toks0, level)
          decreases |toks|
        {
          var ahead := Next(noIn, toks);
          if ahead > level || (ahead == level && !RightToLeft(ahead)) {
            break;
          }
          ok, rhs := ParseExpression1(rhs, ahead);
          if !ok {
            return false, lhs;
          }
        }
        lhs := Bin(tok.op, lhs, rhs);
      }
    }
  }
}
