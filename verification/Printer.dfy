/** The expression printer as the program runs it: a visitor that appends to its output. */
module Printer {
  import opened Expressions
  import opened ExpressionRoundTrip

  class PrintVisitor {
    var os: seq<Tok>

    constructor ()
      ensures os == []
    {
      os := [];
    }

    method Visit(t: Tree)
      modifies this
      ensures os == old(os) + Print(t)
      decreases t, 0
    {
      match t
      case Leaf(n) =>
        os := os + [Atom(n)];
      case Bin(op, l, r) =>
        var precedence := Precedence(op);
        PrintWithParentheses(l, precedence);
        os := os + [Operator(op)];
        PrintWithParentheses(r, precedence);
        Appended(old(os), PrintInside(l, precedence), [Operator(op)], PrintInside(r, precedence));
      case Cond(c, l, r) =>
        Visit(c);
        os := os + [Question];
        Visit(l);
        os := os + [Colon];
        Visit(r);
        Appended(old(os), Print(c), [Question], Print(l));
        Appended(old(os), Print(c) + [Question] + Print(l), [Colon], Print(r));
    }

    method PrintWithParentheses(t: Tree, outer: nat)
      modifies this
      ensures os == old(os) + PrintInside(t, outer)
      decreases t, 1
    {
      var inner := Level(t);
      if inner > outer {
        os := os + [LParen];
      }
      Visit(t);
      if inner > outer {
        os := os + [RParen];
      }
    }
  }

  lemma Appended(a: seq<Tok>, b: seq<Tok>, c: seq<Tok>, d: seq<Tok>)
    ensures a + b + c + d == a + (b + c + d)
  {}

  /** Printing an expression; reading the tokens gives it back exactly when the printer could tell where parentheses go. */
  method PrintExpression(t: Tree) returns (toks: seq<Tok>)
    ensures toks == Print(t)
    ensures Expression(false, toks + [End]) == Parsed(t, [End]) <==> Associated(t)
  {
    var v := new PrintVisitor();
    v.Visit(t);
    toks := v.os;
    ParsePrinted(false, t);
    AllAccepted(t);
  }
}
