/** The statement evaluator as the program runs it: the labels of a loop are left in two fields by the
    labelled statements around it and picked up when the loop is entered. */
module Interpreter {
  import opened Wrappers
  import opened Statements
  import Completions
  import Labels
  import StatementSemantics

  /** A statement object and the labels that directly enclose it. */
  datatype Entry = Entry(id: nat, labels: seq<Label>)

  function Entries(s: Stmt, labels: seq<Label>): seq<Entry>
    decreases s, 1
  {
    [Entry(s.id, labels)] +
    match s
    case Block(_, body) => ListEntries(body)
    case If(_, thn, els) => Entries(thn, []) + OptionEntries(els)
    case DoWhile(_, body) => Entries(body, [])
    case While(_, body) => Entries(body, [])
    case For(_, init, _, _, body) => OptionEntries(init) + Entries(body, [])
    case ForIn(_, _, _, body) => Entries(body, [])
    case With(_, body) => Entries(body, [])
    case Labelled(_, name, body) => Entries(body, labels + [name])
    case Switch(_, clauses) => ClauseEntries(clauses)
    case Try(_, block, handler, finalizer) => Entries(block, []) + OptionEntries(handler) + OptionEntries(finalizer)
    case _ => []
  }

  function OptionEntries(o: Option<Stmt>): seq<Entry>
    decreases o, 0
  {
    if o.None? then [] else Entries(o.value, [])
  }

  function ListEntries(l: seq<Stmt>): seq<Entry>
    decreases l, 0
  {
    if l == [] then [] else Entries(l[0], []) + ListEntries(l[1..])
  }

  function ClauseEntries(clauses: seq<Clause>): seq<Entry>
    decreases clauses, 0
  {
    if clauses == [] then [] else ListEntries(clauses[0].body) + ClauseEntries(clauses[1..])
  }

  type Chains = map<nat, seq<Label>>

  ghost predicate Agree(es: seq<Entry>, chains: Chains) {
    forall e | e in es :: e.id in chains && chains[e.id] == e.labels
  }

  /** `chains` gives the labels directly enclosing each statement of `s`. */
  ghost predicate Placed(s: Stmt, labels: seq<Label>, chains: Chains) {
    Agree(Entries(s, labels), chains)
  }

  lemma AgreeSplit(a: seq<Entry>, b: seq<Entry>, chains: Chains)
    requires Agree(a + b, chains)
    ensures Agree(a, chains) && Agree(b, chains)
  {
    assert forall e | e in a :: e in a + b;
    assert forall e | e in b :: e in a + b;
  }

  ghost predicate ChildrenPlaced(s: Stmt, labels: seq<Label>, chains: Chains) {
    match s
    case Block(_, body) => Agree(ListEntries(body), chains)
    case If(_, thn, els) => Placed(thn, [], chains) && (els.Some? ==> Placed(els.value, [], chains))
    case DoWhile(_, body) => Placed(body, [], chains)
    case While(_, body) => Placed(body, [], chains)
    case For(_, init, _, _, body) => (init.Some? ==> Placed(init.value, [], chains)) && Placed(body, [], chains)
    case ForIn(_, _, _, body) => Placed(body, [], chains)
    case With(_, body) => Placed(body, [], chains)
    case Labelled(_, name, body) => Placed(body, labels + [name], chains)
    case Switch(_, clauses) => Agree(ClauseEntries(clauses), chains)
    case Try(_, block, handler, finalizer) =>
      && Placed(block, [], chains)
      && (handler.Some? ==> Placed(handler.value, [], chains)) && (finalizer.Some? ==> Placed(finalizer.value, [], chains))
    case _ => true
  }

  lemma PlacedParts(s: Stmt, labels: seq<Label>, chains: Chains)
    requires Placed(s, labels, chains)
    ensures s.id in chains && chains[s.id] == labels && ChildrenPlaced(s, labels, chains)
  {
    assert Entry(s.id, labels) in Entries(s, labels);
    var rest := Entries(s, labels)[1..];
    assert Entries(s, labels) == [Entry(s.id, labels)] + rest;
    AgreeSplit([Entry(s.id, labels)], rest, chains);
    match s
    case If(_, thn, els) => AgreeSplit(Entries(thn, []), OptionEntries(els), chains);
    case For(_, init, _, _, body) => AgreeSplit(OptionEntries(init), Entries(body, []), chains);
    case Try(_, block, handler, finalizer) =>
      AgreeSplit(Entries(block, []) + OptionEntries(handler), OptionEntries(finalizer), chains);
      AgreeSplit(Entries(block, []), OptionEntries(handler), chains);
    case _ =>
  }

  lemma ListParts(l: seq<Stmt>, chains: Chains)
    requires Agree(ListEntries(l), chains) && l != []
    ensures Placed(l[0], [], chains) && Agree(ListEntries(l[1..]), chains)
  {
    AgreeSplit(Entries(l[0], []), ListEntries(l[1..]), chains);
  }

  // ---- Statement objects are distinct, so there is such a map ----

  function ProgramEntries(p: Program): seq<Entry> {
    ListEntries(p)
  }

  function ChainsOf(es: seq<Entry>): Chains {
    if es == [] then map[] else ChainsOf(es[1..])[es[0].id := es[0].labels]
  }

  predicate Distinct(es: seq<Entry>) {
    forall i, j | 0 <= i < j < |es| :: es[i].id != es[j].id
  }

  lemma {:induction false} ChainsAgree(es: seq<Entry>)
    requires Distinct(es)
    ensures Agree(es, ChainsOf(es)) && forall k | k in ChainsOf(es) :: exists e | e in es :: e.id == k
  {
    if es != [] {
      ChainsAgree(es[1..]);
      assert es == [es[0]] + es[1..];
    }
  }

  lemma {:induction false} BodiesPlaced(p: Program, chains: Chains)
    requires Agree(ListEntries(p), chains)
    ensures forall f | 0 <= f < |p| :: Placed(p[f], [], chains)
  {
    if p != [] {
      ListParts(p, chains);
      BodiesPlaced(p[1..], chains);
      forall f | 0 <= f < |p|
        ensures Placed(p[f], [], chains)
      {
        if f > 0 { assert p[f] == p[1..][f - 1]; }
      }
    }
  }

  /** If no two statement objects are the same there are chains every function body agrees with. */
  lemma StaticChains(p: Program)
    requires Distinct(ProgramEntries(p))
    ensures forall f | 0 <= f < |p| :: Placed(p[f], [], ChainsOf(ProgramEntries(p)))
  {
    ChainsAgree(ProgramEntries(p));
    BodiesPlaced(p, ChainsOf(ProgramEntries(p)));
  }

  class Evaluator {
    const program: Program
    ghost const chains: Chains
    var labelSet: seq<Label>
    var labelsValidFor: Option<nat>
    var script: seq<Choice>
    var leaks: nat
    ghost var asked: seq<Entry>  // every answer get_labels has given

    ghost predicate Inv()
      reads this
    {
      && (forall f | 0 <= f < |program| :: Placed(program[f], [], chains))
      && (labelsValidFor.Some? ==> labelsValidFor.value in chains && chains[labelsValidFor.value] != [])
      && Agree(asked, chains)
    }

    /** Execution is about to enter `s`, which `labels` directly enclose. */
    ghost predicate Entered(s: Stmt, labels: seq<Label>)
      reads this
    {
      Inv() && Placed(s, labels, chains) && (labels != [] ==> labelsValidFor == Some(s.id) && labelSet == labels)
    }

    function Now(): World
      reads this
    {
      World(script, leaks)
    }

    constructor (program: Program, script: seq<Choice>)
      requires Distinct(ProgramEntries(program))
      ensures Inv() && this.program == program && Now() == World(script, 0)
      ensures chains == ChainsOf(ProgramEntries(program)) && asked == []
    {
      this.program := program;
      this.script := script;
      chains := ChainsOf(ProgramEntries(program));
      labelSet, labelsValidFor, leaks, asked := [], None, 0, [];
      StaticChains(program);
    }

    /** The labels left for `s`, if they were left for it. */
    method GetLabels(s: Stmt, ghost labels: seq<Label>) returns (ls: seq<Label>)
      requires Entered(s, labels)
      modifies this
      ensures ls == labels && Inv() && Now() == old(Now())
      ensures asked == old(asked) + [Entry(s.id, ls)]
    {
      PlacedParts(s, labels, chains);
      if labelsValidFor == Some(s.id) {
        ls := labelSet;
        labelSet := [];
      } else {
        ls := [];
        labelSet := [];
      }
      labelsValidFor := None;
      asked := asked + [Entry(s.id, ls)];
    }

    method EvalExpression(fuel: nat) returns (o: Outcome<ExprResult>)
      requires Inv()
      modifies this
      ensures Inv() && (o, Now()) == Eval(program, old(Now()), fuel)
      decreases fuel, 0, 0
    {
      if fuel == 0 || script == [] {
        return Stopped;
      }
      var choice := script[0];
      script := script[1..];
      match choice
      case Value(v) => o := Done(Val(v));
      case Raise(v) => o := Done(Raised(v));
      case Call(f) =>
        if f >= |program| {
          return Done(Raised(UNDEFINED));
        }
        var r := CallFunction(f, fuel - 1);
        if r.Stopped? || r.value.Raised? {
          return r;
        }
        o := EvalExpression(fuel - 1);
    }

    /** top_level_eval on a function body: a break or continue is an error there. */
    method CallFunction(f: nat, fuel: nat) returns (o: Outcome<ExprResult>)
      requires Inv() && f < |program|
      modifies this
      ensures Inv()
      ensures var (c, w) := Exec(program, program[f], [], old(Now()), fuel);
        if c.Stopped? then (o, Now()) == (Stopped, w) else (o, Now()) == (Done(CallResult(c.value)), Leak(w, c.value))
      decreases fuel, 2, 0
    {
      var c := ExecStatement(program[f], fuel, []);
      if c.Stopped? {
        return Stopped;
      }
      match c.value.kind
      case ThrowC => o := Done(Raised(c.value.result));
      case ReturnC => o := Done(Val(c.value.result));
      case NormalC => o := Done(Val(UNDEFINED));
      case _ =>
        leaks := leaks + 1;
        o := Done(Raised(ABRUPT_TERMINATION));
    }

    /** Every statement ends as it would if its labels had been passed to it. */
    method ExecStatement(s: Stmt, fuel: nat, ghost labels: seq<Label>) returns (o: Outcome<Completion>)
      requires Entered(s, labels)
      modifies this
      ensures Inv() && (o, Now()) == Exec(program, s, labels, old(Now()), fuel)
      decreases fuel, 1, s, 1
    {
      hide Placed, Agree, Entries;
      PlacedParts(s, labels, chains);
      match s
      case Block(_, body) => o := ExecFrom(body, NORMAL, fuel);
      case Empty(_) => o := Done(NORMAL);
      case Expression(_) =>
        var v := EvalExpression(fuel);
        o := match v
          case Stopped => Stopped
          case Done(Raised(e)) => Done(Thrown(e))
          case Done(Val(r)) => Done(Completion(NormalC, r, ""));
      case If(_, thn, els) =>
        var v := EvalExpression(fuel);
        match v {
          case Stopped => o := Stopped;
          case Done(Raised(e)) => o := Done(Thrown(e));
          case Done(Val(r)) =>
            if r != 0 {
              o := ExecStatement(thn, fuel, []);
            } else if els.Some? {
              o := ExecStatement(els.value, fuel, []);
            } else {
              o := Done(NORMAL);
            }
        }
      case DoWhile(_, _) => o := ExecDo(s, fuel, labels);
      case While(_, _) => o := ExecWhile(s, fuel, labels);
      case For(_, _, _, _, _) => o := ExecFor(s, fuel, labels);
      case ForIn(_, _, _, _) => o := ExecForIn(s, fuel, labels);
      case Continue(_, target) => o := Done(Completion(ContinueC, UNDEFINED, target));
      case Break(_, target) => o := Done(Completion(BreakC, UNDEFINED, target));
      case Return(_, hasValue) =>
        if !hasValue {
          return Done(Completion(ReturnC, UNDEFINED, ""));
        }
        var v := EvalExpression(fuel);
        o := match v
          case Stopped => Stopped
          case Done(Raised(e)) => Done(Thrown(e))
          case Done(Val(r)) => Done(Completion(ReturnC, r, ""));
      case With(_, body) =>
        var v := EvalExpression(fuel);
        match v {
          case Stopped => o := Stopped;
          case Done(Raised(e)) => o := Done(Thrown(e));
          case Done(Val(_)) => o := ExecStatement(body, fuel, []);
        }
      case Labelled(_, name, body) => o := ExecLabelled(s, fuel, labels);
      case Switch(_, _) => o := ExecSwitch(s, fuel, labels);
      case Throw(_) =>
        var v := EvalExpression(fuel);
        o := match v
          case Stopped => Stopped
          case Done(r) => Done(Thrown(r.v));
      case Try(_, _, _, _) => o := ExecTry(s, fuel);
    }

    method ExecFrom(body: seq<Stmt>, last: Completion, fuel: nat) returns (o: Outcome<Completion>)
      requires Inv() && Agree(ListEntries(body), chains)
      modifies this
      ensures Inv() && (o, Now()) == ExecList(program, body, last, old(Now()), fuel)
      decreases fuel, 1, body, 0
    {
      o := Done(last);
      var i := 0;
      assert body[0..] == body;
      while i < |body|
        invariant 0 <= i <= |body| && Inv() && o.Done?
        invariant Agree(ListEntries(body[i..]), chains)
        invariant ExecList(program, body[i..], o.value, Now(), fuel) == ExecList(program, body, last, old(Now()), fuel)
      {
        assert body[i..][1..] == body[i + 1..];
        ListParts(body[i..], chains);
        o := ExecStatement(body[i], fuel, []);
        if o.Stopped? || o.value.Abrupt() {
          return;
        }
        i := i + 1;
      }
    }

    method ExecLabelled(s: Stmt, fuel: nat, ghost labels: seq<Label>) returns (o: Outcome<Completion>)
      requires Entered(s, labels) && s.Labelled?
      modifies this
      ensures Inv() && (o, Now()) == Exec(program, s, labels, old(Now()), fuel)
      decreases fuel, 1, s, 0
    {
      PlacedParts(s, labels, chains);
      if labelsValidFor != Some(s.id) {
        labelSet := [];
      }
      if s.name in labelSet {
        return Done(Thrown(DUPLICATE_LABEL));
      }
      labelSet := labelSet + [s.name];
      labelsValidFor := Some(s.s.id);
      PlacedParts(s.s, labels + [s.name], chains);
      o := ExecStatement(s.s, fuel, labels + [s.name]);
    }

    method ExecDo(s: Stmt, fuel: nat, ghost labels: seq<Label>) returns (o: Outcome<Completion>)
      requires Entered(s, labels) && s.DoWhile?
      modifies this
      ensures Inv() && (o, Now()) == LoopDo(program, s, labels, old(Now()), fuel)
      decreases fuel, 1, s, 0
    {
      hide Placed, Agree, Entries;
      PlacedParts(s, labels, chains);
      var ls := GetLabels(s, labels);
      var left: nat := fuel;
      while left > 0
        invariant left <= fuel && Inv() && LoopDo(program, s, labels, Now(), left) == LoopDo(program, s, labels, old(Now()), fuel)
        decreases left
      {
        o := ExecStatement(s.s, left - 1, []);
        if o.Stopped? {
          return;
        }
        var (c, leave) := Handle(o.value, ls);
        if leave {
          return Done(c);
        }
        var v := EvalExpression(left - 1);
        match v {
          case Stopped => return Stopped;
          case Done(Raised(e)) => return Done(Thrown(e));
          case Done(Val(r)) =>
            if r == 0 {
              return Done(c);
            }
        }
        left := left - 1;
      }
      o := Stopped;
    }

    method ExecWhile(s: Stmt, fuel: nat, ghost labels: seq<Label>) returns (o: Outcome<Completion>)
      requires Entered(s, labels) && s.While?
      modifies this
      ensures Inv() && (o, Now()) == LoopWhile(program, s, labels, old(Now()), fuel)
      decreases fuel, 1, s, 0
    {
      hide Placed, Agree, Entries;
      PlacedParts(s, labels, chains);
      var ls := GetLabels(s, labels);
      var left: nat := fuel;
      while left > 0
        invariant left <= fuel && Inv() && LoopWhile(program, s, labels, Now(), left) == LoopWhile(program, s, labels, old(Now()), fuel)
        decreases left
      {
        var v := EvalExpression(left - 1);
        match v {
          case Stopped => return Stopped;
          case Done(Raised(e)) => return Done(Thrown(e));
          case Done(Val(r)) =>
            if r == 0 {
              return Done(NORMAL);
            }
        }
        o := ExecStatement(s.s, left - 1, []);
        if o.Stopped? {
          return;
        }
        var (c, leave) := Handle(o.value, ls);
        if leave {
          return Done(c);
        }
        left := left - 1;
      }
      o := Stopped;
    }

    method ExecFor(s: Stmt, fuel: nat, ghost labels: seq<Label>) returns (o: Outcome<Completion>)
      requires Entered(s, labels) && s.For?
      modifies this
      ensures Inv() && (o, Now()) == Exec(program, s, labels, old(Now()), fuel)
      decreases fuel, 1, s, 0
    {
      hide Placed, Agree, Entries;
      PlacedParts(s, labels, chains);
      var ls := GetLabels(s, labels);
      if s.init.Some? {
        o := ExecStatement(s.init.value, fuel, []);
        if o.Stopped? {
          return;
        }
      }
      ghost var w0 := Now();
      var c := NORMAL;
      var left: nat := fuel;
      while left > 0
        invariant left <= fuel && Inv() && LoopFor(program, s, labels, c, Now(), left) == LoopFor(program, s, labels, NORMAL, w0, fuel)
        decreases left
      {
        if s.hasCond {
          var v := EvalExpression(left - 1);
          match v {
            case Stopped => return Stopped;
            case Done(Raised(e)) => return Done(Thrown(e));
            case Done(Val(r)) =>
              if r == 0 {
                return Done(c);
              }
          }
        }
        o := ExecStatement(s.s, left - 1, []);
        if o.Stopped? {
          return;
        }
        var (handled, leave) := Handle(o.value, ls);
        c := handled;
        if leave {
          return Done(c);
        }
        if s.hasIter {
          var v := EvalExpression(left - 1);
          match v {
            case Stopped => return Stopped;
            case Done(Raised(e)) => return Done(Thrown(e));
            case Done(Val(_)) =>
          }
        }
        left := left - 1;
      }
      o := Stopped;
    }

    method ExecForIn(s: Stmt, fuel: nat, ghost labels: seq<Label>) returns (o: Outcome<Completion>)
      requires Entered(s, labels) && s.ForIn?
      modifies this
      ensures Inv() && (o, Now()) == Exec(program, s, labels, old(Now()), fuel)
      decreases fuel, 1, s, 0, 1
    {
      hide Placed, Agree, Entries;
      PlacedParts(s, labels, chains);
      var ls := GetLabels(s, labels);
      if s.firstAssigned {
        var f := EvalExpression(fuel);
        match f {
          case Stopped => return Stopped;
          case Done(Raised(e)) => return Done(Thrown(e));
          case Done(Val(_)) =>
        }
      }
      var names := EvalExpression(fuel);
      match names {
        case Stopped => return Stopped;
        case Done(Raised(e)) => return Done(Thrown(e));
        case Done(Val(n)) => o := ForEachName(s, n, ls, fuel);
      }
    }

    method ForEachName(s: Stmt, count: nat, ls: seq<Label>, fuel: nat) returns (o: Outcome<Completion>)
      requires Inv() && s.ForIn? && Placed(s.s, [], chains)
      modifies this
      ensures Inv() && (o, Now()) == LoopIn(program, s, ls, count, NORMAL, old(Now()), fuel)
      decreases fuel, 1, s, 0, 0
    {
      var c := NORMAL;
      var n: nat, left: nat := count, fuel;
      while left > 0
        invariant left <= fuel && Inv()
        invariant LoopIn(program, s, ls, n, c, Now(), left) == LoopIn(program, s, ls, count, NORMAL, old(Now()), fuel)
        decreases left
      {
        if n == 0 {
          return Done(c);
        }
        if s.eachEvaluated {
          var v := EvalExpression(left - 1);
          match v {
            case Stopped => return Stopped;
            case Done(Raised(e)) => return Done(Thrown(e));
            case Done(Val(_)) =>
          }
        }
        o := ExecStatement(s.s, left - 1, []);
        if o.Stopped? {
          return;
        }
        var (handled, leave) := Handle(o.value, ls);
        c := handled;
        if leave {
          return Done(c);
        }
        n, left := n - 1, left - 1;
      }
      o := Stopped;
    }

    method ExecSwitch(s: Stmt, fuel: nat, ghost labels: seq<Label>) returns (o: Outcome<Completion>)
      requires Entered(s, labels) && s.Switch?
      modifies this
      ensures Inv() && (o, Now()) == Exec(program, s, labels, old(Now()), fuel)
      decreases fuel, 1, s, 0
    {
      hide Placed, Agree, Entries;
      PlacedParts(s, labels, chains);
      var ls := GetLabels(s, labels);
      var v := EvalExpression(fuel);
      match v {
        case Stopped => return Stopped;
        case Done(Raised(e)) => return Done(Thrown(e));
        case Done(Val(r)) =>
          var k := SelectClause(s.clauses, r, fuel);
          match k {
            case Stopped => return Stopped;
            case Done(Missed(e)) => return Done(Thrown(e));
            case Done(Hit(i)) => o := ExecClauses(s.clauses, i, ls, fuel);
          }
      }
    }

    method SelectClause(clauses: seq<Clause>, r: nat, fuel: nat) returns (k: Outcome<CaseSearch>)
      requires Inv()
      modifies this
      ensures Inv() && (k, Now()) == FindCase(program, clauses, r, 0, old(Now()), fuel)
      decreases fuel, 0, 1
    {
      var i := 0;
      while i < |clauses|
        invariant 0 <= i <= |clauses| && Inv()
        invariant FindCase(program, clauses, r, i, Now(), fuel) == FindCase(program, clauses, r, 0, old(Now()), fuel)
      {
        if clauses[i].isCase {
          var v := EvalExpression(fuel);
          match v {
            case Stopped => return Stopped;
            case Done(Raised(e)) => return Done(Missed(e));
            case Done(Val(x)) =>
              if x == r {
                return Done(Hit(i));
              }
          }
        }
        i := i + 1;
      }
      k := Done(Hit(DefaultIndex(clauses)));
    }

    method ExecClauses(clauses: seq<Clause>, first: nat, ls: seq<Label>, fuel: nat) returns (o: Outcome<Completion>)
      requires Inv() && first <= |clauses| && Agree(ClauseEntries(clauses), chains)
      modifies this
      ensures Inv() && (o, Now()) == RunClauses(program, clauses, first, ls, NORMAL, old(Now()), fuel)
      decreases fuel, 1, clauses, |clauses| - first
    {
      o := Done(NORMAL);
      var i := first;
      while i < |clauses|
        invariant first <= i <= |clauses| && Inv() && o.Done?
        invariant
          RunClauses(program, clauses, i, ls, o.value, Now(), fuel) ==
          RunClauses(program, clauses, first, ls, NORMAL, old(Now()), fuel)
      {
        ClauseAgrees(clauses, i, chains);
        o := ExecFrom(clauses[i].body, o.value, fuel);
        if o.Stopped? {
          return;
        }
        if o.value.Abrupt() {
          if o.value.kind == BreakC && o.value.InSet(ls) {
            o := Done(Completion(NormalC, o.value.result, ""));
          }
          return;
        }
        i := i + 1;
      }
    }

    method ExecTry(s: Stmt, fuel: nat) returns (o: Outcome<Completion>)
      requires Inv() && s.Try? && ChildrenPlaced(s, [], chains)
      modifies this
      ensures Inv() && forall labels :: (o, Now()) == Exec(program, s, labels, old(Now()), fuel)
      decreases fuel, 1, s, 0
    {
      hide Placed, Agree, Entries;
      o := ExecStatement(s.block, fuel, []);
      if o.Stopped? {
        return;
      }
      if o.value.kind == ThrowC && s.handler.Some? {
        o := ExecStatement(s.handler.value, fuel, []);
        if o.Stopped? {
          return;
        }
      }
      if s.finalizer.Some? {
        var f := ExecStatement(s.finalizer.value, fuel, []);
        if f.Stopped? || f.value.Abrupt() {
          o := f;
        }
      }
    }
  }

  lemma {:induction false} ClauseAgrees(clauses: seq<Clause>, i: nat, chains: Chains)
    requires Agree(ClauseEntries(clauses), chains) && i < |clauses|
    ensures Agree(ListEntries(clauses[i].body), chains)
  {
    AgreeSplit(ListEntries(clauses[0].body), ClauseEntries(clauses[1..]), chains);
    if i > 0 { ClauseAgrees(clauses[1..], i - 1, chains); }
  }

  /** A run of one function of a program with distinct statement objects: it ends as in the reference
      semantics, and so as the rules of section 12 of ECMA-262 derive, in one of the ways that its text allows, every loop and switch got its static labels, and
      no function body on the way ended with a break or continue unless some body can. */
  method RunFunction(p: Program, script: seq<Choice>, f: nat, fuel: nat)
      returns (o: Outcome<Completion>, leaks: nat, ghost asked: seq<Entry>)
    requires Distinct(ProgramEntries(p)) && f < |p|
    ensures o == Exec(p, p[f], [], World(script, 0), fuel).0
    ensures o.Done? ==> exists rest :: StatementSemantics.Ends(p, p[f], [], World(script, 0), o.value, World(rest, leaks))
    ensures Agree(asked, ChainsOf(ProgramEntries(p)))
    ensures o.Done? ==> Completions.WayOf(o.value) in Completions.Ways(p[f], [])
    ensures Completions.Clean(p) ==> leaks == 0
    ensures Labels.ProgramOk(p) ==> leaks == 0 && (o.Done? ==> o.value.kind in {NormalC, ReturnC, ThrowC})
  {
    var e := new Evaluator(p, script);
    o := e.ExecStatement(p[f], fuel, []);
    leaks, asked := e.leaks, e.asked;
    Completions.ExecSound(p, p[f], [], World(script, 0), fuel);
    if o.Done? {
      StatementSemantics.ExecutedExactly(p, p[f], [], World(script, 0), o.value, e.Now());
    }
    if Labels.ProgramOk(p) {
      Labels.NoLeak(p, f, script, fuel);
    }
  }
}
