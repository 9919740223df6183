/** Where break and continue may point, and that then they never leave a function. */
module Labels {
  import opened Wrappers
  import opened Statements
  import opened Completions

  /** What encloses a statement inside its function: whether there is a loop or switch, whether there
      is a loop, and the labels of those. */
  datatype Scope = Scope(breakable: bool, looping: bool, breaks: set<Label>, continues: set<Label>) {
    function Loop(labels: seq<Label>): Scope {
      Scope(true, true, breaks + ToSet(labels), continues + ToSet(labels))
    }

    function Switch(labels: seq<Label>): Scope {
      Scope(true, looping, breaks + ToSet(labels), continues)
    }
  }

  const FUNCTION := Scope(false, false, {}, {})

  function ToSet(labels: seq<Label>): set<Label> {
    set l | l in labels
  }

  /** Every break names an enclosing loop or switch and every continue an enclosing loop. */
  predicate WellLabelled(s: Stmt, labels: seq<Label>, sc: Scope)
    decreases s, 1
  {
    match s
    case Block(_, body) => ListOk(body, sc)
    case Empty(_) => true
    case Expression(_) => true
    case If(_, thn, els) => WellLabelled(thn, [], sc) && (els.Some? ==> WellLabelled(els.value, [], sc))
    case DoWhile(_, body) => WellLabelled(body, [], sc.Loop(labels))
    case While(_, body) => WellLabelled(body, [], sc.Loop(labels))
    case For(_, init, _, _, body) => (init.Some? ==> WellLabelled(init.value, [], sc)) && WellLabelled(body, [], sc.Loop(labels))
    case ForIn(_, _, _, body) => WellLabelled(body, [], sc.Loop(labels))
    case Continue(_, target) => if target == "" then sc.looping else target in sc.continues
    case Break(_, target) => if target == "" then sc.breakable else target in sc.breaks
    case Return(_, _) => true
    case With(_, body) => WellLabelled(body, [], sc)
    case Labelled(_, name, body) => WellLabelled(body, labels + [name], sc)
    case Switch(_, clauses) => ClausesOk(clauses, sc.Switch(labels))
    case Throw(_) => true
    case Try(_, block, handler, finalizer) =>
      && WellLabelled(block, [], sc)
      && (handler.Some? ==> WellLabelled(handler.value, [], sc))
      && (finalizer.Some? ==> WellLabelled(finalizer.value, [], sc))
  }

  predicate ListOk(l: seq<Stmt>, sc: Scope)
    decreases l, 0
  {
    l == [] || (WellLabelled(l[0], [], sc) && ListOk(l[1..], sc))
  }

  predicate ClausesOk(clauses: seq<Clause>, sc: Scope)
    decreases clauses, 0
  {
    clauses == [] || (ListOk(clauses[0].body, sc) && ClausesOk(clauses[1..], sc))
  }

  predicate ProgramOk(p: Program) {
    forall f | 0 <= f < |p| :: WellLabelled(p[f], [], FUNCTION)
  }

  /** How a statement in scope `sc` may end. */
  predicate MayEnd(c: Completion, sc: Scope) {
    InScope(WayOf(c), sc)
  }

  predicate InScope(w: Way, sc: Scope) {
    && (w.kind == BreakC ==> if w.target == "" then sc.breakable else w.target in sc.breaks)
    && (w.kind == ContinueC ==> if w.target == "" then sc.looping else w.target in sc.continues)
  }

  ghost predicate Ends(r: (Outcome<Completion>, World), w: World, sc: Scope) {
    r.1.leaks == w.leaks && (r.0.Done? ==> MayEnd(r.0.value, sc))
  }

  ghost predicate AllInScope(ways: set<Way>, sc: Scope) {
    forall w | w in ways :: InScope(w, sc)
  }

  lemma HandleEnds(c: Completion, labels: seq<Label>, sc: Scope)
    requires MayEnd(c, sc.Loop(labels))
    ensures MayEnd(Handle(c, labels).0, sc)
    ensures !Handle(c, labels).1 ==> Handle(c, labels).0.kind == NormalC
  {
  }

  lemma LoopInScope(body: set<Way>, labels: seq<Label>, sc: Scope)
    requires AllInScope(body, sc.Loop(labels))
    ensures AllInScope(Leaves(body, labels), sc)
  {
  }

  /** Well-labelled statements have no ways but those to what encloses them. */
  lemma {:induction false} WaysInScope(s: Stmt, labels: seq<Label>, sc: Scope)
    requires WellLabelled(s, labels, sc)
    ensures AllInScope(Ways(s, labels), sc)
    decreases s, 1
  {
    match s
    case Block(_, body) => ListInScope(body, sc);
    case If(_, thn, els) =>
      WaysInScope(thn, [], sc);
      if els.Some? { WaysInScope(els.value, [], sc); }
    case DoWhile(_, body) =>
      WaysInScope(body, [], sc.Loop(labels));
      LoopInScope(Ways(body, []), labels, sc);
    case While(_, body) =>
      WaysInScope(body, [], sc.Loop(labels));
      LoopInScope(Ways(body, []), labels, sc);
    case For(_, _, _, _, body) =>
      WaysInScope(body, [], sc.Loop(labels));
      LoopInScope(Ways(body, []), labels, sc);
    case ForIn(_, _, _, body) =>
      WaysInScope(body, [], sc.Loop(labels));
      LoopInScope(Ways(body, []), labels, sc);
    case With(_, body) => WaysInScope(body, [], sc);
    case Labelled(_, name, body) => WaysInScope(body, labels + [name], sc);
    case Switch(_, clauses) =>
      forall i | 0 <= i <= |clauses| ensures AllInScope(ClauseWays(clauses, i, labels), sc) {
        ClausesInScope(clauses, i, labels, sc);
      }
      assert AllInScope(SwitchWays(clauses, labels), sc);
    case Try(_, block, handler, finalizer) =>
      WaysInScope(block, [], sc);
      if handler.Some? { WaysInScope(handler.value, [], sc); }
      if finalizer.Some? { WaysInScope(finalizer.value, [], sc); }
    case _ =>
  }

  lemma {:induction false} ListInScope(l: seq<Stmt>, sc: Scope)
    requires ListOk(l, sc)
    ensures AllInScope(ListWays(l), sc)
    decreases l, 0
  {
    if l != [] {
      WaysInScope(l[0], [], sc);
      ListInScope(l[1..], sc);
    }
  }

  lemma {:induction false} ClauseAt(clauses: seq<Clause>, i: nat, sc: Scope)
    requires ClausesOk(clauses, sc) && i < |clauses|
    ensures ListOk(clauses[i].body, sc)
  {
    if i > 0 { ClauseAt(clauses[1..], i - 1, sc); }
  }

  lemma {:induction false} ClausesInScope(clauses: seq<Clause>, i: nat, labels: seq<Label>, sc: Scope)
    requires i <= |clauses| && ClausesOk(clauses, sc.Switch(labels))
    ensures AllInScope(ClauseWays(clauses, i, labels), sc)
    decreases clauses, |clauses| - i
  {
    if i < |clauses| {
      ClauseAt(clauses, i, sc.Switch(labels));
      ListInScope(clauses[i].body, sc.Switch(labels));
      ClausesInScope(clauses, i + 1, labels, sc);
    }
  }

  /** A well-labelled program is clean. */
  lemma WellLabelledClean(p: Program)
    requires ProgramOk(p)
    ensures Clean(p)
  {
    forall f, w | 0 <= f < |p| && w in Ways(p[f], []) ensures w.kind != BreakC && w.kind != ContinueC {
      WaysInScope(p[f], [], FUNCTION);
    }
  }

  /** In every run of a well-labelled program a statement ends only in what encloses it. */
  lemma ExecEnds(p: Program, s: Stmt, labels: seq<Label>, sc: Scope, w: World, fuel: nat)
    requires ProgramOk(p) && WellLabelled(s, labels, sc)
    ensures Ends(Exec(p, s, labels, w, fuel), w, sc)
  {
    WellLabelledClean(p);
    ExecSound(p, s, labels, w, fuel);
    WaysInScope(s, labels, sc);
  }

  /** In a well-labelled program no function body, called directly or on the way, ever ends with a break
      or continue, whatever expressions do and however far the run gets. */
  lemma NoLeak(p: Program, f: nat, script: seq<Choice>, fuel: nat)
    requires ProgramOk(p) && f < |p|
    ensures var (o, w) := Exec(p, p[f], [], World(script, 0), fuel);
      w.leaks == 0 && (o.Done? ==> o.value.kind in {NormalC, ReturnC, ThrowC})
  {
    ExecEnds(p, p[f], [], FUNCTION, World(script, 0), fuel);
  }

  /** A labelled block does not absorb a break that names it: such a function reports abrupt
      termination to its caller. */
  lemma LabelledBlockLeaks()
    ensures var body := Labelled(0, "L", Block(1, [Break(2, "L")]));
      && !WellLabelled(body, [], FUNCTION)
      && Exec([body], body, [], World([], 0), 1).0 == Done(Completion(BreakC, UNDEFINED, "L"))
      && Eval([body], World([Call(0)], 0), 2) == (Done(Raised(ABRUPT_TERMINATION)), World([], 1))
  {
    var body := Labelled(0, "L", Block(1, [Break(2, "L")]));
    var w := World([], 0);
    assert Exec([body], Break(2, "L"), [], w, 1) == (Done(Completion(BreakC, UNDEFINED, "L")), w);
    assert ExecList([body], [Break(2, "L")], NORMAL, w, 1) == (Done(Completion(BreakC, UNDEFINED, "L")), w);
    assert [] + ["L"] == ["L"];
    assert Exec([body], Block(1, [Break(2, "L")]), ["L"], w, 1) == (Done(Completion(BreakC, UNDEFINED, "L")), w);
    assert Exec([body], body, [], w, 1) == (Done(Completion(BreakC, UNDEFINED, "L")), w);
    assert [Call(0)][1..] == [];
    assert World([Call(0)], 0).(script := []) == w;
    assert CallResult(Completion(BreakC, UNDEFINED, "L")) == Raised(ABRUPT_TERMINATION);
  }
}
