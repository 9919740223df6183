/** The ways a statement can end, read off its text, and that runs end in exactly these ways. */
module Completions {
  import opened Wrappers
  import opened Statements

  /** How a statement ends, without the value; break and continue have a target. */
  datatype Way = Way(kind: Kind, target: Label)

  const NORMALLY := Way(NormalC, "")
  const THROWING := Way(ThrowC, "")
  const RETURNING := Way(ReturnC, "")

  function WayOf(c: Completion): Way {
    Way(c.kind, c.target)
  }

  predicate Aimed(w: Way, labels: seq<Label>) {
    w.target == "" || w.target in labels
  }

  // ---- Ways, by the structure of the statement ----

  /** After a body that ended like this the loop goes on. */
  predicate Stays(w: Way, labels: seq<Label>) {
    w == NORMALLY || (w.kind == ContinueC && Aimed(w, labels))
  }

  predicate Goes(body: set<Way>, labels: seq<Label>) {
    exists w :: w in body && Stays(w, labels)
  }

  function Absorb(w: Way, labels: seq<Label>): Way {
    if w.kind == BreakC && Aimed(w, labels) then NORMALLY else w
  }

  /** How a loop or switch over this body is left. */
  function Leaves(body: set<Way>, labels: seq<Label>): set<Way> {
    set w | w in body && !Stays(w, labels) :: Absorb(w, labels)
  }

  function Abrupt(ways: set<Way>): set<Way> {
    ways - {NORMALLY}
  }

  /** One statement and then, if it ends normally, what `after` ends like. */
  function Then(ways: set<Way>, after: set<Way>): set<Way> {
    Abrupt(ways) + if NORMALLY in ways then after else {}
  }

  /** The clauses a switch may start with: any case, and where it starts when none matches. */
  function Starts(clauses: seq<Clause>): (r: set<nat>)
    ensures forall i :: i in r ==> i <= |clauses|
  {
    (set i: nat | i < |clauses| && clauses[i].isCase) + {DefaultIndex(clauses)}
  }

  function Ways(s: Stmt, labels: seq<Label>): set<Way>
    decreases s, 1
  {
    match s
    case Block(_, body) => ListWays(body)
    case Empty(_) => {NORMALLY}
    case Expression(_) => {NORMALLY, THROWING}
    case If(_, thn, els) => {THROWING} + Ways(thn, []) + if els.Some? then Ways(els.value, []) else {NORMALLY}
    case DoWhile(_, body) =>
      Leaves(Ways(body, []), labels) + if Goes(Ways(body, []), labels) then {NORMALLY, THROWING} else {}
    case While(_, body) => {NORMALLY, THROWING} + Leaves(Ways(body, []), labels)
    case For(_, init, _, _, _) => if init.Some? && Ways(init.value, []) == {} then {} else ForWays(s, labels)
    case ForIn(_, _, _, body) => {NORMALLY, THROWING} + Leaves(Ways(body, []), labels)
    case Continue(_, target) => {Way(ContinueC, target)}
    case Break(_, target) => {Way(BreakC, target)}
    case Return(_, hasValue) => if hasValue then {RETURNING, THROWING} else {RETURNING}
    case With(_, body) => {THROWING} + Ways(body, [])
    case Labelled(_, name, body) => if name in labels then {THROWING} else Ways(body, labels + [name])
    case Switch(_, clauses) => {THROWING} + SwitchWays(clauses, labels)
    case Throw(_) => {THROWING}
    case Try(_, block, handler, finalizer) =>
      var b := Caught(Ways(block, []), if handler.Some? then Some(Ways(handler.value, [])) else None);
      if finalizer.None? || b == {} then b else Then(Ways(finalizer.value, []), b)
  }

  /** The loop of a for statement; without a condition it is left by its body or its iteration expression only. */
  function ForWays(s: Stmt, labels: seq<Label>): set<Way>
    requires s.For?
    decreases s, 0
  {
    var body := Ways(s.s, []);
    Leaves(body, labels) +
    if s.hasCond then {NORMALLY, THROWING} else if s.hasIter && Goes(body, labels) then {THROWING} else {}
  }

  function Caught(block: set<Way>, handler: Option<set<Way>>): set<Way> {
    if handler.Some? && THROWING in block then block - {THROWING} + handler.value else block
  }

  function ListWays(l: seq<Stmt>): set<Way>
    decreases l, 0
  {
    if l == [] then {NORMALLY} else Then(Ways(l[0], []), ListWays(l[1..]))
  }

  function SwitchWays(clauses: seq<Clause>, labels: seq<Label>): set<Way>
    decreases clauses, |clauses| + 1
  {
    set i, w | i in Starts(clauses) && w in ClauseWays(clauses, i, labels) :: w
  }

  /** Clauses from the i-th on, falling through. */
  function ClauseWays(clauses: seq<Clause>, i: nat, labels: seq<Label>): set<Way>
    requires i <= |clauses|
    decreases clauses, |clauses| - i
  {
    if i == |clauses| then {NORMALLY} else
    var body := ListWays(clauses[i].body);
    (set w | w in Abrupt(body) :: Absorb(w, labels)) + if NORMALLY in body then ClauseWays(clauses, i + 1, labels) else {}
  }

  // ---- Runs end in these ways ----

  /** No body ends with a break or continue. */
  ghost predicate Clean(p: Program) {
    forall f, w | 0 <= f < |p| && w in Ways(p[f], []) :: w.kind != BreakC && w.kind != ContinueC
  }

  /** Only break and continue have targets. */
  predicate Proper(c: Completion) {
    c.kind == BreakC || c.kind == ContinueC || c.target == ""
  }

  /** An outcome is one of the ways, and in a clean program no function body has leaked. */
  ghost predicate Among(p: Program, r: (Outcome<Completion>, World), w: World, ways: set<Way>) {
    && (Clean(p) ==> r.1.leaks == w.leaks)
    && (r.0.Done? ==> Proper(r.0.value) && WayOf(r.0.value) in ways)
  }

  lemma HandleWays(c: Completion, labels: seq<Label>)
    requires Proper(c)
    ensures var (c', leave) := Handle(c, labels);
      && Proper(c')
      && leave == !Stays(WayOf(c), labels)
      && WayOf(c') == if leave then Absorb(WayOf(c), labels) else NORMALLY
  {}

  lemma {:induction false} EvalSound(p: Program, w: World, fuel: nat)
    ensures Clean(p) ==> Eval(p, w, fuel).1.leaks == w.leaks
    decreases fuel, 0, 0
  {
    if fuel != 0 && w.script != [] && w.script[0].Call? && w.script[0].f < |p| {
      var rest := w.(script := w.script[1..]);
      ExecSound(p, p[w.script[0].f], [], rest, fuel - 1);
      var (o, w1) := Exec(p, p[w.script[0].f], [], rest, fuel - 1);
      if o.Done? {
        EvalSound(p, Leak(w1, o.value), fuel - 1);
      }
    }
  }

  /** However a statement ends in any run of any program, it is one of its ways. */
  lemma {:induction false} ExecSound(p: Program, s: Stmt, labels: seq<Label>, w: World, fuel: nat)
    ensures Among(p, Exec(p, s, labels, w, fuel), w, Ways(s, labels))
    decreases fuel, 1, s, 2
  {
    hide Clean;
    EvalSound(p, w, fuel);
    var w1 := Eval(p, w, fuel).1;
    match s
    case Block(_, body) => ListSound(p, body, NORMAL, w, fuel);
    case Empty(_) =>
    case Expression(_) =>
    case If(_, thn, els) =>
      ExecSound(p, thn, [], w1, fuel);
      if els.Some? { ExecSound(p, els.value, [], w1, fuel); }
    case DoWhile(_, _) => DoSound(p, s, labels, w, fuel);
    case While(_, _) => WhileSound(p, s, labels, w, fuel);
    case For(_, init, _, _, _) =>
      if init.None? {
        ForSound(p, s, labels, NORMAL, w, fuel);
      } else {
        ExecSound(p, init.value, [], w, fuel);
        ForSound(p, s, labels, NORMAL, Exec(p, init.value, [], w, fuel).1, fuel);
      }
    case ForIn(_, _, _, _) => ForInSound(p, s, labels, w, fuel);
    case Continue(_, target) =>
    case Break(_, target) =>
    case Return(_, _) =>
    case With(_, body) => ExecSound(p, body, [], w1, fuel);
    case Labelled(_, name, body) => ExecSound(p, body, labels + [name], w, fuel);
    case Switch(_, _) => SwitchSound(p, s, labels, w, fuel);
    case Throw(_) =>
    case Try(_, _, _, _) => TrySound(p, s, labels, w, fuel);
  }

  lemma {:induction false} TrySound(p: Program, s: Stmt, labels: seq<Label>, w: World, fuel: nat)
    requires s.Try?
    ensures Among(p, Exec(p, s, labels, w, fuel), w, Ways(s, labels))
    decreases fuel, 1, s, 0
  {
    hide Clean;
    ExecSound(p, s.block, [], w, fuel);
    var (o, w1) := Exec(p, s.block, [], w, fuel);
    if s.handler.Some? { ExecSound(p, s.handler.value, [], w1, fuel); }
    var b := Caught(Ways(s.block, []), if s.handler.Some? then Some(Ways(s.handler.value, [])) else None);
    var (o2, w2) := if o.Done? && o.value.kind == ThrowC && s.handler.Some? then Exec(p, s.handler.value, [], w1, fuel) else (o, w1);
    assert Among(p, (o2, w2), w, b);
    if s.finalizer.Some? && o2.Done? {
      ExecSound(p, s.finalizer.value, [], w2, fuel);
      var (o3, w3) := Exec(p, s.finalizer.value, [], w2, fuel);
      assert Exec(p, s, labels, w, fuel) == if o3.Stopped? then (Stopped, w3) else (if o3.value.Abrupt() then o3 else o2, w3);
      assert Ways(s, labels) == Then(Ways(s.finalizer.value, []), b);
    }
  }

  lemma {:induction false} ForInSound(p: Program, s: Stmt, labels: seq<Label>, w: World, fuel: nat)
    requires s.ForIn?
    ensures Among(p, Exec(p, s, labels, w, fuel), w, Ways(s, labels))
    decreases fuel, 1, s, 1
  {
    hide Clean;
    EvalSound(p, w, fuel);
    var w1 := if s.firstAssigned then Eval(p, w, fuel).1 else w;
    EvalSound(p, w1, fuel);
    var (v, w2) := Eval(p, w1, fuel);
    if v.Done? && v.value.Val? { InSound(p, s, labels, v.value.v, NORMAL, w2, fuel); }
  }

  lemma {:induction false} SwitchSound(p: Program, s: Stmt, labels: seq<Label>, w: World, fuel: nat)
    requires s.Switch?
    ensures Among(p, Exec(p, s, labels, w, fuel), w, Ways(s, labels))
    decreases fuel, 1, s, 0
  {
    hide Clean;
    EvalSound(p, w, fuel);
    var (v, w1) := Eval(p, w, fuel);
    if v.Done? && v.value.Val? {
      FindSound(p, s.clauses, v.value.v, 0, w1, fuel);
      var (k, w2) := FindCase(p, s.clauses, v.value.v, 0, w1, fuel);
      if k.Done? && k.value.Hit? { ClausesSound(p, s.clauses, k.value.index, labels, NORMAL, w2, fuel); }
    }
  }

  lemma {:induction false} ListSound(p: Program, l: seq<Stmt>, last: Completion, w: World, fuel: nat)
    requires WayOf(last) == NORMALLY
    ensures Among(p, ExecList(p, l, last, w, fuel), w, ListWays(l))
    decreases fuel, 1, l, 0
  {
    hide Clean;
    if l != [] {
      ExecSound(p, l[0], [], w, fuel);
      var (o, w1) := Exec(p, l[0], [], w, fuel);
      if o.Done? && !o.value.Abrupt() { ListSound(p, l[1..], o.value, w1, fuel); }
    }
  }

  lemma {:induction false} DoSound(p: Program, s: Stmt, labels: seq<Label>, w: World, fuel: nat)
    requires s.DoWhile?
    ensures Among(p, LoopDo(p, s, labels, w, fuel), w, Ways(s, labels))
    decreases fuel, 1, s, 0
  {
    hide Clean;
    if fuel > 0 {
      ExecSound(p, s.s, [], w, fuel - 1);
      var (o, w1) := Exec(p, s.s, [], w, fuel - 1);
      if o.Done? {
        HandleWays(o.value, labels);
        EvalSound(p, w1, fuel - 1);
        DoSound(p, s, labels, Eval(p, w1, fuel - 1).1, fuel - 1);
      }
    }
  }

  lemma {:induction false} WhileSound(p: Program, s: Stmt, labels: seq<Label>, w: World, fuel: nat)
    requires s.While?
    ensures Among(p, LoopWhile(p, s, labels, w, fuel), w, Ways(s, labels))
    decreases fuel, 1, s, 0
  {
    hide Clean;
    if fuel > 0 {
      EvalSound(p, w, fuel - 1);
      var w1 := Eval(p, w, fuel - 1).1;
      ExecSound(p, s.s, [], w1, fuel - 1);
      var (o, w2) := Exec(p, s.s, [], w1, fuel - 1);
      if o.Done? {
        HandleWays(o.value, labels);
        WhileSound(p, s, labels, w2, fuel - 1);
      }
    }
  }

  lemma {:induction false} ForSound(p: Program, s: Stmt, labels: seq<Label>, last: Completion, w: World, fuel: nat)
    requires s.For? && WayOf(last) == NORMALLY
    ensures Among(p, LoopFor(p, s, labels, last, w, fuel), w, ForWays(s, labels))
    decreases fuel, 1, s, 0
  {
    hide Clean;
    if fuel > 0 {
      EvalSound(p, w, fuel - 1);
      var w1 := if s.hasCond then Eval(p, w, fuel - 1).1 else w;
      ExecSound(p, s.s, [], w1, fuel - 1);
      var (o, w2) := Exec(p, s.s, [], w1, fuel - 1);
      if o.Done? {
        HandleWays(o.value, labels);
        EvalSound(p, w2, fuel - 1);
        if !Handle(o.value, labels).1 {
          ForSound(p, s, labels, Handle(o.value, labels).0, if s.hasIter then Eval(p, w2, fuel - 1).1 else w2, fuel - 1);
        }
      }
    }
  }

  lemma {:induction false} InSound(p: Program, s: Stmt, labels: seq<Label>, n: nat, last: Completion, w: World, fuel: nat)
    requires s.ForIn? && WayOf(last) == NORMALLY
    ensures Among(p, LoopIn(p, s, labels, n, last, w, fuel), w, Ways(s, labels))
    decreases fuel, 1, s, 0
  {
    hide Clean;
    if fuel > 0 && n > 0 {
      EvalSound(p, w, fuel - 1);
      var w1 := if s.eachEvaluated then Eval(p, w, fuel - 1).1 else w;
      ExecSound(p, s.s, [], w1, fuel - 1);
      var (o, w2) := Exec(p, s.s, [], w1, fuel - 1);
      if o.Done? {
        HandleWays(o.value, labels);
        if !Handle(o.value, labels).1 { InSound(p, s, labels, n - 1, Handle(o.value, labels).0, w2, fuel - 1); }
      }
    }
  }

  lemma {:induction false} FindSound(p: Program, clauses: seq<Clause>, r: nat, i: nat, w: World, fuel: nat)
    requires i <= |clauses|
    ensures var (k, w1) := FindCase(p, clauses, r, i, w, fuel);
      && (Clean(p) ==> w1.leaks == w.leaks)
      && (k.Done? && k.value.Hit? ==> k.value.index in Starts(clauses))
    decreases fuel, 0, 1 + |clauses| - i
  {
    hide Clean;
    if i < |clauses| {
      EvalSound(p, w, fuel);
      FindSound(p, clauses, r, i + 1, if clauses[i].isCase then Eval(p, w, fuel).1 else w, fuel);
    }
  }

  lemma {:induction false} ClausesSound(
    p: Program, clauses: seq<Clause>, i: nat, labels: seq<Label>, last: Completion, w: World, fuel: nat)
    requires i <= |clauses| && WayOf(last) == NORMALLY
    ensures Among(p, RunClauses(p, clauses, i, labels, last, w, fuel), w, ClauseWays(clauses, i, labels))
    decreases fuel, 1, clauses, |clauses| - i
  {
    hide Clean;
    if i < |clauses| {
      ListSound(p, clauses[i].body, last, w, fuel);
      var (o, w1) := ExecList(p, clauses[i].body, last, w, fuel);
      if o.Done? {
        if o.value.Abrupt() {
          assert WayOf(o.value) in Abrupt(ListWays(clauses[i].body));
          assert Absorb(WayOf(o.value), labels) in ClauseWays(clauses, i, labels);
        } else {
          ClausesSound(p, clauses, i + 1, labels, o.value, w1, fuel);
        }
      }
    }
  }

  // ---- Every way is the end of some run ----

  /** The run of `s` that follows `script` ends in this way and leaves `rest` of the script. */
  ghost predicate Follows(
    p: Program, s: Stmt, labels: seq<Label>, way: Way, script: seq<Choice>, rest: seq<Choice>, k: nat, fuel: nat)
  {
    Ended(Exec(p, s, labels, World(script + rest, k), fuel), way, rest, k)
  }

  predicate Ended(r: (Outcome<Completion>, World), way: Way, rest: seq<Choice>, k: nat) {
    r.0.Done? && Proper(r.0.value) && WayOf(r.0.value) == way && r.1 == World(rest, k)
  }

  /** `script` leads to this end, whatever stands behind it and with any more fuel. */
  ghost predicate Leads(p: Program, s: Stmt, labels: seq<Label>, way: Way, script: seq<Choice>, n: nat) {
    forall rest, k, fuel: nat | fuel >= n :: Follows(p, s, labels, way, script, rest, k, fuel)
  }

  /** One evaluation, with the script that is left. */
  lemma EvalOne(p: Program, c: Choice, rest: seq<Choice>, k: nat, fuel: nat)
    requires fuel > 0 && !c.Call?
    ensures Eval(p, World([c] + rest, k), fuel) == (Done(if c.Value? then Val(c.v) else Raised(c.v)), World(rest, k))
  {
    assert ([c] + rest)[1..] == rest;
    assert World([c] + rest, k).(script := rest) == World(rest, k);
  }

  lemma Assoc(a: seq<Choice>, b: seq<Choice>, c: seq<Choice>)
    ensures a + b + c == a + (b + c)
  {}

  /** Every way of a statement is the end of one of its runs. */
  lemma {:induction false} WayReached(p: Program, s: Stmt, labels: seq<Label>, way: Way)
    returns (script: seq<Choice>, n: nat)
    requires way in Ways(s, labels)
    ensures Leads(p, s, labels, way, script, n)
    decreases s, 2
  {
    match s
    case Block(_, body) =>
      script, n := ListReached(p, body, way);
      forall rest, k, fuel: nat | fuel >= n ensures Follows(p, s, labels, way, script, rest, k, fuel) {
        assert FollowsList(p, body, NORMAL, way, script, rest, k, fuel);
      }
    case Empty(_) => script, n := [], 0; JustEnds(p, s, labels, way);
    case Continue(_, _) => script, n := [], 0; JustEnds(p, s, labels, way);
    case Break(_, _) => script, n := [], 0; JustEnds(p, s, labels, way);
    case Expression(_) => script, n := EvaluatesReached(p, s, labels, way);
    case Return(_, _) => script, n := EvaluatesReached(p, s, labels, way);
    case Throw(_) => script, n := EvaluatesReached(p, s, labels, way);
    case If(_, _, _) => script, n := IfReached(p, s, labels, way);
    case With(_, _) => script, n := WithReached(p, s, labels, way);
    case DoWhile(_, _) => script, n := DoReached(p, s, labels, way);
    case While(_, _) => script, n := WhileReached(p, s, labels, way);
    case For(_, _, _, _, _) => script, n := ForReached(p, s, labels, way);
    case ForIn(_, _, _, _) => script, n := InReached(p, s, labels, way);
    case Labelled(_, _, _) => script, n := LabelledReached(p, s, labels, way);
    case Switch(_, _) => script, n := SwitchReached(p, s, labels, way);
    case Try(_, _, _, _) => script, n := TryReached(p, s, labels, way);
  }

  lemma JustEnds(p: Program, s: Stmt, labels: seq<Label>, way: Way)
    requires way in Ways(s, labels) && (s.Empty? || s.Continue? || s.Break?)
    ensures Leads(p, s, labels, way, [], 0)
  {
    forall rest, k, fuel: nat | true ensures Follows(p, s, labels, way, [], rest, k, fuel) {
      assert [] + rest == rest;
    }
  }

  lemma EvaluatesReached(p: Program, s: Stmt, labels: seq<Label>, way: Way) returns (script: seq<Choice>, n: nat)
    requires way in Ways(s, labels) && (s.Expression? || s.Return? || s.Throw?)
    ensures Leads(p, s, labels, way, script, n)
  {
    script, n := if s.Return? && !s.hasValue then [] else if way == THROWING && !s.Throw? then [Raise(0)] else [Value(0)], 1;
    forall rest, k, fuel: nat | fuel >= n ensures Follows(p, s, labels, way, script, rest, k, fuel) {
      if script == [] {
        assert script + rest == rest;
      } else {
        EvalOne(p, script[0], rest, k, fuel);
      }
    }
  }

  lemma {:induction false} IfReached(p: Program, s: Stmt, labels: seq<Label>, way: Way)
    returns (script: seq<Choice>, n: nat)
    requires s.If? && way in Ways(s, labels)
    ensures Leads(p, s, labels, way, script, n)
    decreases s, 1
  {
    var sub := [];
    n := 1;
    var first;
    if way == THROWING {
      first := Raise(0);
    } else if way in Ways(s.thn, []) {
      first := Value(1);
      var m;
      sub, m := WayReached(p, s.thn, [], way);
      n := m + 1;
    } else {
      first := Value(0);
      if s.els.Some? {
        var m;
        sub, m := WayReached(p, s.els.value, [], way);
        n := m + 1;
      }
    }
    script := [first] + sub;
    forall rest, k, fuel: nat | fuel >= n ensures Follows(p, s, labels, way, script, rest, k, fuel) {
      Assoc([first], sub, rest);
      EvalOne(p, first, sub + rest, k, fuel);
      if first == Value(1) {
        assert Follows(p, s.thn, [], way, sub, rest, k, fuel);
      } else if first == Value(0) && s.els.Some? {
        assert Follows(p, s.els.value, [], way, sub, rest, k, fuel);
      } else {
        assert sub + rest == rest;
      }
    }
  }

  lemma {:induction false} WithReached(p: Program, s: Stmt, labels: seq<Label>, way: Way)
    returns (script: seq<Choice>, n: nat)
    requires s.With? && way in Ways(s, labels)
    ensures Leads(p, s, labels, way, script, n)
    decreases s, 1
  {
    var sub, m := [], 0;
    var first := if way == THROWING then Raise(0) else Value(0);
    if way != THROWING {
      sub, m := WayReached(p, s.s, [], way);
    }
    script, n := [first] + sub, m + 1;
    forall rest, k, fuel: nat | fuel >= n ensures Follows(p, s, labels, way, script, rest, k, fuel) {
      Assoc([first], sub, rest);
      EvalOne(p, first, sub + rest, k, fuel);
      assert sub == [] ==> sub + rest == rest;
      assert way != THROWING ==> Follows(p, s.s, [], way, sub, rest, k, fuel);
    }
  }

  lemma {:induction false} LabelledReached(p: Program, s: Stmt, labels: seq<Label>, way: Way)
    returns (script: seq<Choice>, n: nat)
    requires s.Labelled? && way in Ways(s, labels)
    ensures Leads(p, s, labels, way, script, n)
    decreases s, 1
  {
    script, n := [], 0;
    if s.name !in labels {
      script, n := WayReached(p, s.s, labels + [s.name], way);
    }
    forall rest, k, fuel: nat | fuel >= n ensures Follows(p, s, labels, way, script, rest, k, fuel) {
      if s.name !in labels {
        assert Follows(p, s.s, labels + [s.name], way, script, rest, k, fuel);
      } else {
        assert script + rest == rest;
      }
    }
  }

  // ---- Loops ----

  /** A way of the body and what it makes of the loop. */
  lemma LeavesBy(body: set<Way>, labels: seq<Label>, way: Way) returns (w: Way)
    requires way in Leaves(body, labels)
    ensures w in body && !Stays(w, labels) && Absorb(w, labels) == way
  {
    w :| w in body && !Stays(w, labels) && Absorb(w, labels) == way;
  }

  lemma {:induction false} DoReached(p: Program, s: Stmt, labels: seq<Label>, way: Way)
    returns (script: seq<Choice>, n: nat)
    requires s.DoWhile? && way in Ways(s, labels)
    ensures Leads(p, s, labels, way, script, n)
    decreases s, 1
  {
    var body := Ways(s.s, []);
    var w, last;
    if way in Leaves(body, labels) {
      w := LeavesBy(body, labels, way);
      last := [];
    } else {
      w :| w in body && Stays(w, labels);
      last := [if way == THROWING then Raise(0) else Value(0)];
    }
    var sub, m := WayReached(p, s.s, [], w);
    script, n := sub + last, m + 2;
    forall rest, k, fuel: nat | fuel >= n ensures Follows(p, s, labels, way, script, rest, k, fuel) {
      Assoc(sub, last, rest);
      assert Follows(p, s.s, [], w, sub, last + rest, k, fuel - 1);
      HandleWays(Exec(p, s.s, [], World(sub + (last + rest), k), fuel - 1).0.value, labels);
      if last == [] {
        assert last + rest == rest;
      } else {
        EvalOne(p, last[0], rest, k, fuel - 1);
      }
    }
  }

  lemma {:induction false} WhileReached(p: Program, s: Stmt, labels: seq<Label>, way: Way)
    returns (script: seq<Choice>, n: nat)
    requires s.While? && way in Ways(s, labels)
    ensures Leads(p, s, labels, way, script, n)
    decreases s, 1
  {
    var body := Ways(s.s, []);
    var w, sub, m := NORMALLY, [], 0;
    var first := if way == THROWING then Raise(0) else Value(0);
    if way != NORMALLY && way != THROWING {
      first := Value(1);
      w := LeavesBy(body, labels, way);
      sub, m := WayReached(p, s.s, [], w);
    }
    script, n := [first] + sub, m + 2;
    forall rest, k, fuel: nat | fuel >= n ensures Follows(p, s, labels, way, script, rest, k, fuel) {
      Assoc([first], sub, rest);
      EvalOne(p, first, sub + rest, k, fuel - 1);
      if first == Value(1) {
        assert Follows(p, s.s, [], w, sub, rest, k, fuel - 1);
        HandleWays(Exec(p, s.s, [], World(sub + rest, k), fuel - 1).0.value, labels);
      } else {
        assert sub + rest == rest;
      }
    }
  }

  lemma {:induction false} InReached(p: Program, s: Stmt, labels: seq<Label>, way: Way)
    returns (script: seq<Choice>, n: nat)
    requires s.ForIn? && way in Ways(s, labels)
    ensures Leads(p, s, labels, way, script, n)
    decreases s, 1
  {
    var init := if s.firstAssigned then [Value(0)] else [];
    if way == THROWING {
      script, n := [Raise(0)], 1;
      forall rest, k, fuel: nat | fuel >= n ensures Follows(p, s, labels, way, script, rest, k, fuel) {
        EvalOne(p, Raise(0), rest, k, fuel);
      }
    } else if way == NORMALLY {
      script, n := init + [Value(0)], 1;
      forall rest, k, fuel: nat | fuel >= n ensures Follows(p, s, labels, way, script, rest, k, fuel) {
        InStarts(p, s, labels, 0, [], rest, k, fuel);
        assert init + [Value(0)] + rest == init + ([Value(0)] + ([] + rest));
        assert [] + rest == rest;
      }
    } else {
      var sub, m := InLoopReached(p, s, labels, way);
      script, n := init + ([Value(1)] + sub), m + 1;
      forall rest, k, fuel: nat | fuel >= n ensures Follows(p, s, labels, way, script, rest, k, fuel) {
        InStarts(p, s, labels, 1, sub, rest, k, fuel);
        assert script + rest == init + ([Value(1)] + (sub + rest));
        assert FollowsIn(p, s, labels, way, sub, rest, k, fuel);
      }
    }
  }

  ghost predicate FollowsIn(
    p: Program, s: Stmt, labels: seq<Label>, way: Way, script: seq<Choice>, rest: seq<Choice>, k: nat, fuel: nat)
    requires s.ForIn?
  {
    Ended(LoopIn(p, s, labels, 1, NORMAL, World(script + rest, k), fuel), way, rest, k)
  }

  lemma {:induction false} InLoopReached(p: Program, s: Stmt, labels: seq<Label>, way: Way)
    returns (script: seq<Choice>, n: nat)
    requires s.ForIn? && way in Leaves(Ways(s.s, []), labels)
    ensures forall rest, k, fuel: nat | fuel >= n :: FollowsIn(p, s, labels, way, script, rest, k, fuel)
    decreases s, 0
  {
    var w := LeavesBy(Ways(s.s, []), labels, way);
    var each := if s.eachEvaluated then [Value(0)] else [];
    var sub, m := WayReached(p, s.s, [], w);
    script, n := each + sub, m + 2;
    forall rest, k, fuel: nat | fuel >= n ensures FollowsIn(p, s, labels, way, script, rest, k, fuel) {
      Assoc(each, sub, rest);
      if s.eachEvaluated {
        EvalOne(p, Value(0), sub + rest, k, fuel - 1);
      } else {
        assert each + (sub + rest) == sub + rest;
      }
      assert Follows(p, s.s, [], w, sub, rest, k, fuel - 1);
      HandleWays(Exec(p, s.s, [], World(sub + rest, k), fuel - 1).0.value, labels);
    }
  }

  /** Up to the loop over the names, of which there are `names`. */
  lemma InStarts(
    p: Program, s: Stmt, labels: seq<Label>, names: nat, tail: seq<Choice>, rest: seq<Choice>, k: nat, fuel: nat)
    requires s.ForIn? && fuel > 0
    ensures var init := if s.firstAssigned then [Value(0)] else [];
      Exec(p, s, labels, World(init + ([Value(names)] + (tail + rest)), k), fuel) ==
      LoopIn(p, s, labels, names, NORMAL, World(tail + rest, k), fuel)
  {
    EvalOne(p, Value(0), [Value(names)] + (tail + rest), k, fuel);
    EvalOne(p, Value(names), tail + rest, k, fuel);
    assert [] + ([Value(names)] + (tail + rest)) == [Value(names)] + (tail + rest);
  }

  lemma {:induction false} ForReached(p: Program, s: Stmt, labels: seq<Label>, way: Way)
    returns (script: seq<Choice>, n: nat)
    requires s.For? && way in Ways(s, labels)
    ensures Leads(p, s, labels, way, script, n)
    decreases s, 1
  {
    var loop, m := ForLoopReached(p, s, labels, way);
    if s.init.None? {
      script, n := loop, m;
      forall rest, k, fuel: nat | fuel >= n ensures Follows(p, s, labels, way, script, rest, k, fuel) {
        assert FollowsFor(p, s, labels, way, loop, rest, k, fuel);
      }
    } else {
      var w :| w in Ways(s.init.value, []);
      var head, m' := WayReached(p, s.init.value, [], w);
      script, n := head + loop, m + m';
      forall rest, k, fuel: nat | fuel >= n ensures Follows(p, s, labels, way, script, rest, k, fuel) {
        Assoc(head, loop, rest);
        assert Follows(p, s.init.value, [], w, head, loop + rest, k, fuel);
        assert FollowsFor(p, s, labels, way, loop, rest, k, fuel);
      }
    }
  }

  ghost predicate FollowsFor(
    p: Program, s: Stmt, labels: seq<Label>, way: Way, script: seq<Choice>, rest: seq<Choice>, k: nat, fuel: nat)
    requires s.For?
  {
    Ended(LoopFor(p, s, labels, NORMAL, World(script + rest, k), fuel), way, rest, k)
  }

  lemma {:induction false} ForLoopReached(p: Program, s: Stmt, labels: seq<Label>, way: Way)
    returns (script: seq<Choice>, n: nat)
    requires s.For? && way in ForWays(s, labels)
    ensures forall rest, k, fuel: nat | fuel >= n :: FollowsFor(p, s, labels, way, script, rest, k, fuel)
    decreases s, 0
  {
    var body := Ways(s.s, []);
    if s.hasCond && (way == NORMALLY || way == THROWING) {
      var first := if way == THROWING then Raise(0) else Value(0);
      script, n := [first], 2;
      forall rest, k, fuel: nat | fuel >= n ensures FollowsFor(p, s, labels, way, script, rest, k, fuel) {
        EvalOne(p, first, rest, k, fuel - 1);
      }
    } else {
      var w, last;
      if way in Leaves(body, labels) {
        w := LeavesBy(body, labels, way);
        last := [];
      } else {
        w :| w in body && Stays(w, labels);
        last := [Raise(0)];
      }
      var sub, m := WayReached(p, s.s, [], w);
      var first := if s.hasCond then [Value(1)] else [];
      script, n := first + (sub + last), m + 2;
      forall rest, k, fuel: nat | fuel >= n ensures FollowsFor(p, s, labels, way, script, rest, k, fuel) {
        Assoc(first, sub + last, rest);
        Assoc(sub, last, rest);
        if s.hasCond {
          EvalOne(p, Value(1), sub + (last + rest), k, fuel - 1);
        } else {
          assert first + (sub + (last + rest)) == sub + (last + rest);
        }
        assert Follows(p, s.s, [], w, sub, last + rest, k, fuel - 1);
        HandleWays(Exec(p, s.s, [], World(sub + (last + rest), k), fuel - 1).0.value, labels);
        if last == [] {
          assert last + rest == rest;
        } else {
          EvalOne(p, Raise(0), rest, k, fuel - 1);
        }
      }
    }
  }

  // ---- Lists and switches ----

  ghost predicate FollowsList(
    p: Program, l: seq<Stmt>, last: Completion, way: Way, script: seq<Choice>, rest: seq<Choice>, k: nat, fuel: nat)
  {
    Ended(ExecList(p, l, last, World(script + rest, k), fuel), way, rest, k)
  }

  lemma {:induction false} ListReached(p: Program, l: seq<Stmt>, way: Way) returns (script: seq<Choice>, n: nat)
    requires way in ListWays(l)
    ensures forall last, rest, k, fuel: nat | WayOf(last) == NORMALLY && fuel >= n ::
      FollowsList(p, l, last, way, script, rest, k, fuel)
    decreases l, 0
  {
    if l == [] {
      script, n := [], 0;
      forall last, rest, k, fuel: nat | WayOf(last) == NORMALLY && fuel >= n
        ensures FollowsList(p, l, last, way, script, rest, k, fuel)
      {
        assert script + rest == rest;
      }
    } else {
      var w, tail, m' := way, [], 0;
      if way !in Abrupt(Ways(l[0], [])) {
        w := NORMALLY;
        tail, m' := ListReached(p, l[1..], way);
      }
      var head, m := WayReached(p, l[0], [], w);
      script, n := head + tail, m + m';
      forall last, rest, k, fuel: nat | WayOf(last) == NORMALLY && fuel >= n
        ensures FollowsList(p, l, last, way, script, rest, k, fuel)
      {
        Assoc(head, tail, rest);
        assert Follows(p, l[0], [], w, head, tail + rest, k, fuel);
        var c := Exec(p, l[0], [], World(head + (tail + rest), k), fuel).0.value;
        if w == NORMALLY {
          assert FollowsList(p, l[1..], c, way, tail, rest, k, fuel);
        } else {
          assert tail + rest == rest;
        }
      }
    }
  }

  ghost predicate FollowsClauses(
    p: Program, clauses: seq<Clause>, i: nat, labels: seq<Label>, last: Completion,
    way: Way, script: seq<Choice>, rest: seq<Choice>, k: nat, fuel: nat)
    requires i <= |clauses|
  {
    Ended(RunClauses(p, clauses, i, labels, last, World(script + rest, k), fuel), way, rest, k)
  }

  lemma {:induction false} ClausesReached(p: Program, clauses: seq<Clause>, i: nat, labels: seq<Label>, way: Way)
    returns (script: seq<Choice>, n: nat)
    requires i <= |clauses| && way in ClauseWays(clauses, i, labels)
    ensures forall last, rest, k, fuel: nat | WayOf(last) == NORMALLY && fuel >= n ::
      FollowsClauses(p, clauses, i, labels, last, way, script, rest, k, fuel)
    decreases clauses, |clauses| - i
  {
    if i == |clauses| {
      script, n := [], 0;
      forall last, rest, k, fuel: nat | WayOf(last) == NORMALLY && fuel >= n
        ensures FollowsClauses(p, clauses, i, labels, last, way, script, rest, k, fuel)
      {
        assert script + rest == rest;
      }
    } else {
      var body := ListWays(clauses[i].body);
      var w, tail, m' := NORMALLY, [], 0;
      if way in (set w | w in Abrupt(body) :: Absorb(w, labels)) {
        w :| w in Abrupt(body) && Absorb(w, labels) == way;
      } else {
        tail, m' := ClausesReached(p, clauses, i + 1, labels, way);
      }
      var head, m := ListReached(p, clauses[i].body, w);
      script, n := head + tail, m + m';
      forall last, rest, k, fuel: nat | WayOf(last) == NORMALLY && fuel >= n
        ensures FollowsClauses(p, clauses, i, labels, last, way, script, rest, k, fuel)
      {
        Assoc(head, tail, rest);
        assert FollowsList(p, clauses[i].body, last, w, head, tail + rest, k, fuel);
        var c := ExecList(p, clauses[i].body, last, World(head + (tail + rest), k), fuel).0.value;
        if w == NORMALLY {
          assert FollowsClauses(p, clauses, i + 1, labels, c, way, tail, rest, k, fuel);
        } else {
          assert tail + rest == rest;
        }
      }
    }
  }

  /** Case values that are missed up to the case `hit`. */
  function CaseScript(clauses: seq<Clause>, j: nat, hit: nat): seq<Choice>
    requires j <= |clauses|
    decreases |clauses| - j
  {
    if j == |clauses| then []
    else if !clauses[j].isCase then CaseScript(clauses, j + 1, hit)
    else if j == hit then [Value(1)]
    else [Value(0)] + CaseScript(clauses, j + 1, hit)
  }

  lemma {:induction false} CaseFound(
    p: Program, clauses: seq<Clause>, j: nat, hit: nat, rest: seq<Choice>, k: nat, fuel: nat)
    requires j <= hit && j <= |clauses| && fuel > 0 && (hit < |clauses| ==> clauses[hit].isCase)
    ensures FindCase(p, clauses, 1, j, World(CaseScript(clauses, j, hit) + rest, k), fuel) ==
      (Done(Hit(if hit < |clauses| then hit else DefaultIndex(clauses))), World(rest, k))
    decreases |clauses| - j
  {
    if j == |clauses| {
      assert [] + rest == rest;
    } else if clauses[j].isCase {
      if j == hit {
        EvalOne(p, Value(1), rest, k, fuel);
      } else {
        var tail := CaseScript(clauses, j + 1, hit);
        Assoc([Value(0)], tail, rest);
        EvalOne(p, Value(0), tail + rest, k, fuel);
        CaseFound(p, clauses, j + 1, hit, rest, k, fuel);
      }
    } else {
      CaseFound(p, clauses, j + 1, hit, rest, k, fuel);
    }
  }

  lemma {:induction false} SwitchReached(p: Program, s: Stmt, labels: seq<Label>, way: Way)
    returns (script: seq<Choice>, n: nat)
    requires s.Switch? && way in Ways(s, labels)
    ensures Leads(p, s, labels, way, script, n)
    decreases s, 1
  {
    if way == THROWING {
      script, n := [Raise(0)], 1;
      forall rest, k, fuel: nat | fuel >= n ensures Follows(p, s, labels, way, script, rest, k, fuel) {
        EvalOne(p, Raise(0), rest, k, fuel);
      }
    } else {
      var i :| i in Starts(s.clauses) && way in ClauseWays(s.clauses, i, labels);
      var hit := if i < |s.clauses| && s.clauses[i].isCase then i else |s.clauses|;
      var find := CaseScript(s.clauses, 0, hit);
      var sub, m := ClausesReached(p, s.clauses, i, labels, way);
      script, n := [Value(1)] + (find + sub), m + 1;
      forall rest, k, fuel: nat | fuel >= n ensures Follows(p, s, labels, way, script, rest, k, fuel) {
        Assoc([Value(1)], find + sub, rest);
        Assoc(find, sub, rest);
        EvalOne(p, Value(1), find + (sub + rest), k, fuel);
        CaseFound(p, s.clauses, 0, hit, sub + rest, k, fuel);
        assert FollowsClauses(p, s.clauses, i, labels, NORMAL, way, sub, rest, k, fuel);
      }
    }
  }

  // ---- Try ----

  lemma {:induction false} TryReached(p: Program, s: Stmt, labels: seq<Label>, way: Way)
    returns (script: seq<Choice>, n: nat)
    requires s.Try? && way in Ways(s, labels)
    ensures Leads(p, s, labels, way, script, n)
    decreases s, 1
  {
    var b := Caught(Ways(s.block, []), if s.handler.Some? then Some(Ways(s.handler.value, [])) else None);
    var inner := way;
    if s.finalizer.Some? && way in Abrupt(Ways(s.finalizer.value, [])) {
      inner :| inner in b;
    }
    var head, m := CaughtReached(p, s, inner);
    if s.finalizer.None? {
      script, n := head, m;
      forall rest, k, fuel: nat | fuel >= n ensures Follows(p, s, labels, way, script, rest, k, fuel) {
        assert FollowsCaught(p, s, inner, head, rest, k, fuel);
      }
    } else {
      var last := if way in Abrupt(Ways(s.finalizer.value, [])) then way else NORMALLY;
      var tail, m' := WayReached(p, s.finalizer.value, [], last);
      script, n := head + tail, m + m';
      forall rest, k, fuel: nat | fuel >= n ensures Follows(p, s, labels, way, script, rest, k, fuel) {
        Assoc(head, tail, rest);
        assert FollowsCaught(p, s, inner, head, tail + rest, k, fuel);
        assert Follows(p, s.finalizer.value, [], last, tail, rest, k, fuel);
      }
    }
  }

  /** The block and, after a throw, the handler. */
  function CaughtRun(p: Program, s: Stmt, w: World, fuel: nat): (Outcome<Completion>, World)
    requires s.Try?
  {
    var (o, w1) := Exec(p, s.block, [], w, fuel);
    if o.Done? && o.value.kind == ThrowC && s.handler.Some? then Exec(p, s.handler.value, [], w1, fuel) else (o, w1)
  }

  ghost predicate FollowsCaught(
    p: Program, s: Stmt, way: Way, script: seq<Choice>, rest: seq<Choice>, k: nat, fuel: nat)
    requires s.Try?
  {
    Ended(CaughtRun(p, s, World(script + rest, k), fuel), way, rest, k)
  }

  lemma {:induction false} CaughtReached(p: Program, s: Stmt, way: Way) returns (script: seq<Choice>, n: nat)
    requires s.Try?
    requires way in Caught(Ways(s.block, []), if s.handler.Some? then Some(Ways(s.handler.value, [])) else None)
    ensures forall rest, k, fuel: nat | fuel >= n :: FollowsCaught(p, s, way, script, rest, k, fuel)
    decreases s, 0
  {
    var b := Ways(s.block, []);
    if way in b && !(way == THROWING && s.handler.Some?) {
      script, n := WayReached(p, s.block, [], way);
      forall rest, k, fuel: nat | fuel >= n ensures FollowsCaught(p, s, way, script, rest, k, fuel) {
        assert Follows(p, s.block, [], way, script, rest, k, fuel);
      }
    } else {
      var head, m := WayReached(p, s.block, [], THROWING);
      var tail, m' := WayReached(p, s.handler.value, [], way);
      script, n := head + tail, m + m';
      forall rest, k, fuel: nat | fuel >= n ensures FollowsCaught(p, s, way, script, rest, k, fuel) {
        Assoc(head, tail, rest);
        assert Follows(p, s.block, [], THROWING, head, tail + rest, k, fuel);
        assert Follows(p, s.handler.value, [], way, tail, rest, k, fuel);
      }
    }
  }

  // ---- What the program can do ----

  ghost predicate EndsAs(p: Program, s: Stmt, labels: seq<Label>, way: Way, script: seq<Choice>, fuel: nat) {
    var o := Exec(p, s, labels, World(script, 0), fuel).0;
    o.Done? && WayOf(o.value) == way
  }

  /** Some run of the statement ends like this. */
  ghost predicate CanEnd(p: Program, s: Stmt, labels: seq<Label>, way: Way) {
    exists script, fuel: nat :: EndsAs(p, s, labels, way, script, fuel)
  }

  /** The ends of a statement's runs are exactly its ways. */
  lemma EndsExactly(p: Program, s: Stmt, labels: seq<Label>, way: Way)
    ensures CanEnd(p, s, labels, way) <==> way in Ways(s, labels)
  {
    if CanEnd(p, s, labels, way) {
      var script, fuel: nat :| EndsAs(p, s, labels, way, script, fuel);
      ExecSound(p, s, labels, World(script, 0), fuel);
    }
    if way in Ways(s, labels) {
      var script, n := WayReached(p, s, labels, way);
      assert Follows(p, s, labels, way, script, [], 0, n);
      assert script + [] == script;
      assert EndsAs(p, s, labels, way, script, n);
    }
  }

  /** In this run of function `f` some function body, its own or that of a call, ends with a break or continue. */
  ghost predicate Reports(p: Program, f: nat, script: seq<Choice>, fuel: nat) {
    f < |p| &&
    var (o, w) := Exec(p, p[f], [], World(script, 0), fuel);
    w.leaks > 0 || (o.Done? && (o.value.kind == BreakC || o.value.kind == ContinueC))
  }

  /** Some run of the program reports abrupt termination exactly when some body has a break or continue among its ways. */
  lemma ReportsExactly(p: Program)
    ensures (exists f, script, fuel: nat :: Reports(p, f, script, fuel)) <==> !Clean(p)
  {
    if f: nat, script, fuel: nat :| Reports(p, f, script, fuel) {
      ExecSound(p, p[f], [], World(script, 0), fuel);
    }
    if !Clean(p) {
      var f, w :| 0 <= f < |p| && w in Ways(p[f], []) && (w.kind == BreakC || w.kind == ContinueC);
      EndsExactly(p, p[f], [], w);
      var script, fuel: nat :| EndsAs(p, p[f], [], w, script, fuel);
      assert Reports(p, f, script, fuel);
    }
  }

  // ---- Labels on a statement ----

  /** The statement under a chain of labels. */
  function Core(s: Stmt): (c: Stmt)
    ensures !c.Labelled?
  {
    if s.Labelled? then Core(s.s) else s
  }

  function ChainLabels(s: Stmt, labels: seq<Label>): seq<Label> {
    if s.Labelled? then ChainLabels(s.s, labels + [s.name]) else labels
  }

  /** No label of the chain is given twice. */
  predicate ChainOk(s: Stmt, labels: seq<Label>) {
    s.Labelled? ==> s.name !in labels && ChainOk(s.s, labels + [s.name])
  }

  predicate IsLoopOrSwitch(s: Stmt) {
    s.DoWhile? || s.While? || s.For? || s.ForIn? || s.Switch?
  }

  lemma {:induction false} ChainWays(s: Stmt, labels: seq<Label>, way: Way)
    requires way.kind == BreakC
    ensures way in Ways(s, labels) <==> ChainOk(s, labels) && way in Ways(Core(s), ChainLabels(s, labels))
    ensures forall l | l in labels :: l in ChainLabels(s, labels)
  {
    if s.Labelled? {
      ChainWays(s.s, labels + [s.name], way);
      forall l | l in labels ensures l in ChainLabels(s, labels) {
        assert l in labels + [s.name];
      }
    }
  }

  lemma {:induction false} LoopsAbsorb(core: Stmt, labels: seq<Label>, name: Label)
    requires IsLoopOrSwitch(core) && name in labels
    ensures Way(BreakC, name) !in Ways(core, labels)
  {
    if core.Switch? {
      forall i | 0 <= i <= |core.clauses| ensures Way(BreakC, name) !in ClauseWays(core.clauses, i, labels) {
        ClausesAbsorb(core.clauses, i, labels, name);
      }
      assert Way(BreakC, name) !in SwitchWays(core.clauses, labels);
    }
  }

  lemma {:induction false} ClausesAbsorb(clauses: seq<Clause>, i: nat, labels: seq<Label>, name: Label)
    requires i <= |clauses| && name in labels
    ensures Way(BreakC, name) !in ClauseWays(clauses, i, labels)
    decreases |clauses| - i
  {
    if i < |clauses| {
      ClausesAbsorb(clauses, i + 1, labels, name);
    }
  }

  /**
   * A break that names the label of a statement gets out of it exactly when the statement under the chain of labels
   * is neither loop nor switch, no label of the chain is given twice, and that statement has this break among its ways.
   */
  lemma BreakGetsOut(p: Program, s: Stmt, labels: seq<Label>)
    requires s.Labelled?
    ensures CanEnd(p, s, labels, Way(BreakC, s.name)) <==>
      ChainOk(s, labels) && !IsLoopOrSwitch(Core(s)) && Way(BreakC, s.name) in Ways(Core(s), [])
  {
    var way := Way(BreakC, s.name);
    EndsExactly(p, s, labels, way);
    ChainWays(s, labels, way);
    ChainWays(s.s, labels + [s.name], way);
    if IsLoopOrSwitch(Core(s)) {
      assert s.name in labels + [s.name];
      LoopsAbsorb(Core(s), ChainLabels(s, labels), s.name);
    }
  }
}
