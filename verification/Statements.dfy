/** Statements, completions, and a reference semantics in which a loop or switch is told its labels
    syntactically.  What expressions do is left open: a script says, evaluation by evaluation, whether
    a value or an exception results and which functions are called on the way. */
module Statements {
  import opened Wrappers

  type Label = string  // "" where no label is given

  /** `id` stands for the address of the statement object. */
  datatype Stmt =
    | Block(id: nat, body: seq<Stmt>)
    | Empty(id: nat)
    | Expression(id: nat)
    | If(id: nat, thn: Stmt, els: Option<Stmt>)
    | DoWhile(id: nat, s: Stmt)
    | While(id: nat, s: Stmt)
    | For(id: nat, init: Option<Stmt>, hasCond: bool, hasIter: bool, s: Stmt)
    | ForIn(id: nat, firstAssigned: bool, eachEvaluated: bool, s: Stmt)
    | Continue(id: nat, target: Label)
    | Break(id: nat, target: Label)
    | Return(id: nat, hasValue: bool)
    | With(id: nat, s: Stmt)
    | Labelled(id: nat, name: Label, s: Stmt)
    | Switch(id: nat, clauses: seq<Clause>)
    | Throw(id: nat)
    | Try(id: nat, block: Stmt, handler: Option<Stmt>, finalizer: Option<Stmt>)

  /** A clause of a switch; `isCase` is false for `default`. */
  datatype Clause = Clause(isCase: bool, body: seq<Stmt>)

  datatype Kind = NormalC | BreakC | ContinueC | ReturnC | ThrowC

  datatype Completion = Completion(kind: Kind, result: nat, target: Label) {
    predicate Abrupt() {
      kind != NormalC
    }

    predicate InSet(labels: seq<Label>) {
      target == "" || target in labels
    }
  }

  const UNDEFINED: nat := 0
  const NORMAL := Completion(NormalC, UNDEFINED, "")

  // Values standing for error objects.
  const DUPLICATE_LABEL: nat := 1
  const ABRUPT_TERMINATION: nat := 2

  function Thrown(v: nat): Completion {
    Completion(ThrowC, v, "")
  }

  /** What an expression evaluation does next: call a function, or end. */
  datatype Choice = Call(f: nat) | Value(v: nat) | Raise(v: nat)

  /** `leaks` counts the function bodies that ended with a break or continue. */
  datatype World = World(script: seq<Choice>, leaks: nat)

  /** Stopped: the script or the fuel ran out; every finite part of a run is reached with enough of both. */
  datatype Outcome<+T> = Done(value: T) | Stopped

  datatype ExprResult = Val(v: nat) | Raised(v: nat)

  type Program = seq<Stmt>  // the bodies of the functions

  /** break and continue caught by a loop with these labels; `true` means the loop is left with `c`. */
  function Handle(c: Completion, labels: seq<Label>): (Completion, bool) {
    match c.kind
    case BreakC => (if c.InSet(labels) then NORMAL else c, true)
    case ReturnC => (c, true)
    case ThrowC => (c, true)
    case ContinueC => if c.InSet(labels) then (NORMAL, false) else (c, true)
    case NormalC => (c, false)
  }

  function CallResult(c: Completion): ExprResult {
    match c.kind
    case ThrowC => Raised(c.result)
    case ReturnC => Val(c.result)
    case NormalC => Val(UNDEFINED)
    case _ => Raised(ABRUPT_TERMINATION)
  }

  function Leak(w: World, c: Completion): World {
    if c.kind == BreakC || c.kind == ContinueC then w.(leaks := w.leaks + 1) else w
  }

  /** One expression evaluation. */
  function Eval(p: Program, w: World, fuel: nat): (Outcome<ExprResult>, World)
    decreases fuel, 0, 0
  {
    if fuel == 0 || w.script == [] then (Stopped, w) else
    var rest := w.(script := w.script[1..]);
    match w.script[0]
    case Value(v) => (Done(Val(v)), rest)
    case Raise(v) => (Done(Raised(v)), rest)
    case Call(f) =>
      if f >= |p| then (Done(Raised(UNDEFINED)), rest) else
      var (o, w1) := Exec(p, p[f], [], rest, fuel - 1);
      if o.Stopped? then (Stopped, w1) else
      var w2 := Leak(w1, o.value);
      match CallResult(o.value)
      case Raised(v) => (Done(Raised(v)), w2)
      case Val(_) => Eval(p, w2, fuel - 1)
  }

  /** Execution of a statement that is directly enclosed by `labels`, outermost first. */
  function Exec(p: Program, s: Stmt, labels: seq<Label>, w: World, fuel: nat): (Outcome<Completion>, World)
    decreases fuel, 1, s, 1
  {
    match s
    case Block(_, body) => ExecList(p, body, NORMAL, w, fuel)
    case Empty(_) => (Done(NORMAL), w)
    case Expression(_) =>
      var (v, w1) := Eval(p, w, fuel);
      (match v
       case Stopped => Stopped
       case Done(Raised(e)) => Done(Thrown(e))
       case Done(Val(r)) => Done(Completion(NormalC, r, "")), w1)
    case If(_, thn, els) =>
      var (v, w1) := Eval(p, w, fuel);
      (match v
       case Stopped => (Stopped, w1)
       case Done(Raised(e)) => (Done(Thrown(e)), w1)
       case Done(Val(r)) =>
         if r != 0 then Exec(p, thn, [], w1, fuel)
         else if els.Some? then Exec(p, els.value, [], w1, fuel)
         else (Done(NORMAL), w1))
    case DoWhile(_, _) => LoopDo(p, s, labels, w, fuel)
    case While(_, _) => LoopWhile(p, s, labels, w, fuel)
    case For(_, init, _, _, _) =>
      if init.None? then LoopFor(p, s, labels, NORMAL, w, fuel) else
      var (o, w1) := Exec(p, init.value, [], w, fuel);
      if o.Stopped? then (Stopped, w1) else LoopFor(p, s, labels, NORMAL, w1, fuel)
    case ForIn(_, firstAssigned, _, _) =>
      var (f, w1) := if firstAssigned then Eval(p, w, fuel) else (Done(Val(UNDEFINED)), w);
      if f.Stopped? then (Stopped, w1) else
      if f.value.Raised? then (Done(Thrown(f.value.v)), w1) else
      var (v, w2) := Eval(p, w1, fuel);
      (match v
       case Stopped => (Stopped, w2)
       case Done(Raised(e)) => (Done(Thrown(e)), w2)
       case Done(Val(n)) => LoopIn(p, s, labels, n, NORMAL, w2, fuel))
    case Continue(_, target) => (Done(Completion(ContinueC, UNDEFINED, target)), w)
    case Break(_, target) => (Done(Completion(BreakC, UNDEFINED, target)), w)
    case Return(_, hasValue) =>
      if !hasValue then (Done(Completion(ReturnC, UNDEFINED, "")), w) else
      var (v, w1) := Eval(p, w, fuel);
      (match v
       case Stopped => Stopped
       case Done(Raised(e)) => Done(Thrown(e))
       case Done(Val(r)) => Done(Completion(ReturnC, r, "")), w1)
    case With(_, body) =>
      var (v, w1) := Eval(p, w, fuel);
      (match v
       case Stopped => (Stopped, w1)
       case Done(Raised(e)) => (Done(Thrown(e)), w1)
       case Done(Val(_)) => Exec(p, body, [], w1, fuel))
    case Labelled(_, name, body) =>
      if name in labels then (Done(Thrown(DUPLICATE_LABEL)), w) else Exec(p, body, labels + [name], w, fuel)
    case Switch(_, clauses) =>
      var (v, w1) := Eval(p, w, fuel);
      (match v
       case Stopped => (Stopped, w1)
       case Done(Raised(e)) => (Done(Thrown(e)), w1)
       case Done(Val(r)) =>
         var (k, w2) := FindCase(p, clauses, r, 0, w1, fuel);
         match k
         case Stopped => (Stopped, w2)
         case Done(Missed(e)) => (Done(Thrown(e)), w2)
         case Done(Hit(i)) => RunClauses(p, clauses, i, labels, NORMAL, w2, fuel))
    case Throw(_) =>
      var (v, w1) := Eval(p, w, fuel);
      (match v
       case Stopped => Stopped
       case Done(r) => Done(Thrown(r.v)), w1)
    case Try(_, block, handler, finalizer) =>
      var (o, w1) := Exec(p, block, [], w, fuel);
      if o.Stopped? then (Stopped, w1) else
      var (o2, w2) := if o.value.kind == ThrowC && handler.Some? then Exec(p, handler.value, [], w1, fuel) else (o, w1);
      if o2.Stopped? || finalizer.None? then (o2, w2) else
      var (o3, w3) := Exec(p, finalizer.value, [], w2, fuel);
      if o3.Stopped? then (Stopped, w3) else (if o3.value.Abrupt() then o3 else o2, w3)
  }

  /** Statements in sequence until one ends abruptly; `last` is how the one before ended. */
  function ExecList(p: Program, l: seq<Stmt>, last: Completion, w: World, fuel: nat): (Outcome<Completion>, World)
    decreases fuel, 1, l, 0
  {
    if l == [] then (Done(last), w) else
    var (o, w1) := Exec(p, l[0], [], w, fuel);
    if o.Stopped? || o.value.Abrupt() then (o, w1) else ExecList(p, l[1..], o.value, w1, fuel)
  }

  function LoopDo(p: Program, s: Stmt, labels: seq<Label>, w: World, fuel: nat): (Outcome<Completion>, World)
    requires s.DoWhile?
    decreases fuel, 1, s, 0
  {
    if fuel == 0 then (Stopped, w) else
    var (o, w1) := Exec(p, s.s, [], w, fuel - 1);
    if o.Stopped? then (Stopped, w1) else
    var (c, leave) := Handle(o.value, labels);
    if leave then (Done(c), w1) else
    var (v, w2) := Eval(p, w1, fuel - 1);
    match v
    case Stopped => (Stopped, w2)
    case Done(Raised(e)) => (Done(Thrown(e)), w2)
    case Done(Val(r)) => if r != 0 then LoopDo(p, s, labels, w2, fuel - 1) else (Done(c), w2)
  }

  function LoopWhile(p: Program, s: Stmt, labels: seq<Label>, w: World, fuel: nat): (Outcome<Completion>, World)
    requires s.While?
    decreases fuel, 1, s, 0
  {
    if fuel == 0 then (Stopped, w) else
    var (v, w1) := Eval(p, w, fuel - 1);
    match v
    case Stopped => (Stopped, w1)
    case Done(Raised(e)) => (Done(Thrown(e)), w1)
    case Done(Val(r)) =>
      if r == 0 then (Done(NORMAL), w1) else
      var (o, w2) := Exec(p, s.s, [], w1, fuel - 1);
      if o.Stopped? then (Stopped, w2) else
      var (c, leave) := Handle(o.value, labels);
      if leave then (Done(c), w2) else LoopWhile(p, s, labels, w2, fuel - 1)
  }

  /** `last` is the completion of the previous round. */
  function LoopFor(p: Program, s: Stmt, labels: seq<Label>, last: Completion, w: World, fuel: nat): (Outcome<Completion>, World)
    requires s.For?
    decreases fuel, 1, s, 0
  {
    if fuel == 0 then (Stopped, w) else
    var (v, w1) := if s.hasCond then Eval(p, w, fuel - 1) else (Done(Val(1)), w);
    match v
    case Stopped => (Stopped, w1)
    case Done(Raised(e)) => (Done(Thrown(e)), w1)
    case Done(Val(r)) =>
      if r == 0 then (Done(last), w1) else
      var (o, w2) := Exec(p, s.s, [], w1, fuel - 1);
      if o.Stopped? then (Stopped, w2) else
      var (c, leave) := Handle(o.value, labels);
      if leave then (Done(c), w2) else
      var (u, w3) := if s.hasIter then Eval(p, w2, fuel - 1) else (Done(Val(UNDEFINED)), w2);
      match u
      case Stopped => (Stopped, w3)
      case Done(Raised(e)) => (Done(Thrown(e)), w3)
      case Done(Val(_)) => LoopFor(p, s, labels, c, w3, fuel - 1)
  }

  /** `n` property names are left. */
  function LoopIn(p: Program, s: Stmt, labels: seq<Label>, n: nat, last: Completion, w: World, fuel: nat): (Outcome<Completion>, World)
    requires s.ForIn?
    decreases fuel, 1, s, 0
  {
    if fuel == 0 then (Stopped, w) else
    if n == 0 then (Done(last), w) else
    var (v, w1) := if s.eachEvaluated then Eval(p, w, fuel - 1) else (Done(Val(UNDEFINED)), w);
    match v
    case Stopped => (Stopped, w1)
    case Done(Raised(e)) => (Done(Thrown(e)), w1)
    case Done(Val(_)) =>
      var (o, w2) := Exec(p, s.s, [], w1, fuel - 1);
      if o.Stopped? then (Stopped, w2) else
      var (c, leave) := Handle(o.value, labels);
      if leave then (Done(c), w2) else LoopIn(p, s, labels, n - 1, c, w2, fuel - 1)
  }

  datatype CaseSearch = Hit(index: nat) | Missed(e: nat)

  function DefaultIndex(clauses: seq<Clause>): (i: nat)
    ensures i <= |clauses|
  {
    if clauses == [] then 0 else if !clauses[0].isCase then 0 else 1 + DefaultIndex(clauses[1..])
  }

  /** The clause to start with: the first case whose value is `r`, else the default, else none. */
  function FindCase(p: Program, clauses: seq<Clause>, r: nat, i: nat, w: World, fuel: nat): (res: (Outcome<CaseSearch>, World))
    requires i <= |clauses|
    ensures res.0.Done? && res.0.value.Hit? ==> res.0.value.index <= |clauses|
    decreases fuel, 0, 1 + |clauses| - i
  {
    if i == |clauses| then (Done(Hit(DefaultIndex(clauses))), w)
    else if !clauses[i].isCase then FindCase(p, clauses, r, i + 1, w, fuel)
    else
      var (v, w1) := Eval(p, w, fuel);
      match v
      case Stopped => (Stopped, w1)
      case Done(Raised(e)) => (Done(Missed(e)), w1)
      case Done(Val(x)) => if x == r then (Done(Hit(i)), w1) else FindCase(p, clauses, r, i + 1, w1, fuel)
  }

  /** Clauses from the i-th on, falling through. */
  function RunClauses(p: Program, clauses: seq<Clause>, i: nat, labels: seq<Label>, last: Completion, w: World, fuel: nat):
      (Outcome<Completion>, World)
    requires i <= |clauses|
    decreases fuel, 1, clauses, |clauses| - i
  {
    if i == |clauses| then (Done(last), w) else
    var (o, w1) := ExecList(p, clauses[i].body, last, w, fuel);
    if o.Stopped? then (Stopped, w1)
    else if o.value.Abrupt() then
      (Done(if o.value.kind == BreakC && o.value.InSet(labels) then Completion(NormalC, o.value.result, "") else o.value), w1)
    else RunClauses(p, clauses, i + 1, labels, o.value, w1, fuel)
  }
}
