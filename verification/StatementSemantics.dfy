/** Section 12 of ECMA-262 as rules: how a statement that is directly enclosed by labels ends, and which choices it takes
    from the script on the way. The reference semantics of `Statements` ends so exactly when the rules derive it. Where
    the program departs from the standard the rule is the program's: a loop has the value of its last round only, a while
    loop none when its condition ends it, and a break leaves none behind. */
module StatementSemantics {
  import opened Wrappers
  import opened Statements

  /**
   * A derivation: the first premise of the rule applied, with what it comes to and its own derivation, and then the
   * derivation of what the rule asks for next.
   */
  datatype Derivation =
    | Axiom
    | Evaluated(r: ExprResult, w: World, how: Derivation, next: Derivation)
    | Completed(c: Completion, w: World, how: Derivation, next: Derivation)
    | Selected(k: CaseSearch, w: World, how: Derivation, next: Derivation)

  /** A break or continue without a label, or with one of these. */
  predicate Hits(c: Completion, labels: seq<Label>) {
    c.target == "" || exists i :: 0 <= i < |labels| && labels[i] == c.target
  }

  function Normal(v: nat): Completion {
    Completion(NormalC, v, "")
  }

  function Throwing(v: nat): Completion {
    Completion(ThrowC, v, "")
  }

  /** How the body `b` of a loop with these labels ended, the loop goes on. */
  predicate Again(b: Completion, labels: seq<Label>) {
    b.kind == NormalC || (b.kind == ContinueC && Hits(b, labels))
  }

  /** What the loop ends with when it does not go on. */
  function Out(b: Completion, labels: seq<Label>): Completion {
    if b.kind == BreakC && Hits(b, labels) then Normal(0) else b
  }

  /** What a round that goes on leaves as the loop's completion. */
  function Round(b: Completion): Completion {
    if b.kind == NormalC then b else Normal(0)
  }

  /** What a switch ends with when its clauses end with `b`. */
  function Ended(b: Completion, labels: seq<Label>): Completion {
    if b.kind == BreakC && Hits(b, labels) then Normal(b.result) else b
  }

  /** The default clause, or the end when there is none. */
  predicate IsDefault(clauses: seq<Clause>, k: nat) {
    && k <= |clauses| && (forall j :: 0 <= j < k ==> clauses[j].isCase)
    && (k < |clauses| ==> !clauses[k].isCase)
  }

  // ---- The rules ----

  /** One expression is evaluated. */
  predicate Evaluates(d: Derivation, p: Program, w: World, r: ExprResult, w': World)
    decreases d, 0
  {
    && w.script != []
    && var rest := World(w.script[1..], w.leaks);
       match w.script[0]
       case Value(v) => r == Val(v) && w' == rest
       case Raise(v) => r == Raised(v) && w' == rest
       case Call(f) =>
         if f >= |p| then r == Raised(0) && w' == rest
         else
           d.Evaluated? && Calls(d.how, p, f, rest, d.r, d.w) &&
           if d.r.Raised? then r == d.r && w' == d.w else Evaluates(d.next, p, d.w, r, w')
  }

  /** The same for an expression that may be missing. */
  predicate EvaluatesIf(d: Derivation, given: bool, otherwise: nat, p: Program, w: World, r: ExprResult, w': World)
    decreases d, 1
  {
    if given then Evaluates(d, p, w, r, w') else r == Val(otherwise) && w' == w
  }

  /** A function is called; a break or continue that gets out of its body is an error of its own. */
  predicate Calls(d: Derivation, p: Program, f: nat, w: World, r: ExprResult, w': World)
    decreases d, 0
  {
    && f < |p| && d.Completed? && Runs(d.how, p, p[f], [], w, d.c, d.w)
    && match d.c.kind
       case NormalC => r == Val(0) && w' == d.w
       case ReturnC => r == Val(d.c.result) && w' == d.w
       case ThrowC => r == Raised(d.c.result) && w' == d.w
       case BreakC | ContinueC => r == Raised(2) && w' == World(d.w.script, d.w.leaks + 1)
  }

  predicate Runs(d: Derivation, p: Program, s: Stmt, labels: seq<Label>, w: World, c: Completion, w': World)
    decreases d, 1
  {
    match s
    case Block(_, body) => RunsList(d, p, body, Normal(0), w, c, w')
    case Empty(_) => c == Normal(0) && w' == w
    case Expression(_) =>
      d.Evaluated? && Evaluates(d.how, p, w, d.r, w') && c == if d.r.Raised? then Throwing(d.r.v) else Normal(d.r.v)
    case If(_, thn, els) =>
      d.Evaluated? && Evaluates(d.how, p, w, d.r, d.w) &&
      if d.r.Raised? then c == Throwing(d.r.v) && w' == d.w
      else if d.r.v != 0 then Runs(d.next, p, thn, [], d.w, c, w')
      else if els.Some? then Runs(d.next, p, els.value, [], d.w, c, w')
      else c == Normal(0) && w' == d.w
    case DoWhile(_, body) => RunsDo(d, p, body, labels, w, c, w')
    case While(_, body) => RunsWhile(d, p, body, labels, w, c, w')
    case For(_, init, _, _, _) =>
      if init.None? then RunsFor(d, p, s, labels, Normal(0), w, c, w')
      else d.Completed? && Runs(d.how, p, init.value, [], w, d.c, d.w) && RunsFor(d.next, p, s, labels, Normal(0), d.w, c, w')
    case ForIn(_, firstAssigned, _, _) =>
      d.Evaluated? && EvaluatesIf(d.how, firstAssigned, 0, p, w, d.r, d.w) &&
      if d.r.Raised? then c == Throwing(d.r.v) && w' == d.w else RunsNames(d.next, p, s, labels, d.w, c, w')
    case Continue(_, target) => c == Completion(ContinueC, 0, target) && w' == w
    case Break(_, target) => c == Completion(BreakC, 0, target) && w' == w
    case Return(_, hasValue) =>
      if !hasValue then c == Completion(ReturnC, 0, "") && w' == w
      else
        d.Evaluated? && Evaluates(d.how, p, w, d.r, w') &&
        c == if d.r.Raised? then Throwing(d.r.v) else Completion(ReturnC, d.r.v, "")
    case With(_, body) =>
      d.Evaluated? && Evaluates(d.how, p, w, d.r, d.w) &&
      if d.r.Raised? then c == Throwing(d.r.v) && w' == d.w else Runs(d.next, p, body, [], d.w, c, w')
    case Labelled(_, name, body) =>
      if name in labels then c == Throwing(1) && w' == w
      else d.Completed? && Runs(d.how, p, body, labels + [name], w, c, w')
    case Switch(_, clauses) =>
      d.Evaluated? && Evaluates(d.how, p, w, d.r, d.w) &&
      if d.r.Raised? then c == Throwing(d.r.v) && w' == d.w else RunsSwitch(d.next, p, clauses, d.r.v, labels, d.w, c, w')
    case Throw(_) => d.Evaluated? && Evaluates(d.how, p, w, d.r, w') && c == Throwing(d.r.v)
    case Try(_, block, handler, finalizer) =>
      d.Completed? && Runs(d.how, p, block, [], w, d.c, d.w) &&
      if d.c.kind == ThrowC && handler.Some? then RunsHandler(d.next, p, handler.value, finalizer, d.w, c, w')
      else RunsFinally(d.next, p, finalizer, d.c, d.w, c, w')
  }

  predicate RunsHandler(
    d: Derivation, p: Program, handler: Stmt, finalizer: Option<Stmt>, w: World, c: Completion, w': World)
    decreases d, 0
  {
    d.Completed? && Runs(d.how, p, handler, [], w, d.c, d.w) && RunsFinally(d.next, p, finalizer, d.c, d.w, c, w')
  }

  /** The finalizer behind a block or handler that ended with `b`. */
  predicate RunsFinally(d: Derivation, p: Program, finalizer: Option<Stmt>, b: Completion, w: World, c: Completion, w': World)
    decreases d, 0
  {
    if finalizer.None? then c == b && w' == w
    else d.Completed? && Runs(d.how, p, finalizer.value, [], w, d.c, w') && c == if d.c.kind == NormalC then b else d.c
  }

  /** Statements one after the other until one ends abruptly; `last` is how the one before ended. */
  predicate RunsList(d: Derivation, p: Program, l: seq<Stmt>, last: Completion, w: World, c: Completion, w': World)
    decreases d, 0
  {
    if l == [] then c == last && w' == w
    else
      d.Completed? && Runs(d.how, p, l[0], [], w, d.c, d.w) &&
      if d.c.kind != NormalC then c == d.c && w' == d.w else RunsList(d.next, p, l[1..], d.c, d.w, c, w')
  }

  /** Body, then condition. */
  predicate RunsDo(d: Derivation, p: Program, body: Stmt, labels: seq<Label>, w: World, c: Completion, w': World)
    decreases d, 0
  {
    d.Completed? && Runs(d.how, p, body, [], w, d.c, d.w) &&
    if !Again(d.c, labels) then c == Out(d.c, labels) && w' == d.w
    else var e := d.next;
      e.Evaluated? && Evaluates(e.how, p, d.w, e.r, e.w) &&
      if e.r.Raised? then c == Throwing(e.r.v) && w' == e.w
      else if e.r.v != 0 then RunsDo(e.next, p, body, labels, e.w, c, w')
      else c == Round(d.c) && w' == e.w
  }

  /** Condition, then body. */
  predicate RunsWhile(d: Derivation, p: Program, body: Stmt, labels: seq<Label>, w: World, c: Completion, w': World)
    decreases d, 0
  {
    d.Evaluated? && Evaluates(d.how, p, w, d.r, d.w) &&
    if d.r.Raised? then c == Throwing(d.r.v) && w' == d.w
    else if d.r.v == 0 then c == Normal(0) && w' == d.w
    else var e := d.next;
      e.Completed? && Runs(e.how, p, body, [], d.w, e.c, e.w) &&
      if Again(e.c, labels) then RunsWhile(e.next, p, body, labels, e.w, c, w')
      else c == Out(e.c, labels) && w' == e.w
  }

  /** Condition, body, iteration expression. Without a condition the loop goes on. */
  predicate RunsFor(
    d: Derivation, p: Program, s: Stmt, labels: seq<Label>, last: Completion, w: World, c: Completion, w': World)
    requires s.For?
    decreases d, 0
  {
    d.Evaluated? && EvaluatesIf(d.how, s.hasCond, 1, p, w, d.r, d.w) &&
    if d.r.Raised? then c == Throwing(d.r.v) && w' == d.w
    else if d.r.v == 0 then c == last && w' == d.w
    else RunsForBody(d.next, p, s, labels, d.w, c, w')
  }

  predicate RunsForBody(d: Derivation, p: Program, s: Stmt, labels: seq<Label>, w: World, c: Completion, w': World)
    requires s.For?
    decreases d, 0
  {
    d.Completed? && Runs(d.how, p, s.s, [], w, d.c, d.w) &&
    if !Again(d.c, labels) then c == Out(d.c, labels) && w' == d.w
    else var e := d.next;
      e.Evaluated? && EvaluatesIf(e.how, s.hasIter, 0, p, d.w, e.r, e.w) &&
      if e.r.Raised? then c == Throwing(e.r.v) && w' == e.w
      else RunsFor(e.next, p, s, labels, Round(d.c), e.w, c, w')
  }

  /** The object of a for-in statement; its value stands for how many names it has. */
  predicate RunsNames(d: Derivation, p: Program, s: Stmt, labels: seq<Label>, w: World, c: Completion, w': World)
    requires s.ForIn?
    decreases d, 0
  {
    d.Evaluated? && Evaluates(d.how, p, w, d.r, d.w) &&
    if d.r.Raised? then c == Throwing(d.r.v) && w' == d.w
    else RunsIn(d.next, p, s, labels, d.r.v, Normal(0), d.w, c, w')
  }

  /** One round for each of the `n` names that are left. */
  predicate RunsIn(
    d: Derivation, p: Program, s: Stmt, labels: seq<Label>, n: nat, last: Completion, w: World, c: Completion, w': World)
    requires s.ForIn?
    decreases d, 0
  {
    if n == 0 then c == last && w' == w
    else
      d.Evaluated? && EvaluatesIf(d.how, s.eachEvaluated, 0, p, w, d.r, d.w) &&
      if d.r.Raised? then c == Throwing(d.r.v) && w' == d.w
      else var e := d.next;
        e.Completed? && Runs(e.how, p, s.s, [], d.w, e.c, e.w) &&
        if Again(e.c, labels) then RunsIn(e.next, p, s, labels, n - 1, Round(e.c), e.w, c, w')
        else c == Out(e.c, labels) && w' == e.w
  }

  /** A switch on the value `v`; a break ends it normally. */
  predicate RunsSwitch(
    d: Derivation, p: Program, clauses: seq<Clause>, v: nat, labels: seq<Label>, w: World, c: Completion, w': World)
    decreases d, 0
  {
    d.Selected? && Selects(d.how, p, clauses, v, 0, w, d.k, d.w) &&
    match d.k
    case Missed(e) => c == Throwing(e) && w' == d.w
    case Hit(i) =>
      var e := d.next;
      i <= |clauses| && e.Completed? && RunsClauses(e.how, p, clauses, i, Normal(0), d.w, e.c, w') &&
      c == Ended(e.c, labels)
  }

  /**
   * The case expressions are evaluated from the i-th clause on until one equals `v`: that clause is the first to run,
   * otherwise the default clause, otherwise none.
   */
  predicate Selects(
    d: Derivation, p: Program, clauses: seq<Clause>, v: nat, i: nat, w: World, k: CaseSearch, w': World)
    requires i <= |clauses|
    decreases d, |clauses| - i
  {
    if i == |clauses| then k.Hit? && IsDefault(clauses, k.index) && w' == w
    else if !clauses[i].isCase then Selects(d, p, clauses, v, i + 1, w, k, w')
    else
      d.Evaluated? && Evaluates(d.how, p, w, d.r, d.w) &&
      if d.r.Raised? then k == Missed(d.r.v) && w' == d.w
      else if d.r.v == v then k == Hit(i) && w' == d.w
      else Selects(d.next, p, clauses, v, i + 1, d.w, k, w')
  }

  /** The clauses from the i-th on, falling through. */
  predicate RunsClauses(
    d: Derivation, p: Program, clauses: seq<Clause>, i: nat, last: Completion, w: World, c: Completion, w': World)
    requires i <= |clauses|
    decreases d, 0
  {
    if i == |clauses| then c == last && w' == w
    else
      d.Completed? && RunsList(d.how, p, clauses[i].body, last, w, d.c, d.w) &&
      if d.c.kind != NormalC then c == d.c && w' == d.w else RunsClauses(d.next, p, clauses, i + 1, d.c, d.w, c, w')
  }

  /** How a statement ends: some derivation has it. */
  ghost predicate Ends(p: Program, s: Stmt, labels: seq<Label>, w: World, c: Completion, w': World) {
    exists d :: Runs(d, p, s, labels, w, c, w')
  }

  /** What a call comes to. */
  ghost predicate Returns(p: Program, f: nat, w: World, r: ExprResult, w': World) {
    exists d :: Calls(d, p, f, w, r, w')
  }

  // ---- What the rules derive is executed ----

  function Height(d: Derivation): (n: nat)
    ensures n > 0
  {
    if d.Axiom? then 1 else 1 + if Height(d.how) < Height(d.next) then Height(d.next) else Height(d.how)
  }

  lemma Targets(b: Completion, labels: seq<Label>)
    ensures Hits(b, labels) <==> b.InSet(labels)
    ensures Handle(b, labels) == if Again(b, labels) then (Round(b), false) else (Out(b, labels), true)
  {}

  lemma {:induction false} DefaultIs(clauses: seq<Clause>, k: nat)
    ensures IsDefault(clauses, k) <==> k == DefaultIndex(clauses)
  {
    if clauses != [] && clauses[0].isCase {
      var rest := clauses[1..];
      assert forall j :: 0 < j < |clauses| ==> clauses[j] == rest[j - 1];
      if k > 0 {
        DefaultIs(rest, k - 1);
        if IsDefault(rest, k - 1) {
          assert forall j :: 0 < j < k ==> clauses[j] == rest[j - 1];
        }
        if IsDefault(clauses, k) {
          assert forall j :: 0 <= j < k - 1 ==> rest[j] == clauses[j + 1];
        }
      }
    }
  }

  lemma {:induction false} EvaluatesSound(d: Derivation, p: Program, w: World, r: ExprResult, w': World, fuel: nat)
    requires Evaluates(d, p, w, r, w') && Height(d) <= fuel
    ensures Eval(p, w, fuel) == (Done(r), w')
    decreases d, 0
  {
    var rest := World(w.script[1..], w.leaks);
    if w.script[0].Call? && w.script[0].f < |p| {
      hide Exec, Calls;
      CallsSound(d.how, p, w.script[0].f, rest, d.r, d.w, fuel - 1);
      if d.r.Val? {
        EvaluatesSound(d.next, p, d.w, r, w', fuel - 1);
      }
    }
  }

  lemma {:induction false} CallsSound(d: Derivation, p: Program, f: nat, w: World, r: ExprResult, w': World, fuel: nat)
    requires Calls(d, p, f, w, r, w') && Height(d) <= fuel
    ensures f < |p|
    ensures var (o, w1) := Exec(p, p[f], [], w, fuel); o.Done? && r == CallResult(o.value) && w' == Leak(w1, o.value)
    decreases d, 0
  {
    hide Exec, Runs;
    RunsSound(d.how, p, p[f], [], w, d.c, d.w, fuel);
  }

  function EvalIf(p: Program, given: bool, otherwise: nat, w: World, fuel: nat): (Outcome<ExprResult>, World) {
    if given then Eval(p, w, fuel) else (Done(Val(otherwise)), w)
  }

  lemma {:induction false} EvaluatesIfSound(
    d: Derivation, given: bool, otherwise: nat, p: Program, w: World, r: ExprResult, w': World, fuel: nat)
    requires EvaluatesIf(d, given, otherwise, p, w, r, w') && Height(d) <= fuel
    ensures EvalIf(p, given, otherwise, w, fuel) == (Done(r), w')
    decreases d, 1
  {
    if given {
      EvaluatesSound(d, p, w, r, w', fuel);
    }
  }

  lemma {:induction false} RunsSound(
    d: Derivation, p: Program, s: Stmt, labels: seq<Label>, w: World, c: Completion, w': World, fuel: nat)
    requires Runs(d, p, s, labels, w, c, w') && Height(d) <= fuel
    ensures Exec(p, s, labels, w, fuel) == (Done(c), w')
    decreases d, 1
  {
    match s
    case Block(_, body) => ListSound(d, p, body, Normal(0), w, c, w', fuel);
    case DoWhile(_, _) => DoSound(d, p, s, labels, w, c, w', fuel);
    case While(_, _) => WhileSound(d, p, s, labels, w, c, w', fuel);
    case For(_, init, _, _, _) =>
      if init.None? {
        ForSound(d, p, s, labels, Normal(0), w, c, w', fuel);
      } else {
        RunsSound(d.how, p, init.value, [], w, d.c, d.w, fuel);
        ForSound(d.next, p, s, labels, Normal(0), d.w, c, w', fuel);
      }
    case ForIn(_, _, _, _) => ForInSound(d, p, s, labels, w, c, w', fuel);
    case Labelled(_, name, body) =>
      if name !in labels { RunsSound(d.how, p, body, labels + [name], w, c, w', fuel); }
    case Try(_, _, _, _) => TrySound(d, p, s, labels, w, c, w', fuel);
    case Switch(_, _) => SwitchSound(d, p, s, labels, w, c, w', fuel);
    case Empty(_) =>
    case Continue(_, _) =>
    case Break(_, _) =>
    case Expression(_) => EvaluatesSound(d.how, p, w, d.r, w', fuel);
    case Throw(_) => EvaluatesSound(d.how, p, w, d.r, w', fuel);
    case Return(_, hasValue) => if hasValue { EvaluatesSound(d.how, p, w, d.r, w', fuel); }
    case If(_, thn, els) =>
      EvaluatesSound(d.how, p, w, d.r, d.w, fuel);
      if d.r.Val? && d.r.v != 0 {
        RunsSound(d.next, p, thn, [], d.w, c, w', fuel);
      } else if d.r.Val? && els.Some? {
        RunsSound(d.next, p, els.value, [], d.w, c, w', fuel);
      }
    case With(_, body) =>
      EvaluatesSound(d.how, p, w, d.r, d.w, fuel);
      if d.r.Val? { RunsSound(d.next, p, body, [], d.w, c, w', fuel); }
  }

  lemma {:induction false} ListSound(
    d: Derivation, p: Program, l: seq<Stmt>, last: Completion, w: World, c: Completion, w': World, fuel: nat)
    requires RunsList(d, p, l, last, w, c, w') && Height(d) <= fuel
    ensures ExecList(p, l, last, w, fuel) == (Done(c), w')
    decreases d, 0
  {
    if l != [] {
      RunsSound(d.how, p, l[0], [], w, d.c, d.w, fuel);
      if !d.c.Abrupt() { ListSound(d.next, p, l[1..], d.c, d.w, c, w', fuel); }
    }
  }

  lemma {:induction false} DoSound(
    d: Derivation, p: Program, s: Stmt, labels: seq<Label>, w: World, c: Completion, w': World, fuel: nat)
    requires s.DoWhile? && RunsDo(d, p, s.s, labels, w, c, w') && Height(d) <= fuel
    ensures LoopDo(p, s, labels, w, fuel) == (Done(c), w')
    decreases d, 0
  {
    RunsSound(d.how, p, s.s, [], w, d.c, d.w, fuel - 1);
    Targets(d.c, labels);
    hide Handle, Again, Out, Round;
    if Again(d.c, labels) {
      EvaluatesSound(d.next.how, p, d.w, d.next.r, d.next.w, fuel - 1);
      if d.next.r.Val? && d.next.r.v != 0 { DoSound(d.next.next, p, s, labels, d.next.w, c, w', fuel - 1); }
    }
  }

  lemma {:induction false} WhileSound(
    d: Derivation, p: Program, s: Stmt, labels: seq<Label>, w: World, c: Completion, w': World, fuel: nat)
    requires s.While? && RunsWhile(d, p, s.s, labels, w, c, w') && Height(d) <= fuel
    ensures LoopWhile(p, s, labels, w, fuel) == (Done(c), w')
    decreases d, 0
  {
    EvaluatesSound(d.how, p, w, d.r, d.w, fuel - 1);
    if d.r.Val? && d.r.v != 0 {
      var e := d.next;
      RunsSound(e.how, p, s.s, [], d.w, e.c, e.w, fuel - 1);
      Targets(e.c, labels);
      hide Handle, Again, Out, Round;
      if Again(e.c, labels) { WhileSound(e.next, p, s, labels, e.w, c, w', fuel - 1); }
    }
  }

  lemma {:induction false} ForSound(
    d: Derivation, p: Program, s: Stmt, labels: seq<Label>, last: Completion, w: World, c: Completion, w': World, fuel: nat)
    requires s.For? && RunsFor(d, p, s, labels, last, w, c, w') && Height(d) <= fuel
    ensures LoopFor(p, s, labels, last, w, fuel) == (Done(c), w')
    decreases d, 0
  {
    EvaluatesIfSound(d.how, s.hasCond, 1, p, w, d.r, d.w, fuel - 1);
    if d.r.Val? && d.r.v != 0 {
      var b := d.next;
      RunsSound(b.how, p, s.s, [], d.w, b.c, b.w, fuel - 1);
      Targets(b.c, labels);
      hide Handle, Again, Out, Round;
      if Again(b.c, labels) {
        var e := b.next;
        assert Height(e) < Height(b);
        EvaluatesIfSound(e.how, s.hasIter, 0, p, b.w, e.r, e.w, fuel - 1);
        if e.r.Val? { ForSound(e.next, p, s, labels, Round(b.c), e.w, c, w', fuel - 1); }
      }
    }
  }

  lemma {:induction false} ForInSound(
    d: Derivation, p: Program, s: Stmt, labels: seq<Label>, w: World, c: Completion, w': World, fuel: nat)
    requires s.ForIn? && Runs(d, p, s, labels, w, c, w') && Height(d) <= fuel
    ensures Exec(p, s, labels, w, fuel) == (Done(c), w')
    decreases d, 0
  {
    EvaluatesIfSound(d.how, s.firstAssigned, 0, p, w, d.r, d.w, fuel);
    if d.r.Val? {
      var e := d.next;
      EvaluatesSound(e.how, p, d.w, e.r, e.w, fuel);
      if e.r.Val? { InSound(e.next, p, s, labels, e.r.v, Normal(0), e.w, c, w', fuel); }
    }
  }

  lemma {:induction false} InSound(
    d: Derivation, p: Program, s: Stmt, labels: seq<Label>, n: nat, last: Completion,
    w: World, c: Completion, w': World, fuel: nat)
    requires s.ForIn? && RunsIn(d, p, s, labels, n, last, w, c, w') && Height(d) <= fuel
    ensures LoopIn(p, s, labels, n, last, w, fuel) == (Done(c), w')
    decreases d, 0
  {
    if n > 0 {
      EvaluatesIfSound(d.how, s.eachEvaluated, 0, p, w, d.r, d.w, fuel - 1);
      if d.r.Val? {
        var e := d.next;
        RunsSound(e.how, p, s.s, [], d.w, e.c, e.w, fuel - 1);
        Targets(e.c, labels);
        hide Handle, Again, Out, Round;
        if Again(e.c, labels) { InSound(e.next, p, s, labels, n - 1, Round(e.c), e.w, c, w', fuel - 1); }
      }
    }
  }

  lemma {:induction false} TrySound(
    d: Derivation, p: Program, s: Stmt, labels: seq<Label>, w: World, c: Completion, w': World, fuel: nat)
    requires s.Try? && Runs(d, p, s, labels, w, c, w') && Height(d) <= fuel
    ensures Exec(p, s, labels, w, fuel) == (Done(c), w')
    decreases d, 0
  {
    RunsSound(d.how, p, s.block, [], w, d.c, d.w, fuel);
    if d.c.kind == ThrowC && s.handler.Some? {
      var h := d.next;
      RunsSound(h.how, p, s.handler.value, [], d.w, h.c, h.w, fuel);
      FinallySound(h.next, p, s.finalizer, h.c, h.w, c, w', fuel);
    } else {
      FinallySound(d.next, p, s.finalizer, d.c, d.w, c, w', fuel);
    }
  }

  lemma {:induction false} FinallySound(
    d: Derivation, p: Program, finalizer: Option<Stmt>, b: Completion, w: World, c: Completion, w': World, fuel: nat)
    requires RunsFinally(d, p, finalizer, b, w, c, w') && Height(d) <= fuel
    ensures if finalizer.None? then c == b && w' == w else
      var (o, w1) := Exec(p, finalizer.value, [], w, fuel);
      o.Done? && w1 == w' && c == if o.value.Abrupt() then o.value else b
    decreases d, 0
  {
    if finalizer.Some? {
      RunsSound(d.how, p, finalizer.value, [], w, d.c, w', fuel);
    }
  }

  lemma {:induction false} SwitchSound(
    d: Derivation, p: Program, s: Stmt, labels: seq<Label>, w: World, c: Completion, w': World, fuel: nat)
    requires s.Switch? && Runs(d, p, s, labels, w, c, w') && Height(d) <= fuel
    ensures Exec(p, s, labels, w, fuel) == (Done(c), w')
    decreases d, 0
  {
    EvaluatesSound(d.how, p, w, d.r, d.w, fuel);
    if d.r.Val? {
      var e := d.next;
      SelectsSound(e.how, p, s.clauses, d.r.v, 0, d.w, e.k, e.w, fuel);
      if e.k.Hit? {
        assert Height(e.next) <= fuel;
        ClausesSound(e.next.how, p, s.clauses, e.k.index, labels, Normal(0), e.w, e.next.c, w', fuel);
      }
    }
  }

  lemma {:induction false} SelectsSound(
    d: Derivation, p: Program, clauses: seq<Clause>, v: nat, i: nat, w: World, k: CaseSearch, w': World, fuel: nat)
    requires i <= |clauses| && Selects(d, p, clauses, v, i, w, k, w') && Height(d) <= fuel
    ensures FindCase(p, clauses, v, i, w, fuel) == (Done(k), w')
    decreases d, |clauses| - i
  {
    if i == |clauses| {
      DefaultIs(clauses, k.index);
    } else if !clauses[i].isCase {
      SelectsSound(d, p, clauses, v, i + 1, w, k, w', fuel);
    } else {
      EvaluatesSound(d.how, p, w, d.r, d.w, fuel);
      if d.r.Val? && d.r.v != v { SelectsSound(d.next, p, clauses, v, i + 1, d.w, k, w', fuel); }
    }
  }

  lemma {:induction false} ClausesSound(
    d: Derivation, p: Program, clauses: seq<Clause>, i: nat, labels: seq<Label>, last: Completion,
    w: World, c: Completion, w': World, fuel: nat)
    requires i <= |clauses| && RunsClauses(d, p, clauses, i, last, w, c, w') && Height(d) <= fuel
    requires last.kind == NormalC
    ensures RunClauses(p, clauses, i, labels, last, w, fuel) == (Done(Ended(c, labels)), w')
    decreases d, 0
  {
    if i < |clauses| {
      ListSound(d.how, p, clauses[i].body, last, w, d.c, d.w, fuel);
      Targets(d.c, labels);
      if d.c.kind == NormalC { ClausesSound(d.next, p, clauses, i + 1, labels, d.c, d.w, c, w', fuel); }
    }
  }

  // ---- What is executed the rules derive ----

  lemma {:induction false} EvalDerived(p: Program, w: World, fuel: nat) returns (d: Derivation)
    requires Eval(p, w, fuel).0.Done?
    ensures var (o, w') := Eval(p, w, fuel); Evaluates(d, p, w, o.value, w')
    decreases fuel, 0, 0
  {
    d := Axiom;
    if w.script[0].Call? && w.script[0].f < |p| {
      var rest := w.(script := w.script[1..]);
      assert rest == World(w.script[1..], w.leaks);
      var how, r, w1 := CallDerived(p, w.script[0].f, rest, fuel - 1);
      var next := Axiom;
      hide Exec, Calls;
      if r.Val? { next := EvalDerived(p, w1, fuel - 1); }
      d := Evaluated(r, w1, how, next);
    }
  }

  lemma {:induction false} CallDerived(p: Program, f: nat, w: World, fuel: nat) returns (d: Derivation, r: ExprResult, w': World)
    requires f < |p| && Exec(p, p[f], [], w, fuel).0.Done?
    ensures var (o, w1) := Exec(p, p[f], [], w, fuel); r == CallResult(o.value) && w' == Leak(w1, o.value)
    ensures Calls(d, p, f, w, r, w')
    decreases fuel, 2, 0
  {
    var how := ExecDerived(p, p[f], [], w, fuel);
    var (o, w1) := Exec(p, p[f], [], w, fuel);
    hide Exec, Runs;
    r, w' := CallResult(o.value), Leak(w1, o.value);
    d := Completed(o.value, w1, how, Axiom);
  }

  lemma {:induction false} EvalIfDerived(p: Program, given: bool, otherwise: nat, w: World, fuel: nat) returns (d: Derivation)
    requires EvalIf(p, given, otherwise, w, fuel).0.Done?
    ensures var (o, w') := EvalIf(p, given, otherwise, w, fuel); EvaluatesIf(d, given, otherwise, p, w, o.value, w')
    decreases fuel, 0, 1
  {
    d := Axiom;
    if given { d := EvalDerived(p, w, fuel); }
  }

  lemma {:induction false} ExecDerived(p: Program, s: Stmt, labels: seq<Label>, w: World, fuel: nat) returns (d: Derivation)
    requires Exec(p, s, labels, w, fuel).0.Done?
    ensures var (o, w') := Exec(p, s, labels, w, fuel); Runs(d, p, s, labels, w, o.value, w')
    decreases fuel, 1, s, 2
  {
    d := Axiom;
    match s
    case Block(_, body) => d := ListDerived(p, body, Normal(0), w, fuel);
    case DoWhile(_, _) => d := DoDerived(p, s, labels, w, fuel);
    case While(_, _) => d := WhileDerived(p, s, labels, w, fuel);
    case For(_, init, _, _, _) =>
      if init.None? {
        d := ForDerived(p, s, labels, Normal(0), w, fuel);
      } else {
        var how := ExecDerived(p, init.value, [], w, fuel);
        var (o, w1) := Exec(p, init.value, [], w, fuel);
        var next := ForDerived(p, s, labels, Normal(0), w1, fuel);
        d := Completed(o.value, w1, how, next);
      }
    case ForIn(_, _, _, _) => d := ForInDerived(p, s, labels, w, fuel);
    case Labelled(_, name, body) =>
      if name !in labels {
        var how := ExecDerived(p, body, labels + [name], w, fuel);
        var (o, w1) := Exec(p, body, labels + [name], w, fuel);
        d := Completed(o.value, w1, how, Axiom);
      }
    case Try(_, _, _, _) => d := TryDerived(p, s, labels, w, fuel);
    case Switch(_, _) => d := SwitchDerived(p, s, labels, w, fuel);
    case Empty(_) =>
    case Continue(_, _) =>
    case Break(_, _) =>
    case Return(_, hasValue) => if hasValue { d := FirstDerived(p, w, fuel); }
    case Expression(_) => d := FirstDerived(p, w, fuel);
    case Throw(_) => d := FirstDerived(p, w, fuel);
    case If(_, thn, els) =>
      d := FirstDerived(p, w, fuel);
      if d.r.Val? && (d.r.v != 0 || els.Some?) {
        var next := ExecDerived(p, if d.r.v != 0 then thn else els.value, [], d.w, fuel);
        d := Evaluated(d.r, d.w, d.how, next);
      }
    case With(_, body) =>
      d := FirstDerived(p, w, fuel);
      if d.r.Val? {
        var next := ExecDerived(p, body, [], d.w, fuel);
        d := Evaluated(d.r, d.w, d.how, next);
      }
  }

  /** A rule whose first premise is an evaluation. */
  lemma {:induction false} FirstDerived(p: Program, w: World, fuel: nat) returns (d: Derivation)
    requires Eval(p, w, fuel).0.Done?
    ensures d.Evaluated? && Evaluates(d.how, p, w, d.r, d.w) && Eval(p, w, fuel) == (Done(d.r), d.w)
    decreases fuel, 0, 1
  {
    var how := EvalDerived(p, w, fuel);
    var (o, w1) := Eval(p, w, fuel);
    d := Evaluated(o.value, w1, how, Axiom);
  }

  lemma {:induction false} ListDerived(p: Program, l: seq<Stmt>, last: Completion, w: World, fuel: nat) returns (d: Derivation)
    requires ExecList(p, l, last, w, fuel).0.Done?
    ensures var (o, w') := ExecList(p, l, last, w, fuel); RunsList(d, p, l, last, w, o.value, w')
    decreases fuel, 1, l, 0
  {
    d := Axiom;
    if l != [] {
      var how := ExecDerived(p, l[0], [], w, fuel);
      var (o, w1) := Exec(p, l[0], [], w, fuel);
      var next := Axiom;
      if !o.value.Abrupt() { next := ListDerived(p, l[1..], o.value, w1, fuel); }
      d := Completed(o.value, w1, how, next);
    }
  }

  lemma {:induction false} DoDerived(p: Program, s: Stmt, labels: seq<Label>, w: World, fuel: nat) returns (d: Derivation)
    requires s.DoWhile? && LoopDo(p, s, labels, w, fuel).0.Done?
    ensures var (o, w') := LoopDo(p, s, labels, w, fuel); RunsDo(d, p, s.s, labels, w, o.value, w')
    decreases fuel, 1, s, 0
  {
    var how := ExecDerived(p, s.s, [], w, fuel - 1);
    var (o, w1) := Exec(p, s.s, [], w, fuel - 1);
    Targets(o.value, labels);
    hide Handle, Again, Out, Round;
    var e := Axiom;
    if Again(o.value, labels) {
      e := FirstDerived(p, w1, fuel - 1);
      if e.r.Val? && e.r.v != 0 {
        var next := DoDerived(p, s, labels, e.w, fuel - 1);
        e := Evaluated(e.r, e.w, e.how, next);
      }
    }
    d := Completed(o.value, w1, how, e);
  }

  lemma {:induction false} WhileDerived(p: Program, s: Stmt, labels: seq<Label>, w: World, fuel: nat) returns (d: Derivation)
    requires s.While? && LoopWhile(p, s, labels, w, fuel).0.Done?
    ensures var (o, w') := LoopWhile(p, s, labels, w, fuel); RunsWhile(d, p, s.s, labels, w, o.value, w')
    decreases fuel, 1, s, 0
  {
    d := FirstDerived(p, w, fuel - 1);
    if d.r.Val? && d.r.v != 0 {
      var how := ExecDerived(p, s.s, [], d.w, fuel - 1);
      var (o, w1) := Exec(p, s.s, [], d.w, fuel - 1);
      Targets(o.value, labels);
      hide Handle, Again, Out, Round;
      var next := Axiom;
      if Again(o.value, labels) { next := WhileDerived(p, s, labels, w1, fuel - 1); }
      d := Evaluated(d.r, d.w, d.how, Completed(o.value, w1, how, next));
    }
  }

  lemma {:induction false} ForDerived(p: Program, s: Stmt, labels: seq<Label>, last: Completion, w: World, fuel: nat)
      returns (d: Derivation)
    requires s.For? && LoopFor(p, s, labels, last, w, fuel).0.Done?
    ensures var (o, w') := LoopFor(p, s, labels, last, w, fuel); RunsFor(d, p, s, labels, last, w, o.value, w')
    decreases fuel, 1, s, 0
  {
    var how := EvalIfDerived(p, s.hasCond, 1, w, fuel - 1);
    var (v, w1) := EvalIf(p, s.hasCond, 1, w, fuel - 1);
    d := Evaluated(v.value, w1, how, Axiom);
    if v.value.Val? && v.value.v != 0 {
      var bodyHow := ExecDerived(p, s.s, [], w1, fuel - 1);
      var (o, w2) := Exec(p, s.s, [], w1, fuel - 1);
      Targets(o.value, labels);
      hide Handle, Again, Out, Round;
      var e := Axiom;
      if Again(o.value, labels) {
        var iterHow := EvalIfDerived(p, s.hasIter, 0, w2, fuel - 1);
        var (u, w3) := EvalIf(p, s.hasIter, 0, w2, fuel - 1);
        var next := Axiom;
        if u.value.Val? { next := ForDerived(p, s, labels, Round(o.value), w3, fuel - 1); }
        e := Evaluated(u.value, w3, iterHow, next);
      }
      d := Evaluated(d.r, d.w, d.how, Completed(o.value, w2, bodyHow, e));
    }
  }

  lemma {:induction false} ForInDerived(p: Program, s: Stmt, labels: seq<Label>, w: World, fuel: nat) returns (d: Derivation)
    requires s.ForIn? && Exec(p, s, labels, w, fuel).0.Done?
    ensures var (o, w') := Exec(p, s, labels, w, fuel); Runs(d, p, s, labels, w, o.value, w')
    decreases fuel, 1, s, 1
  {
    var how := EvalIfDerived(p, s.firstAssigned, 0, w, fuel);
    var (f, w1) := EvalIf(p, s.firstAssigned, 0, w, fuel);
    var e := Axiom;
    if f.value.Val? {
      e := FirstDerived(p, w1, fuel);
      if e.r.Val? {
        var next := InDerived(p, s, labels, e.r.v, Normal(0), e.w, fuel);
        e := Evaluated(e.r, e.w, e.how, next);
      }
    }
    d := Evaluated(f.value, w1, how, e);
  }

  lemma {:induction false} InDerived(p: Program, s: Stmt, labels: seq<Label>, n: nat, last: Completion, w: World, fuel: nat)
      returns (d: Derivation)
    requires s.ForIn? && LoopIn(p, s, labels, n, last, w, fuel).0.Done?
    ensures var (o, w') := LoopIn(p, s, labels, n, last, w, fuel); RunsIn(d, p, s, labels, n, last, w, o.value, w')
    decreases fuel, 1, s, 0
  {
    d := Axiom;
    if n > 0 {
      var how := EvalIfDerived(p, s.eachEvaluated, 0, w, fuel - 1);
      var (v, w1) := EvalIf(p, s.eachEvaluated, 0, w, fuel - 1);
      var e := Axiom;
      if v.value.Val? {
        var bodyHow := ExecDerived(p, s.s, [], w1, fuel - 1);
        var (o, w2) := Exec(p, s.s, [], w1, fuel - 1);
        Targets(o.value, labels);
        hide Handle, Again, Out, Round;
        var next := Axiom;
        if Again(o.value, labels) { next := InDerived(p, s, labels, n - 1, Round(o.value), w2, fuel - 1); }
        e := Completed(o.value, w2, bodyHow, next);
      }
      d := Evaluated(v.value, w1, how, e);
    }
  }

  lemma {:induction false} TryDerived(p: Program, s: Stmt, labels: seq<Label>, w: World, fuel: nat) returns (d: Derivation)
    requires s.Try? && Exec(p, s, labels, w, fuel).0.Done?
    ensures var (o, w') := Exec(p, s, labels, w, fuel); Runs(d, p, s, labels, w, o.value, w')
    decreases fuel, 1, s, 1
  {
    var how := ExecDerived(p, s.block, [], w, fuel);
    var (o, w1) := Exec(p, s.block, [], w, fuel);
    var next;
    if o.value.kind == ThrowC && s.handler.Some? {
      var handlerHow := ExecDerived(p, s.handler.value, [], w1, fuel);
      var (h, w2) := Exec(p, s.handler.value, [], w1, fuel);
      var f := FinallyDerived(p, s, h.value, w2, fuel);
      next := Completed(h.value, w2, handlerHow, f);
    } else {
      next := FinallyDerived(p, s, o.value, w1, fuel);
    }
    d := Completed(o.value, w1, how, next);
  }

  lemma {:induction false} FinallyDerived(p: Program, s: Stmt, b: Completion, w: World, fuel: nat) returns (d: Derivation)
    requires s.Try? && (s.finalizer.Some? ==> Exec(p, s.finalizer.value, [], w, fuel).0.Done?)
    ensures if s.finalizer.None? then RunsFinally(d, p, s.finalizer, b, w, b, w) else
      var (o, w1) := Exec(p, s.finalizer.value, [], w, fuel);
      RunsFinally(d, p, s.finalizer, b, w, if o.value.Abrupt() then o.value else b, w1)
    decreases fuel, 1, s, 0
  {
    d := Axiom;
    if s.finalizer.Some? {
      var how := ExecDerived(p, s.finalizer.value, [], w, fuel);
      var (o, w1) := Exec(p, s.finalizer.value, [], w, fuel);
      d := Completed(o.value, w1, how, Axiom);
    }
  }

  lemma {:induction false} SwitchDerived(p: Program, s: Stmt, labels: seq<Label>, w: World, fuel: nat) returns (d: Derivation)
    requires s.Switch? && Exec(p, s, labels, w, fuel).0.Done?
    ensures var (o, w') := Exec(p, s, labels, w, fuel); Runs(d, p, s, labels, w, o.value, w')
    decreases fuel, 1, s, 0
  {
    d := FirstDerived(p, w, fuel);
    if d.r.Val? {
      var how := SelectDerived(p, s.clauses, d.r.v, 0, d.w, fuel);
      var (k, w1) := FindCase(p, s.clauses, d.r.v, 0, d.w, fuel);
      var next := Axiom;
      if k.value.Hit? {
        var b, w2;
        next, b, w2 := ClausesDerived(p, s.clauses, k.value.index, labels, Normal(0), w1, fuel);
        next := Completed(b, w2, next, Axiom);
      }
      d := Evaluated(d.r, d.w, d.how, Selected(k.value, w1, how, next));
    }
  }

  lemma {:induction false} SelectDerived(p: Program, clauses: seq<Clause>, v: nat, i: nat, w: World, fuel: nat)
      returns (d: Derivation)
    requires i <= |clauses| && FindCase(p, clauses, v, i, w, fuel).0.Done?
    ensures var (k, w') := FindCase(p, clauses, v, i, w, fuel); Selects(d, p, clauses, v, i, w, k.value, w')
    decreases fuel, 0, 2 + |clauses| - i
  {
    d := Axiom;
    if i == |clauses| {
      DefaultIs(clauses, DefaultIndex(clauses));
    } else if !clauses[i].isCase {
      d := SelectDerived(p, clauses, v, i + 1, w, fuel);
    } else {
      d := FirstDerived(p, w, fuel);
      if d.r.Val? && d.r.v != v {
        var next := SelectDerived(p, clauses, v, i + 1, d.w, fuel);
        d := Evaluated(d.r, d.w, d.how, next);
      }
    }
  }

  lemma {:induction false} ClausesDerived(
    p: Program, clauses: seq<Clause>, i: nat, labels: seq<Label>, last: Completion, w: World, fuel: nat)
      returns (d: Derivation, b: Completion, w': World)
    requires i <= |clauses| && last.kind == NormalC && RunClauses(p, clauses, i, labels, last, w, fuel).0.Done?
    ensures RunsClauses(d, p, clauses, i, last, w, b, w')
    ensures RunClauses(p, clauses, i, labels, last, w, fuel) == (Done(Ended(b, labels)), w')
    decreases fuel, 1, clauses, |clauses| - i
  {
    d, b, w' := Axiom, last, w;
    if i < |clauses| {
      var how := ListDerived(p, clauses[i].body, last, w, fuel);
      var (o, w1) := ExecList(p, clauses[i].body, last, w, fuel);
      Targets(o.value, labels);
      var next := Axiom;
      b, w' := o.value, w1;
      if !o.value.Abrupt() { next, b, w' := ClausesDerived(p, clauses, i + 1, labels, o.value, w1, fuel); }
      d := Completed(o.value, w1, how, next);
    }
  }

  // ---- Both ----

  /** A statement is executed to an end, with enough fuel, exactly when the rules derive that end. */
  lemma ExecutedExactly(p: Program, s: Stmt, labels: seq<Label>, w: World, c: Completion, w': World)
    ensures Ends(p, s, labels, w, c, w') <==> exists fuel: nat :: Exec(p, s, labels, w, fuel) == (Done(c), w')
  {
    hide Exec, Runs;
    if Ends(p, s, labels, w, c, w') {
      var d :| Runs(d, p, s, labels, w, c, w');
      RunsSound(d, p, s, labels, w, c, w', Height(d));
    }
    if fuel: nat :| Exec(p, s, labels, w, fuel) == (Done(c), w') {
      var d := ExecDerived(p, s, labels, w, fuel);
    }
  }

  /** The same for calls. */
  lemma CalledExactly(p: Program, f: nat, w: World, r: ExprResult, w': World)
    requires f < |p|
    ensures Returns(p, f, w, r, w') <==> exists fuel: nat ::
      var (o, w1) := Exec(p, p[f], [], w, fuel); o.Done? && r == CallResult(o.value) && w' == Leak(w1, o.value)
  {
    hide Exec, Calls;
    if Returns(p, f, w, r, w') {
      var d :| Calls(d, p, f, w, r, w');
      CallsSound(d, p, f, w, r, w', Height(d));
    }
    if fuel: nat :|
      var (o, w1) := Exec(p, p[f], [], w, fuel); o.Done? && r == CallResult(o.value) && w' == Leak(w1, o.value)
    {
      var d, _, _ := CallDerived(p, f, w, fuel);
    }
  }

  /** So the rules leave no choice. */
  lemma OneEnd(p: Program, s: Stmt, labels: seq<Label>, w: World, c: Completion, v: World, c': Completion, v': World)
    requires Ends(p, s, labels, w, c, v) && Ends(p, s, labels, w, c', v')
    ensures c == c' && v == v'
  {
    hide Exec, Runs;
    var d :| Runs(d, p, s, labels, w, c, v);
    var e :| Runs(e, p, s, labels, w, c', v');
    RunsSound(d, p, s, labels, w, c, v, Height(d) + Height(e));
    RunsSound(e, p, s, labels, w, c', v', Height(d) + Height(e));
  }
}
