/** Stringifying object graphs: the stack-based cycle check, and what text comes out. */
module JsonGraph {
  import opened Wrappers
  import opened Characters
  import opened JsonText
  import opened JsonRoundTrip

  type Id = nat

  /** What a property or an element holds. Numbers that are not finite have no text of their own. */
  datatype Val = Undefined | NotFinite | Prim(scalar: Json) | Ref(id: Id)

  datatype Field = Field(key: Text, value: Val)

  /** An object: a function, a wrapped primitive, an array, or a plain object with its enumerable properties. */
  datatype Node = FunctionNode | Wrapper(inner: Val) | ArrayNode(items: seq<Val>) | ObjectNode(fields: seq<Field>)

  type Graph = map<Id, Node>

  predicate ValOk(g: Graph, v: Val) {
    match v
    case Prim(s) => WellFormed(s) && !s.Arr? && !s.Obj?
    case Ref(id) => id in g
    case _ => true
  }

  predicate NodeOk(g: Graph, n: Node) {
    match n
    case FunctionNode => true
    case Wrapper(v) => ValOk(g, v) && !v.Ref?
    case ArrayNode(items) => forall i :: 0 <= i < |items| ==> ValOk(g, items[i])
    case ObjectNode(fields) =>
      && (forall i :: 0 <= i < |fields| ==> ValOk(g, fields[i].value))
      && (forall i, j :: 0 <= i < j < |fields| ==> fields[i].key != fields[j].key)
  }

  ghost predicate GraphOk(g: Graph) {
    forall id :: id in g ==> NodeOk(g, g[id])
  }

  /** The objects that are not on the stack. */
  ghost function Off(g: Graph, stack: seq<Id>): set<Id> {
    set id | id in g && id !in stack
  }

  datatype Found = Cyclic | Nothing | Tree(json: Json)
  datatype Many<T> = Stuck | All(list: seq<T>)

  function Grow<T>(x: seq<T>, m: Many<T>): Many<T> {
    if m.Stuck? then m else All(x + m.list)
  }

  /** What stringifying `v` amounts to with the objects of `stack` under way. */
  ghost function Unfold(g: Graph, v: Val, stack: seq<Id>): Found
    requires GraphOk(g) && ValOk(g, v)
    decreases Off(g, stack), 0, 0
  {
    match v
    case Undefined => Nothing
    case NotFinite => Tree(Null)
    case Prim(s) => Tree(s)
    case Ref(id) =>
      assert NodeOk(g, g[id]);
      match g[id]
      case FunctionNode => Nothing
      case Wrapper(w) => Plain(w)
      case ArrayNode(items) =>
        if id in stack then Cyclic else
        assert id in Off(g, stack) && id !in Off(g, stack + [id]);
        var m := UnfoldItems(g, items, stack + [id]);
        if m.Stuck? then Cyclic else Tree(Arr(m.list))
      case ObjectNode(fields) =>
        if id in stack then Cyclic else
        assert id in Off(g, stack) && id !in Off(g, stack + [id]);
        var m := UnfoldFields(g, fields, stack + [id]);
        if m.Stuck? then Cyclic else Tree(Obj(m.list))
  }

  function Plain(v: Val): Found
    requires !v.Ref?
  {
    match v
    case Undefined => Nothing
    case NotFinite => Tree(Null)
    case Prim(s) => Tree(s)
  }

  /** Elements that have no text become null. */
  ghost function UnfoldItems(g: Graph, items: seq<Val>, stack: seq<Id>): Many<Json>
    requires GraphOk(g) && forall i :: 0 <= i < |items| ==> ValOk(g, items[i])
    decreases Off(g, stack), 1, |items|
  {
    if items == [] then All([]) else
    var f := Unfold(g, items[0], stack);
    if f.Cyclic? then Stuck else
    Grow([if f.Nothing? then Null else f.json], UnfoldItems(g, items[1..], stack))
  }

  /** Properties that have no text are left out. */
  ghost function UnfoldFields(g: Graph, fields: seq<Field>, stack: seq<Id>): Many<Prop>
    requires GraphOk(g) && forall i :: 0 <= i < |fields| ==> ValOk(g, fields[i].value)
    decreases Off(g, stack), 1, |fields|
  {
    if fields == [] then All([]) else
    var f := Unfold(g, fields[0].value, stack);
    if f.Cyclic? then Stuck else
    Grow(if f.Nothing? then [] else [Prop(fields[0].key, f.json)], UnfoldFields(g, fields[1..], stack))
  }

  // ---- Exactly the cyclic graphs are refused ----

  /** `id` is an array or a plain object. */
  predicate IsContainer(g: Graph, id: Id) {
    id in g && (g[id].ArrayNode? || g[id].ObjectNode?)
  }

  /** Container `a` holds container `b`. */
  predicate Holds(g: Graph, a: Id, b: Id) {
    && IsContainer(g, a) && IsContainer(g, b)
    && match g[a]
       case ArrayNode(items) => Ref(b) in items
       case ObjectNode(fields) => exists i :: 0 <= i < |fields| && fields[i].value == Ref(b)
       case _ => false
  }

  /** A path down from `v`. */
  predicate IsPath(g: Graph, v: Val, p: seq<Id>) {
    && p != [] && v == Ref(p[0]) && IsContainer(g, p[0])
    && forall i :: 0 <= i < |p| - 1 ==> Holds(g, p[i], p[i + 1])
  }

  /** The path ends where the stack, or the path itself, has been before. */
  predicate ComesBack(stack: seq<Id>, p: seq<Id>) {
    p != [] && p[|p| - 1] in stack + p[..|p| - 1]
  }

  lemma {:induction false} PathMakesCyclic(g: Graph, v: Val, stack: seq<Id>, p: seq<Id>)
    requires GraphOk(g) && ValOk(g, v)
    requires IsPath(g, v, p) && ComesBack(stack, p)
    ensures Unfold(g, v, stack) == Cyclic
    decreases |p|
  {
    var id := p[0];
    if id !in stack {
      var inner := stack + [id];
      assert |p| > 1;
      assert inner + p[1..][..|p| - 2] == stack + p[..|p| - 1];
      var w := Ref(p[1]);
      assert Holds(g, p[0], p[1]) && NodeOk(g, g[id]);
      assert IsPath(g, w, p[1..]) by {
        forall i | 0 <= i < |p[1..]| - 1 ensures Holds(g, p[1..][i], p[1..][i + 1]) {
          assert Holds(g, p[i + 1], p[i + 2]);
        }
      }
      PathMakesCyclic(g, w, inner, p[1..]);
      match g[id]
      case ArrayNode(items) =>
        var i :| 0 <= i < |items| && items[i] == w;
        StuckItems(g, items, inner, i);
      case ObjectNode(fields) =>
        var i :| 0 <= i < |fields| && fields[i].value == w;
        StuckFields(g, fields, inner, i);
    }
  }

  lemma {:induction false} StuckItems(g: Graph, items: seq<Val>, stack: seq<Id>, i: nat)
    requires GraphOk(g) && forall i :: 0 <= i < |items| ==> ValOk(g, items[i])
    requires i < |items| && Unfold(g, items[i], stack) == Cyclic
    ensures UnfoldItems(g, items, stack) == Stuck
  {
    if i > 0 {
      StuckItems(g, items[1..], stack, i - 1);
    }
  }

  lemma {:induction false} StuckFields(g: Graph, fields: seq<Field>, stack: seq<Id>, i: nat)
    requires GraphOk(g) && forall i :: 0 <= i < |fields| ==> ValOk(g, fields[i].value)
    requires i < |fields| && Unfold(g, fields[i].value, stack) == Cyclic
    ensures UnfoldFields(g, fields, stack) == Stuck
  {
    if i > 0 {
      StuckFields(g, fields[1..], stack, i - 1);
    }
  }

  lemma {:induction false} CyclicHasPath(g: Graph, v: Val, stack: seq<Id>) returns (p: seq<Id>)
    requires GraphOk(g) && ValOk(g, v) && Unfold(g, v, stack) == Cyclic
    ensures IsPath(g, v, p) && ComesBack(stack, p)
    decreases Off(g, stack), 0, 0
  {
    var id := v.id;
    assert NodeOk(g, g[id]);
    if id in stack {
      p := [id];
    } else {
      var inner := stack + [id];
      assert id in Off(g, stack) && id !in Off(g, inner);
      var w: Val;
      match g[id] {
        case ArrayNode(items) =>
          var i := CyclicItem(g, items, inner);
          w := items[i];
        case ObjectNode(fields) =>
          var i := CyclicField(g, fields, inner);
          w := fields[i].value;
      }
      var q := CyclicHasPath(g, w, inner);
      p := [id] + q;
      assert stack + p[..|p| - 1] == inner + q[..|q| - 1];
      assert Holds(g, p[0], p[1]);
      forall i | 0 <= i < |p| - 1 ensures Holds(g, p[i], p[i + 1]) {
        if i > 0 {
          assert Holds(g, q[i - 1], q[i]);
        }
      }
    }
  }

  lemma {:induction false} CyclicItem(g: Graph, items: seq<Val>, stack: seq<Id>) returns (i: nat)
    requires GraphOk(g) && (forall i :: 0 <= i < |items| ==> ValOk(g, items[i])) && UnfoldItems(g, items, stack) == Stuck
    ensures i < |items| && Unfold(g, items[i], stack) == Cyclic
  {
    if Unfold(g, items[0], stack) == Cyclic {
      i := 0;
    } else {
      var j := CyclicItem(g, items[1..], stack);
      i := j + 1;
    }
  }

  lemma {:induction false} CyclicField(g: Graph, fields: seq<Field>, stack: seq<Id>) returns (i: nat)
    requires GraphOk(g) && (forall i :: 0 <= i < |fields| ==> ValOk(g, fields[i].value)) && UnfoldFields(g, fields, stack) == Stuck
    ensures i < |fields| && Unfold(g, fields[i].value, stack) == Cyclic
  {
    if Unfold(g, fields[0].value, stack) == Cyclic {
      i := 0;
    } else {
      var j := CyclicField(g, fields[1..], stack);
      i := j + 1;
    }
  }

  /** Some path from `v` meets an object twice. */
  ghost predicate HasCycle(g: Graph, v: Val) {
    exists p, i, j :: IsPath(g, v, p) && 0 <= i < j < |p| && p[i] == p[j]
  }

  /** The TypeError is raised exactly when a path from the root meets an object twice. */
  lemma RaisesExactlyOnCycles(g: Graph, v: Val)
    requires GraphOk(g) && ValOk(g, v)
    ensures Unfold(g, v, []) == Cyclic <==> HasCycle(g, v)
  {
    if Unfold(g, v, []) == Cyclic {
      var p := CyclicHasPath(g, v, []);
      var i :| 0 <= i < |p| - 1 && p[i] == p[|p| - 1];
      assert IsPath(g, v, p) && p[i] == p[|p| - 1];
    }
    if HasCycle(g, v) {
      var p: seq<Id>, i: int, j: int :| IsPath(g, v, p) && 0 <= i < j < |p| && p[i] == p[j];
      var q := p[..j + 1];
      assert IsPath(g, v, q) by {
        forall k | 0 <= k < |q| - 1 ensures Holds(g, q[k], q[k + 1]) {
          assert Holds(g, p[k], p[k + 1]);
        }
      }
      assert q[..|q| - 1][i] == q[|q| - 1];
      PathMakesCyclic(g, v, [], q);
    }
  }

  /** Sharing is no cycle: where containers can be ranked, nothing is raised. */
  lemma SharedButAcyclic(g: Graph, v: Val, rank: map<Id, nat>)
    requires GraphOk(g) && ValOk(g, v)
    requires forall id :: id in g ==> id in rank
    requires forall a, b :: Holds(g, a, b) ==> rank[b] < rank[a]
    ensures Unfold(g, v, []) != Cyclic
  {
    RaisesExactlyOnCycles(g, v);
    if HasCycle(g, v) {
      var p: seq<Id>, i: int, j: int :| IsPath(g, v, p) && 0 <= i < j < |p| && p[i] == p[j];
      RankFalls(g, v, rank, p, i, j);
      assert false;
    }
  }

  lemma {:induction false} RankFalls(g: Graph, v: Val, rank: map<Id, nat>, p: seq<Id>, i: nat, j: nat)
    requires IsPath(g, v, p) && i < j < |p|
    requires forall id :: id in g ==> id in rank
    requires forall a, b :: Holds(g, a, b) ==> rank[b] < rank[a]
    ensures p[i] in rank && p[j] in rank && rank[p[j]] < rank[p[i]]
    decreases j
  {
    assert Holds(g, p[j - 1], p[j]);
    if i < j - 1 {
      RankFalls(g, v, rank, p, i, j - 1);
    }
  }

  // ---- The tree that is written ----

  /** The tree `json` has, place for place, the values that `v` leads to; no stack is involved. */
  ghost predicate Mirrors(g: Graph, v: Val, json: Json)
    requires GraphOk(g) && ValOk(g, v)
    decreases json, 0
  {
    match v
    case Undefined => false
    case NotFinite => json == Null
    case Prim(s) => json == s
    case Ref(id) =>
      assert NodeOk(g, g[id]);
      match g[id]
      case FunctionNode => false
      case Wrapper(w) => Plain(w) == Tree(json)
      case ArrayNode(items) =>
        json.Arr? && |json.items| == |items| &&
        forall i :: 0 <= i < |items| ==>
          if HasText(g, items[i]) then Mirrors(g, items[i], json.items[i]) else json.items[i] == Null
      case ObjectNode(fields) => json.Obj? && MirrorsFields(g, fields, json.props)
  }

  /** The properties that have a text, in order. */
  ghost predicate MirrorsFields(g: Graph, fields: seq<Field>, props: seq<Prop>)
    requires GraphOk(g) && forall i :: 0 <= i < |fields| ==> ValOk(g, fields[i].value)
    decreases props, 1, |fields|
  {
    if fields == [] then props == []
    else if !HasText(g, fields[0].value) then MirrorsFields(g, fields[1..], props)
    else props != [] && props[0].key == fields[0].key && Mirrors(g, fields[0].value, props[0].value)
         && MirrorsFields(g, fields[1..], props[1..])
  }

  /** undefined and functions have no text. */
  predicate HasText(g: Graph, v: Val) {
    match v
    case Undefined => false
    case Ref(id) => id in g && !g[id].FunctionNode? && g[id] != Wrapper(Undefined)
    case _ => true
  }

  lemma {:induction false} UnfoldMirrors(g: Graph, v: Val, stack: seq<Id>)
    requires GraphOk(g) && ValOk(g, v) && !Unfold(g, v, stack).Cyclic?
    ensures HasText(g, v) <==> Unfold(g, v, stack).Tree?
    ensures HasText(g, v) ==> Mirrors(g, v, Unfold(g, v, stack).json) && WellFormed(Unfold(g, v, stack).json)
    decreases Off(g, stack), 0, 0
  {
    if v.Ref? {
      var id := v.id;
      assert NodeOk(g, g[id]);
      assert id in Off(g, stack) || id in stack;
      assert id !in Off(g, stack + [id]);
      match g[id]
      case ArrayNode(items) => ItemsMirror(g, items, stack + [id]);
      case ObjectNode(fields) => FieldsMirror(g, fields, stack + [id]);
      case _ =>
    }
  }

  lemma {:induction false} ItemsMirror(g: Graph, items: seq<Val>, stack: seq<Id>)
    requires GraphOk(g) && (forall i :: 0 <= i < |items| ==> ValOk(g, items[i])) && UnfoldItems(g, items, stack).All?
    ensures var list := UnfoldItems(g, items, stack).list;
      && |list| == |items|
      && (forall i :: 0 <= i < |items| ==> WellFormed(list[i]))
      && forall i :: 0 <= i < |items| ==> if HasText(g, items[i]) then Mirrors(g, items[i], list[i]) else list[i] == Null
    decreases Off(g, stack), 1, |items|
  {
    if items != [] {
      UnfoldMirrors(g, items[0], stack);
      ItemsMirror(g, items[1..], stack);
    }
  }

  predicate Names(fields: seq<Field>, key: Text) {
    exists j :: 0 <= j < |fields| && fields[j].key == key
  }

  lemma {:induction false} UnfoldNames(g: Graph, fields: seq<Field>, stack: seq<Id>, key: Text)
    requires GraphOk(g) && (forall i :: 0 <= i < |fields| ==> ValOk(g, fields[i].value)) && UnfoldFields(g, fields, stack).All?
    requires HasKey(UnfoldFields(g, fields, stack).list, key)
    ensures Names(fields, key)
    decreases |fields|
  {
    var f := Unfold(g, fields[0].value, stack);
    var head: seq<Prop> := if f.Nothing? then [] else [Prop(fields[0].key, f.json)];
    var rest := UnfoldFields(g, fields[1..], stack).list;
    var i :| 0 <= i < |head + rest| && (head + rest)[i].key == key;
    if i < |head| {
      assert fields[0].key == key;
    } else {
      assert rest[i - |head|].key == key;
      UnfoldNames(g, fields[1..], stack, key);
      var j :| 0 <= j < |fields[1..]| && fields[1..][j].key == key;
      assert fields[j + 1].key == key;
    }
  }

  lemma {:induction false} FieldsMirror(g: Graph, fields: seq<Field>, stack: seq<Id>)
    requires GraphOk(g) && (forall i :: 0 <= i < |fields| ==> ValOk(g, fields[i].value)) && UnfoldFields(g, fields, stack).All?
    requires forall i, j :: 0 <= i < j < |fields| ==> fields[i].key != fields[j].key
    ensures MirrorsFields(g, fields, UnfoldFields(g, fields, stack).list) && WellFormedProps(UnfoldFields(g, fields, stack).list)
    decreases Off(g, stack), 1, |fields|
  {
    if fields != [] {
      var f := Unfold(g, fields[0].value, stack);
      UnfoldMirrors(g, fields[0].value, stack);
      FieldsMirror(g, fields[1..], stack);
      var rest := UnfoldFields(g, fields[1..], stack).list;
      if f.Tree? {
        if HasKey(rest, fields[0].key) {
          UnfoldNames(g, fields[1..], stack, fields[0].key);
        }
        AddProp(Prop(fields[0].key, f.json), rest);
        assert ([Prop(fields[0].key, f.json)] + rest)[1..] == rest;
      } else {
        assert [] + rest == rest;
      }
    }
  }

  lemma AddProp(p: Prop, rest: seq<Prop>)
    requires WellFormed(p.value) && WellFormedProps(rest) && !HasKey(rest, p.key)
    ensures WellFormedProps([p] + rest)
  {}

  /** There is only one such tree. */
  lemma {:induction false} MirrorUnique(g: Graph, v: Val, a: Json, b: Json)
    requires GraphOk(g) && ValOk(g, v) && Mirrors(g, v, a) && Mirrors(g, v, b)
    ensures a == b
    decreases a, 0
  {
    if v.Ref? {
      assert NodeOk(g, g[v.id]);
      match g[v.id]
      case ArrayNode(items) =>
        forall i | 0 <= i < |items| ensures a.items[i] == b.items[i] {
          if HasText(g, items[i]) {
            MirrorUnique(g, items[i], a.items[i], b.items[i]);
          }
        }
        assert a.items == b.items;
      case ObjectNode(fields) => MirrorFieldsUnique(g, fields, a.props, b.props);
      case _ =>
    }
  }

  lemma {:induction false} MirrorFieldsUnique(g: Graph, fields: seq<Field>, a: seq<Prop>, b: seq<Prop>)
    requires GraphOk(g) && forall i :: 0 <= i < |fields| ==> ValOk(g, fields[i].value)
    requires MirrorsFields(g, fields, a) && MirrorsFields(g, fields, b)
    ensures a == b
    decreases a, 1, |fields|
  {
    if fields != [] {
      if HasText(g, fields[0].value) {
        MirrorUnique(g, fields[0].value, a[0].value, b[0].value);
        MirrorFieldsUnique(g, fields[1..], a[1..], b[1..]);
        assert a == [a[0]] + a[1..] && b == [b[0]] + b[1..];
      } else {
        MirrorFieldsUnique(g, fields[1..], a, b);
      }
    }
  }

  /** What is written for a graph without cycles parses to the tree the graph unfolds to. */
  lemma WrittenTextParses(g: Graph, v: Val, gap: Text, json: Json)
    requires GraphOk(g) && ValOk(g, v) && Blank(gap) && Mirrors(g, v, json) && !HasCycle(g, v)
    ensures Unfold(g, v, []) == Tree(json) && Parse(Stringify(json, gap, [])) == Some(json)
  {
    RaisesExactlyOnCycles(g, v);
    UnfoldMirrors(g, v, []);
    assert HasText(g, v) by {
      if v.Ref? {
        assert NodeOk(g, g[v.id]);
      }
    }
    MirrorUnique(g, v, json, Unfold(g, v, []).json);
    ParseStringified(json, gap);
  }
}
