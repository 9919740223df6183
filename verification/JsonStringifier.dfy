/** JSON.stringify on an object graph: the stringifier's stack and indentation change as it goes down and up. */
module JsonStringifier {
  import opened Wrappers
  import opened Characters
  import opened JsonText
  import opened JsonRoundTrip
  import opened JsonGraph
  import opened JsonParser
  import JsonLayout

  /** A TypeError, undefined, or a text. */
  datatype Outcome = Raised | NoText | Wrote(text: Text)

  /** Parts with separators between them. */
  function Joined(parts: seq<Text>, gap: Text, indent: Text, first: bool): Text {
    if parts == [] then [] else Sep(gap, indent, first) + (parts[0] + Joined(parts[1..], gap, indent, false))
  }

  lemma {:induction false} JoinedItems(parts: seq<Text>, items: seq<Json>, gap: Text, indent: Text, first: bool)
    requires |parts| == |items| && forall i :: 0 <= i < |items| ==> parts[i] == Stringify(items[i], gap, indent)
    ensures Joined(parts, gap, indent, first) == ItemsText(items, gap, indent, first)
    decreases |items|
  {
    if items != [] {
      JoinedItems(parts[1..], items[1..], gap, indent, false);
    }
  }

  lemma {:induction false} JoinedProps(parts: seq<Text>, props: seq<Prop>, gap: Text, indent: Text, first: bool)
    requires |parts| == |props| && forall i :: 0 <= i < |props| ==> parts[i] == PropText(props[i], gap, indent)
    ensures Joined(parts, gap, indent, first) == PropsText(props, gap, indent, first)
    decreases |props|
  {
    if props != [] {
      JoinedProps(parts[1..], props[1..], gap, indent, false);
    }
  }

  /** The outcome that an unfolding stands for. */
  function Outcomes(f: Found, gap: Text, indent: Text): Outcome {
    match f
    case Cyclic => Raised
    case Nothing => NoText
    case Tree(json) => Wrote(Stringify(json, gap, indent))
  }

  /** Parts between brackets. */
  function Layout(parts: seq<Text>, gap: Text, stepBack: Text, open: Unit, close: Unit): Text {
    if parts == [] then [open, close]
    else [open] + (Break(gap, stepBack + gap) + (Joined(parts, gap, stepBack + gap, true) + Closing(gap, stepBack, close)))
  }

  /** The parts of an array's elements, laid out, are the text of the array. */
  lemma ArrayOutcome(g: Graph, id: Id, stack: seq<Id>, gap: Text, indent: Text, ok: bool, parts: seq<Text>, list: seq<Json>)
    requires GraphOk(g) && id in g && g[id].ArrayNode? && id !in stack && NodeOk(g, g[id])
    requires UnfoldItems(g, g[id].items, stack + [id]) == if ok then All(list) else Stuck
    requires |parts| == |list| && forall k :: 0 <= k < |list| ==> parts[k] == Stringify(list[k], gap, indent + gap)
    ensures Outcomes(Unfold(g, Ref(id), stack), gap, indent) ==
      if ok then Wrote(Layout(parts, gap, indent, LBRACKET, RBRACKET)) else Raised
  {
    JoinedItems(parts, list, gap, indent + gap, true);
  }

  lemma ObjectOutcome(g: Graph, id: Id, stack: seq<Id>, gap: Text, indent: Text, ok: bool, parts: seq<Text>, list: seq<Prop>)
    requires GraphOk(g) && id in g && g[id].ObjectNode? && id !in stack && NodeOk(g, g[id])
    requires UnfoldFields(g, g[id].fields, stack + [id]) == if ok then All(list) else Stuck
    requires |parts| == |list| && forall k :: 0 <= k < |list| ==> parts[k] == PropText(list[k], gap, indent + gap)
    ensures Outcomes(Unfold(g, Ref(id), stack), gap, indent) ==
      if ok then Wrote(Layout(parts, gap, indent, LBRACE, RBRACE)) else Raised
  {
    JoinedProps(parts, list, gap, indent + gap, true);
  }

  class Stringifier {
    const graph: Graph
    const gap: Text
    var stack: seq<Id>
    var indent: Text

    constructor (graph: Graph, gap: Text)
      ensures this.graph == graph && this.gap == gap && stack == [] && indent == []
    {
      this.graph := graph;
      this.gap := gap;
      stack := [];
      indent := [];
    }

    /** Pushes an object unless it is on the stack already. */
    method Push(id: Id) returns (ok: bool)
      modifies this
      ensures indent == old(indent) && ok == (id !in old(stack))
      ensures stack == if ok then old(stack) + [id] else old(stack)
    {
      for i := 0 to |stack|
        invariant stack == old(stack) && indent == old(indent) && id !in stack[..i]
      {
        if stack[i] == id {
          return false;
        }
      }
      assert stack[..|stack|] == stack;
      stack := stack + [id];
      return true;
    }

    method Pop()
      requires stack != []
      modifies this
      ensures stack == old(stack)[..|old(stack)| - 1] && indent == old(indent)
    {
      stack := stack[..|stack| - 1];
    }

    /** Appends the parts, each after a separator but the first. */
    method Append(start: Text, parts: seq<Text>) returns (res: Text)
      ensures res == start + Joined(parts, gap, indent, true)
    {
      res := start;
      var first := true;
      for i := 0 to |parts|
        invariant first == (i == 0)
        invariant res + Joined(parts[i..], gap, indent, first) == start + Joined(parts, gap, indent, true)
      {
        assert parts[i..][1..] == parts[i + 1..];
        ghost var was, sep := res, Sep(gap, indent, first);
        if !first {
          res := res + ([COMMA] + Break(gap, indent));
        }
        assert res == was + sep;
        res := res + parts[i];
        JoinStep(was, sep, parts[i], Joined(parts[i + 1..], gap, indent, false));
        first := false;
      }
      assert parts[|parts|..] == [];
    }

    /** The parts between brackets, each on its own line when there is a gap. */
    method Bracketed(parts: seq<Text>, stepBack: Text, open: Unit, close: Unit) returns (res: Text)
      requires indent == stepBack + gap
      ensures res == Layout(parts, gap, stepBack, open, close)
    {
      if parts == [] {
        return [open, close];
      }
      res := [open];
      res := res + Break(gap, indent);
      res := Append(res, parts);
      res := res + Break(gap, stepBack);
      res := res + [close];
      BracketStep([open], Break(gap, indent), Joined(parts, gap, indent, true), Break(gap, stepBack), [close]);
    }

    /** Str applied to a value. */
    method Str(v: Val) returns (r: Outcome)
      requires GraphOk(graph) && ValOk(graph, v)
      modifies this
      ensures stack == old(stack) && indent == old(indent)
      ensures r == Outcomes(Unfold(graph, v, stack), gap, indent)
      decreases Off(graph, stack), 1
    {
      var p := v;
      if v.Ref? && graph[v.id].Wrapper? {
        assert NodeOk(graph, graph[v.id]);
        p := graph[v.id].inner;
      }
      match p {
        case Undefined => r := NoText;
        case NotFinite => r := Wrote(NULL_TEXT);
        case Prim(s) =>
          match s {
            case Null => r := Wrote(NULL_TEXT);
            case Bool(b) => r := Wrote(if b then TRUE_TEXT else FALSE_TEXT);
            case Num(l) => r := Wrote(l);
            case Str(t) =>
              var q := QuoteText(t);
              r := Wrote(q);
          }
        case Ref(id) =>
          match graph[id] {
            case FunctionNode => r := NoText;
            case ArrayNode(items) => r := StrArray(id);
            case ObjectNode(fields) => r := StrObject(id);
          }
      }
    }

    method StrArray(id: Id) returns (r: Outcome)
      requires GraphOk(graph) && id in graph && graph[id].ArrayNode?
      modifies this
      ensures stack == old(stack) && indent == old(indent)
      ensures r == Outcomes(Unfold(graph, Ref(id), stack), gap, indent)
      decreases Off(graph, stack), 0
    {
      assert NodeOk(graph, graph[id]);
      var ok := Push(id);
      if !ok {
        return Raised;
      }
      assert id in Off(graph, old(stack)) && id !in Off(graph, stack);
      var stepBack := indent;
      indent := indent + gap;
      ghost var list: seq<Json>;
      var partial;
      ok, partial, list := Elements(graph[id].items);
      ArrayOutcome(graph, id, old(stack), gap, stepBack, ok, partial, list);
      r := Raised;
      if ok {
        var res := Bracketed(partial, stepBack, LBRACKET, RBRACKET);
        r := Wrote(res);
      }
      Pop();
      indent := stepBack;
    }

    /** The texts of an array's elements; false when a cycle was met. */
    method Elements(items: seq<Val>) returns (ok: bool, partial: seq<Text>, ghost list: seq<Json>)
      requires GraphOk(graph) && forall i :: 0 <= i < |items| ==> ValOk(graph, items[i])
      modifies this
      ensures stack == old(stack) && indent == old(indent)
      ensures UnfoldItems(graph, items, stack) == if ok then All(list) else Stuck
      ensures |partial| == |list| && forall k :: 0 <= k < |list| ==> partial[k] == Stringify(list[k], gap, indent)
      decreases Off(graph, stack), 2
    {
      partial, list := [], [];
      for i := 0 to |items|
        invariant stack == old(stack) && indent == old(indent)
        invariant UnfoldItems(graph, items, stack) == Grow(list, UnfoldItems(graph, items[i..], stack))
        invariant |partial| == |list| && forall k :: 0 <= k < |list| ==> partial[k] == Stringify(list[k], gap, indent)
      {
        assert items[i..][1..] == items[i + 1..];
        var s := Str(items[i]);
        if s.Raised? {
          return false, partial, list;
        }
        ghost var f := Unfold(graph, items[i], stack);
        ghost var item := if f.Nothing? then Null else f.json;
        GrowGrow(list, [item], UnfoldItems(graph, items[i + 1..], stack));
        list := list + [item];
        partial := partial + [if s.NoText? then NULL_TEXT else s.text];
      }
      assert items[|items|..] == [];
      ok := true;
    }

    method StrObject(id: Id) returns (r: Outcome)
      requires GraphOk(graph) && id in graph && graph[id].ObjectNode?
      modifies this
      ensures stack == old(stack) && indent == old(indent)
      ensures r == Outcomes(Unfold(graph, Ref(id), stack), gap, indent)
      decreases Off(graph, stack), 0
    {
      assert NodeOk(graph, graph[id]);
      var ok := Push(id);
      if !ok {
        return Raised;
      }
      assert id in Off(graph, old(stack)) && id !in Off(graph, stack);
      var stepBack := indent;
      indent := indent + gap;
      ghost var list: seq<Prop>;
      var partial;
      ok, partial, list := Properties(graph[id].fields);
      ObjectOutcome(graph, id, old(stack), gap, stepBack, ok, partial, list);
      r := Raised;
      if ok {
        var res := Bracketed(partial, stepBack, LBRACE, RBRACE);
        r := Wrote(res);
      }
      Pop();
      indent := stepBack;
    }

    /** The texts of an object's properties; false when a cycle was met. */
    method Properties(fields: seq<Field>) returns (ok: bool, partial: seq<Text>, ghost list: seq<Prop>)
      requires GraphOk(graph) && forall i :: 0 <= i < |fields| ==> ValOk(graph, fields[i].value)
      modifies this
      ensures stack == old(stack) && indent == old(indent)
      ensures UnfoldFields(graph, fields, stack) == if ok then All(list) else Stuck
      ensures |partial| == |list| && forall k :: 0 <= k < |list| ==> partial[k] == PropText(list[k], gap, indent)
      decreases Off(graph, stack), 2
    {
      partial, list := [], [];
      for i := 0 to |fields|
        invariant stack == old(stack) && indent == old(indent)
        invariant UnfoldFields(graph, fields, stack) == Grow(list, UnfoldFields(graph, fields[i..], stack))
        invariant |partial| == |list| && forall k :: 0 <= k < |list| ==> partial[k] == PropText(list[k], gap, indent)
      {
        assert fields[i..][1..] == fields[i + 1..];
        var s := Str(fields[i].value);
        if s.Raised? {
          return false, partial, list;
        }
        ghost var f := Unfold(graph, fields[i].value, stack);
        ghost var item: seq<Prop> := if f.Nothing? then [] else [Prop(fields[i].key, f.json)];
        GrowGrow(list, item, UnfoldFields(graph, fields[i + 1..], stack));
        list := list + item;
        if !s.NoText? {
          var q := QuoteText(fields[i].key);
          partial := partial + [q + ([COLON] + (Spacing(gap) + s.text))];
        }
      }
      assert fields[|fields|..] == [];
      ok := true;
    }
  }

  lemma JoinStep(a: Text, b: Text, c: Text, d: Text)
    ensures a + (b + (c + d)) == a + b + c + d
  {}

  lemma BracketStep(a: Text, b: Text, c: Text, d: Text, e: Text)
    ensures a + (b + (c + (d + e))) == a + b + c + d + e
  {}

  lemma GrowGrow<T>(a: seq<T>, b: seq<T>, m: Many<T>)
    ensures Grow(a, Grow(b, m)) == Grow(a + b, m)
  {
    if m.All? {
      assert a + (b + m.list) == a + b + m.list;
    }
  }

  /** `text` is the tree of `v` laid out with this gap. */
  ghost predicate LaidOut(g: Graph, v: Val, gap: Text, text: Text)
    requires GraphOk(g) && ValOk(g, v)
  {
    exists json :: Mirrors(g, v, json) && text == JsonLayout.Laid(JsonLayout.Pieces(json), gap, 0, JsonLayout.AtStart)
  }

  /**
   * JSON.stringify without a replacer: raises exactly on cycles; what it writes is the tree of the graph laid out with any
   * gap, and with a gap of white space reads back as that tree.
   */
  method StringifyGraph(graph: Graph, v: Val, gap: Text) returns (r: Outcome)
    requires GraphOk(graph) && ValOk(graph, v)
    ensures r.Raised? <==> HasCycle(graph, v)
    ensures !r.Raised? ==> (r.Wrote? <==> HasText(graph, v))
    ensures r.Wrote? ==> LaidOut(graph, v, gap, r.text)
    ensures r.Wrote? && Blank(gap) ==> Parse(r.text).Some? && Mirrors(graph, v, Parse(r.text).value)
  {
    var s := new Stringifier(graph, gap);
    r := s.Str(v);
    RaisesExactlyOnCycles(graph, v);
    if !r.Raised? {
      UnfoldMirrors(graph, v, []);
      if r.Wrote? {
        JsonLayout.WrittenLaidOut(Unfold(graph, v, []).json, gap);
      }
      if r.Wrote? && Blank(gap) {
        ParseStringified(Unfold(graph, v, []).json, gap);
      }
    }
  }
}
