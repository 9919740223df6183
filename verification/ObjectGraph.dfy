/** The heap the program believes in: objects that are never moved or overwritten by anything but
    the program itself.  Every run of the collected heap agrees with it. */
module ObjectGraph {
  import opened PointerSets
  import opened HeapModel
  import opened Collection
  import opened HeapOps
  import opened Wrappers
  import opened Integers
  import V = ValueRepresentation

  /** A slot: its word without a position, and the object it refers to (0 for none). */
  datatype Edge = Edge(shape: Slot, to: nat)

  datatype Node = Node(typ: nat, edges: seq<Edge>)

  /** Objects are numbered as they are made and kept forever.  `live` holds the numbers of those
      that were strongly reachable at the last collection or made since; only reading a weak slot
      looks at it. */
  datatype Graph = Graph(nodes: map<nat, Node>, roots: map<nat, nat>, next: nat, live: set<nat>)

  const EMPTY: Graph := Graph(map[], map[], 1, {})

  ghost function Follow(g: Graph, path: Path): nat {
    match path
    case At(r) => if r in g.roots then g.roots[r] else 0
    case Slot(via, i) =>
      var id := Follow(g, via);
      if id != 0 && id in g.nodes && i < |g.nodes[id].edges| && !g.nodes[id].edges[i].shape.Weak? then g.nodes[id].edges[i].to else 0
  }

  ghost predicate Named(g: Graph, id: nat) {
    id != 0 && exists path :: Follow(g, path) == id
  }

  ghost function EdgeOf(g: Graph, shape: Slot, from: Option<nat>): Edge {
    if from.Some? && from.value in g.roots then Edge(shape.Shape(), g.roots[from.value]) else Edge(shape, 0)
  }

  ghost function EdgesOf(g: Graph, inits: seq<Init>): (edges: seq<Edge>)
    ensures |edges| == |inits| && forall k | 0 <= k < |inits| :: edges[k] == EdgeOf(g, inits[k].shape, inits[k].from)
  {
    seq(|inits|, k requires 0 <= k < |inits| => EdgeOf(g, inits[k].shape, inits[k].from))
  }

  /** The program's operations on the graph; a collection only forgets which objects weak slots may
      still be read from. */
  ghost function Do(g: Graph, op: Op): Graph {
    match op
    case Alloc(r, typ, inits) =>
      Graph(g.nodes[g.next := Node(typ, EdgesOf(g, inits))],
            g.roots[r := g.next], g.next + 1, g.live + {g.next})
    case Abandon(n) => g
    case Copy(dst, src) => g.(roots := if src in g.roots then g.roots[dst := g.roots[src]] else g.roots - {dst})
    case Load(dst, src, i) =>
      if src in g.roots && g.roots[src] in g.nodes && i < |g.nodes[g.roots[src]].edges| then
        var e := g.nodes[g.roots[src]].edges[i];
        if e.to == 0 || (e.shape.Weak? && e.to !in g.live) then g else g.(roots := g.roots[dst := e.to])
      else g
    case Put(dst, i, shape, from) =>
      if dst in g.roots && g.roots[dst] in g.nodes && i < |g.nodes[g.roots[dst]].edges| then
        var id := g.roots[dst];
        g.(nodes := g.nodes[id := g.nodes[id].(edges := g.nodes[id].edges[i := EdgeOf(g, shape, from)])])
      else g
    case Drop(r) => g.(roots := g.roots - {r})
    case Collect => g.(live := set id | id in g.live && Named(g, id))
  }

  // ---- The two heaps agree ----

  /** A slot and an edge: same word, and the position is where the object is; only a weak slot may
      have lost an object, and then it is null. */
  ghost predicate EdgeSim(w: Slot, e: Edge, next: nat, h: map<nat, nat>) {
    && (if e.to == 0 then Plain(e.shape) else e.shape.CanHold() && e.shape.Pos() == 0 && e.to < next)
    && (e.to != 0 && e.to !in h ==> e.shape.Weak?)
    && w == if e.to != 0 && e.to in h then e.shape.At(h[e.to]) else e.shape
  }

  ghost predicate NodeSim(s: State, g: Graph, h: map<nat, nat>, id: nat)
    requires id in h
  {
    && id in g.nodes && 0 < id < g.next && h[id] in s.blocks
    && g.nodes[id].typ < MAX_TYPES && Head(s.mem, h[id]) == Header(|g.nodes[id].edges| + 1, g.nodes[id].typ)
    && (forall i {:trigger g.nodes[id].edges[i]} | 0 <= i < |g.nodes[id].edges| ::
          EdgeSim(Word(s.mem, h[id], i), g.nodes[id].edges[i], g.next, h))
  }

  /** `h` tells where each live object is: one to one, root for root and slot for slot. */
  ghost predicate Sim(s: State, g: Graph, h: map<nat, nat>) {
    && h.Keys == g.live && Injective(h) && 0 < g.next
    && (forall id | id in h :: NodeSim(s, g, h, id))
    && s.roots.Keys == g.roots.Keys
    && (forall r | r in g.roots :: g.roots[r] in h && s.roots[r] == h[g.roots[r]])
  }

  /** A path leads to an object in one heap exactly when it leads to its image in the other. */
  lemma {:induction false} SamePath(s: State, g: Graph, h: map<nat, nat>, path: Path)
    requires Valid(s) && Sim(s, g, h)
    ensures if Follow(g, path) == 0 then Resolve(s, path) == 0 else Follow(g, path) in h && Resolve(s, path) == h[Follow(g, path)]
  {
    hide Laid, HeadersOk, FieldsOk, PointersOk, Slot.At, Slot.Pos;
    match path
    case At(r) =>
    case Slot(via, i) =>
      SamePath(s, g, h, via);
      var id := Follow(g, via);
      if id != 0 {
        assert NodeSim(s, g, h, id);
        assert h[id] != 0 by { ValidLaid(s); LaidAt(s, h[id]); }
        if i < |g.nodes[id].edges| {
          SameEdge(s, g, h, id, i);
        }
      }
  }

  lemma SameEdge(s: State, g: Graph, h: map<nat, nat>, id: nat, i: nat)
    requires Valid(s) && Sim(s, g, h) && id in h && NodeSim(s, g, h, id) && i < |g.nodes[id].edges|
    ensures var e := g.nodes[id].edges[i]; var w := Word(s.mem, h[id], i);
      && w.Weak? == e.shape.Weak?
      && w.Pos() == (if e.to != 0 && e.to in h then h[e.to] else 0)
      && w.Shape() == e.shape.Shape()
      && (e.to != 0 && !e.shape.Weak? ==> e.to in h)
  {
    hide FieldsOk, PointersOk, Tiles;
    var e := g.nodes[id].edges[i];
    assert EdgeSim(Word(s.mem, h[id], i), e, g.next, h);
    if e.to != 0 && e.to in h {
      assert NodeSim(s, g, h, e.to);
      LaidAt(s, h[e.to]);
      AtPos(e.shape, h[e.to]);
    }
  }

  // ---- Collections ----

  lemma NamedReachable(s: State, g: Graph, h: map<nat, nat>, id: nat)
    requires Valid(s) && Sim(s, g, h) && id in h
    ensures Named(g, id) <==> Reachable(s, h[id])
  {
    hide Valid;
    assert NodeSim(s, g, h, id);
    if Named(g, id) {
      var path :| Follow(g, path) == id;
      SamePath(s, g, h, path);
      assert h[id] != 0 by { ValidLaid(s); LaidAt(s, h[id]); }
    }
    if Reachable(s, h[id]) {
      var path :| Resolve(s, path) == h[id];
      SamePath(s, g, h, path);
      assert h[Follow(g, path)] == h[id];
    }
  }

  /** Where the live objects are after a collection that moved things by `f`. */
  ghost function Moved(h: map<nat, nat>, f: map<nat, nat>): map<nat, nat> {
    map id | id in h && h[id] in f :: f[h[id]]
  }

  lemma CollectEdge(s: State, g: Graph, h: map<nat, nat>, f: map<nat, nat>, id: nat, i: nat)
    requires Valid(s) && Sim(s, g, h) && (forall p :: p in f <==> Reachable(s, p))
    requires forall p | p in f :: f[p] < TWO_TO_THE_32
    requires id in h && h[id] in f && NodeSim(s, g, h, id) && i < |g.nodes[id].edges|
    ensures EdgeSim(Relocate(Word(s.mem, h[id], i), f), g.nodes[id].edges[i], g.next, Moved(h, f))
  {
    hide Valid, Reachable;
    var e := g.nodes[id].edges[i];
    var w := Word(s.mem, h[id], i);
    assert EdgeSim(w, e, g.next, h);
    if e.to != 0 && e.to in h {
      assert NodeSim(s, g, h, e.to);
      assert 0 < h[e.to] < TWO_TO_THE_32 by { ValidLaid(s); LaidAt(s, h[e.to]); }
      AtPos(e.shape, h[e.to]);
      AtPos(e.shape, 0);
      if !e.shape.Weak? {
        StrongTarget(s, h[id], i);
      }
    }
  }

  lemma StrongTarget(s: State, p: nat, i: nat)
    requires Reachable(s, p) && InObject(s.mem, p, i) && Word(s.mem, p, i).IsStrong()
    ensures Reachable(s, Word(s.mem, p, i).Pos())
  {
    var path :| Resolve(s, path) == p;
    assert Resolve(s, Path.Slot(path, i)) == Word(s.mem, p, i).Pos();
  }

  lemma SmallPlaces(s: State, s': State, f: map<nat, nat>)
    requires Valid(s') && Collected(s, s', f)
    ensures forall q | q in f :: f[q] < TWO_TO_THE_32
  {
    hide Valid, Reachable, Relocate;
    forall q | q in f
      ensures f[q] < TWO_TO_THE_32
    {
      assert f[q] in f.Values && f[q] in s'.blocks;
      ValidLaid(s');
      LaidAt(s', f[q]);
    }
  }

  lemma CollectedPlaces(s: State, s': State, f: map<nat, nat>)
    requires Collected(s, s', f)
    ensures (forall p :: p in f <==> Reachable(s, p)) && forall p | p in f :: f[p] in s'.blocks
  {
    hide Reachable, Relocate, Word;
    forall p | p in f ensures f[p] in s'.blocks {
      assert f[p] in f.Values;
    }
  }

  lemma CollectedRoots(s: State, s': State, f: map<nat, nat>)
    requires Collected(s, s', f)
    ensures Injective(f) && s'.roots.Keys == s.roots.Keys
    ensures forall r | r in s.roots :: s.roots[r] in f && s'.roots[r] == f[s.roots[r]]
  {
    hide Reachable, Relocate, Word, Injective;
  }

  lemma CollectNode(s: State, s': State, g: Graph, h: map<nat, nat>, f: map<nat, nat>, id: nat)
    requires Valid(s) && Valid(s') && Sim(s, g, h) && Collected(s, s', f)
    requires id in Moved(h, f)
    ensures NodeSim(s', Do(g, Op.Collect), Moved(h, f), id)
  {
    hide Valid, Reachable, EdgeSim, Relocate, Named, Collected;
    assert NodeSim(s, g, h, id);
    var p := h[id];
    SmallPlaces(s, s', f);
    HeadMoved(s, s', f, p);
    CollectedPlaces(s, s', f);
    forall i: nat | i < |g.nodes[id].edges|
      ensures EdgeSim(Word(s'.mem, f[p], i), g.nodes[id].edges[i], g.next, Moved(h, f))
    {
      WordMoved(s, s', f, p, i);
      CollectEdge(s, g, h, f, id, i);
    }
  }

  lemma CollectSim(s: State, s': State, g: Graph, h: map<nat, nat>, f: map<nat, nat>)
    requires Valid(s) && Valid(s') && Sim(s, g, h) && Collected(s, s', f)
    ensures Sim(s', Do(g, Op.Collect), Moved(h, f))
  {
    hide Valid, Reachable, Named, NodeSim, Collected;
    var g', h' := Do(g, Op.Collect), Moved(h, f);
    CollectedPlaces(s, s', f);
    CollectedRoots(s, s', f);
    forall id
      ensures id in h' <==> id in g'.live
    {
      if id in h {
        NamedReachable(s, g, h, id);
      }
    }
    forall id | id in h'
      ensures NodeSim(s', g', h', id)
    {
      CollectNode(s, s', g, h, f, id);
    }
  }

  // ---- The other operations ----

  lemma AllocSim(s: State, g: Graph, h: map<nat, nat>, op: Op)
    requires Valid(s) && Sim(s, g, h) && op.Alloc? && Enabled(s, op)
    ensures Sim(Apply(s, op), Do(g, op), h[g.next := s.ctx.next + 1])
  {
    hide Valid, Plain, Apply, NodeSim, Laid;
    ValidLaid(s);
    AllocRest(s, op);
    AllocFresh(s, g, h, op);
    var h' := h[g.next := s.ctx.next + 1];
    forall id | id in h'
      ensures NodeSim(Apply(s, op), Do(g, op), h', id)
    {
      if id == g.next {
        AllocOwn(s, g, h, h', op);
      } else {
        AllocOther(s, g, h, op, id);
      }
    }
  }

  lemma AllocFresh(s: State, g: Graph, h: map<nat, nat>, op: Op)
    requires Valid(s) && Sim(s, g, h) && op.Alloc? && Enabled(s, op)
    ensures g.next !in h && forall id | id in h :: h[id] != s.ctx.next + 1
  {
    hide EdgeSim, FieldsOk, PointersOk, Tiles;
    forall id | id in h
      ensures id != g.next && h[id] != s.ctx.next + 1
    {
      assert NodeSim(s, g, h, id);
      LaidAt(s, h[id]);
    }
  }

  lemma AllocOwn(s: State, g: Graph, h: map<nat, nat>, h': map<nat, nat>, op: Op)
    requires Valid(s) && Sim(s, g, h) && op.Alloc? && Enabled(s, op) && 0 < g.next
    requires g.next !in h && h' == h[g.next := s.ctx.next + 1]
    ensures Laid(s) && NodeSim(Apply(s, op), Do(g, op), h', g.next)
  {
    hide Valid, Plain, Apply, Laid, Stored, EdgeOf, EdgeSim, Storable, Sim;
    ValidLaid(s);
    AllocValid(s, op);
    AllocRest(s, op);
    forall i | 0 <= i < |op.inits|
      ensures EdgeSim(Payload(s, op.inits)[i], EdgesOf(g, op.inits)[i], g.next + 1, h')
    {
      StoredEdge(s, g, h, op.inits[i]);
      LaterEdge(Payload(s, op.inits)[i], EdgesOf(g, op.inits)[i], g.next, h, h');
    }
  }

  /** An edge stays an edge when one more object has been made. */
  lemma LaterEdge(w: Slot, e: Edge, next: nat, h: map<nat, nat>, h': map<nat, nat>)
    requires EdgeSim(w, e, next, h) && forall id | id < next :: (id in h <==> id in h') && (id in h ==> h'[id] == h[id])
    requires next > 0
    ensures EdgeSim(w, e, next + 1, h')
  {
  }

  lemma AllocOther(s: State, g: Graph, h: map<nat, nat>, op: Op, id: nat)
    requires Valid(s) && Sim(s, g, h) && op.Alloc? && Enabled(s, op) && id in h && id != g.next
    ensures Laid(s) && NodeSim(Apply(s, op), Do(g, op), h[g.next := s.ctx.next + 1], id)
  {
    hide Valid, Plain, Apply, Laid, EdgeSim, Slot.At, Slot.Pos;
    ValidLaid(s);
    AllocValid(s, op);
    AllocRest(s, op);
    AddedFrame(s, Apply(s, op), |op.inits|, op.typ);
    assert NodeSim(s, g, h, id);
    NodeStays(s, Apply(s, op), g, Do(g, op), h, h[g.next := s.ctx.next + 1], id);
  }

  lemma AllocRest(s: State, op: Op)
    requires Valid(s) && op.Alloc? && Enabled(s, op)
    ensures Apply(s, op).blocks == s.blocks + [s.ctx.next + 1] && Apply(s, op).roots == s.roots[op.r := s.ctx.next + 1]
  {
  }

  /** An object neither the heap nor the graph has touched still agrees. */
  lemma NodeStays(s: State, s': State, g: Graph, g': Graph, h: map<nat, nat>, h': map<nat, nat>, id: nat)
    requires id in h && NodeSim(s, g, h, id) && id in h' && h'[id] == h[id]
    requires id in g'.nodes && g'.nodes[id] == g.nodes[id] && g.next <= g'.next
    requires h[id] in s'.blocks && Head(s'.mem, h[id]) == Head(s.mem, h[id])
    requires forall i | InObject(s.mem, h[id], i) :: Word(s'.mem, h[id], i) == Word(s.mem, h[id], i)
    requires forall j | j in h && j < g.next :: j in h' && h'[j] == h[j]
    requires forall j | j in h' && j < g.next :: j in h
    ensures NodeSim(s', g', h', id)
  {
    hide Slot.At, Slot.Pos, Plain;
    forall i | 0 <= i < |g.nodes[id].edges|
      ensures EdgeSim(Word(s'.mem, h[id], i), g.nodes[id].edges[i], g'.next, h')
    {
      assert InObject(s.mem, h[id], i);
      assert EdgeSim(Word(s.mem, h[id], i), g.nodes[id].edges[i], g.next, h);
    }
  }

  lemma AbandonSim(s: State, g: Graph, h: map<nat, nat>, n: nat)
    requires Valid(s) && Sim(s, g, h) && Enabled(s, Abandon(n))
    ensures Sim(Apply(s, Abandon(n)), g, h)
  {
    hide Valid;
    AbandonValid(s, n);
    ValidLaid(s);
    var s' := Apply(s, Abandon(n));
    AddedFrame(s, s', n, UNINITIALIZED);
    forall id | id in h
      ensures NodeSim(s', g, h, id)
    {
      assert NodeSim(s, g, h, id);
      NodeStays(s, s', g, g, h, h, id);
    }
  }

  /** Copy, Load and Drop touch roots only. */
  lemma RootsSim(s: State, g: Graph, h: map<nat, nat>, s': State, g': Graph)
    requires Sim(s, g, h) && RootsOnly(s, s') && g' == g.(roots := g'.roots)
    requires s'.roots.Keys == g'.roots.Keys
    requires forall r | r in g'.roots :: g'.roots[r] in h && s'.roots[r] == h[g'.roots[r]]
    ensures Sim(s', g', h)
  {
    hide EdgeSim;
    forall id | id in h
      ensures NodeSim(s', g', h, id)
    {
      assert NodeSim(s, g, h, id);
    }
  }

  lemma LoadSim(s: State, g: Graph, h: map<nat, nat>, op: Op)
    requires Valid(s) && Sim(s, g, h) && op.Load? && Enabled(s, op)
    ensures Sim(Apply(s, op), Do(g, op), h)
  {
    hide Valid, EdgeSim, Laid, Slot.At, Slot.Pos;
    ValidLaid(s);
    var id := g.roots[op.src];
    assert NodeSim(s, g, h, id);
    var e := g.nodes[id].edges[op.i];
    SameEdge(s, g, h, id, op.i);
    if e.to in h {
      assert NodeSim(s, g, h, e.to);
      assert h[e.to] != 0 by { LaidAt(s, h[e.to]); }
    }
    RootsSim(s, g, h, Apply(s, op), Do(g, op));
  }

  lemma PutSim(s: State, g: Graph, h: map<nat, nat>, op: Op)
    requires Valid(s) && Sim(s, g, h) && op.Put? && Enabled(s, op)
    ensures Sim(Apply(s, op), Do(g, op), h)
  {
    hide Valid, EdgeSim, EdgeOf, Stored, Enabled, Apply, NodeSim, Word, Head;
    ValidLaid(s);
    PutIndex(s, op);
    var s', g' := Apply(s, op), Do(g, op);
    var target := g.roots[op.dst];
    PutTarget(s, g, h, op);
    forall id | id in h
      ensures NodeSim(s', g', h, id)
    {
      if id != target {
        PutOther(s, g, h, op, id);
      } else {
        PutOwn(s, g, h, op);
      }
    }
  }

  lemma PutTarget(s: State, g: Graph, h: map<nat, nat>, op: Op)
    requires Valid(s) && Sim(s, g, h) && op.Put? && Enabled(s, op)
    ensures op.dst in g.roots && g.roots[op.dst] in g.nodes && op.i < |g.nodes[g.roots[op.dst]].edges|
    ensures Apply(s, op).blocks == s.blocks && Apply(s, op).roots == s.roots
  {
    hide Valid, EdgeSim;
    assert NodeSim(s, g, h, g.roots[op.dst]);
  }

  lemma PutOther(s: State, g: Graph, h: map<nat, nat>, op: Op, id: nat)
    requires Valid(s) && Sim(s, g, h) && op.Put? && Enabled(s, op) && id in h && id != g.roots[op.dst]
    ensures NodeSim(Apply(s, op), Do(g, op), h, id)
  {
    hide Valid, EdgeSim, EdgeOf, Stored, Enabled, Apply;
    hide Laid, Slot.At, Slot.Pos;
    ValidLaid(s);
    PutMemory(s, op);
    PutTarget(s, g, h, op);
    assert NodeSim(s, g, h, id);
    NodeStays(s, Apply(s, op), g, Do(g, op), h, h, id);
  }

  lemma PutOwn(s: State, g: Graph, h: map<nat, nat>, op: Op)
    requires Valid(s) && Sim(s, g, h) && op.Put? && Enabled(s, op)
    ensures NodeSim(Apply(s, op), Do(g, op), h, g.roots[op.dst])
  {
    hide Valid, EdgeSim, EdgeOf, Stored, Enabled, Apply;
    PutMemory(s, op);
    PutTarget(s, g, h, op);
    assert NodeSim(s, g, h, g.roots[op.dst]);
    PutEdge(s, g, h, op);
  }

  lemma PutIndex(s: State, op: Op)
    requires op.Put? && Enabled(s, op)
    ensures op.dst in s.roots && InObject(s.mem, s.roots[op.dst], op.i)
  {
  }

  lemma PutEdge(s: State, g: Graph, h: map<nat, nat>, op: Op)
    requires Valid(s) && Sim(s, g, h) && op.Put? && Enabled(s, op)
    ensures EdgeSim(Stored(s, op.shape, op.from), EdgeOf(g, op.shape, op.from), g.next, h)
  {
    hide Valid, Sim, EdgeSim, Stored, EdgeOf, Storable;
    StoredEdge(s, g, h, Init(op.shape, op.from));
  }

  /** What is stored in a slot agrees with the edge it makes. */
  lemma StoredEdge(s: State, g: Graph, h: map<nat, nat>, init: Init)
    requires Valid(s) && Sim(s, g, h) && Storable(s, init)
    ensures EdgeSim(Stored(s, init.shape, init.from), EdgeOf(g, init.shape, init.from), g.next, h)
  {
    hide Valid;
    if init.from.Some? {
      var id := g.roots[init.from.value];
      assert NodeSim(s, g, h, id);
      assert 0 < h[id] < TWO_TO_THE_32 by { ValidLaid(s); LaidAt(s, h[id]); }
      AtPos(init.shape, 0);
      AtPos(init.shape, h[id]);
    }
  }

  // ---- Runs ----

  ghost function DoAll(ops: seq<Op>): Graph {
    if ops == [] then EMPTY else Do(DoAll(ops[..|ops| - 1]), ops[|ops| - 1])
  }

  lemma StepSim(s: State, op: Op, s': State, g: Graph, h: map<nat, nat>) returns (h': map<nat, nat>)
    requires HeapStep(s, op, s') && Sim(s, g, h)
    ensures Valid(s') && Sim(s', Do(g, op), h')
  {
    hide Valid, Sim, Enabled, Collected;
    h' := h;
    match op
    case Collect =>
      var f :| Collected(s, s', f);
      CollectSim(s, s', g, h, f);
      h' := Moved(h, f);
    case Alloc(_, _, _) =>
      ApplyValid(s, op);
      AllocSim(s, g, h, op);
      h' := h[g.next := s.ctx.next + 1];
    case Abandon(n) =>
      ApplyValid(s, op);
      AbandonSim(s, g, h, n);
    case Copy(dst, src) =>
      ApplyValid(s, op);
      CopySim(s, g, h, op);
    case Load(_, _, _) =>
      ApplyValid(s, op);
      LoadSim(s, g, h, op);
    case Put(_, _, _, _) =>
      ApplyValid(s, op);
      PutSim(s, g, h, op);
    case Drop(r) =>
      ApplyValid(s, op);
      CopySim(s, g, h, op);
  }

  lemma CopySim(s: State, g: Graph, h: map<nat, nat>, op: Op)
    requires Valid(s) && Sim(s, g, h) && (op.Copy? || op.Drop?)
    ensures Sim(Apply(s, op), Do(g, op), h)
  {
    hide Valid, NodeSim;
    ValidLaid(s);
    RootsSim(s, g, h, Apply(s, op), Do(g, op));
  }

  /** Every run, with collections anywhere, ends in a heap that is the graph of the same operations
      with each live object at some place of its own. */
  lemma {:induction false} RunsAgree(states: seq<State>, ops: seq<Op>) returns (h: map<nat, nat>)
    requires Run(states, ops)
    ensures Valid(states[|ops|]) && Sim(states[|ops|], DoAll(ops), h)
  {
    hide Valid, HeapStep, Sim;
    if ops == [] {
      h := map[];
      EmptySim(states[0]);
    } else {
      var n := |ops| - 1;
      assert Run(states[..n + 1], ops[..n]);
      var h0 := RunsAgree(states[..n + 1], ops[..n]);
      assert ops[n] == ops[|ops| - 1] && states[..n + 1][n] == states[n];
      h := StepSim(states[n], ops[n], states[n + 1], DoAll(ops[..n]), h0);
    }
  }

  lemma EmptySim(s: State)
    requires s.roots == map[]
    ensures Sim(s, EMPTY, map[])
  {
  }

  // ---- What a program can observe ----

  /** Through any path, and at any moment of any run, the program sees what it would see in the graph:
      whether there is an object, its type and size, its words, and which paths lead to the same one. */
  lemma RunsLookAlike(states: seq<State>, ops: seq<Op>, path: Path, path': Path)
    requires Run(states, ops)
    ensures var s := states[|ops|]; var g := DoAll(ops); var p := Resolve(s, path); var id := Follow(g, path);
      && (p == 0 <==> id == 0)
      && (p != 0 ==> (Resolve(s, path') == p <==> Follow(g, path') == id))
      && (p != 0 ==> id in g.nodes && Head(s.mem, p) == Header(|g.nodes[id].edges| + 1, g.nodes[id].typ))
      && (p != 0 ==> forall i {:trigger g.nodes[id].edges[i]} | 0 <= i < |g.nodes[id].edges| ::
            && Word(s.mem, p, i).Shape() == g.nodes[id].edges[i].shape.Shape()
            && (!g.nodes[id].edges[i].shape.Weak? ==> (Word(s.mem, p, i).Pos() == 0 <==> g.nodes[id].edges[i].to == 0)))
  {
    hide Valid, HeapStep, EdgeSim;
    var h := RunsAgree(states, ops);
    var s, g := states[|ops|], DoAll(ops);
    SamePath(s, g, h, path);
    SamePath(s, g, h, path');
    var id := Follow(g, path);
    ValidLaid(s);
    forall k | k in h
      ensures 0 < h[k]
    {
      assert NodeSim(s, g, h, k);
      LaidAt(s, h[k]);
    }
    if id != 0 {
      assert NodeSim(s, g, h, id);
      forall i | 0 <= i < |g.nodes[id].edges|
        ensures Word(s.mem, h[id], i).Shape() == g.nodes[id].edges[i].shape.Shape()
        ensures !g.nodes[id].edges[i].shape.Weak? ==> (Word(s.mem, h[id], i).Pos() == 0 <==> g.nodes[id].edges[i].to == 0)
      {
        SameEdge(s, g, h, id, i);
      }
    }
  }

  /** The same operations with the collections left out. */
  function WithoutCollect(ops: seq<Op>): seq<Op> {
    if ops == [] then []
    else WithoutCollect(ops[..|ops| - 1]) + if ops[|ops| - 1].Collect? then [] else [ops[|ops| - 1]]
  }

  ghost predicate ReadsStrong(g: Graph, op: Op) {
    op.Load? && op.src in g.roots && g.roots[op.src] in g.nodes && op.i < |g.nodes[g.roots[op.src]].edges| ==>
      !g.nodes[g.roots[op.src]].edges[op.i].shape.Weak?
  }

  /** No operation reads a weak slot. */
  ghost predicate ReadsStrongOnly(ops: seq<Op>) {
    ops == [] || (ReadsStrongOnly(ops[..|ops| - 1]) && ReadsStrong(DoAll(ops[..|ops| - 1]), ops[|ops| - 1]))
  }

  ghost predicate SameObjects(g: Graph, n: Graph) {
    g.nodes == n.nodes && g.roots == n.roots && g.next == n.next
  }

  lemma DoSame(g: Graph, n: Graph, op: Op)
    requires SameObjects(g, n) && ReadsStrong(g, op)
    ensures SameObjects(Do(g, op), if op.Collect? then n else Do(n, op))
  {
    hide Named;
    if op.Alloc? {
      assert EdgesOf(g, op.inits) == EdgesOf(n, op.inits);
    }
  }

  lemma {:induction false} SameFollow(g: Graph, n: Graph, path: Path)
    requires SameObjects(g, n)
    ensures Follow(g, path) == Follow(n, path)
  {
    match path
    case At(r) =>
    case Slot(via, i) => SameFollow(g, n, via);
  }

  /** Two objects look alike: type and size are the same, and so is every word, up to positions and
      to weak slots; the strong slots are null in the same places. */
  ghost predicate LookAlike(m: seq<HeapModel.Slot>, p: nat, m': seq<HeapModel.Slot>, p': nat) {
    && Head(m, p) == Head(m', p')
    && forall i: nat {:trigger Word(m, p, i)} | InObject(m, p, i) ::
         && Word(m, p, i).Shape() == Word(m', p', i).Shape()
         && (!Word(m, p, i).Weak? ==> (Word(m, p, i).Pos() == 0 <==> Word(m', p', i).Pos() == 0))
  }

  /** A run that collects and the run of the same operations that never does cannot be told apart
      when no operation reads a weak slot: through any path there is an object in one exactly when
      there is in the other, the two look alike, and the same paths lead to the same object. */
  lemma CollectingRunLooksAlike(states: seq<State>, ops: seq<Op>, states': seq<State>, path: Path, path': Path)
    requires Run(states, ops) && Run(states', WithoutCollect(ops)) && ReadsStrongOnly(ops)
    ensures var s := states[|ops|]; var s' := states'[|states'| - 1];
      && (Resolve(s, path) == 0 <==> Resolve(s', path) == 0)
      && (Resolve(s, path) != 0 ==> LookAlike(s.mem, Resolve(s, path), s'.mem, Resolve(s', path)))
      && (Resolve(s, path) != 0 ==> (Resolve(s, path') == Resolve(s, path) <==> Resolve(s', path') == Resolve(s', path)))
  {
    hide Run, ReadsStrongOnly, Do, DoAll, WithoutCollect, Slot.Shape, Slot.Pos;
    var w := WithoutCollect(ops);
    RunLength(states, ops);
    RunLength(states', w);
    RunsLookAlike(states, ops, path, path');
    RunsLookAlike(states', w, path, path');
    CollectionsUnnoticed(ops);
    SameFollow(DoAll(ops), DoAll(w), path);
    SameFollow(DoAll(ops), DoAll(w), path');
    var s, s', g := states[|ops|], states'[|w|], DoAll(ops);
    var p, p', id := Resolve(s, path), Resolve(s', path), Follow(g, path);
    if p != 0 {
      forall i: nat | InObject(s.mem, p, i)
        ensures Word(s.mem, p, i).Shape() == Word(s'.mem, p', i).Shape()
        ensures !Word(s.mem, p, i).Weak? ==> (Word(s.mem, p, i).Pos() == 0 <==> Word(s'.mem, p', i).Pos() == 0)
      {
        assert g.nodes[id].edges[i] == DoAll(w).nodes[id].edges[i];
        ShapeKind(Word(s.mem, p, i));
        ShapeKind(g.nodes[id].edges[i].shape);
      }
    }
  }

  lemma ShapeKind(w: HeapModel.Slot)
    ensures w.Shape().Weak? == w.Weak?
  {
  }

  lemma RunLength(states: seq<State>, ops: seq<Op>)
    requires Run(states, ops)
    ensures |states| == |ops| + 1
  {
  }

  /** Collections cannot be noticed except by reading weak slots: the objects, their contents and the
      roots are those of the run that never collects. */
  lemma {:induction false} CollectionsUnnoticed(ops: seq<Op>)
    requires ReadsStrongOnly(ops)
    ensures SameObjects(DoAll(ops), DoAll(WithoutCollect(ops)))
  {
    hide Named, Do;
    if ops != [] {
      var init, op := ops[..|ops| - 1], ops[|ops| - 1];
      CollectionsUnnoticed(init);
      DoSame(DoAll(init), DoAll(WithoutCollect(init)), op);
      if op.Collect? {
        assert WithoutCollect(ops) == WithoutCollect(init);
      } else {
        var w := WithoutCollect(init) + [op];
        assert w[..|w| - 1] == WithoutCollect(init);
      }
    }
  }

  /** A weak slot still gives its object exactly when that object was strongly reachable at the last
      collection or has been made since; otherwise it is null. */
  lemma WeakSlots(states: seq<State>, ops: seq<Op>, path: Path, i: nat)
    requires Run(states, ops)
    requires var g := DoAll(ops); Follow(g, path) in g.nodes && Follow(g, path) != 0 && i < |g.nodes[Follow(g, path)].edges|
    ensures var s := states[|ops|]; var g := DoAll(ops); var e := g.nodes[Follow(g, path)].edges[i];
      e.shape.Weak? ==> (Word(s.mem, Resolve(s, path), i).Pos() != 0 <==> e.to != 0 && e.to in g.live)
  {
    hide Valid, HeapStep, EdgeSim;
    var h := RunsAgree(states, ops);
    var s, g := states[|ops|], DoAll(ops);
    SamePath(s, g, h, path);
    var id := Follow(g, path);
    assert NodeSim(s, g, h, id);
    SameEdge(s, g, h, id, i);
    var e := g.nodes[id].edges[i];
    if e.to in h {
      assert NodeSim(s, g, h, e.to);
      ValidLaid(s);
      LaidAt(s, h[e.to]);
    }
  }

  // ---- Space ----

  /** After a collection every object is strongly reachable. */
  lemma AllReachable(s: State, s': State, f: map<nat, nat>, q: nat)
    requires Valid(s) && Collected(s, s', f) && q in s'.blocks
    ensures Reachable(s', q)
  {
    hide Valid;
    assert q in f.Values;
    var p :| p in f && f[p] == q;
    var path :| Resolve(s, path) == p;
    FollowMoved(s, s', f, path);
    assert q != 0 by { PositiveBlock(s, s', f, p); }
  }

  lemma PositiveBlock(s: State, s': State, f: map<nat, nat>, p: nat)
    requires Valid(s) && Collected(s, s', f) && p in f
    ensures f[p] != 0
  {
    assert Reachable(s, p);
    ReachableActive(s, p);
    assert Head(s'.mem, f[p]) == Head(s.mem, p);
  }

  /** A path leads to the new place of what it led to before. */
  lemma {:induction false} FollowMoved(s: State, s': State, f: map<nat, nat>, path: Path)
    requires Valid(s) && Collected(s, s', f) && Resolve(s, path) != 0
    ensures Resolve(s, path) in f && Resolve(s', path) == f[Resolve(s, path)]
  {
    hide Valid, Slot.At;
    assert Reachable(s, Resolve(s, path));
    match path
    case At(r) =>
    case Slot(via, i) =>
      FollowMoved(s, s', f, via);
      var p, w := Resolve(s, via), Word(s.mem, Resolve(s, via), i);
      assert Word(s'.mem, f[p], i) == Relocate(w, f);
      PositiveBlock(s, s', f, p);
      PositiveBlock(s, s', f, w.Pos());
      SmallPlace(s, s', f, w.Pos());
      ReachableActive(s, p);
      assert w.CanHold();
      AtPos(w, f[w.Pos()]);
  }

  lemma SmallPlace(s: State, s': State, f: map<nat, nat>, p: nat)
    requires Valid(s) && Collected(s, s', f) && p in f
    ensures f[p] < TWO_TO_THE_32
  {
    assert Reachable(s, p);
    ReachableActive(s, p);
    assert Head(s'.mem, f[p]) == Head(s.mem, p);
    assert f[p] <= |s'.mem|;
  }

  /** A value stored in an object that stays alive is the same value after a collection; a string or
      an object is alive too, and the value names the place it has moved to. */
  lemma ValuesFollow(s: State, s': State, f: map<nat, nat>, p: nat, i: nat, v: V.Value)
    requires Valid(s) && Collected(s, s', f) && p in f && InObject(s.mem, p, i)
    requires Word(s.mem, p, i).Boxed? && V.Decode(Word(s.mem, p, i).repr) == Some(v)
    ensures Word(s'.mem, f[p], i).Boxed?
    ensures V.Decode(Word(s'.mem, f[p], i).repr) ==
            match v
            case String(q) => if q in f then Some(V.String(f[q])) else None
            case Object(q) => if q in f then Some(V.Object(f[q])) else None
            case _ => Some(v)
    ensures v.String? || v.Object? ==> v.pos in f && v.pos in s.blocks
  {
    hide Laid, HeadersOk, PointersOk, Reachable, V.Decode, V.HoldsPosition, V.WithLow, V.Low;
    var w := Word(s.mem, p, i);
    ReachableActive(s, p);
    assert SlotOk(s.mem, s.blocks, w);
    assert Word(s'.mem, f[p], i) == Relocate(w, f);
    V.HeldPosition(w.repr);
    if V.HoldsPosition(w.repr) {
      StrongTarget(s, p, i);
      SmallPlace(s, s', f, w.Pos());
      V.StoreMovesValue(w.repr, f[w.Pos()]);
    }
  }

  /** Collecting again at once keeps every object and frees nothing more. */
  lemma CollectTwice(s: State, s': State, s'': State, f: map<nat, nat>, f': map<nat, nat>)
    requires Valid(s) && Valid(s') && Collected(s, s', f) && Collected(s', s'', f')
    ensures s''.ctx.next - s''.ctx.start == s'.ctx.next - s'.ctx.start
    ensures forall p :: p in f' <==> p in s'.blocks
  {
    hide Valid, Reachable, Relocate, InObject;
    forall q
      ensures q in f' <==> q in s'.blocks
    {
      if q in s'.blocks {
        AllReachable(s, s', f, q);
      }
      if q in f' {
        ReachableActive(s', q);
      }
    }
    ValidLaid(s');
    SpaceAll(s'.mem, s'.ctx.start, s'.ctx.next, s'.blocks, |s'.blocks|, f'.Keys);
    assert s'.blocks[..|s'.blocks|] == s'.blocks;
  }
}
