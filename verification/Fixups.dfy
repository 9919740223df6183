/** Which addresses an object registers when it is moved, and what moving and destroying objects
    does to the pointer set and the work lists. */
module Fixups {
  import opened PointerSets
  import opened HeapModel
  import opened Collection

  /** How a slot takes part in a move: tracked pointers are registered by the heap, untracked ones
      by the object's own fixup. */
  datatype Kind = TrackedRef | UntrackedStrong | UntrackedWeak

  predicate Is(kind: Kind, w: Slot) {
    match kind
    case TrackedRef => w.IsTracked()
    case UntrackedStrong => w.IsStrong() && !w.Tracked?
    case UntrackedWeak => w.IsWeak()
  }

  /** The addresses `Field(q, i)` for the slots i < n of the object at `p` that are of this kind. */
  ghost function Cells(m: seq<Slot>, p: nat, q: nat, n: nat, kind: Kind): seq<Addr> {
    if n == 0 then []
    else Cells(m, p, q, n - 1, kind) + if Is(kind, Word(m, p, n - 1)) then [Field(q, n - 1)] else []
  }

  ghost predicate IsCell(m: seq<Slot>, p: nat, q: nat, n: nat, kind: Kind, a: Addr) {
    a.Field? && a.obj == q && a.index < n && Is(kind, Word(m, p, a.index))
  }

  lemma {:induction false} CellsExactly(m: seq<Slot>, p: nat, q: nat, n: nat, kind: Kind)
    ensures NoDup(Cells(m, p, q, n, kind))
    ensures forall a :: a in Cells(m, p, q, n, kind) <==> IsCell(m, p, q, n, kind, a)
  {
    hide Is, Word;
    if n > 0 {
      CellsExactly(m, p, q, n - 1, kind);
      NoDupAppend(Cells(m, p, q, n - 1, kind), if Is(kind, Word(m, p, n - 1)) then [Field(q, n - 1)] else []);
    }
  }

  lemma {:induction false} CellsSame(m: seq<Slot>, p: nat, m': seq<Slot>, p': nat, q: nat, n: nat, kind: Kind)
    requires forall i | 0 <= i < n :: Word(m', p', i) == Word(m, p, i)
    ensures Cells(m', p', q, n, kind) == Cells(m, p, q, n, kind)
  {
    if n > 0 {
      CellsSame(m, p, m', p', q, n - 1, kind);
    }
  }

  /** The pointer set after the tracked slots of the object at `p` are detached, last one first. */
  ghost function EraseCells(pointers: seq<Addr>, m: seq<Slot>, p: nat, n: nat): seq<Addr>
    decreases n
  {
    if n == 0 then pointers
    else EraseCells(if Is(TrackedRef, Word(m, p, n - 1)) then Erase(pointers, Field(p, n - 1)) else pointers, m, p, n - 1)
  }

  lemma {:induction false} EraseCellsExactly(pointers: seq<Addr>, m: seq<Slot>, p: nat, n: nat)
    requires NoDup(pointers)
    requires forall a :: IsCell(m, p, p, n, TrackedRef, a) ==> a in pointers
    ensures NoDup(EraseCells(pointers, m, p, n))
    ensures forall a :: a in EraseCells(pointers, m, p, n) <==> a in pointers && !IsCell(m, p, p, n, TrackedRef, a)
    ensures |EraseCells(pointers, m, p, n)| == |pointers| - |Cells(m, p, p, n, TrackedRef)|
    decreases n
  {
    hide Is, Word, Erase;
    if n > 0 {
      var a := Field(p, n - 1);
      var rest := if Is(TrackedRef, Word(m, p, n - 1)) then Erase(pointers, a) else pointers;
      if Is(TrackedRef, Word(m, p, n - 1)) {
        assert IsCell(m, p, p, n, TrackedRef, a);
        EraseKeeps(pointers, a);
      }
      forall b | IsCell(m, p, p, n - 1, TrackedRef, b)
        ensures b in rest
      {
        assert IsCell(m, p, p, n, TrackedRef, b);
      }
      EraseCellsExactly(rest, m, p, n - 1);
    }
  }

  // ---- The lists during a collection ----

  /** The tracked pointers there are at a moment of the loop: roots, tracked slots of copies, and
      tracked slots of live objects that have not moved. */
  ghost predicate LoopPointer(s: State, g: Gc, a: Addr) {
    || CopyPointer(s, g, a)
    || (a.Field? && a.obj in s.blocks && a.obj !in g.fwd && Active(s.mem, a.obj) && InObject(s.mem, a.obj, a.index)
        && Word(s.mem, a.obj, a.index).IsTracked())
  }

  /** `pointers`, `weak` and the log of destroyed objects are what they should be, each entry once. */
  ghost predicate ListsOk(s: State, g: Gc, pointers: seq<Addr>, weak: seq<Addr>, destroyed: seq<nat>) {
    && NoDup(pointers) && (forall a :: a in pointers <==> LoopPointer(s, g, a))
    && NoDup(weak) && (forall a :: a in weak <==> WeakField(s, g, a))
    && NoDup(destroyed) && (forall p :: p in destroyed <==> p in g.fwd)
  }

  lemma BeginLists(s: State)
    requires Valid(s)
    ensures ListsOk(s, Begin(s), s.pointers, [], [])
  {
    forall a
      ensures IsPointer(s, a) <==> LoopPointer(s, Begin(s), a)
    {
    }
  }

  /** The state of the maps after the object at `p` moves to `q`. */
  ghost predicate Extends(s: State, g: Gc, g': Gc, p: nat, q: nat) {
    && p in s.blocks && Active(s.mem, p) && p !in g.fwd && q !in g.back
    && g'.fwd == g.fwd[p := q] && g'.back == g.back[q := p]
    && q !in s.blocks && (forall b | b in g.back :: b !in s.blocks)
  }

  lemma MoveDestroyed(s: State, g: Gc, g': Gc, p: nat, q: nat, pointers: seq<Addr>, weak: seq<Addr>, destroyed: seq<nat>)
    requires ListsOk(s, g, pointers, weak, destroyed) && Extends(s, g, g', p, q)
    ensures NoDup(destroyed + [p]) && forall b :: b in destroyed + [p] <==> b in g'.fwd
  {
    hide LoopPointer, WeakField;
  }

  lemma MoveWeak(s: State, g: Gc, g': Gc, p: nat, q: nat, pointers: seq<Addr>, weak: seq<Addr>, destroyed: seq<nat>)
    requires ListsOk(s, g, pointers, weak, destroyed) && Extends(s, g, g', p, q)
    ensures var w := weak + Cells(s.mem, p, q, SizeAt(s.mem, p) - 1, UntrackedWeak);
      NoDup(w) && forall a :: a in w <==> WeakField(s, g', a)
    requires SizeAt(s.mem, p) >= 2
  {
    hide LoopPointer, Slot.IsWeak, Word, Active;
    CellsExactly(s.mem, p, q, SizeAt(s.mem, p) - 1, UntrackedWeak);
    NoDupAppend(weak, Cells(s.mem, p, q, SizeAt(s.mem, p) - 1, UntrackedWeak));
  }

  /** The copy's tracked pointers are appended, then those of the original are erased. */
  lemma MovePointers(s: State, g: Gc, g': Gc, p: nat, q: nat, pointers: seq<Addr>, weak: seq<Addr>, destroyed: seq<nat>)
    requires ListsOk(s, g, pointers, weak, destroyed) && Extends(s, g, g', p, q) && SizeAt(s.mem, p) >= 2
    ensures var n := SizeAt(s.mem, p) - 1;
      var after := EraseCells(pointers + Cells(s.mem, p, q, n, TrackedRef), s.mem, p, n);
      NoDup(after) && |after| == |pointers| && forall a :: a in after <==> LoopPointer(s, g', a)
  {
    hide Slot.IsTracked, Word, WeakField, Cells, EraseCells;
    var n := SizeAt(s.mem, p) - 1;
    var cells := Cells(s.mem, p, q, n, TrackedRef);
    CellsExactly(s.mem, p, q, n, TrackedRef);
    NoDupAppend(pointers, cells);
    EraseCellsExactly(pointers + cells, s.mem, p, n);
    CellsLength(s.mem, p, q, p, n, TrackedRef);
    forall a
      ensures LoopPointer(s, g', a) <==> (a in pointers || a in cells) && !IsCell(s.mem, p, p, n, TrackedRef, a)
    {
      assert a in pointers <==> LoopPointer(s, g, a);
    }
  }

  lemma {:induction false} CellsLength(m: seq<Slot>, p: nat, q: nat, q': nat, n: nat, kind: Kind)
    ensures |Cells(m, p, q, n, kind)| == |Cells(m, p, q', n, kind)|
  {
    if n > 0 {
      CellsLength(m, p, q, q', n - 1, kind);
    }
  }

  /** The registered addresses after the move: tracked slots first, then what fixup adds. */
  lemma MovePending(s: State, g: Gc, g': Gc, p: nat, q: nat, pending: seq<Addr>)
    requires Extends(s, g, g', p, q) && SizeAt(s.mem, p) >= 2
    requires NoDup(pending) && forall a | a in pending :: CanDo(s, g, a)
    ensures var n := SizeAt(s.mem, p) - 1;
      var more := Cells(s.mem, p, q, n, TrackedRef) + Cells(s.mem, p, q, n, UntrackedStrong);
      && NoDup(pending + more)
      && (forall a :: a in more <==> StrongAt(s.mem, p, q, a))
      && (forall a | a in more :: a.obj == q)
  {
    hide Word, Slot.IsStrong, Slot.IsTracked;
    var n := SizeAt(s.mem, p) - 1;
    var tracked := Cells(s.mem, p, q, n, TrackedRef);
    var untracked := Cells(s.mem, p, q, n, UntrackedStrong);
    CellsExactly(s.mem, p, q, n, TrackedRef);
    CellsExactly(s.mem, p, q, n, UntrackedStrong);
    forall a
      ensures a in tracked + untracked <==> StrongAt(s.mem, p, q, a)
      ensures !(a in tracked && a in untracked)
    {
      if a.Field? {
        StrongSplit(Word(s.mem, p, a.index));
      }
    }
    NoDupAppend(tracked, untracked);
    NoDupAppend(pending, tracked + untracked);
  }

  lemma StrongSplit(w: Slot)
    ensures w.IsStrong() <==> Is(TrackedRef, w) || Is(UntrackedStrong, w)
    ensures !(Is(TrackedRef, w) && Is(UntrackedStrong, w))
  {
  }

  // ---- A moment of the loop, lists included ----

  ghost function Elems(pending: seq<Addr>): set<Addr> {
    set a | a in pending
  }

  datatype Lists = Lists(pending: seq<Addr>, pointers: seq<Addr>, weak: seq<Addr>, destroyed: seq<nat>)

  /** The addresses on the work list, each once, and those in flight are what is left to do. */
  ghost predicate LoopOk(s: State, g: Gc, l: Lists, inFlight: set<Addr>) {
    && Valid(s) && Inv(s, g)
    && NoDup(l.pending) && Elems(l.pending) !! inFlight && g.todo == Elems(l.pending) + inFlight
    && ListsOk(s, g, l.pointers, l.weak, l.destroyed)
  }

  /** What a move does to the lists. */
  ghost predicate MoveLists(s: State, p: nat, q: nat, l: Lists, l': Lists) {
    var n := SizeAt(s.mem, p);
    && n >= 2
    && l'.pending == l.pending + (Cells(s.mem, p, q, n - 1, TrackedRef) + Cells(s.mem, p, q, n - 1, UntrackedStrong))
    && l'.pointers == EraseCells(l.pointers + Cells(s.mem, p, q, n - 1, TrackedRef), s.mem, p, n - 1)
    && l'.weak == l.weak + Cells(s.mem, p, q, n - 1, UntrackedWeak)
    && l'.destroyed == l.destroyed + [p]
  }

  lemma NewPlace(s: State, g: Gc, g': Gc, p: nat)
    requires Laid(s) && MapsOk(s, g) && SpaceOk(s, g) && p in s.blocks && p !in g.fwd && Active(s.mem, p)
    requires MoveMem(s, g, g', p)
    ensures Extends(s, g, g', p, g.next + 1)
  {
    RoomForCopy(s, g, p);
    LaidAt(s, p);
    forall b | b in g.placed
      ensures b !in s.blocks && b < g.next + 1
    {
      SpaceAt(s, g, b);
      if b in s.blocks {
        LaidAt(s, b);
      }
    }
    assert forall b | b in s.blocks :: s.ctx.start < b && b < s.ctx.next by {
      forall b | b in s.blocks
        ensures s.ctx.start < b && b < s.ctx.next
      {
        LaidAt(s, b);
      }
    }
  }

  /** One move keeps every invariant of the loop. */
  lemma MoveLoop(s: State, g: Gc, g': Gc, p: nat, l: Lists, l': Lists, inFlight: set<Addr>)
    requires LoopOk(s, g, l, inFlight) && CanMove(s, g, p)
    requires MoveMem(s, g, g', p) && MoveLists(s, p, g.next + 1, l, l')
    requires g'.todo == Elems(l'.pending) + inFlight
    ensures LoopOk(s, g', l', inFlight)
  {
    hide Laid, MapsOk, SpaceOk, OldOk, NewOk, RootsOk, Sound, MoveMem, HeadersOk, FieldsOk, PointersOk, Reachable, CanDo, ListsOk;
    hide StrongAt, Cells, EraseCells;
    var q := g.next + 1;
    NewPlace(s, g, g', p);
    MovePending(s, g, g', p, q, l.pending);
    var more := Cells(s.mem, p, q, SizeAt(s.mem, p) - 1, TrackedRef) + Cells(s.mem, p, q, SizeAt(s.mem, p) - 1, UntrackedStrong);
    MoveInFlight(s, g, g', p, l, l', more, inFlight);
    MoveKeepsInv(s, g, g', p);
    MoveKeepsLists(s, g, g', p, l, l');
  }

  lemma MoveKeepsLists(s: State, g: Gc, g': Gc, p: nat, l: Lists, l': Lists)
    requires ListsOk(s, g, l.pointers, l.weak, l.destroyed) && Extends(s, g, g', p, g.next + 1)
    requires MoveLists(s, p, g.next + 1, l, l')
    ensures ListsOk(s, g', l'.pointers, l'.weak, l'.destroyed)
  {
    hide Extends, LoopPointer, WeakField, Cells, EraseCells;
    MoveDestroyed(s, g, g', p, g.next + 1, l.pointers, l.weak, l.destroyed);
    MoveWeak(s, g, g', p, g.next + 1, l.pointers, l.weak, l.destroyed);
    MovePointers(s, g, g', p, g.next + 1, l.pointers, l.weak, l.destroyed);
  }

  lemma MoveInFlight(s: State, g: Gc, g': Gc, p: nat, l: Lists, l': Lists, more: seq<Addr>, inFlight: set<Addr>)
    requires g.todo == Elems(l.pending) + inFlight && Elems(l.pending) !! inFlight
    requires Extends(s, g, g', p, g.next + 1) && (forall a | a in g.todo :: CanDo(s, g, a))
    requires l'.pending == l.pending + more && g'.todo == Elems(l'.pending) + inFlight
    requires forall a :: a in more <==> StrongAt(s.mem, p, g.next + 1, a)
    ensures Elems(l'.pending) !! inFlight
    ensures forall a :: a in g'.todo <==> a in g.todo || StrongAt(s.mem, p, g.next + 1, a)
  {
    hide Slot.IsStrong;
    forall a | a in inFlight
      ensures a !in more
    {
      assert CanDo(s, g, a);
    }
  }

  /** What gc_move finds at the position a registered address holds. */
  lemma MoveTarget(s: State, g: Gc, a: Addr)
    requires Valid(s) && Inv(s, g) && a in g.todo
    ensures CanDo(s, g, a)
    ensures var p := Holds(s, g, a);
      && Target(s.mem, s.blocks, p) && Reachable(s, p) && 1 <= p < |g.mem|
      && if p in g.fwd then g.mem[p - 1] == Header(SizeAt(s.mem, p), MOVED) && g.mem[p] == NewPosition(g.fwd[p])
         else g.mem[p - 1] == Head(s.mem, p) && Head(s.mem, p).Header? && Head(s.mem, p).typ != MOVED
  {
    hide Valid, MapsOk, Sound, NewOk, RootsOk, SpaceOk, Reachable, CanDo;
    HoldsReachable(s, g, a);
    var p := Holds(s, g, a);
    assert HalvesOk(s) && 1 <= p < |s.mem| && |g.mem| == |s.mem| by { ValidLaid(s); LaidAt(s, p); SpaceLength(s, g); }
    if p in g.fwd {
      assert LeftBehind(s, g, p);
    } else {
      assert SameBlock(s.mem, p, g.mem, p);
    }
  }

  lemma SpaceLength(s: State, g: Gc)
    requires SpaceOk(s, g)
    ensures |g.mem| == |s.mem| && OtherStart(s) <= g.next <= OtherStart(s) + s.half
  {
  }

  lemma MoveRoom(s: State, g: Gc, p: nat)
    requires Valid(s) && SpaceOk(s, g) && p in s.blocks && p !in g.fwd
    ensures 1 <= p && 2 <= SizeAt(s.mem, p) <= MAX_SIZE && p - 1 + SizeAt(s.mem, p) <= |g.mem|
    ensures g.next + SizeAt(s.mem, p) <= OtherStart(s) + s.half <= |g.mem|
    ensures p - 1 + SizeAt(s.mem, p) <= g.next || g.next + SizeAt(s.mem, p) <= p - 1
  {
    hide FieldsOk, PointersOk, Tiles;
    LaidAt(s, p);
    RoomForCopy(s, g, p);
  }

  /** An object that has not moved is still what it was when the collection started. */
  lemma MoveSource(s: State, g: Gc, p: nat, q: nat, l: seq<Addr>)
    requires Valid(s) && OldOk(s, g) && |g.mem| == |s.mem| && p in s.blocks && p !in g.fwd
    ensures var n := SizeAt(s.mem, p);
      && 2 <= n && p - 1 + n <= |g.mem|
      && (forall k | p - 1 <= k < p - 1 + n :: g.mem[k] == s.mem[k])
      && Cells(g.mem, p, q, n - 1, TrackedRef) == Cells(s.mem, p, q, n - 1, TrackedRef)
      && Cells(g.mem, p, q, n - 1, UntrackedStrong) == Cells(s.mem, p, q, n - 1, UntrackedStrong)
      && Cells(g.mem, p, q, n - 1, UntrackedWeak) == Cells(s.mem, p, q, n - 1, UntrackedWeak)
      && EraseCells(l, g.mem, p, n - 1) == EraseCells(l, s.mem, p, n - 1)
  {
    hide Valid, Laid, Cells, EraseCells, OldOk;
    assert SameBlock(s.mem, p, g.mem, p) by { UnmovedBlock(s, g, p); }
    assert HalvesOk(s) && 2 <= SizeAt(s.mem, p) && p - 1 + SizeAt(s.mem, p) <= s.ctx.next by { ValidLaid(s); LaidAt(s, p); }
    var n := SizeAt(s.mem, p);
    forall k | p - 1 <= k < p - 1 + n
      ensures g.mem[k] == s.mem[k]
    {
      if k >= p {
        assert Word(g.mem, p, k - p) == Word(s.mem, p, k - p);
      }
    }
    assert forall i | 0 <= i < n - 1 :: Word(g.mem, p, i) == Word(s.mem, p, i);
    CellsSame(s.mem, p, g.mem, p, q, n - 1, TrackedRef);
    CellsSame(s.mem, p, g.mem, p, q, n - 1, UntrackedStrong);
    CellsSame(s.mem, p, g.mem, p, q, n - 1, UntrackedWeak);
    CellsErased(l, s.mem, g.mem, p, n - 1);
  }

  lemma UnmovedBlock(s: State, g: Gc, p: nat)
    requires OldOk(s, g) && p in s.blocks && p !in g.fwd
    ensures SameBlock(s.mem, p, g.mem, p)
  {
  }

  lemma {:induction false} CellsErased(pointers: seq<Addr>, m: seq<Slot>, m': seq<Slot>, p: nat, n: nat)
    requires forall i | 0 <= i < n :: Word(m', p, i) == Word(m, p, i)
    ensures EraseCells(pointers, m', p, n) == EraseCells(pointers, m, p, n)
    decreases n
  {
    if n > 0 {
      CellsErased(if Is(TrackedRef, Word(m, p, n - 1)) then Erase(pointers, Field(p, n - 1)) else pointers, m, m', p, n - 1);
    }
  }

  lemma InvParts(s: State, g: Gc)
    requires Inv(s, g)
    ensures SpaceOk(s, g) && OldOk(s, g)
  {
  }

  /** Memory after the object of `size` slots at `pos` has moved to `to`. */
  ghost function MovedMemory(m: seq<Slot>, pos: nat, to: nat, size: nat, typ: nat): (m': seq<Slot>)
    requires 1 <= pos && 1 <= to && 2 <= size && pos - 1 + size <= |m|
    ensures |m'| == |m|
  {
    seq(|m|, k requires 0 <= k < |m| =>
      if k == pos - 1 then Header(size, MOVED)
      else if k == pos then NewPosition(to)
      else if k == to - 1 then Header(size, typ)
      else if to <= k < to + size - 1 then m[k - to + pos]
      else m[k])
  }

  lemma MovedMemoryRel(s: State, g: Gc, g': Gc, p: nat)
    requires var n := SizeAt(s.mem, p);
      && 1 <= p && 2 <= n && p - 1 + n <= |g.mem| == |s.mem| && g.next + n <= |g.mem|
      && (p - 1 + n <= g.next || g.next + n <= p - 1)
      && (forall k | p - 1 <= k < p - 1 + n :: g.mem[k] == s.mem[k])
      && g'.mem == MovedMemory(g.mem, p, g.next + 1, n, Head(s.mem, p).typ)
    requires g'.roots == g.roots && g'.fwd == g.fwd[p := g.next + 1] && g'.back == g.back[g.next + 1 := p]
    requires g'.placed == g.placed + [g.next + 1] && g'.next == g.next + SizeAt(s.mem, p)
    ensures MoveMem(s, g, g', p)
  {
  }

  // ---- One address fixed up ----

  lemma FixLoop(s: State, g: Gc, g': Gc, l: Lists, a: Addr)
    requires LoopOk(s, g, l, {a}) && CanDo(s, g, a) && FixRel(s, g, g', a)
    ensures LoopOk(s, g', l, {})
  {
    hide Valid, Inv, ListsOk;
    FixKeepsInv(s, g, g', a);
    SameLists(s, g, g', l);
  }

  lemma SameLists(s: State, g: Gc, g': Gc, l: Lists)
    requires ListsOk(s, g, l.pointers, l.weak, l.destroyed)
    requires g'.fwd == g.fwd && g'.back == g.back
    ensures ListsOk(s, g', l.pointers, l.weak, l.destroyed)
  {
    hide Slot.IsTracked, Slot.IsWeak, Word, InObject, Active;
    forall a
      ensures LoopPointer(s, g, a) == LoopPointer(s, g', a) && WeakField(s, g, a) == WeakField(s, g', a)
    {
    }
  }

  /** The address at the back of the work list is taken off it. */
  lemma PopPending(s: State, g: Gc, l: Lists)
    requires LoopOk(s, g, l, {}) && l.pending != []
    ensures var a, rest := l.pending[|l.pending| - 1], l.pending[..|l.pending| - 1];
      && a in g.todo && g.todo == Elems(rest) + {a} && LoopOk(s, g, l.(pending := rest), {a}) && CanDo(s, g, a)
      && (a.Root? ==> a.id in g.roots && g.roots[a.id] == Holds(s, g, a))
      && (a.Field? ==> a.obj + a.index < |g.mem| && g.mem[a.obj + a.index].Pos() == Holds(s, g, a))
  {
    hide Valid, ListsOk, MapsOk, SpaceOk, OldOk, NewOk, Sound, Slot.Pos;
    var a, rest := l.pending[|l.pending| - 1], l.pending[..|l.pending| - 1];
    assert l.pending == rest + [a] && a in l.pending;
    assert g.todo == Elems(rest) + {a} by {
      forall b
        ensures b in g.todo <==> b in Elems(rest) + {a}
      {
      }
    }
    HoldsReachable(s, g, a);
    if a.Field? {
      FieldInside(s, g, a);
    }
  }

  lemma FieldInside(s: State, g: Gc, a: Addr)
    requires Valid(s) && Inv(s, g) && a in g.todo && a.Field?
    ensures a.obj + a.index < |g.mem| && Word(g.mem, a.obj, a.index) == g.mem[a.obj + a.index]
  {
    hide Valid, OldOk, RootsOk, Sound, SpaceOk, Slot.IsStrong;
    assert CanDo(s, g, a);
    assert a.obj in g.placed && InObject(g.mem, a.obj, a.index);
    assert HalvesOk(s) by { ValidLaid(s); LaidHalves(s); }
    SpaceAt(s, g, a.obj);
  }

  lemma LoopTarget(s: State, g: Gc, l: Lists, a: Addr)
    requires LoopOk(s, g, l, {a})
    ensures a in g.todo && a !in l.pending && CanDo(s, g, a) && Target(s.mem, s.blocks, Holds(s, g, a)) && MapsOk(s, g)
  {
    assert a in g.todo && (a in l.pending ==> a in Elems(l.pending));
    HoldsReachable(s, g, a);
  }

  /** An address in flight is inside memory. */
  lemma StoreInside(s: State, g: Gc, l: Lists, a: Addr)
    requires LoopOk(s, g, l, {a})
    ensures a.Field? ==> a.obj + a.index < |g.mem|
  {
    hide Inv, ListsOk, Valid;
    LoopTarget(s, g, l, a);
    if a.Field? {
      FieldInside(s, g, a);
    }
  }

  /** A registered address still stands for the same old position when more objects have moved. */
  lemma HoldsSame(s: State, g: Gc, g': Gc, a: Addr)
    requires MapsOk(s, g) && MapsOk(s, g') && CanDo(s, g, a)
    requires forall p | p in g.fwd :: p in g'.fwd && g'.fwd[p] == g.fwd[p]
    ensures CanDo(s, g', a) && Holds(s, g', a) == Holds(s, g, a)
  {
    if a.Field? {
      assert g.back[a.obj] in g'.fwd;
    }
  }

  // ---- Registering the roots ----

  /** The tracked pointers outside the heap, in the order of the set. */
  function RootsOf(pointers: seq<Addr>): seq<Addr> {
    if pointers == [] then []
    else
      var last := pointers[|pointers| - 1];
      RootsOf(pointers[..|pointers| - 1]) + if last.Root? then [last] else []
  }

  lemma {:induction false} RootsOfExactly(pointers: seq<Addr>)
    requires NoDup(pointers)
    ensures NoDup(RootsOf(pointers)) && forall a :: a in RootsOf(pointers) <==> a in pointers && a.Root?
  {
    if pointers != [] {
      var init, last := pointers[..|pointers| - 1], pointers[|pointers| - 1];
      RootsOfExactly(init);
      assert forall a :: a in pointers <==> a in init || a == last;
      NoDupAppend(RootsOf(init), if last.Root? then [last] else []);
    }
  }

  lemma BeginLoop(s: State)
    requires Valid(s)
    ensures var l := Lists(RootsOf(s.pointers), s.pointers, [], []);
      LoopOk(s, Begin(s).(todo := Elems(l.pending)), l, {})
  {
    var l := Lists(RootsOf(s.pointers), s.pointers, [], []);
    RootsOfExactly(s.pointers);
    assert Elems(l.pending) == Begin(s).todo by {
      forall a
        ensures a in Elems(l.pending) <==> a in Begin(s).todo
      {
        assert a in s.pointers <==> IsPointer(s, a);
      }
    }
    BeginInv(s);
    BeginLists(s);
  }

  // ---- Destroying what is left in a context ----

  /** A tracked slot of a constructed object of `blocks` that has not moved. */
  ghost predicate DeadCell(m: seq<Slot>, blocks: seq<nat>, a: Addr) {
    a.Field? && a.obj in blocks && Active(m, a.obj) && InObject(m, a.obj, a.index) && Word(m, a.obj, a.index).IsTracked()
  }

  ghost function ActiveOf(m: seq<Slot>, blocks: seq<nat>): seq<nat> {
    if blocks == [] then []
    else
      var last := blocks[|blocks| - 1];
      ActiveOf(m, blocks[..|blocks| - 1]) + if Active(m, last) then [last] else []
  }

  lemma {:induction false} ActiveOfExactly(m: seq<Slot>, blocks: seq<nat>)
    requires NoDup(blocks)
    ensures NoDup(ActiveOf(m, blocks)) && forall p :: p in ActiveOf(m, blocks) <==> p in blocks && Active(m, p)
  {
    hide Active;
    if blocks != [] {
      var init, last := blocks[..|blocks| - 1], blocks[|blocks| - 1];
      ActiveOfExactly(m, init);
      assert forall p :: p in blocks <==> p in init || p == last;
      NoDupAppend(ActiveOf(m, init), if Active(m, last) then [last] else []);
    }
  }

  /** run_destructors has visited the first k allocations. */
  ghost predicate Destroyed(m: seq<Slot>, blocks: seq<nat>, k: nat, p0: seq<Addr>, pointers: seq<Addr>)
    requires k <= |blocks|
  {
    NoDup(pointers) && forall a :: a in pointers <==> a in p0 && !DeadCell(m, blocks[..k], a)
  }

  lemma DestroyStep(m: seq<Slot>, blocks: seq<nat>, k: nat, p0: seq<Addr>, pointers: seq<Addr>)
    requires k < |blocks| && NoDup(blocks) && Destroyed(m, blocks, k, p0, pointers)
    requires SizeAt(m, blocks[k]) >= 2 && forall a :: DeadCell(m, blocks, a) ==> a in p0
    ensures Destroyed(m, blocks, k + 1, p0,
              if Active(m, blocks[k]) then EraseCells(pointers, m, blocks[k], SizeAt(m, blocks[k]) - 1) else pointers)
  {
    hide Active;
    var b := blocks[k];
    var n := SizeAt(m, b) - 1;
    forall a
      ensures DeadCell(m, blocks[..k + 1], a) <==> DeadCell(m, blocks[..k], a) || (Active(m, b) && IsCell(m, b, b, n, TrackedRef, a))
    {
      assert a.Field? ==> (a.obj in blocks[..k + 1] <==> a.obj in blocks[..k] || a.obj == b);
    }
    if Active(m, b) {
      forall a | IsCell(m, b, b, n, TrackedRef, a)
        ensures a in pointers
      {
        assert DeadCell(m, blocks, a) && !DeadCell(m, blocks[..k], a);
      }
      EraseCellsExactly(pointers, m, b, n);
    }
  }

  /** The allocation a walk by sizes comes to, and the one after it. */
  lemma VisitBlock(m: seq<Slot>, lo: nat, hi: nat, blocks: seq<nat>, k: nat)
    requires Tiles(m, lo, hi, blocks) && Apart(m, lo, hi, blocks) && hi <= |m| && k < |blocks|
    ensures 1 <= blocks[k] <= |m| && m[blocks[k] - 1] == Head(m, blocks[k]) && Head(m, blocks[k]).Header?
    ensures 2 <= SizeAt(m, blocks[k]) && blocks[k] - 1 + SizeAt(m, blocks[k]) <= hi
    ensures blocks[k] - 1 + SizeAt(m, blocks[k]) == if k + 1 < |blocks| then blocks[k + 1] - 1 else hi
    ensures ActiveOf(m, blocks[..k + 1]) == ActiveOf(m, blocks[..k]) + if Active(m, blocks[k]) then [blocks[k]] else []
  {
    hide ActiveOf, NoDup, Active;
    assert blocks[k] in blocks && (k + 1 < |blocks| ==> blocks[k + 1] in blocks);
    assert blocks[k] - 1 + SizeAt(m, blocks[k]) == EndOf(blocks, k, hi);
    OneMoreActive(m, blocks, k);
  }

  lemma OneMoreActive(m: seq<Slot>, blocks: seq<nat>, k: nat)
    requires k < |blocks|
    ensures ActiveOf(m, blocks[..k + 1]) == ActiveOf(m, blocks[..k]) + if Active(m, blocks[k]) then [blocks[k]] else []
  {
    assert blocks[..k + 1][..k] == blocks[..k];
  }

  lemma LoopDone(s: State, g: Gc, l: Lists)
    requires l.pending == [] && LoopOk(s, g.(todo := Elems(l.pending) + {}), l, {}) && g.todo == {}
    ensures Valid(s) && |g.mem| == |s.mem| && NoDup(l.weak)
    ensures Sweeping(s, g, Elems(l.weak))
    ensures ListsOk(s, g, l.pointers, l.weak, l.destroyed)
  {
    hide Valid, MapsOk, SpaceOk, OldOk, NewOk, RootsOk, Sound, Sweeping, WeakField, LoopPointer;
    assert g.(todo := Elems(l.pending) + {}) == g;
    SpaceLengthOf(s, g);
    BeginSweep(s, g, Elems(l.weak));
  }

  lemma SpaceLengthOf(s: State, g: Gc)
    requires Inv(s, g)
    ensures |g.mem| == |s.mem|
  {
  }

  lemma RestOf(weak: seq<Addr>, i: nat)
    requires NoDup(weak) && i < |weak|
    ensures Elems(weak[i..]) - {weak[i]} == Elems(weak[i + 1..])
  {
    assert weak[i..] == [weak[i]] + weak[i + 1..];
    forall a
      ensures a in Elems(weak[i..]) - {weak[i]} <==> a in Elems(weak[i + 1..])
    {
      if a in weak[i + 1..] {
        var j :| 0 <= j < |weak[i + 1..]| && weak[i + 1..][j] == a;
        assert weak[i + 1 + j] == a;
      }
    }
  }

  // ---- The end of a collection ----

  /** What run_destructors needs to know about the half it walks. */
  ghost predicate CanDestroy(m: seq<Slot>, c: Context, blocks: seq<nat>, pointers: seq<Addr>) {
    && c.start <= c.next <= |m| && Tiles(m, c.start, c.next, blocks) && Apart(m, c.start, c.next, blocks)
    && (forall b | b in blocks :: Head(m, b).Header? && (Head(m, b).typ in {UNINITIALIZED, MOVED} || Active(m, b)))
    && NoDup(pointers) && (forall a :: DeadCell(m, blocks, a) ==> a in pointers)
  }

  lemma OldHalf(s: State, g: Gc)
    requires Valid(s) && Swept(s, g)
    ensures s.ctx.start <= s.ctx.next <= |g.mem|
    ensures Tiles(g.mem, s.ctx.start, s.ctx.next, s.blocks) && Apart(g.mem, s.ctx.start, s.ctx.next, s.blocks)
    ensures forall b | b in s.blocks :: Head(g.mem, b).Header? && (Head(g.mem, b).typ in {UNINITIALIZED, MOVED} || Active(g.mem, b))
    ensures forall b | b in s.blocks :: Active(g.mem, b) <==> Active(s.mem, b) && b !in g.fwd
  {
    hide Reachable, SweptSlot, FieldsOk, PointersOk;
    forall b | b in s.blocks
      ensures SizeAt(g.mem, b) == SizeAt(s.mem, b)
      ensures Head(g.mem, b).Header? && (Head(g.mem, b).typ in {UNINITIALIZED, MOVED} || Active(g.mem, b))
      ensures Active(g.mem, b) <==> Active(s.mem, b) && b !in g.fwd
    {
      if b in g.fwd {
        assert LeftBehind(s, g, b);
      } else {
        assert SameBlock(s.mem, b, g.mem, b);
      }
    }
    SameTiles(s.mem, g.mem, s.ctx.start, s.ctx.next, s.blocks);
  }

  lemma DeadCells(s: State, g: Gc, a: Addr)
    requires Valid(s) && Swept(s, g)
    ensures LoopPointer(s, g, a) <==> CopyPointer(s, g, a) || DeadCell(g.mem, s.blocks, a)
    ensures !(CopyPointer(s, g, a) && DeadCell(g.mem, s.blocks, a))
  {
    hide Reachable, SweptSlot, FieldsOk, PointersOk, Slot.IsTracked, Tiles;
    OldHalf(s, g);
    if a.Field? && a.obj in s.blocks {
      LaidAt(s, a.obj);
      if a.obj in g.placed {
        SpaceAt(s, g, a.obj);
      }
      if a.obj !in g.fwd {
        assert SameBlock(s.mem, a.obj, g.mem, a.obj);
      }
    }
  }

  lemma CopiesDone(s: State, g: Gc, l: Lists)
    requires Valid(s) && Swept(s, g) && ListsOk(s, g, l.pointers, l.weak, l.destroyed)
    ensures CanDestroy(g.mem, s.ctx, s.blocks, l.pointers)
    ensures forall a :: a in l.pointers && !DeadCell(g.mem, s.blocks, a) <==> CopyPointer(s, g, a)
    ensures NoDup(l.destroyed + ActiveOf(g.mem, s.blocks))
    ensures forall p :: p in l.destroyed + ActiveOf(g.mem, s.blocks) <==> p in s.blocks && Active(s.mem, p)
  {
    hide DeadCell, LoopPointer, CopyPointer, WeakField, ActiveOf, Swept, Active, Tiles;
    assert NoDup(s.blocks);
    OldHalf(s, g);
    forall a
      ensures a in l.pointers && !DeadCell(g.mem, s.blocks, a) <==> CopyPointer(s, g, a)
      ensures DeadCell(g.mem, s.blocks, a) ==> a in l.pointers
    {
      DeadCells(s, g, a);
    }
    ActiveOfExactly(g.mem, s.blocks);
    SweptMoved(s, g);
    NoDupAppend(l.destroyed, ActiveOf(g.mem, s.blocks));
  }

  lemma SweptMoved(s: State, g: Gc)
    requires Valid(s) && Swept(s, g)
    ensures forall p | p in g.fwd :: p in s.blocks && Active(s.mem, p)
  {
    forall p | p in g.fwd
      ensures p in s.blocks && Active(s.mem, p)
    {
      ReachableActive(s, p);
    }
  }

  lemma NothingKept(s: State)
    requires Valid(s) && s.roots == map[]
    ensures CanDestroy(s.mem, s.ctx, s.blocks, s.pointers)
    ensures forall a :: a in s.pointers ==> DeadCell(s.mem, s.blocks, a)
    ensures NoDup(ActiveOf(s.mem, s.blocks)) && forall p :: p in ActiveOf(s.mem, s.blocks) <==> p in s.blocks && Active(s.mem, p)
  {
    ActiveOfExactly(s.mem, s.blocks);
    forall a
      ensures a in s.pointers <==> DeadCell(s.mem, s.blocks, a)
    {
      assert a in s.pointers <==> IsPointer(s, a);
    }
  }

  lemma RootsRegistered(s: State)
    requires Valid(s)
    ensures RootsOf(s.pointers) == [] <==> s.roots == map[]
  {
    RootsOfExactly(s.pointers);
    if s.roots != map[] {
      var r :| r in s.roots;
      assert IsPointer(s, Root(r)) && Root(r) in RootsOf(s.pointers);
    }
    if RootsOf(s.pointers) != [] {
      var a := RootsOf(s.pointers)[0];
      assert a in RootsOf(s.pointers) && IsPointer(s, a);
    }
  }

  lemma ValidHalves(s: State)
    requires Valid(s)
    ensures HalvesOk(s)
  {
  }
}
