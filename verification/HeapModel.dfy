/** The state of the collected heap: one array of slots used in two halves, tracked roots outside
    it, and what it means for that state to be well formed. */
module HeapModel {
  import opened PointerSets
  import opened Integers
  import V = ValueRepresentation

  // Type indices an allocation header can hold besides those of registered types.
  const UNINITIALIZED: nat := 0xFFFF_FFFF
  const MOVED: nat := 0xFFFF_FFFE
  const MAX_TYPES: nat := 64

  // The largest allocation in slots, header included, whose payload has a 32-bit size in bytes.
  const MAX_SIZE: nat := 0x2000_0000

  /** One 64-bit slot.  `Strong`, `Weak` and `Tracked` hold the position of an object (0 is null);
      `Boxed` is a NaN-boxed value whose low half may be one. */
  datatype Slot =
    | Header(size: nat, typ: nat)
    | NewPosition(at: nat)
    | Data(word: V.Word)
    | Strong(ref: nat)
    | Weak(ref: nat)
    | Tracked(ref: nat)
    | Boxed(repr: V.Word)
  {
    predicate Payload() {
      !Header? && !NewPosition?
    }

    /** The position held by the slot, 0 if it holds none. */
    function Pos(): nat {
      match this
      case Strong(r) => r
      case Weak(r) => r
      case Tracked(r) => r
      case Boxed(w) => if V.HoldsPosition(w) then V.Low(w) else 0
      case _ => 0
    }

    /** The slot after `p` is stored through the address of its position. */
    function At(p: nat): Slot {
      match this
      case Strong(_) => Strong(p)
      case Weak(_) => Weak(p)
      case Tracked(_) => Tracked(p)
      case Boxed(w) => if V.HoldsPosition(w) && p < TWO_TO_THE_32 then Boxed(V.WithLow(w, p)) else this
      case _ => this
    }

    /** A slot whose position the collector looks after. */
    predicate CanHold() {
      Strong? || Weak? || Tracked? || (Boxed? && V.HoldsPosition(repr))
    }

    /** The slot without its position: what a reader sees besides the reference. */
    function Shape(): Slot {
      At(0)
    }

    predicate SameKind(w: Slot) {
      Data? == w.Data? && Strong? == w.Strong? && Weak? == w.Weak? && Tracked? == w.Tracked? && Boxed? == w.Boxed?
    }

    /** Keeps its target alive. */
    predicate IsStrong() {
      Pos() != 0 && !Weak?
    }

    predicate IsWeak() {
      Weak? && ref != 0
    }

    /** Attached to the heap: its address is in the pointer set. */
    predicate IsTracked() {
      Tracked? && ref != 0
    }
  }

  lemma AtPos(w: Slot, p: nat)
    requires p < TWO_TO_THE_32 && w.CanHold()
    ensures w.At(p).Pos() == p && w.At(p).CanHold() && w.At(p).SameKind(w) && w.At(p).Payload()
    ensures w.Pos() < TWO_TO_THE_32 ==> w.At(w.Pos()) == w
    ensures forall q: nat | q < TWO_TO_THE_32 :: w.At(p).At(q) == w.At(q)
  {
    if w.Boxed? {
      V.WithLowKeepsTag(w.repr, p);
    }
  }

  /** Where a 32-bit position is stored: in a tracked pointer outside the heap, or in slot `index`
      of the object at position `obj`. */
  datatype Addr = Root(id: nat) | Field(obj: nat, index: nat)

  /** Allocation goes up from `start`; the header of the next object is written at `next`. */
  datatype Context = Context(start: nat, limit: nat, next: nat)

  /** `blocks` lists the positions of all allocations since `start`, in address order. */
  datatype State = State(
    mem: seq<Slot>, half: nat, ctx: Context, blocks: seq<nat>, roots: map<nat, nat>, pointers: seq<Addr>)

  // ---- Reading memory ----

  /** The allocation header of the object at position `p`. */
  ghost function Head(m: seq<Slot>, p: nat): Slot {
    if 1 <= p <= |m| then m[p - 1] else Data(0)
  }

  /** Slots taken by the allocation at position `p`, header included. */
  ghost function SizeAt(m: seq<Slot>, p: nat): nat {
    if Head(m, p).Header? then Head(m, p).size else 0
  }

  ghost predicate InObject(m: seq<Slot>, p: nat, i: nat) {
    i + 1 < SizeAt(m, p)
  }

  ghost function Word(m: seq<Slot>, p: nat, i: nat): Slot {
    if p + i < |m| then m[p + i] else Data(0)
  }

  ghost predicate Active(m: seq<Slot>, p: nat) {
    Head(m, p).Header? && Head(m, p).typ < MAX_TYPES
  }

  // ---- Well-formed states ----

  ghost function EndOf(blocks: seq<nat>, k: nat, hi: nat): nat {
    if k + 1 < |blocks| && blocks[k + 1] > 0 then blocks[k + 1] - 1 else hi
  }

  /** The allocations fill [lo, hi) with no gap. */
  ghost predicate Tiles(m: seq<Slot>, lo: nat, hi: nat, blocks: seq<nat>) {
    && (|blocks| == 0 ==> lo == hi)
    && (|blocks| > 0 ==> blocks[0] == lo + 1)
    && (forall k {:trigger EndOf(blocks, k, hi)} | 0 <= k < |blocks| ::
          blocks[k] - 1 + SizeAt(m, blocks[k]) == EndOf(blocks, k, hi))
  }

  /** Allocations lie in [lo, hi) and do not overlap. */
  ghost predicate Apart(m: seq<Slot>, lo: nat, hi: nat, blocks: seq<nat>) {
    && NoDup(blocks)
    && (forall p {:trigger p in blocks} | p in blocks :: lo < p && 2 <= SizeAt(m, p) && p - 1 + SizeAt(m, p) <= hi)
    && (forall p, q {:trigger p in blocks, q in blocks} | p in blocks && q in blocks && p < q :: p + SizeAt(m, p) <= q)
  }

  ghost predicate Target(m: seq<Slot>, blocks: seq<nat>, p: nat) {
    p in blocks && Active(m, p)
  }

  ghost predicate SlotOk(m: seq<Slot>, blocks: seq<nat>, w: Slot) {
    && w.Payload()
    && (w.Pos() != 0 ==> Target(m, blocks, w.Pos()))
    && (w.Boxed? && V.HoldsPosition(w.repr) ==> w.Pos() != 0)
  }

  /** Every allocation holds a constructed object, or one whose construction was abandoned, and its
      size in bytes fits 32 bits. */
  ghost predicate HeadersOk(m: seq<Slot>, blocks: seq<nat>) {
    forall p {:trigger p in blocks} | p in blocks ::
      && SizeAt(m, p) <= MAX_SIZE
      && (Active(m, p) || (Head(m, p).Header? && Head(m, p).typ == UNINITIALIZED))
  }

  ghost predicate FieldsOk(m: seq<Slot>, blocks: seq<nat>) {
    forall p, i {:trigger Word(m, p, i)} | p in blocks && Active(m, p) && InObject(m, p, i) :: SlotOk(m, blocks, Word(m, p, i))
  }

  /** The tracked pointers there are: all roots, and the non-null tracked slots of live objects. */
  ghost predicate IsPointer(s: State, a: Addr) {
    match a
    case Root(r) => r in s.roots
    case Field(p, i) => p in s.blocks && Active(s.mem, p) && InObject(s.mem, p, i) && Word(s.mem, p, i).IsTracked()
  }

  ghost predicate PointersOk(s: State) {
    NoDup(s.pointers) && forall a :: a in s.pointers <==> IsPointer(s, a)
  }

  ghost predicate HalvesOk(s: State) {
    && 0 < s.half && |s.mem| == 2 * s.half < TWO_TO_THE_32
    && (s.ctx.start == 0 || s.ctx.start == s.half)
    && s.ctx.limit == s.ctx.start + s.half
    && s.ctx.start <= s.ctx.next <= s.ctx.limit
  }

  /** The active half is filled with allocations up to `next`. */
  ghost predicate Laid(s: State) {
    && HalvesOk(s)
    && Tiles(s.mem, s.ctx.start, s.ctx.next, s.blocks)
    && Apart(s.mem, s.ctx.start, s.ctx.next, s.blocks)
  }

  ghost predicate Valid(s: State) {
    && Laid(s)
    && HeadersOk(s.mem, s.blocks)
    && FieldsOk(s.mem, s.blocks)
    && (forall r | r in s.roots :: Target(s.mem, s.blocks, s.roots[r]))
    && PointersOk(s)
  }

  // ---- Reachability ----

  /** A way to name an object: a root, or a slot of an object named before. */
  datatype Path = At(root: nat) | Slot(via: Path, index: nat)

  /** The position a strong slot leads to; 0 when there is none. */
  ghost function Step(m: seq<Slot>, p: nat, i: nat): nat {
    if p != 0 && InObject(m, p, i) && Word(m, p, i).IsStrong() then Word(m, p, i).Pos() else 0
  }

  ghost function Resolve(s: State, path: Path): nat {
    match path
    case At(r) => if r in s.roots then s.roots[r] else 0
    case Slot(via, i) => Step(s.mem, Resolve(s, via), i)
  }

  ghost predicate Reachable(s: State, p: nat) {
    p != 0 && exists path :: Resolve(s, path) == p
  }

  lemma {:induction false} ResolveTarget(s: State, path: Path)
    requires Valid(s)
    ensures Resolve(s, path) != 0 ==> Target(s.mem, s.blocks, Resolve(s, path))
  {
    match path
    case At(r) =>
    case Slot(via, i) =>
      ResolveTarget(s, via);
      var p := Resolve(s, via);
      if Resolve(s, path) != 0 {
        assert SlotOk(s.mem, s.blocks, Word(s.mem, p, i));
      }
  }

  // ---- Space ----

  /** Slots taken by the allocations of `blocks` that are in `chosen`. */
  ghost function SpaceOf(m: seq<Slot>, blocks: seq<nat>, chosen: set<nat>): nat {
    if blocks == [] then 0
    else
      var p := blocks[|blocks| - 1];
      SpaceOf(m, blocks[..|blocks| - 1], chosen) + if p in chosen then SizeAt(m, p) else 0
  }
}
