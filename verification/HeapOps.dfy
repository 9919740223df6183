/** What the program can do to the heap between collections. */
module HeapOps {
  import opened PointerSets
  import opened HeapModel
  import opened Collection
  import opened Wrappers
  import V = ValueRepresentation

  /** Objects are named by the tracked pointers outside the heap that hold them.
      - Alloc: construct an object whose slots are initialised as given; `r` holds it
      - Abandon: an allocation whose constructor throws
      - Copy: `dst = src`, where either may be null
      - Load: a new pointer `dst` from slot `i` of the object `src` holds
      - Put: store a word, or the position `src` holds, in slot `i` of the object `dst` holds
      - Drop: `r` goes out of scope */
  datatype Op =
    | Alloc(r: nat, typ: nat, inits: seq<Init>)
    | Abandon(n: nat)
    | Copy(dst: nat, src: nat)
    | Load(dst: nat, src: nat, i: nat)
    | Put(dst: nat, i: nat, shape: Slot, from: Option<nat>)
    | Drop(r: nat)
    | Collect

  /** What is stored in a slot: a word, or the position a tracked pointer holds in a word of this shape. */
  datatype Init = Init(shape: Slot, from: Option<nat>)

  /** A payload slot that holds no position. */
  predicate Plain(w: Slot) {
    w.Payload() && w.Pos() == 0 && (w.Boxed? ==> !V.HoldsPosition(w.repr))
  }

  ghost predicate Room(s: State, n: nat) {
    1 <= n && n + 1 <= MAX_SIZE && s.ctx.next + 1 + n <= s.ctx.limit
  }

  ghost predicate Storable(s: State, init: Init) {
    && init.shape.Payload()
    && if init.from.Some? then init.from.value in s.roots && init.shape.CanHold() else Plain(init.shape)
  }

  ghost predicate Enabled(s: State, op: Op) {
    match op
    case Alloc(r, typ, inits) =>
      r !in s.roots && typ < MAX_TYPES && Room(s, |inits|) && forall i | 0 <= i < |inits| :: Storable(s, inits[i])
    case Abandon(n) => Room(s, n)
    case Copy(dst, src) => true
    case Load(dst, src, i) => src in s.roots && dst !in s.roots && InObject(s.mem, s.roots[src], i)
    case Put(dst, i, shape, src) =>
      && dst in s.roots && InObject(s.mem, s.roots[dst], i) && shape.SameKind(Word(s.mem, s.roots[dst], i))
      && Storable(s, Init(shape, src))
    case Drop(r) => true
    case Collect => false
  }

  function Attach(pointers: seq<Addr>, a: Addr, yes: bool): seq<Addr> {
    if yes then Push(pointers, a) else pointers
  }

  function Detach(pointers: seq<Addr>, a: Addr, yes: bool): seq<Addr> {
    if yes then Erase(pointers, a) else pointers
  }

  /** Memory with an allocation of the given payload put at `at`. */
  ghost function WithBlock(m: seq<Slot>, at: nat, typ: nat, payload: seq<Slot>): (m': seq<Slot>)
    requires at + 1 + |payload| <= |m|
    ensures |m'| == |m|
  {
    m[..at] + [Header(|payload| + 1, typ)] + payload + m[at + 1 + |payload|..]
  }

  /** The word a Put stores. */
  ghost function Stored(s: State, shape: Slot, src: Option<nat>): Slot {
    if src.Some? && src.value in s.roots then shape.At(s.roots[src.value]) else shape
  }

  ghost function Payload(s: State, inits: seq<Init>): (words: seq<Slot>)
    ensures |words| == |inits|
    ensures forall i | 0 <= i < |inits| :: words[i] == Stored(s, inits[i].shape, inits[i].from)
  {
    seq(|inits|, i requires 0 <= i < |inits| => Stored(s, inits[i].shape, inits[i].from))
  }

  /** The tracked slots among the words of the object at `q`, in order. */
  function TrackedIn(words: seq<Slot>, q: nat): seq<Addr> {
    if words == [] then []
    else
      var i := |words| - 1;
      TrackedIn(words[..i], q) + if words[i].IsTracked() then [Field(q, i)] else []
  }

  lemma {:induction false} TrackedExactly(words: seq<Slot>, q: nat)
    ensures NoDup(TrackedIn(words, q))
    ensures forall a :: a in TrackedIn(words, q) <==> a.Field? && a.obj == q && a.index < |words| && words[a.index].IsTracked()
  {
    hide Slot.IsTracked;
    if words != [] {
      TrackedExactly(words[..|words| - 1], q);
    }
  }

  /** The state after an operation. */
  ghost function Apply(s: State, op: Op): State
    requires Laid(s) && Enabled(s, op)
  {
    match op
    case Alloc(r, typ, inits) =>
      var at := s.ctx.next;
      var words := Payload(s, inits);
      s.(mem := WithBlock(s.mem, at, typ, words), ctx := s.ctx.(next := at + 1 + |words|), blocks := s.blocks + [at + 1],
         roots := s.roots[r := at + 1], pointers := Push(s.pointers + TrackedIn(words, at + 1), Root(r)))
    case Abandon(n) =>
      var at := s.ctx.next;
      s.(mem := s.mem[at := Header(n + 1, UNINITIALIZED)], ctx := s.ctx.(next := at + 1 + n), blocks := s.blocks + [at + 1])
    case Copy(dst, src) =>
      if dst == src then s
      else
        var pointers := Detach(s.pointers, Root(dst), dst in s.roots);
        s.(roots := if src in s.roots then s.roots[dst := s.roots[src]] else s.roots - {dst},
           pointers := Attach(pointers, Root(dst), src in s.roots))
    case Load(dst, src, i) =>
      var p := Word(s.mem, s.roots[src], i).Pos();
      if p == 0 then s else s.(roots := s.roots[dst := p], pointers := Push(s.pointers, Root(dst)))
    case Put(dst, i, shape, src) =>
      var p := s.roots[dst];
      var a := Field(p, i);
      var before := Word(s.mem, p, i);
      var after := Stored(s, shape, src);
      s.(mem := if p + i < |s.mem| then s.mem[p + i := after] else s.mem,
         pointers := Attach(Detach(s.pointers, a, before.IsTracked()), a, after.IsTracked()))
    case Drop(r) =>
      s.(roots := s.roots - {r}, pointers := Detach(s.pointers, Root(r), r in s.roots))
  }

  // ---- Operations keep states well formed ----

  lemma DetachKeeps(pointers: seq<Addr>, a: Addr, yes: bool)
    requires NoDup(pointers) && (yes <==> a in pointers)
    ensures NoDup(Detach(pointers, a, yes)) && forall b :: b in Detach(pointers, a, yes) <==> b in pointers && b != a
  {
    if yes {
      EraseKeeps(pointers, a);
    }
  }

  lemma AttachKeeps(pointers: seq<Addr>, a: Addr, yes: bool)
    requires NoDup(pointers) && a !in pointers
    ensures NoDup(Attach(pointers, a, yes)) && forall b :: b in Attach(pointers, a, yes) <==> b in pointers || (b == a && yes)
  {
  }

  /** Only roots change. */
  ghost predicate RootsOnly(s: State, s': State) {
    s'.mem == s.mem && s'.half == s.half && s'.ctx == s.ctx && s'.blocks == s.blocks
  }

  lemma RootsOnlyValid(s: State, s': State)
    requires Valid(s) && RootsOnly(s, s')
    requires forall r | r in s'.roots :: Target(s.mem, s.blocks, s'.roots[r])
    requires NoDup(s'.pointers)
    requires forall r :: Root(r) in s'.pointers <==> r in s'.roots
    requires forall p, i :: Field(p, i) in s'.pointers <==> Field(p, i) in s.pointers
    ensures Valid(s')
  {
    hide Tiles, Apart, HeadersOk, FieldsOk;
    forall a
      ensures a in s'.pointers <==> IsPointer(s', a)
    {
      if a.Field? {
        assert a in s.pointers <==> IsPointer(s, a);
      }
    }
  }

  lemma RootPointer(s: State, r: nat)
    requires Valid(s)
    ensures Root(r) in s.pointers <==> r in s.roots
  {
    assert IsPointer(s, Root(r)) <==> r in s.roots;
  }

  lemma RootPointers(s: State)
    requires Valid(s)
    ensures NoDup(s.pointers) && forall r :: Root(r) in s.pointers <==> r in s.roots
  {
    forall r
      ensures Root(r) in s.pointers <==> r in s.roots
    {
      RootPointer(s, r);
    }
  }

  lemma CopyValid(s: State, dst: nat, src: nat)
    requires Valid(s)
    ensures Valid(Apply(s, Copy(dst, src)))
  {
    hide Laid, HeadersOk, FieldsOk, PointersOk, Target, Erase;
    RootPointers(s);
    if dst != src {
      DetachKeeps(s.pointers, Root(dst), dst in s.roots);
      AttachKeeps(Detach(s.pointers, Root(dst), dst in s.roots), Root(dst), src in s.roots);
      RootsOnlyValid(s, Apply(s, Copy(dst, src)));
    }
  }

  lemma DropValid(s: State, r: nat)
    requires Valid(s)
    ensures Valid(Apply(s, Drop(r)))
  {
    hide Laid, HeadersOk, FieldsOk, PointersOk, Target, Erase;
    RootPointers(s);
    DetachKeeps(s.pointers, Root(r), r in s.roots);
    RootsOnlyValid(s, Apply(s, Drop(r)));
  }

  lemma LoadValid(s: State, dst: nat, src: nat, i: nat)
    requires Valid(s) && Enabled(s, Load(dst, src, i))
    ensures Valid(Apply(s, Load(dst, src, i)))
  {
    hide Laid, HeadersOk, PointersOk, Erase;
    RootPointers(s);
    var w := Word(s.mem, s.roots[src], i);
    assert SlotOk(s.mem, s.blocks, w);
    if w.Pos() != 0 {
      AttachKeeps(s.pointers, Root(dst), true);
      RootsOnlyValid(s, Apply(s, Load(dst, src, i)));
    }
  }

  // ---- Put ----

  lemma StoredSlotOk(s: State, init: Init)
    requires Valid(s) && Storable(s, init)
    ensures SlotOk(s.mem, s.blocks, Stored(s, init.shape, init.from))
    ensures Stored(s, init.shape, init.from).SameKind(init.shape)
    ensures init.from.Some? ==> Stored(s, init.shape, init.from).Pos() == s.roots[init.from.value]
    ensures init.from.None? ==> Stored(s, init.shape, init.from) == init.shape
  {
    hide PointersOk, FieldsOk, HeadersOk, Tiles;
    if init.from.Some? {
      LaidAt(s, s.roots[init.from.value]);
      AtPos(init.shape, s.roots[init.from.value]);
    }
  }

  lemma StoredOk(s: State, op: Op)
    requires Valid(s) && op.Put? && Enabled(s, op)
    ensures SlotOk(s.mem, s.blocks, Stored(s, op.shape, op.from)) && Stored(s, op.shape, op.from).SameKind(op.shape)
    ensures op.from.Some? ==> Stored(s, op.shape, op.from).Pos() == s.roots[op.from.value]
    ensures op.from.None? ==> Stored(s, op.shape, op.from) == op.shape
  {
    hide Valid, Stored, SlotOk;
    StoredSlotOk(s, Init(op.shape, op.from));
  }

  lemma PutMemory(s: State, op: Op)
    requires Valid(s) && op.Put? && Enabled(s, op)
    ensures var p := s.roots[op.dst]; var s' := Apply(s, op);
      && p in s.blocks && Active(s.mem, p) && p + op.i < |s.mem|
      && s'.mem == s.mem[p + op.i := Stored(s, op.shape, op.from)]
      && (forall b {:trigger Head(s'.mem, b)} | b in s.blocks :: Head(s'.mem, b) == Head(s.mem, b))
      && (forall b, j {:trigger Word(s'.mem, b, j)} | b in s.blocks && InObject(s.mem, b, j) ::
            Word(s'.mem, b, j) == if b == p && j == op.i then Stored(s, op.shape, op.from) else Word(s.mem, b, j))
      && Laid(s')
  {
    hide PointersOk, FieldsOk, HeadersOk, Tiles, Stored, Storable, Slot.SameKind;
    var p := s.roots[op.dst];
    assert Target(s.mem, s.blocks, p);
    LaidAt(s, p);
    StoreOneLaid(s, Apply(s, op), p, op.i, Stored(s, op.shape, op.from));
  }

  lemma StoreOneLaid(s: State, s': State, p: nat, i: nat, w: Slot)
    requires Laid(s) && p in s.blocks && InObject(s.mem, p, i) && p + i < |s.mem|
    requires s'.mem == s.mem[p + i := w] && s'.half == s.half && s'.ctx == s.ctx && s'.blocks == s.blocks
    ensures Laid(s')
    ensures forall b {:trigger Head(s'.mem, b)} | b in s.blocks :: Head(s'.mem, b) == Head(s.mem, b)
    ensures forall b, j {:trigger Word(s'.mem, b, j)} | b in s.blocks && InObject(s.mem, b, j) ::
      Word(s'.mem, b, j) == if b == p && j == i then w else Word(s.mem, b, j)
  {
    hide Tiles;
    StoreOne(s.mem, s.ctx.start, s.ctx.next, s.blocks, p, i, w);
    forall b | b in s.blocks ensures SizeAt(s'.mem, b) == SizeAt(s.mem, b) {
      assert Head(s'.mem, b) == Head(s.mem, b);
    }
    SameTiles(s.mem, s'.mem, s.ctx.start, s.ctx.next, s.blocks);
  }

  lemma PutPointers(s: State, op: Op)
    requires Valid(s) && op.Put? && Enabled(s, op)
    ensures PointersOk(Apply(s, op))
  {
    hide Laid, FieldsOk, HeadersOk, Stored, Slot.IsTracked, Erase;
    PutMemory(s, op);
    var p, s' := s.roots[op.dst], Apply(s, op);
    var a := Field(p, op.i);
    var was, now := Word(s.mem, p, op.i).IsTracked(), Stored(s, op.shape, op.from).IsTracked();
    assert a in s.pointers <==> IsPointer(s, a);
    DetachKeeps(s.pointers, a, was);
    AttachKeeps(Detach(s.pointers, a, was), a, now);
    forall b
      ensures b in s'.pointers <==> IsPointer(s', b)
    {
      assert b in s.pointers <==> IsPointer(s, b);
    }
  }

  lemma PutValid(s: State, op: Op)
    requires Valid(s) && op.Put? && Enabled(s, op)
    ensures Valid(Apply(s, op))
  {
    hide Laid, PointersOk, Stored, Slot.Pos, Slot.SameKind;
    PutMemory(s, op);
    PutPointers(s, op);
    StoredOk(s, op);
    var s' := Apply(s, op);
    SameTargets(s.mem, s'.mem, s.blocks);
    forall b, j | b in s.blocks && Active(s'.mem, b) && InObject(s'.mem, b, j)
      ensures SlotOk(s'.mem, s.blocks, Word(s'.mem, b, j))
    {
      assert SlotOk(s.mem, s.blocks, Word(s.mem, b, j));
    }
  }

  lemma SameTargets(m: seq<Slot>, m': seq<Slot>, blocks: seq<nat>)
    requires forall b | b in blocks :: Head(m', b) == Head(m, b)
    ensures forall p {:trigger Target(m', blocks, p)} :: Target(m', blocks, p) == Target(m, blocks, p)
  {
  }

  // ---- Alloc and Abandon ----

  /** An allocation of `n` payload slots with header type `typ` has been added. */
  ghost predicate Added(s: State, s': State, n: nat, typ: nat) {
    var p := s.ctx.next + 1;
    && |s'.mem| == |s.mem| && s'.half == s.half && s'.blocks == s.blocks + [p]
    && s'.ctx == s.ctx.(next := s.ctx.next + 1 + n)
    && Head(s'.mem, p) == Header(n + 1, typ)
    && (forall k | s.ctx.start <= k < s.ctx.next :: s'.mem[k] == s.mem[k])
  }

  /** All slots of the new block may hold what they do. */
  ghost predicate BlockOk(s: State, p: nat, n: nat) {
    forall i: nat | i < n :: SlotOk(s.mem, s.blocks, Word(s.mem, p, i))
  }

  lemma AddedFrame(s: State, s': State, n: nat, typ: nat)
    requires Laid(s) && Room(s, n) && Added(s, s', n, typ)
    ensures Laid(s') && s.ctx.next + 1 !in s.blocks
    ensures forall b {:trigger Head(s'.mem, b)} | b in s.blocks :: Head(s'.mem, b) == Head(s.mem, b)
    ensures forall b, j {:trigger Word(s'.mem, b, j)} | b in s.blocks && InObject(s.mem, b, j) :: Word(s'.mem, b, j) == Word(s.mem, b, j)
  {
    hide Tiles;
    FrameBlocks(s.mem, s.mem, s'.mem, s.ctx.start, s.ctx.next, s.blocks);
    AppendTiles(s.mem, s'.mem, s.ctx.start, s.ctx.next, s.blocks, n + 1);
  }

  lemma AddedValid(s: State, s': State, n: nat, typ: nat)
    requires Valid(s) && Room(s, n) && Added(s, s', n, typ) && PointersOk(s')
    requires typ < MAX_TYPES || typ == UNINITIALIZED
    requires typ < MAX_TYPES ==> BlockOk(s', s.ctx.next + 1, n)
    requires forall r | r in s'.roots :: (r in s.roots && s'.roots[r] == s.roots[r]) || (s'.roots[r] == s.ctx.next + 1 && typ < MAX_TYPES)
    ensures Valid(s')
  {
    hide Laid, PointersOk, Slot.Pos, SlotOk;
    AddedFrame(s, s', n, typ);
    forall b, j | b in s'.blocks && Active(s'.mem, b) && InObject(s'.mem, b, j)
      ensures SlotOk(s'.mem, s'.blocks, Word(s'.mem, b, j))
    {
      if b in s.blocks {
        assert SlotOk(s.mem, s.blocks, Word(s.mem, b, j));
        SlotStays(s, s', Word(s.mem, b, j));
      }
    }
  }

  lemma SlotStays(s: State, s': State, w: Slot)
    requires SlotOk(s.mem, s.blocks, w) && (forall b | b in s.blocks :: b in s'.blocks && Head(s'.mem, b) == Head(s.mem, b))
    ensures SlotOk(s'.mem, s'.blocks, w)
  {
  }

  lemma AddedPointers(s: State, s': State, n: nat, typ: nat)
    requires Valid(s) && Room(s, n) && Added(s, s', n, typ)
    requires NoDup(s'.pointers)
    requires forall r :: Root(r) in s'.pointers <==> r in s'.roots
    requires forall p: nat, i: nat :: Field(p, i) in s'.pointers <==>
      (Field(p, i) in s.pointers || (typ < MAX_TYPES && p == s.ctx.next + 1 && i < n && Word(s'.mem, p, i).IsTracked()))
    ensures PointersOk(s')
  {
    hide Laid, FieldsOk, HeadersOk;
    AddedFrame(s, s', n, typ);
    forall a
      ensures a in s'.pointers <==> IsPointer(s', a)
    {
      if a.Field? {
        assert a in s.pointers <==> IsPointer(s, a);
      }
    }
  }

  lemma AllocValid(s: State, op: Op)
    requires Valid(s) && op.Alloc? && Enabled(s, op)
    ensures Valid(Apply(s, op))
    ensures Added(s, Apply(s, op), |op.inits|, op.typ)
    ensures forall i: nat | i < |op.inits| :: Word(Apply(s, op).mem, s.ctx.next + 1, i) == Payload(s, op.inits)[i]
  {
    hide Valid, PointersOk, Added, Payload, Stored, Storable, BlockOk, Slot.IsTracked, Word, Room;
    ValidLaid(s);
    AllocMemory(s, op);
    AllocBlockOk(s, op);
    AllocPointers(s, op);
    AddedPointers(s, Apply(s, op), |op.inits|, op.typ);
    AddedValid(s, Apply(s, op), |op.inits|, op.typ);
  }

  lemma AllocMemory(s: State, op: Op)
    requires Laid(s) && op.Alloc? && Enabled(s, op)
    ensures Added(s, Apply(s, op), |op.inits|, op.typ)
    ensures forall i: nat | i < |op.inits| :: Word(Apply(s, op).mem, s.ctx.next + 1, i) == Payload(s, op.inits)[i]
  {
    hide Tiles, Apart, Stored, Storable, TrackedIn, WithBlock, Payload;
    LaidHalves(s);
    WithBlockAt(s.mem, s.ctx.next, op.typ, Payload(s, op.inits));
  }

  lemma WithBlockAt(m: seq<Slot>, at: nat, typ: nat, payload: seq<Slot>)
    requires at + 1 + |payload| <= |m|
    ensures var m' := WithBlock(m, at, typ, payload);
      && Head(m', at + 1) == Header(|payload| + 1, typ)
      && (forall k | 0 <= k < at :: m'[k] == m[k])
      && forall i: nat | i < |payload| :: Word(m', at + 1, i) == payload[i]
  {
  }

  /** What the constructor stores is null, plain or refers to an object. */
  lemma AllocBlockOk(s: State, op: Op)
    requires Valid(s) && op.Alloc? && Enabled(s, op) && Added(s, Apply(s, op), |op.inits|, op.typ)
    requires forall i: nat | i < |op.inits| :: Word(Apply(s, op).mem, s.ctx.next + 1, i) == Payload(s, op.inits)[i]
    ensures BlockOk(Apply(s, op), s.ctx.next + 1, |op.inits|)
  {
    hide Laid, PointersOk, FieldsOk, HeadersOk, Target, Stored, Storable, SlotOk, Apply, Word;
    var s', p := Apply(s, op), s.ctx.next + 1;
    ValidLaid(s);
    AddedFrame(s, s', |op.inits|, op.typ);
    forall i: nat | i < |op.inits| ensures SlotOk(s'.mem, s'.blocks, Word(s'.mem, p, i)) {
      assert Storable(s, op.inits[i]);
      StoredSlotOk(s, op.inits[i]);
      assert Word(s'.mem, p, i) == Payload(s, op.inits)[i];
      SlotStays(s, s', Word(s'.mem, p, i));
    }
  }

  lemma JoinTracked(pointers: seq<Addr>, words: seq<Slot>, q: nat, r: nat)
    requires NoDup(pointers) && Root(r) !in pointers && forall i: nat :: Field(q, i) !in pointers
    ensures var joined := Push(pointers + TrackedIn(words, q), Root(r));
      && NoDup(joined)
      && (forall x: nat :: Root(x) in joined <==> Root(x) in pointers || x == r)
      && forall p: nat, i: nat ::
           Field(p, i) in joined <==> Field(p, i) in pointers || (p == q && i < |words| && words[i].IsTracked())
  {
    hide Slot.IsTracked;
    TrackedExactly(words, q);
    NoDupAppend(pointers, TrackedIn(words, q));
    NoDupAppend(pointers + TrackedIn(words, q), [Root(r)]);
    assert forall a :: a in Push(pointers + TrackedIn(words, q), Root(r)) <==> a in pointers || a in TrackedIn(words, q) || a == Root(r);
  }

  /** The new object's tracked slots and the new root join the pointer set. */
  lemma AllocPointers(s: State, op: Op)
    requires Valid(s) && op.Alloc? && Enabled(s, op)
    ensures var words := Payload(s, op.inits); var p := s.ctx.next + 1; var s' := Apply(s, op);
      && NoDup(s'.pointers)
      && (forall r: nat :: Root(r) in s'.pointers <==> r in s'.roots)
      && forall q: nat, i: nat ::
           Field(q, i) in s'.pointers <==> Field(q, i) in s.pointers || (q == p && i < |words| && words[i].IsTracked())
  {
    hide Laid, FieldsOk, HeadersOk, Stored, Storable, Slot.IsTracked, Target, NoDup, TrackedIn;
    var p := s.ctx.next + 1;
    ValidLaid(s);
    RootPointers(s);
    NewBlock(s);
    forall i: nat ensures Field(p, i) !in s.pointers {
      assert Field(p, i) in s.pointers <==> IsPointer(s, Field(p, i));
    }
    JoinTracked(s.pointers, Payload(s, op.inits), p, op.r);
  }

  lemma NewBlock(s: State)
    requires Laid(s)
    ensures s.ctx.next + 1 !in s.blocks
  {
    hide Tiles;
  }

  lemma AbandonValid(s: State, n: nat)
    requires Valid(s) && Enabled(s, Abandon(n))
    ensures Valid(Apply(s, Abandon(n)))
    ensures Added(s, Apply(s, Abandon(n)), n, UNINITIALIZED)
  {
    hide Laid, PointersOk, FieldsOk, HeadersOk, Target;
    var s' := Apply(s, Abandon(n));
    ValidLaid(s);
    LaidHalves(s);
    RootPointers(s);
    AddedPointers(s, s', n, UNINITIALIZED);
    AddedValid(s, s', n, UNINITIALIZED);
  }

  /** Every operation leads from well-formed states to well-formed states. */
  lemma ApplyValid(s: State, op: Op)
    requires Valid(s) && Enabled(s, op)
    ensures Valid(Apply(s, op))
  {
    hide Valid, Apply;
    match op
    case Alloc(_, _, _) => AllocValid(s, op);
    case Abandon(n) => AbandonValid(s, n);
    case Copy(dst, src) => CopyValid(s, dst, src);
    case Load(dst, src, i) => LoadValid(s, dst, src, i);
    case Put(_, _, _, _) => PutValid(s, op);
    case Drop(r) => DropValid(s, r);
  }

  // ---- Runs ----

  /** One step of the collected heap. */
  ghost predicate HeapStep(s: State, op: Op, s': State) {
    Valid(s) && if op.Collect? then Valid(s') && exists f :: Collected(s, s', f) else Enabled(s, op) && s' == Apply(s, op)
  }

  lemma CollectIsStep(s: State, s': State, f: map<nat, nat>)
    requires Valid(s) && Valid(s') && Collected(s, s', f)
    ensures HeapStep(s, Op.Collect, s')
  {
    hide Valid, Collected;
  }

  /** A run from an empty heap: states[i] is taken to states[i + 1] by ops[i]. */
  ghost predicate Run(states: seq<State>, ops: seq<Op>) {
    && |states| == |ops| + 1 && Valid(states[0]) && states[0].roots == map[]
    && forall i {:trigger ops[i]} | 0 <= i < |ops| :: HeapStep(states[i], ops[i], states[i + 1])
  }
}
