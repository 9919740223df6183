/** What one collection does to a heap state, and the invariant of the copying loop that gets there. */
module Collection {
  import opened PointerSets
  import opened HeapModel
  import opened Integers
  import V = ValueRepresentation

  // ---- The result ----

  /** A payload slot in its new place: a strong position follows its object, a weak one is cleared
      when its object was not kept. */
  function Relocate(w: Slot, f: map<nat, nat>): Slot {
    if w.Pos() == 0 then w else w.At(if w.Pos() in f then f[w.Pos()] else 0)
  }

  ghost predicate Injective(f: map<nat, nat>) {
    forall p, q | p in f && q in f && f[p] == f[q] :: p == q
  }

  ghost function OtherStart(s: State): nat {
    if s.ctx.start == 0 then s.half else 0
  }

  /** `f` maps every strongly reachable object, and nothing else, to its place in `s'`, one to one
      and onto the allocations of `s'`; headers, payloads and roots follow it. */
  ghost predicate Collected(s: State, s': State, f: map<nat, nat>) {
    && (forall p :: p in f <==> Reachable(s, p))
    && Injective(f)
    && (forall q :: q in s'.blocks <==> q in f.Values)
    && s'.half == s.half && |s'.mem| == |s.mem|
    && s'.ctx.start == (if s.roots == map[] then s.ctx.start else OtherStart(s))
    && s'.ctx.next - s'.ctx.start == SpaceOf(s.mem, s.blocks, f.Keys)
    && (forall p {:trigger p in f} | p in f :: Head(s'.mem, f[p]) == Head(s.mem, p))
    && (forall p, i {:trigger Word(s.mem, p, i)} | p in f && InObject(s.mem, p, i) :: Word(s'.mem, f[p], i) == Relocate(Word(s.mem, p, i), f))
    && s'.roots.Keys == s.roots.Keys
    && (forall r | r in s.roots :: s.roots[r] in f && s'.roots[r] == f[s.roots[r]])
  }

  // ---- The copying loop ----

  /** A moment of the loop.  `fwd` is the forwarding map left in the old half and `back` its inverse;
      `placed` lists the copies; `todo` holds the addresses registered and not yet fixed up. */
  datatype Gc = Gc(
    mem: seq<Slot>, roots: map<nat, nat>, todo: set<Addr>,
    fwd: map<nat, nat>, back: map<nat, nat>, placed: seq<nat>, next: nat)

  ghost predicate MapsOk(s: State, g: Gc) {
    && (forall p {:trigger p in g.fwd} | p in g.fwd :: p in s.blocks && g.fwd[p] in g.back && g.back[g.fwd[p]] == p)
    && (forall q {:trigger q in g.back} | q in g.back :: g.back[q] in g.fwd && g.fwd[g.back[q]] == q)
    && (forall q :: q in g.placed <==> q in g.back)
  }

  /** Only live, strongly reachable objects are moved. */
  ghost predicate Sound(s: State, g: Gc) {
    forall p {:trigger p in g.fwd} | p in g.fwd :: Active(s.mem, p) && Reachable(s, p)
  }

  ghost predicate SpaceOk(s: State, g: Gc) {
    && |g.mem| == |s.mem|
    && Tiles(g.mem, OtherStart(s), g.next, g.placed)
    && Apart(g.mem, OtherStart(s), g.next, g.placed)
    && OtherStart(s) <= g.next <= OtherStart(s) + s.half
    && g.next - OtherStart(s) == SpaceOf(s.mem, s.blocks, g.fwd.Keys)
  }

  ghost predicate SameBlock(m: seq<Slot>, p: nat, m': seq<Slot>, p': nat) {
    && Head(m', p') == Head(m, p)
    && (forall i {:trigger Word(m', p', i)} | InObject(m, p, i) :: Word(m', p', i) == Word(m, p, i))
  }

  /** The old half: moved objects leave their size and new position, the others are untouched. */
  ghost predicate OldOk(s: State, g: Gc) {
    forall p {:trigger p in s.blocks} | p in s.blocks :: if p in g.fwd then LeftBehind(s, g, p) else SameBlock(s.mem, p, g.mem, p)
  }

  ghost predicate LeftBehind(s: State, g: Gc, p: nat)
    requires p in g.fwd
  {
    Head(g.mem, p) == Header(SizeAt(s.mem, p), MOVED) && Word(g.mem, p, 0) == NewPosition(g.fwd[p])
  }

  /** Slot `i` of the copy of `p`: still the old word while its address is registered, and already
      forwarded otherwise.  Weak slots wait for the end of the loop. */
  ghost predicate CopyOk(s: State, g: Gc, p: nat, i: nat)
    requires p in g.fwd
  {
    var o := Word(s.mem, p, i);
    var n := Word(g.mem, g.fwd[p], i);
    if o.IsStrong() && Field(g.fwd[p], i) !in g.todo then o.Pos() in g.fwd && n == o.At(g.fwd[o.Pos()])
    else n == o
  }

  ghost predicate NewOk(s: State, g: Gc) {
    && (forall p {:trigger p in g.fwd} | p in g.fwd :: Head(g.mem, g.fwd[p]) == Head(s.mem, p))
    && (forall p, i {:trigger CopyOk(s, g, p, i)} | p in g.fwd && InObject(s.mem, p, i) :: CopyOk(s, g, p, i))
  }

  ghost predicate RootsOk(s: State, g: Gc) {
    && g.roots.Keys == s.roots.Keys
    && (forall r | r in s.roots ::
          if Root(r) in g.todo then g.roots[r] == s.roots[r]
          else s.roots[r] in g.fwd && g.roots[r] == g.fwd[s.roots[r]])
  }

  /** What can be registered: a root, or a strong slot of a copy. */
  ghost predicate CanDo(s: State, g: Gc, a: Addr) {
    match a
    case Root(r) => r in s.roots
    case Field(q, i) => q in g.back && InObject(s.mem, g.back[q], i) && Word(s.mem, g.back[q], i).IsStrong()
  }

  ghost predicate Inv(s: State, g: Gc) {
    && MapsOk(s, g) && Sound(s, g) && SpaceOk(s, g) && OldOk(s, g) && NewOk(s, g) && RootsOk(s, g)
    && (forall a | a in g.todo :: CanDo(s, g, a))
  }

  /** The old position a registered address holds. */
  ghost function Holds(s: State, g: Gc, a: Addr): nat
    requires CanDo(s, g, a)
  {
    match a
    case Root(r) => s.roots[r]
    case Field(q, i) => Word(s.mem, g.back[q], i).Pos()
  }

  lemma HoldsReachable(s: State, g: Gc, a: Addr)
    requires Valid(s) && Inv(s, g) && a in g.todo
    ensures Reachable(s, Holds(s, g, a)) && Target(s.mem, s.blocks, Holds(s, g, a))
    ensures a.Root? ==> g.roots[a.id] == Holds(s, g, a)
    ensures a.Field? ==> Word(g.mem, a.obj, a.index).Pos() == Holds(s, g, a)
  {
    hide Laid, PointersOk, HeadersOk, SpaceOk, OldOk, Slot.At;
    match a
    case Root(r) =>
      assert Resolve(s, At(r)) == s.roots[r];
      assert SizeAt(s.mem, s.roots[r]) >= 0;
    case Field(q, i) =>
      var p := g.back[q];
      assert CopyOk(s, g, p, i);
      var path :| Resolve(s, path) == p;
      assert Resolve(s, Path.Slot(path, i)) == Word(s.mem, p, i).Pos();
      assert SlotOk(s.mem, s.blocks, Word(s.mem, p, i));
  }

  // ---- Frames ----

  /** Memory that agrees on [lo, hi) agrees on every header and payload of the allocations there;
      `sz` is where their sizes are read. */
  lemma FrameBlocks(sz: seq<Slot>, m: seq<Slot>, m': seq<Slot>, lo: nat, hi: nat, blocks: seq<nat>)
    requires Apart(sz, lo, hi, blocks) && |m'| == |m| && hi <= |m|
    requires forall k | lo <= k < hi :: m'[k] == m[k]
    ensures forall b {:trigger Head(m', b)} | b in blocks :: Head(m', b) == Head(m, b)
    ensures forall b, j {:trigger Word(m', b, j)} | b in blocks && InObject(sz, b, j) :: Word(m', b, j) == Word(m, b, j)
  {
  }

  /** A store into one payload slot changes no header and no other payload slot. */
  lemma StoreOne(m: seq<Slot>, lo: nat, hi: nat, blocks: seq<nat>, q: nat, i: nat, w: Slot)
    requires Apart(m, lo, hi, blocks) && hi <= |m| && q in blocks && InObject(m, q, i)
    ensures lo < q + i < hi
    ensures forall b {:trigger Head(m[q + i := w], b)} | b in blocks :: Head(m[q + i := w], b) == Head(m, b)
    ensures forall b, j {:trigger Word(m[q + i := w], b, j)} | b in blocks && InObject(m, b, j) ::
      Word(m[q + i := w], b, j) == if b == q && j == i then w else Word(m, b, j)
  {
  }

  lemma SameTiles(m: seq<Slot>, m': seq<Slot>, lo: nat, hi: nat, blocks: seq<nat>)
    requires Tiles(m, lo, hi, blocks) && Apart(m, lo, hi, blocks)
    requires forall q | q in blocks :: SizeAt(m', q) == SizeAt(m, q)
    ensures Tiles(m', lo, hi, blocks) && Apart(m', lo, hi, blocks)
  {
    forall k | 0 <= k < |blocks|
      ensures blocks[k] - 1 + SizeAt(m', blocks[k]) == EndOf(blocks, k, hi)
    {
      assert blocks[k] in blocks;
      assert blocks[k] - 1 + SizeAt(m, blocks[k]) == EndOf(blocks, k, hi);
    }
  }

  // ---- Space ----

  lemma {:induction false} SpaceAll(m: seq<Slot>, lo: nat, hi: nat, blocks: seq<nat>, k: nat, chosen: set<nat>)
    requires Tiles(m, lo, hi, blocks) && Apart(m, lo, hi, blocks) && k <= |blocks|
    requires forall p | p in blocks :: p in chosen
    ensures lo + SpaceOf(m, blocks[..k], chosen) == (if k == |blocks| then hi else blocks[k] - 1 as int)
  {
    if k > 0 {
      SpaceAll(m, lo, hi, blocks, k - 1, chosen);
      assert blocks[..k][..k - 1] == blocks[..k - 1];
      assert blocks[k - 1] in blocks && (k < |blocks| ==> blocks[k] in blocks);
      assert blocks[k - 1] - 1 + SizeAt(m, blocks[k - 1]) == EndOf(blocks, k - 1, hi);
    } else {
      assert |blocks| > 0 ==> blocks[0] == lo + 1;
    }
  }

  lemma {:induction false} SpaceMonotone(m: seq<Slot>, blocks: seq<nat>, chosen: set<nat>, more: set<nat>)
    requires chosen <= more
    ensures SpaceOf(m, blocks, chosen) <= SpaceOf(m, blocks, more)
  {
    if blocks != [] {
      SpaceMonotone(m, blocks[..|blocks| - 1], chosen, more);
    }
  }

  lemma {:induction false} SpaceAdd(m: seq<Slot>, blocks: seq<nat>, chosen: set<nat>, p: nat)
    requires NoDup(blocks) && p !in chosen
    ensures SpaceOf(m, blocks, chosen + {p}) == SpaceOf(m, blocks, chosen) + if p in blocks then SizeAt(m, p) else 0
  {
    if blocks != [] {
      var init := blocks[..|blocks| - 1];
      SpaceAdd(m, init, chosen, p);
      assert p in blocks <==> p in init || p == blocks[|blocks| - 1];
    }
  }

  /** There is room for the next copy: allocation during a collection never fails. */
  lemma RoomForCopy(s: State, g: Gc, p: nat)
    requires Laid(s) && SpaceOk(s, g)
    requires p in s.blocks && p !in g.fwd
    ensures g.next + SizeAt(s.mem, p) <= OtherStart(s) + s.half
    ensures SpaceOf(s.mem, s.blocks, g.fwd.Keys + {p}) == g.next + SizeAt(s.mem, p) - OtherStart(s)
  {
    SpaceAdd(s.mem, s.blocks, g.fwd.Keys, p);
    var all := g.fwd.Keys + {p} + set b | b in s.blocks;
    SpaceMonotone(s.mem, s.blocks, g.fwd.Keys + {p}, all);
    SpaceAll(s.mem, s.ctx.start, s.ctx.next, s.blocks, |s.blocks|, all);
    assert s.blocks[..|s.blocks|] == s.blocks;
  }

  // ---- One object moved ----

  /** gc_move on an object not moved before: memory and maps, and the addresses registered. */
  ghost predicate MoveRel(s: State, g: Gc, g': Gc, p: nat) {
    MoveMem(s, g, g', p) && forall a :: a in g'.todo <==> a in g.todo || StrongAt(s.mem, p, g.next + 1, a)
  }

  ghost predicate MoveMem(s: State, g: Gc, g': Gc, p: nat) {
    var n := SizeAt(s.mem, p);
    && p >= 1 && n >= 2
    && |g'.mem| == |g.mem| && g.next + n <= |g.mem| && p < |g.mem|
    && (forall k | 0 <= k < |g.mem| && !(g.next <= k < g.next + n) && k != p - 1 && k != p :: g'.mem[k] == g.mem[k])
    && p - 1 + n <= |s.mem|
    && (forall k | g.next <= k < g.next + n :: g'.mem[k] == s.mem[p - 1 + k - g.next])
    && g'.mem[p - 1] == Header(n, MOVED) && g'.mem[p] == NewPosition(g.next + 1)
    && g'.roots == g.roots
    && g'.fwd == g.fwd[p := g.next + 1] && g'.back == g.back[g.next + 1 := p]
    && g'.placed == g.placed + [g.next + 1] && g'.next == g.next + n
  }

  /** `a` is a strong slot of the copy at `q` of the object at `p`. */
  ghost predicate StrongAt(m: seq<Slot>, p: nat, q: nat, a: Addr) {
    a.Field? && a.obj == q && InObject(m, p, a.index) && Word(m, p, a.index).IsStrong()
  }

  ghost predicate CanMove(s: State, g: Gc, p: nat) {
    Valid(s) && Inv(s, g) && Target(s.mem, s.blocks, p) && Reachable(s, p) && p !in g.fwd
  }

  lemma MoveMaps(s: State, g: Gc, g': Gc, p: nat)
    requires Laid(s) && MapsOk(s, g) && SpaceOk(s, g) && p in s.blocks && p !in g.fwd
    requires MoveRel(s, g, g', p)
    ensures g.next + 1 !in g.back
    ensures MapsOk(s, g')
  {
    hide Laid, SpaceOk;
    if g.next + 1 in g.back {
      PlacedBelow(s, g, g.next + 1);
    }
  }

  lemma PlacedBelow(s: State, g: Gc, q: nat)
    requires SpaceOk(s, g) && q in g.placed
    ensures q < g.next
  {
  }

  lemma MoveSpace(s: State, g: Gc, g': Gc, p: nat)
    requires Laid(s) && SpaceOk(s, g) && p in s.blocks && p !in g.fwd
    requires MoveRel(s, g, g', p)
    ensures SpaceOk(s, g')
  {
    hide Laid, Tiles;
    RoomForCopy(s, g, p);
    assert HalvesOk(s) && s.ctx.start < p && p - 1 + SizeAt(s.mem, p) <= s.ctx.next by { LaidAt(s, p); }
    MoveSizes(s, g, g', p);
    assert g'.fwd.Keys == g.fwd.Keys + {p};
    AppendTiles(g.mem, g'.mem, OtherStart(s), g.next, g.placed, SizeAt(s.mem, p));
  }

  lemma MoveSizes(s: State, g: Gc, g': Gc, p: nat)
    requires HalvesOk(s) && s.ctx.start < p && p - 1 + SizeAt(s.mem, p) <= s.ctx.next
    requires SpaceOk(s, g) && MoveRel(s, g, g', p)
    ensures SizeAt(g'.mem, g.next + 1) == SizeAt(s.mem, p)
    ensures forall q | q in g.placed :: SizeAt(g'.mem, q) == SizeAt(g.mem, q)
  {
    hide Tiles, SpaceOf, StrongAt;
    assert Head(g'.mem, g.next + 1) == Head(s.mem, p);
    forall q | q in g.placed
      ensures SizeAt(g'.mem, q) == SizeAt(g.mem, q)
    {
      assert Head(g'.mem, q) == Head(g.mem, q);
    }
  }

  /** An allocation put at the end of a filled range fills a longer one. */
  lemma AppendTiles(m: seq<Slot>, m': seq<Slot>, lo: nat, hi: nat, blocks: seq<nat>, n: nat)
    requires Tiles(m, lo, hi, blocks) && Apart(m, lo, hi, blocks) && lo <= hi
    requires forall q | q in blocks :: SizeAt(m', q) == SizeAt(m, q)
    requires SizeAt(m', hi + 1) == n >= 2
    ensures Tiles(m', lo, hi + n, blocks + [hi + 1]) && Apart(m', lo, hi + n, blocks + [hi + 1])
  {
    var blocks' := blocks + [hi + 1];
    AppendApart(m, m', lo, hi, blocks, n);
    assert blocks'[0] == lo + 1;
    forall k | 0 <= k < |blocks'|
      ensures blocks'[k] - 1 + SizeAt(m', blocks'[k]) == EndOf(blocks', k, hi + n)
    {
      if k < |blocks| {
        AppendEnd(m, m', lo, hi, blocks, n, k);
      }
    }
  }

  lemma AppendEnd(m: seq<Slot>, m': seq<Slot>, lo: nat, hi: nat, blocks: seq<nat>, n: nat, k: nat)
    requires Tiles(m, lo, hi, blocks) && Apart(m, lo, hi, blocks) && k < |blocks|
    requires SizeAt(m', blocks[k]) == SizeAt(m, blocks[k])
    ensures blocks[k] - 1 + SizeAt(m', blocks[k]) == EndOf(blocks + [hi + 1], k, hi + n)
  {
    assert blocks[k] - 1 + SizeAt(m, blocks[k]) == EndOf(blocks, k, hi);
    if k + 1 < |blocks| {
      assert blocks[k + 1] in blocks;
    }
  }

  lemma AppendApart(m: seq<Slot>, m': seq<Slot>, lo: nat, hi: nat, blocks: seq<nat>, n: nat)
    requires Apart(m, lo, hi, blocks) && lo <= hi
    requires forall q | q in blocks :: SizeAt(m', q) == SizeAt(m, q)
    requires SizeAt(m', hi + 1) == n >= 2
    ensures Apart(m', lo, hi + n, blocks + [hi + 1])
  {
    var blocks' := blocks + [hi + 1];
    forall p | p in blocks'
      ensures lo < p && 2 <= SizeAt(m', p) && p - 1 + SizeAt(m', p) <= hi + n && (p in blocks ==> p + SizeAt(m', p) <= hi + 1)
    {
      assert p in blocks || p == hi + 1;
    }
    assert NoDup(blocks') by {
      assert hi + 1 !in blocks;
    }
    forall p, q | p in blocks' && q in blocks' && p < q
      ensures p + SizeAt(m', p) <= q
    {
      assert p in blocks && (q in blocks || q == hi + 1);
    }
  }

  lemma MoveOld(s: State, g: Gc, g': Gc, p: nat)
    requires Laid(s) && SpaceOk(s, g) && OldOk(s, g) && p in s.blocks && p !in g.fwd
    requires MoveRel(s, g, g', p)
    ensures OldOk(s, g')
  {
    RoomForCopy(s, g, p);
    forall b | b in s.blocks && b != p
      ensures if b in g'.fwd then LeftBehind(s, g', b) else SameBlock(s.mem, b, g'.mem, b)
    {
      if b !in g.fwd {
        forall i | InObject(s.mem, b, i)
          ensures Word(g'.mem, b, i) == Word(s.mem, b, i)
        {
          assert Word(g.mem, b, i) == Word(s.mem, b, i);
        }
      }
    }
  }

  lemma MoveNew(s: State, g: Gc, g': Gc, p: nat)
    requires Laid(s) && MapsOk(s, g) && SpaceOk(s, g) && NewOk(s, g) && p in s.blocks && p !in g.fwd
    requires MoveRel(s, g, g', p)
    ensures NewOk(s, g')
  {
    hide Laid, SpaceOk, NewOk, CopyOk, InObject, Head;
    forall b | b in g'.fwd
      ensures Head(g'.mem, g'.fwd[b]) == Head(s.mem, b)
      ensures forall i | InObject(s.mem, b, i) :: CopyOk(s, g', b, i)
    {
      if b != p {
        assert b in g.fwd;
        MoveOtherCopy(s, g, g', p, b);
      } else {
        MoveOwnCopy(s, g, g', p);
      }
    }
    assert NewOk(s, g') by { NewOkIntro(s, g'); }
  }

  lemma NewOkIntro(s: State, g: Gc)
    requires forall b | b in g.fwd :: Head(g.mem, g.fwd[b]) == Head(s.mem, b)
    requires forall b | b in g.fwd :: forall i | InObject(s.mem, b, i) :: CopyOk(s, g, b, i)
    ensures NewOk(s, g)
  {
  }

  lemma MoveOwnCopy(s: State, g: Gc, g': Gc, p: nat)
    requires MoveRel(s, g, g', p)
    ensures Head(g'.mem, g'.fwd[p]) == Head(s.mem, p)
    ensures forall i | InObject(s.mem, p, i) :: CopyOk(s, g', p, i)
  {
    hide Slot.IsStrong, Slot.Pos, Slot.At;
    forall i | InObject(s.mem, p, i)
      ensures CopyOk(s, g', p, i)
    {
      assert Word(g'.mem, g.next + 1, i) == Word(s.mem, p, i);
      assert Word(s.mem, p, i).IsStrong() ==> StrongAt(s.mem, p, g.next + 1, Field(g.next + 1, i));
    }
  }

  lemma MoveOtherCopy(s: State, g: Gc, g': Gc, p: nat, b: nat)
    requires Laid(s) && MapsOk(s, g) && SpaceOk(s, g) && NewOk(s, g) && p in s.blocks && p !in g.fwd
    requires MoveRel(s, g, g', p)
    requires b in g.fwd
    ensures Head(g'.mem, g'.fwd[b]) == Head(s.mem, b)
    ensures forall i | InObject(s.mem, b, i) :: CopyOk(s, g', b, i)
  {
    hide Laid, Tiles, SpaceOf, Slot.IsStrong, Slot.Pos, Slot.At;
    var q: nat := g.fwd[b];
    assert p - 1 + SizeAt(s.mem, p) <= s.ctx.next && s.ctx.start < p && HalvesOk(s) by { LaidAt(s, p); }
    FrameBlocks(g.mem, g.mem, g'.mem, OtherStart(s), g.next, g.placed);
    assert q in g.placed && SizeAt(g.mem, q) == SizeAt(s.mem, b);
    forall i | InObject(s.mem, b, i)
      ensures CopyOk(s, g', b, i)
    {
      assert CopyOk(s, g, b, i);
      assert InObject(g.mem, q, i);
      assert Word(g'.mem, q, i) == Word(g.mem, q, i);
      assert Field(q, i) in g'.todo <==> Field(q, i) in g.todo;
    }
  }

  lemma LaidAt(s: State, p: nat)
    requires Laid(s) && p in s.blocks
    ensures HalvesOk(s) && s.ctx.start < p && p - 1 + SizeAt(s.mem, p) <= s.ctx.next && 2 <= SizeAt(s.mem, p)
  {
  }

  lemma MoveRest(s: State, g: Gc, g': Gc, p: nat)
    requires Sound(s, g) && RootsOk(s, g) && (forall a | a in g.todo :: CanDo(s, g, a))
    requires MoveRel(s, g, g', p) && Active(s.mem, p) && Reachable(s, p) && p !in g.fwd && g.next + 1 !in g.back
    ensures Sound(s, g') && RootsOk(s, g') && (forall a | a in g'.todo :: CanDo(s, g', a))
  {
    hide Reachable, Active, InObject, Slot.IsStrong;
    forall a | a in g'.todo
      ensures CanDo(s, g', a)
    {
      if a in g.todo {
        assert CanDo(s, g, a);
      }
    }
  }

  lemma MoveKeepsInv(s: State, g: Gc, g': Gc, p: nat)
    requires CanMove(s, g, p) && MoveRel(s, g, g', p)
    ensures Inv(s, g')
  {
    hide MoveRel, MapsOk, Sound, SpaceOk, OldOk, NewOk, RootsOk, CanDo, Laid, FieldsOk, PointersOk, Reachable, Active;
    MoveMaps(s, g, g', p);
    MoveSpace(s, g, g', p);
    MoveOld(s, g, g', p);
    MoveNew(s, g, g', p);
    MoveRest(s, g, g', p);
  }

  // ---- One address fixed up ----

  /** `*ppos = new position` for a registered address whose target has moved. */
  ghost predicate FixRel(s: State, g: Gc, g': Gc, a: Addr)
    requires CanDo(s, g, a)
  {
    && Holds(s, g, a) in g.fwd
    && g'.todo == g.todo - {a}
    && g'.fwd == g.fwd && g'.back == g.back && g'.placed == g.placed && g'.next == g.next
    && match a
       case Root(r) => g'.mem == g.mem && g'.roots == g.roots[r := g.fwd[Holds(s, g, a)]]
       case Field(q, i) =>
         && g'.roots == g.roots && q + i < |g.mem|
         && g'.mem == g.mem[q + i := g.mem[q + i].At(g.fwd[Holds(s, g, a)])]
  }

  lemma FixKeepsInv(s: State, g: Gc, g': Gc, a: Addr)
    requires Valid(s) && Inv(s, g) && a in g.todo && CanDo(s, g, a) && FixRel(s, g, g', a)
    ensures Inv(s, g')
  {
    hide FixRel, MapsOk, Sound, SpaceOk, OldOk, NewOk, RootsOk, CanDo, Laid, FieldsOk, PointersOk;
    FixRest(s, g, g', a);
    if a.Field? {
      FixFrame(s, g, g', a);
      FixNew(s, g, g', a);
    } else {
      FixRoot(s, g, g', a);
    }
  }

  lemma FixRest(s: State, g: Gc, g': Gc, a: Addr)
    requires MapsOk(s, g) && Sound(s, g) && RootsOk(s, g) && (forall b | b in g.todo :: CanDo(s, g, b))
    requires a in g.todo && CanDo(s, g, a) && FixRel(s, g, g', a)
    ensures MapsOk(s, g') && Sound(s, g') && RootsOk(s, g') && (forall b | b in g'.todo :: CanDo(s, g', b))
  {
    hide Reachable, Active, InObject, Slot.IsStrong;
    forall b | b in g'.todo
      ensures CanDo(s, g', b)
    {
      assert CanDo(s, g, b);
    }
  }

  lemma FixRoot(s: State, g: Gc, g': Gc, a: Addr)
    requires SpaceOk(s, g) && OldOk(s, g) && NewOk(s, g)
    requires a.Root? && a in g.todo && CanDo(s, g, a) && FixRel(s, g, g', a)
    ensures SpaceOk(s, g') && OldOk(s, g') && NewOk(s, g')
  {
    forall b, j | b in g'.fwd && InObject(s.mem, b, j)
      ensures CopyOk(s, g', b, j)
    {
      assert CopyOk(s, g, b, j);
    }
    forall b | b in s.blocks && b in g'.fwd
      ensures LeftBehind(s, g', b)
    {
      assert LeftBehind(s, g, b);
    }
  }

  /** A store into a payload slot of a copy changes no header there and no other payload slot... */
  lemma FixMemory(s: State, g: Gc, g': Gc, a: Addr)
    requires MapsOk(s, g) && SpaceOk(s, g) && NewOk(s, g) && OtherStart(s) + s.half <= |s.mem|
    requires a.Field? && CanDo(s, g, a) && FixRel(s, g, g', a)
    ensures OtherStart(s) < a.obj + a.index < g.next
    ensures forall b {:trigger Head(g'.mem, b)} | b in g.placed :: Head(g'.mem, b) == Head(g.mem, b)
    ensures forall b, j {:trigger Word(g'.mem, b, j)} | b in g.placed && InObject(g.mem, b, j) ::
      Word(g'.mem, b, j) ==
        if Field(b, j) == a then Word(g.mem, b, j).At(g.fwd[Holds(s, g, a)]) else Word(g.mem, b, j)
  {
    hide Tiles, Slot.At, Slot.Pos, Slot.IsStrong;
    var q, i := a.obj, a.index;
    var w := g.mem[q + i].At(g.fwd[Holds(s, g, a)]);
    assert q in g.placed && InObject(g.mem, q, i);
    StoreOne(g.mem, OtherStart(s), g.next, g.placed, q, i, w);
  }

  /** ... and leaves the old half alone. */
  lemma FixOld(s: State, g: Gc, g': Gc, a: Addr)
    requires Laid(s) && |g.mem| == |s.mem| && OldOk(s, g)
    requires a.Field? && CanDo(s, g, a) && FixRel(s, g, g', a)
    requires OtherStart(s) < a.obj + a.index < OtherStart(s) + s.half
    ensures OldOk(s, g')
  {
    hide CanDo, Tiles, Slot.At, Slot.Pos, Slot.IsStrong;
    FrameBlocks(s.mem, g.mem, g'.mem, s.ctx.start, s.ctx.next, s.blocks);
    forall b | b in s.blocks
      ensures if b in g'.fwd then LeftBehind(s, g', b) else SameBlock(s.mem, b, g'.mem, b)
    {
      assert Head(g'.mem, b) == Head(g.mem, b);
      if b in g.fwd {
        assert LeftBehind(s, g, b) && InObject(s.mem, b, 0);
      } else {
        assert SameBlock(s.mem, b, g.mem, b);
      }
    }
  }

  lemma FixFrame(s: State, g: Gc, g': Gc, a: Addr)
    requires Laid(s) && MapsOk(s, g) && SpaceOk(s, g) && OldOk(s, g) && NewOk(s, g)
    requires a.Field? && CanDo(s, g, a) && FixRel(s, g, g', a)
    ensures SpaceOk(s, g') && OldOk(s, g')
  {
    hide MapsOk, OldOk, NewOk, CanDo, Tiles, Apart, Slot.At, Slot.Pos, Slot.IsStrong;
    FixMemory(s, g, g', a);
    SameTiles(g.mem, g'.mem, OtherStart(s), g.next, g.placed);
    FixOld(s, g, g', a);
  }

  lemma FixNew(s: State, g: Gc, g': Gc, a: Addr)
    requires Laid(s) && MapsOk(s, g) && SpaceOk(s, g) && NewOk(s, g)
    requires a.Field? && CanDo(s, g, a) && a in g.todo && FixRel(s, g, g', a)
    ensures NewOk(s, g')
  {
    hide SpaceOk, Tiles, Apart, Slot.At, Slot.Pos, Slot.IsStrong;
    FixMemory(s, g, g', a);
    forall b, j | b in g'.fwd && InObject(s.mem, b, j)
      ensures CopyOk(s, g', b, j)
    {
      var q: nat := g.fwd[b];
      assert CopyOk(s, g, b, j);
      assert q in g.placed && InObject(g.mem, q, j);
      assert Field(q, j) == a ==> b == g.back[q];
    }
  }

  // ---- The loop starts and ends ----

  /** Before the first address is taken, with every root registered. */
  ghost function Begin(s: State): Gc {
    Gc(s.mem, s.roots, set r | r in s.roots :: Root(r), map[], map[], [], OtherStart(s))
  }

  lemma {:induction false} SpaceNone(m: seq<Slot>, blocks: seq<nat>)
    ensures SpaceOf(m, blocks, {}) == 0
  {
    if blocks != [] {
      SpaceNone(m, blocks[..|blocks| - 1]);
    }
  }

  lemma BeginInv(s: State)
    requires Valid(s)
    ensures Inv(s, Begin(s))
  {
    SpaceNone(s.mem, s.blocks);
    assert Begin(s).fwd.Keys == {};
  }

  /** Following strong references never leaves the moved objects once nothing is registered. */
  lemma {:induction false} PathForwarded(s: State, g: Gc, path: Path)
    requires Inv(s, g) && g.todo == {}
    ensures Resolve(s, path) != 0 ==> Resolve(s, path) in g.fwd
  {
    hide Sound, SpaceOk, OldOk, Slot.At, Slot.Pos, Slot.IsStrong;
    match path
    case At(r) =>
      if r in s.roots {
        assert Root(r) !in g.todo;
      }
    case Slot(via, i) =>
      PathForwarded(s, g, via);
      var p := Resolve(s, via);
      if Resolve(s, path) != 0 {
        assert CopyOk(s, g, p, i);
      }
  }

  /** When the work list is empty exactly the strongly reachable objects have moved. */
  lemma ExactlyReachable(s: State, g: Gc)
    requires Inv(s, g) && g.todo == {}
    ensures forall p :: p in g.fwd <==> Reachable(s, p)
  {
    hide MapsOk, SpaceOk, OldOk, NewOk, RootsOk;
    forall p | Reachable(s, p)
      ensures p in g.fwd
    {
      var path :| Resolve(s, path) == p;
      PathForwarded(s, g, path);
    }
  }

  // ---- Weak pointers ----

  ghost predicate WeakField(s: State, g: Gc, a: Addr) {
    a.Field? && a.obj in g.back && InObject(s.mem, g.back[a.obj], a.index) && Word(s.mem, g.back[a.obj], a.index).IsWeak()
  }

  /** Slot `i` of the copy of `p` while the weak addresses in `todo` are still to be visited. */
  ghost predicate SweptSlot(s: State, g: Gc, todo: set<Addr>, p: nat, i: nat)
    requires p in g.fwd
  {
    var o := Word(s.mem, p, i);
    Word(g.mem, g.fwd[p], i) == if o.IsWeak() && Field(g.fwd[p], i) in todo then o else Relocate(o, g.fwd)
  }

  ghost predicate Sweeping(s: State, g: Gc, todo: set<Addr>) {
    && (forall p :: p in g.fwd <==> Reachable(s, p))
    && MapsOk(s, g) && SpaceOk(s, g) && OldOk(s, g)
    && (forall p {:trigger p in g.fwd} | p in g.fwd :: Head(g.mem, g.fwd[p]) == Head(s.mem, p))
    && (forall p, i {:trigger SweptSlot(s, g, todo, p, i)} | p in g.fwd && InObject(s.mem, p, i) :: SweptSlot(s, g, todo, p, i))
    && (forall a | a in todo :: WeakField(s, g, a))
    && g.roots.Keys == s.roots.Keys
    && (forall r | r in s.roots :: s.roots[r] in g.fwd && g.roots[r] == g.fwd[s.roots[r]])
  }

  lemma BeginSweep(s: State, g: Gc, todo: set<Addr>)
    requires Inv(s, g) && g.todo == {}
    requires forall a :: a in todo <==> WeakField(s, g, a)
    ensures Sweeping(s, g, todo)
  {
    hide MapsOk, SpaceOk, OldOk;
    ExactlyReachable(s, g);
    forall p, i | p in g.fwd && InObject(s.mem, p, i)
      ensures SweptSlot(s, g, todo, p, i)
    {
      assert CopyOk(s, g, p, i);
      assert WeakField(s, g, Field(g.fwd[p], i)) <==> Word(s.mem, p, i).IsWeak() by { BackOf(s, g, p); }
    }
    forall r | r in s.roots
      ensures s.roots[r] in g.fwd && g.roots[r] == g.fwd[s.roots[r]]
    {
      assert Root(r) !in g.todo;
    }
  }

  lemma BackOf(s: State, g: Gc, p: nat)
    requires MapsOk(s, g) && p in g.fwd
    ensures p in s.blocks && g.fwd[p] in g.placed && g.fwd[p] in g.back && g.back[g.fwd[p]] == p
  {
  }

  /** What the header and first slot of a weak target say after the copying loop. */
  ghost predicate WeakTargetKnown(s: State, g: Gc, a: Addr) {
    && a.Field? && a.obj in g.back && a.obj + a.index < |g.mem|
    && var w := g.mem[a.obj + a.index];
       && w == Word(s.mem, g.back[a.obj], a.index) && w.Weak?
       && 1 <= w.ref < |g.mem| && g.mem[w.ref - 1].Header?
       && (g.mem[w.ref - 1].typ == MOVED <==> w.ref in g.fwd)
       && (w.ref in g.fwd ==> g.mem[w.ref] == NewPosition(g.fwd[w.ref]))
  }

  lemma WeakTarget(s: State, g: Gc, todo: set<Addr>, a: Addr)
    requires Valid(s) && Sweeping(s, g, todo) && a in todo
    ensures WeakTargetKnown(s, g, a)
  {
    hide Reachable, SpaceOk, OldOk, Laid, PointersOk, Relocate;
    var q, i := a.obj, a.index;
    assert WeakField(s, g, a);
    var p := g.back[q];
    assert SweptSlot(s, g, todo, p, i);
    var w := Word(s.mem, p, i);
    assert p in s.blocks && Active(s.mem, p) by { ReachableActive(s, p); }
    assert SlotOk(s.mem, s.blocks, w);
    LaidAt(s, w.ref);
    SpaceAt(s, g, q);
    OldBlock(s, g, w.ref);
    assert InObject(g.mem, q, i);
  }

  lemma OldBlock(s: State, g: Gc, p: nat)
    requires OldOk(s, g) && p in s.blocks && HalvesOk(s) && |g.mem| == |s.mem|
    requires Active(s.mem, p) && s.ctx.start < p < s.ctx.next
    ensures g.mem[p - 1].Header?
    ensures g.mem[p - 1].typ == MOVED <==> p in g.fwd
    ensures p in g.fwd ==> g.mem[p] == NewPosition(g.fwd[p])
  {
    if p in g.fwd {
      assert LeftBehind(s, g, p);
    } else {
      assert SameBlock(s.mem, p, g.mem, p);
    }
  }

  lemma ReachableActive(s: State, p: nat)
    requires Valid(s) && Reachable(s, p)
    ensures p in s.blocks && Active(s.mem, p)
  {
    var path :| Resolve(s, path) == p;
    ResolveTarget(s, path);
  }

  lemma SpaceAt(s: State, g: Gc, q: nat)
    requires HalvesOk(s) && SpaceOk(s, g) && q in g.placed
    ensures OtherStart(s) < q && q - 1 + SizeAt(g.mem, q) <= g.next <= |g.mem| == |s.mem|
  {
  }

  lemma SweepStep(s: State, g: Gc, g': Gc, todo: set<Addr>, a: Addr, v: nat)
    requires Valid(s) && Sweeping(s, g, todo) && a in todo && WeakTargetKnown(s, g, a)
    requires var w := g.mem[a.obj + a.index];
      && v == (if w.Pos() in g.fwd then g.fwd[w.Pos()] else 0)
      && g' == g.(mem := g.mem[a.obj + a.index := g.mem[a.obj + a.index].At(v)])
    ensures Sweeping(s, g', todo - {a})
  {
    hide Valid, Reachable, Slot.At, Slot.Pos, Slot.IsWeak, Laid, SpaceOk, OldOk, SweptSlot;
    var q, i := a.obj, a.index;
    assert WeakField(s, g, a) && Laid(s) by { ValidLaid(s); }
    assert q in g.placed && InObject(g.mem, q, i);
    SweepOld(s, g, g', a);
    SweepNew(s, g, g', q, i, g.mem[q + i].At(v));
    forall p, j | p in g'.fwd && InObject(s.mem, p, j)
      ensures SweptSlot(s, g', todo - {a}, p, j)
    {
      assert SweptSlot(s, g, todo, p, j);
      assert g.fwd[p] in g.placed && InObject(g.mem, g.fwd[p], j);
      SweepSlot(s, g, g', todo, a, v, p, j);
    }
  }

  lemma SweepNew(s: State, g: Gc, g': Gc, q: nat, i: nat, w: Slot)
    requires Laid(s) && SpaceOk(s, g) && q in g.placed && InObject(g.mem, q, i) && q + i < |g.mem|
    requires g' == g.(mem := g.mem[q + i := w])
    ensures SpaceOk(s, g')
    ensures forall b {:trigger Head(g'.mem, b)} | b in g.placed :: Head(g'.mem, b) == Head(g.mem, b)
    ensures forall b, j {:trigger Word(g'.mem, b, j)} | b in g.placed && InObject(g.mem, b, j) ::
      Word(g'.mem, b, j) == if b == q && j == i then w else Word(g.mem, b, j)
  {
    hide Tiles;
    assert HalvesOk(s) by { LaidHalves(s); }
    SpaceAt(s, g, q);
    StoreOne(g.mem, OtherStart(s), g.next, g.placed, q, i, w);
    SameTiles(g.mem, g'.mem, OtherStart(s), g.next, g.placed);
  }

  lemma SweepSlot(s: State, g: Gc, g': Gc, todo: set<Addr>, a: Addr, v: nat, p: nat, j: nat)
    requires MapsOk(s, g) && WeakField(s, g, a) && p in g.fwd && SweptSlot(s, g, todo, p, j) && a in todo
    requires var w := Word(s.mem, g.back[a.obj], a.index);
      && v == (if w.Pos() in g.fwd then g.fwd[w.Pos()] else 0)
    requires g'.fwd == g.fwd
    requires Word(g'.mem, g.fwd[p], j) == if Field(g.fwd[p], j) == a then Word(g.mem, g.fwd[p], j).At(v) else Word(g.mem, g.fwd[p], j)
    ensures SweptSlot(s, g', todo - {a}, p, j)
  {
    hide Slot.At, InObject, Word;
  }

  lemma ValidLaid(s: State)
    requires Valid(s)
    ensures Laid(s)
  {
  }

  lemma LaidHalves(s: State)
    requires Laid(s)
    ensures HalvesOk(s)
  {
  }

  lemma SweepOld(s: State, g: Gc, g': Gc, a: Addr)
    requires Laid(s) && SpaceOk(s, g) && MapsOk(s, g) && OldOk(s, g) && a.Field? && a.obj in g.placed
    requires InObject(g.mem, a.obj, a.index) && a.obj + a.index < |g.mem|
    requires g'.fwd == g.fwd && |g'.mem| == |g.mem| && forall k | 0 <= k < |g.mem| && k != a.obj + a.index :: g'.mem[k] == g.mem[k]
    ensures OldOk(s, g')
  {
    SpaceAt(s, g, a.obj);
    FrameBlocks(s.mem, g.mem, g'.mem, s.ctx.start, s.ctx.next, s.blocks);
    forall b | b in s.blocks
      ensures if b in g'.fwd then LeftBehind(s, g', b) else SameBlock(s.mem, b, g'.mem, b)
    {
      assert Head(g'.mem, b) == Head(g.mem, b);
      if b in g.fwd {
        assert LeftBehind(s, g, b) && InObject(s.mem, b, 0);
      } else {
        assert SameBlock(s.mem, b, g.mem, b);
      }
    }
  }

  lemma EmptySeq<T>(s: seq<T>)
    ensures (forall x :: x !in s) ==> s == []
  {
    if s != [] {
      assert s[0] in s;
    }
  }

  // ---- The state a collection ends in ----

  ghost function FinalState(s: State, g: Gc, pointers: seq<Addr>): State {
    State(g.mem, s.half, Context(OtherStart(s), OtherStart(s) + s.half, g.next), g.placed, g.roots, pointers)
  }

  /** The tracked pointers left when the old half has been destroyed. */
  ghost predicate CopyPointer(s: State, g: Gc, a: Addr) {
    match a
    case Root(r) => r in s.roots
    case Field(q, i) => q in g.back && InObject(s.mem, g.back[q], i) && Word(s.mem, g.back[q], i).IsTracked()
  }

  ghost predicate Swept(s: State, g: Gc) {
    Sweeping(s, g, {})
  }

  lemma RelocatedSlot(s: State, g: Gc, p: nat, i: nat)
    requires Valid(s) && Swept(s, g) && p in g.fwd && InObject(s.mem, p, i)
    ensures var o := Word(s.mem, p, i); var n := Word(g.mem, g.fwd[p], i);
      && n == Relocate(o, g.fwd)
      && SlotOk(g.mem, g.placed, n)
      && n.IsTracked() == o.IsTracked()
      && (o.IsStrong() ==> o.Pos() in g.fwd)
  {
    hide OldOk, SpaceOk, Slot.At;
    var o := Word(s.mem, p, i);
    assert SweptSlot(s, g, {}, p, i);
    ReachableActive(s, p);
    assert SlotOk(s.mem, s.blocks, o);
    if o.IsStrong() {
      var path :| Resolve(s, path) == p;
      assert Resolve(s, Path.Slot(path, i)) == o.Pos();
    }
    if o.Pos() in g.fwd {
      MovedTarget(s, g, o.Pos());
      AtPos(o, g.fwd[o.Pos()]);
    } else if o.Weak? {
      assert o.At(0) == Weak(0) by { AtWeak(o); }
    }
  }

  lemma AtWeak(w: Slot)
    requires w.Weak?
    ensures w.At(0) == Weak(0)
  {
  }

  lemma MovedTarget(s: State, g: Gc, p: nat)
    requires Valid(s) && Swept(s, g) && p in g.fwd
    ensures Target(g.mem, g.placed, g.fwd[p]) && 0 < g.fwd[p] < TWO_TO_THE_32 && SizeAt(g.mem, g.fwd[p]) <= MAX_SIZE
  {
    ReachableActive(s, p);
    SpaceAt(s, g, g.fwd[p]);
  }

  lemma FinalFields(s: State, g: Gc)
    requires Valid(s) && Swept(s, g)
    ensures HeadersOk(g.mem, g.placed) && FieldsOk(g.mem, g.placed)
  {
    hide Valid, Reachable, OldOk, SpaceOk, SweptSlot, SlotOk, Slot.IsStrong, Slot.IsTracked;
    forall q | q in g.placed
      ensures Active(g.mem, q) && SizeAt(g.mem, q) <= MAX_SIZE
    {
      MovedTarget(s, g, g.back[q]);
    }
    forall q, i | q in g.placed && InObject(g.mem, q, i)
      ensures SlotOk(g.mem, g.placed, Word(g.mem, q, i))
    {
      RelocatedSlot(s, g, g.back[q], i);
    }
  }

  lemma FinalPointer(s: State, g: Gc, pointers: seq<Addr>, a: Addr)
    requires Valid(s) && Swept(s, g)
    ensures IsPointer(FinalState(s, g, pointers), a) <==> CopyPointer(s, g, a)
  {
    hide Valid, Reachable, OldOk, SpaceOk, SweptSlot, SlotOk, Slot.IsStrong, Slot.IsTracked;
    if a.Field? {
      if a.obj in g.placed {
        MovedTarget(s, g, g.back[a.obj]);
        if InObject(g.mem, a.obj, a.index) {
          RelocatedSlot(s, g, g.back[a.obj], a.index);
        }
      }
    }
  }

  lemma FinalValid(s: State, g: Gc, pointers: seq<Addr>)
    requires Valid(s) && Swept(s, g)
    requires NoDup(pointers) && forall a :: a in pointers <==> CopyPointer(s, g, a)
    ensures Valid(FinalState(s, g, pointers))
  {
    hide Reachable, OldOk, SweptSlot, CopyPointer, IsPointer, FieldsOk, HeadersOk, Active, Tiles, Apart;
    FinalFields(s, g);
    forall a
      ensures a in pointers <==> IsPointer(FinalState(s, g, pointers), a)
    {
      FinalPointer(s, g, pointers, a);
    }
    forall r | r in g.roots
      ensures Target(g.mem, g.placed, g.roots[r])
    {
      MovedTarget(s, g, s.roots[r]);
    }
  }

  lemma FinalCollected(s: State, g: Gc, pointers: seq<Addr>)
    requires Valid(s) && Swept(s, g) && s.roots != map[]
    ensures Collected(s, FinalState(s, g, pointers), g.fwd)
  {
    hide Valid, Reachable, OldOk, Tiles, Apart, SlotOk, Active;
    forall p, i | p in g.fwd && InObject(s.mem, p, i)
      ensures Word(g.mem, g.fwd[p], i) == Relocate(Word(s.mem, p, i), g.fwd)
    {
      RelocatedSlot(s, g, p, i);
    }
    forall q
      ensures q in g.placed <==> q in g.fwd.Values
    {
      assert q in g.back ==> g.fwd[g.back[q]] == q;
    }
  }

  /** With no root there is nothing to keep: the active half is emptied in place. */
  ghost function EmptyState(s: State): State {
    State(s.mem, s.half, Context(s.ctx.start, s.ctx.limit, s.ctx.start), [], s.roots, [])
  }

  lemma EmptyCollected(s: State)
    requires Valid(s) && s.roots == map[]
    ensures Collected(s, EmptyState(s), map[]) && Valid(EmptyState(s))
  {
    forall p
      ensures !Reachable(s, p)
    {
      NothingReachable(s, p);
    }
    var none: map<nat, nat> := map[];
    assert none.Keys == {};
    SpaceNone(s.mem, s.blocks);
  }

  lemma HeadMoved(s: State, s': State, f: map<nat, nat>, p: nat)
    requires Collected(s, s', f) && p in f
    ensures Head(s'.mem, f[p]) == Head(s.mem, p)
  {
    hide Relocate, Reachable;
  }

  lemma WordMoved(s: State, s': State, f: map<nat, nat>, p: nat, i: nat)
    requires Collected(s, s', f) && p in f && InObject(s.mem, p, i)
    ensures InObject(s'.mem, f[p], i) && Word(s'.mem, f[p], i) == Relocate(Word(s.mem, p, i), f)
  {
    hide Relocate, Reachable;
    HeadMoved(s, s', f, p);
  }

  lemma NothingReachable(s: State, p: nat)
    requires s.roots == map[]
    ensures !Reachable(s, p)
  {
    if Reachable(s, p) {
      var path :| Resolve(s, path) == p;
      NoRootNoPath(s, path);
    }
  }

  lemma {:induction false} NoRootNoPath(s: State, path: Path)
    requires s.roots == map[]
    ensures Resolve(s, path) == 0
  {
    match path
    case At(r) =>
    case Slot(via, i) => NoRootNoPath(s, via);
  }
}
