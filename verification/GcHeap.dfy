/** The collected heap as the program runs it: slots overwritten in place, explicit work lists of
    addresses, a pointer set, and two contexts that swap. */
module GcHeap {
  import opened PointerSets
  import opened HeapModel
  import opened Collection
  import opened Fixups
  import opened HeapOps
  import opened Wrappers
  import opened Integers
  import V = ValueRepresentation

  const SLOT_SIZE: nat := 8
  const UINT32_MAX: nat := 0xFFFF_FFFF

  function BytesToSlots(bytes: nat): nat {
    (bytes + SLOT_SIZE - 1) / SLOT_SIZE
  }

  /** A context over the half that is not in use. */
  function OtherHalf(c: Context): Context {
    var start := if c.start != 0 then 0 else c.limit;
    Context(start, if c.start != 0 then c.limit / 2 else c.limit * 2, start)
  }

  function Percent(c: Context): nat
    requires c.start < c.limit && c.start <= c.next
  {
    (c.next - c.start) * 100 / (c.limit - c.start)
  }

  class Heap {
    const half: nat
    const storage: array<Slot>
    var context: Context
    var newContext: Context
    var roots: map<nat, nat>
    var pointers: seq<Addr>
    var pendingFixups: seq<Addr>
    var weakFixups: seq<Addr>
    ghost var blocks: seq<nat>

    // The collection in progress: the state it started from, where objects went, and the objects
    // destroyed so far.
    ghost var before: State
    ghost var fwd: map<nat, nat>
    ghost var back: map<nat, nat>
    ghost var placed: seq<nat>
    ghost var destroyed: seq<nat>

    ghost function View(): State
      reads this, storage
    {
      State(storage[..], half, context, blocks, roots, pointers)
    }

    /** Between operations: a well-formed state and no collection in progress. */
    ghost predicate Idle()
      reads this, storage
    {
      Valid(View()) && pendingFixups == [] && weakFixups == []
    }

    constructor (capacity: nat)
      requires 2 <= capacity < TWO_TO_THE_32
      ensures Idle() && View().roots == map[] && View().blocks == []
      ensures context == Context(0, capacity / 2, 0) && half == capacity / 2 && fresh(storage)
    {
      half := capacity / 2;
      storage := new Slot[2 * (capacity / 2)](_ => Data(0));
      context := Context(0, capacity / 2, 0);
      newContext := Context(0, capacity / 2, 0);
      roots, pointers, blocks := map[], [], [];
      pendingFixups, weakFixups := [], [];
      before := State([], 0, Context(0, 0, 0), [], map[], []);
      fwd, back, placed, destroyed := map[], map[], [], [];
    }

    function UsePercentage(): nat
      requires context.start < context.limit && context.start <= context.next
      reads this
    {
      Percent(context)
    }

    /** Reserves slots for `numBytes` in context `c` and writes an allocation header that says the
        object is not constructed yet. */
    method Allocate(c: Context, numBytes: nat) returns (ok: bool, c': Context, pos: nat)
      requires c.next <= c.limit <= storage.Length
      modifies storage
      ensures ok <==> 0 < numBytes < UINT32_MAX && c.next + 1 + BytesToSlots(numBytes) <= c.limit
      ensures ok ==> pos == c.next + 1 && c' == c.(next := c.next + 1 + BytesToSlots(numBytes))
      ensures ok ==> storage[..] == old(storage[..])[c.next := Header(1 + BytesToSlots(numBytes), UNINITIALIZED)]
      ensures !ok ==> c' == c && storage[..] == old(storage[..])
    {
      pos, c' := 0, c;
      if numBytes == 0 || numBytes >= UINT32_MAX {
        return false, c', pos;
      }
      var numSlots := 1 + BytesToSlots(numBytes);
      if numSlots > c.limit || c.next > c.limit - numSlots {
        return false, c', pos;
      }
      pos := c.next;
      c' := c.(next := c.next + numSlots);
      storage[pos] := Header(numSlots, UNINITIALIZED);
      return true, c', pos + 1;
    }

    // ---- Moving one object ----

    ghost function Now(todo: set<Addr>): Gc
      reads this, storage
    {
      Gc(storage[..], roots, todo, fwd, back, placed, newContext.next)
    }

    /** Constructs the object of `n` payload slots at `to` from the one at `from`; the tracked
        pointers of the new object attach themselves. */
    method MoveConstruct(to: nat, from: nat, n: nat)
      requires from + n <= storage.Length && to + n <= storage.Length && (from + n <= to || to + n <= from)
      modifies storage, this`pointers
      ensures forall k | 0 <= k < storage.Length ::
        storage[k] == if to <= k < to + n then old(storage[k - to + from]) else old(storage[k])
      ensures pointers == old(pointers) + Cells(old(storage[..]), from, to, n, TrackedRef)
    {
      for i := 0 to n
        invariant forall k | 0 <= k < storage.Length ::
          storage[k] == if to <= k < to + i then old(storage[k - to + from]) else old(storage[k])
        invariant pointers == old(pointers) + Cells(old(storage[..]), from, to, i, TrackedRef)
      {
        storage[to + i] := storage[from + i];
        assert storage[to + i] == Word(old(storage[..]), from, i);
        if storage[to + i].IsTracked() {
          pointers := Push(pointers, Field(to, i));
        }
      }
    }

    /** Runs the destructor of the object at `p`: its tracked pointers detach, last member first. */
    method Destroy(p: nat, n: nat)
      requires p + n <= storage.Length
      modifies this`pointers, this`destroyed
      ensures pointers == EraseCells(old(pointers), storage[..], p, n)
      ensures destroyed == old(destroyed) + [p]
    {
      var i := n;
      while i > 0
        invariant 0 <= i <= n
        invariant EraseCells(pointers, storage[..], p, i) == EraseCells(old(pointers), storage[..], p, n)
        invariant destroyed == old(destroyed)
      {
        i := i - 1;
        assert storage[p + i] == Word(storage[..], p, i);
        if storage[p + i].IsTracked() {
          pointers := Erase(pointers, Field(p, i));
        }
      }
      destroyed := destroyed + [p];
    }

    /** The object at `p` registers its untracked pointers. */
    method Fixup(p: nat, n: nat)
      requires p + n <= storage.Length
      modifies this`pendingFixups, this`weakFixups
      ensures pendingFixups == old(pendingFixups) + Cells(storage[..], p, p, n, UntrackedStrong)
      ensures weakFixups == old(weakFixups) + Cells(storage[..], p, p, n, UntrackedWeak)
    {
      for i := 0 to n
        invariant pendingFixups == old(pendingFixups) + Cells(storage[..], p, p, i, UntrackedStrong)
        invariant weakFixups == old(weakFixups) + Cells(storage[..], p, p, i, UntrackedWeak)
      {
        assert storage[p + i] == Word(storage[..], p, i);
        if storage[p + i].IsWeak() {
          weakFixups := weakFixups + [Field(p, i)];
        } else if storage[p + i].IsStrong() && !storage[p + i].Tracked? {
          pendingFixups := pendingFixups + [Field(p, i)];
        }
      }
    }

    ghost function CurrentLists(): Lists
      reads this
    {
      Lists(pendingFixups, pointers, weakFixups, destroyed)
    }

    /** A collection in progress; the addresses `inFlight` have been taken from the work list and are
        about to be fixed up. */
    ghost predicate Collecting(inFlight: set<Addr>)
      reads this, storage
    {
      && half == before.half && storage.Length == |before.mem| && context == before.ctx
      && newContext.start == OtherStart(before) && newContext.limit == OtherStart(before) + half
      && LoopOk(before, Now(Elems(pendingFixups) + inFlight), CurrentLists(), inFlight)
    }

    /** Moves the object at `pos`, unless that was done before, and returns its new position. */
    method GcMove(pos: nat, ghost a: Addr) returns (newPos: nat)
      requires Collecting({a}) && CanDo(before, Now(Elems(pendingFixups) + {a}), a)
      requires Holds(before, Now(Elems(pendingFixups) + {a}), a) == pos
      modifies storage, this`newContext, this`pointers, this`pendingFixups, this`weakFixups
      modifies this`fwd, this`back, this`placed, this`destroyed
      ensures Collecting({a}) && pos in fwd && newPos == fwd[pos]
      ensures a !in pendingFixups && MapsOk(before, Now(Elems(pendingFixups) + {a}))
      ensures if pos in old(fwd) then fwd == old(fwd) && pendingFixups == old(pendingFixups)
              else fwd == old(fwd)[pos := newPos]
    {
      hide Valid, Inv, ListsOk, Reachable, Target, Holds, CanDo, Head, SizeAt;
      MoveTarget(before, Now(Elems(pendingFixups) + {a}), a);
      var header := storage[pos - 1];
      if header.typ == MOVED {
        newPos := storage[pos].at;
      } else {
        newPos := MoveNewObject(pos, header.size, header.typ, a);
      }
      LoopTarget(before, Now(Elems(pendingFixups) + {a}), CurrentLists(), a);
    }

    method MoveNewObject(pos: nat, size: nat, typ: nat, ghost a: Addr) returns (newPos: nat)
      requires Collecting({a}) && Target(before.mem, before.blocks, pos) && Reachable(before, pos)
      requires pos !in fwd && Head(before.mem, pos) == Header(size, typ)
      modifies storage, this`newContext, this`pointers, this`pendingFixups, this`weakFixups
      modifies this`fwd, this`back, this`placed, this`destroyed
      ensures Collecting({a}) && pos in fwd && newPos == fwd[pos] && fwd == old(fwd)[pos := newPos]
    {
      hide Valid, Inv, ListsOk, MoveMem, Reachable, Cells, EraseCells, MovedMemory, SpaceOk, OldOk;
      ghost var s, g, l := before, Now(Elems(pendingFixups) + {a}), CurrentLists();
      ghost var q := newContext.next + 1;
      assert SpaceOk(s, g) && OldOk(s, g) && pos !in g.fwd && pos in s.blocks by { InvParts(s, g); }
      MoveRoom(s, g, pos);
      SpaceLength(s, g);
      MoveSource(s, g, pos, q, pointers + Cells(s.mem, pos, q, size - 1, TrackedRef));
      newPos := CopyOut(pos, size, typ);
      fwd, back, placed := fwd[pos := newPos], back[newPos := pos], placed + [newPos];
      ghost var g', l' := Now(Elems(pendingFixups) + {a}), CurrentLists();
      MovedMemoryRel(s, g, g', pos);
      MoveLoop(s, g, g', pos, l, l', {a});
    }

    /** The part of a move that touches memory and lists: allocate, construct, register what was
        attached, destroy the original, leave the forwarding data, and let the copy register. */
    method CopyOut(pos: nat, size: nat, typ: nat) returns (newPos: nat)
      requires 1 <= pos && 2 <= size <= MAX_SIZE && pos - 1 + size <= storage.Length
      requires newContext.next + size <= newContext.limit <= storage.Length
      requires pos - 1 + size <= newContext.next || newContext.next + size <= pos - 1
      modifies storage, this`newContext, this`pointers, this`pendingFixups, this`weakFixups, this`destroyed
      ensures newPos == old(newContext.next) + 1 && newContext == old(newContext).(next := old(newContext.next) + size)
      ensures storage[..] == MovedMemory(old(storage[..]), pos, newPos, size, typ)
      ensures pointers == EraseCells(old(pointers) + Cells(old(storage[..]), pos, newPos, size - 1, TrackedRef),
                                     old(storage[..]), pos, size - 1)
      ensures pendingFixups == old(pendingFixups) + (Cells(old(storage[..]), pos, newPos, size - 1, TrackedRef)
                               + Cells(old(storage[..]), pos, newPos, size - 1, UntrackedStrong))
      ensures weakFixups == old(weakFixups) + Cells(old(storage[..]), pos, newPos, size - 1, UntrackedWeak)
      ensures destroyed == old(destroyed) + [pos]
    {
      hide Cells, EraseCells;
      ghost var m0 := storage[..];
      var numInitially := |pointers|;
      newPos := Construct(pos, size, typ);
      RegisterFrom(numInitially);
      CellsErased(pointers, m0, storage[..], pos, size - 1);
      Destroy(pos, size - 1);
      storage[pos - 1] := Header(size, MOVED);
      storage[pos] := NewPosition(newPos);
      assert storage[..] == MovedMemory(m0, pos, newPos, size, typ);
      CellsSame(m0, pos, storage[..], newPos, newPos, size - 1, UntrackedStrong);
      CellsSame(m0, pos, storage[..], newPos, newPos, size - 1, UntrackedWeak);
      Fixup(newPos, size - 1);
    }

    /** Allocates in the new context and move-constructs the object there. */
    method Construct(pos: nat, size: nat, typ: nat) returns (newPos: nat)
      requires 1 <= pos && 2 <= size <= MAX_SIZE && pos - 1 + size <= storage.Length
      requires newContext.next + size <= newContext.limit <= storage.Length
      requires pos - 1 + size <= newContext.next || newContext.next + size <= pos - 1
      modifies storage, this`newContext, this`pointers
      ensures newPos == old(newContext.next) + 1 && newContext == old(newContext).(next := old(newContext.next) + size)
      ensures storage[newPos - 1] == Header(size, typ)
      ensures forall k | 0 <= k < storage.Length && k != newPos - 1 ::
        storage[k] == if newPos <= k < newPos + size - 1 then old(storage[k - newPos + pos]) else old(storage[k])
      ensures pointers == old(pointers) + Cells(old(storage[..]), pos, newPos, size - 1, TrackedRef)
    {
      ghost var m0 := storage[..];
      MoveRequest(size);
      var ok, c, p := Allocate(newContext, MoveBytes(size));
      newContext := c;
      newPos := p;
      CellsSame(m0, pos, storage[..], pos, newPos, size - 1, TrackedRef);
      MoveConstruct(newPos, pos, size - 1);
      storage[newPos - 1] := Header(size, typ);
    }

    /** The tracked pointers at the back of the set, attached since it had `first` members. */
    method RegisterFrom(first: nat)
      requires first <= |pointers|
      modifies this`pendingFixups
      ensures pendingFixups == old(pendingFixups) + pointers[first..]
    {
      for i := first to |pointers|
        invariant pendingFixups == old(pendingFixups) + pointers[first..i]
      {
        pendingFixups := pendingFixups + [pointers[i]];
      }
    }

    // ---- The collection ----

    function Read(a: Addr): nat
      requires a.Root? ==> a.id in roots
      requires a.Field? ==> a.obj + a.index < storage.Length
      reads this, storage
    {
      match a
      case Root(r) => roots[r]
      case Field(p, i) => storage[p + i].Pos()
    }

    method Store(a: Addr, v: nat)
      requires a.Field? ==> a.obj + a.index < storage.Length
      modifies storage, this`roots
      ensures a.Root? ==> roots == old(roots)[a.id := v] && storage[..] == old(storage[..])
      ensures a.Field? ==> roots == old(roots)
      ensures a.Field? ==> storage[..] == old(storage[..])[a.obj + a.index := old(storage[a.obj + a.index]).At(v)]
    {
      match a
      case Root(r) => roots := roots[r := v];
      case Field(p, i) => storage[p + i] := storage[p + i].At(v);
    }

    method RegisterRoots()
      requires pendingFixups == []
      modifies this`pendingFixups
      ensures pendingFixups == RootsOf(pointers)
    {
      for i := 0 to |pointers|
        invariant pendingFixups == RootsOf(pointers[..i])
      {
        assert pointers[..i + 1][..i] == pointers[..i];
        if pointers[i].Root? {
          pendingFixups := pendingFixups + [pointers[i]];
        }
      }
      assert pointers[..|pointers|] == pointers;
    }

    /** Works through the registered addresses until none is left. */
    method ProcessFixups()
      requires Collecting({})
      modifies storage, this`newContext, this`pointers, this`pendingFixups, this`weakFixups, this`roots
      modifies this`fwd, this`back, this`placed, this`destroyed
      ensures Collecting({}) && pendingFixups == []
    {
      hide LoopOk;
      while pendingFixups != []
        invariant Collecting({})
        decreases (set p | p in before.blocks) - fwd.Keys, |pendingFixups|
      {
        ProcessOne();
      }
    }

    /** Takes the last address off the list and reads the position stored there. */
    method PopFixup() returns (a: Addr, pos: nat)
      requires Collecting({}) && pendingFixups != []
      modifies this`pendingFixups
      ensures Collecting({a}) && old(pendingFixups) == pendingFixups + [a]
      ensures CanDo(before, Now(Elems(pendingFixups) + {a}), a) && Holds(before, Now(Elems(pendingFixups) + {a}), a) == pos
      ensures Target(before.mem, before.blocks, pos) && MapsOk(before, Now(Elems(pendingFixups) + {a}))
    {
      hide LoopOk, Reachable, Holds, CanDo, MapsOk;
      PopPending(before, Now(Elems(pendingFixups) + {}), CurrentLists());
      a := pendingFixups[|pendingFixups| - 1];
      pendingFixups := pendingFixups[..|pendingFixups| - 1];
      pos := Read(a);
      LoopTarget(before, Now(Elems(pendingFixups) + {a}), CurrentLists(), a);
    }

    /** Stores the new position through an address. */
    method FixUp(a: Addr, newPos: nat, ghost pos: nat)
      requires Collecting({a}) && CanDo(before, Now(Elems(pendingFixups) + {a}), a)
      requires Holds(before, Now(Elems(pendingFixups) + {a}), a) == pos && pos in fwd && newPos == fwd[pos]
      requires a !in pendingFixups
      modifies storage, this`roots
      ensures Collecting({})
    {
      hide LoopOk, Reachable, MapsOk;
      ghost var g1, l := Now(Elems(pendingFixups) + {a}), CurrentLists();
      StoreInside(before, g1, l, a);
      hide Holds, CanDo;
      Store(a, newPos);
      ghost var g2 := Now(Elems(pendingFixups) + {});
      assert FixRel(before, g1, g2, a);
      FixLoop(before, g1, g2, l, a);
    }

    method ProcessOne()
      requires Collecting({}) && pendingFixups != []
      modifies storage, this`newContext, this`pointers, this`pendingFixups, this`weakFixups, this`roots
      modifies this`fwd, this`back, this`placed, this`destroyed
      ensures Collecting({})
      ensures if fwd == old(fwd) then |pendingFixups| < |old(pendingFixups)|
              else fwd.Keys > old(fwd.Keys) && fwd.Keys - old(fwd.Keys) <= (set p | p in before.blocks)
    {
      hide LoopOk, Reachable, Holds, CanDo, MapsOk, Collecting;
      var a, pos := PopFixup();
      ghost var g0 := Now(Elems(pendingFixups) + {a});
      var newPos := GcMove(pos, a);
      HoldsSame(before, g0, Now(Elems(pendingFixups) + {a}), a);
      FixUp(a, newPos, pos);
    }

    /** Weak addresses, in the order registered: the target's new position, or 0. */
    method SweepWeak()
      requires Collecting({}) && pendingFixups == []
      modifies storage
      ensures Valid(before) && Swept(before, Now({})) && ListsOk(before, Now({}), pointers, weakFixups, destroyed)
    {
      hide Valid, ListsOk, Inv, MapsOk, SpaceOk, OldOk, Reachable, Sweeping, SweptSlot;
      ghost var g0 := Now({});
      LoopDone(before, g0, CurrentLists());
      assert weakFixups[0..] == weakFixups;
      for i := 0 to |weakFixups|
        invariant Sweeping(before, Now({}), Elems(weakFixups[i..]))
        invariant Valid(before) && storage.Length == |before.mem| && NoDup(weakFixups)
      {
        var a := weakFixups[i];
        ghost var g := Now({});
        ghost var todo := Elems(weakFixups[i..]);
        assert a in todo by { assert a == weakFixups[i..][0]; }
        WeakTarget(before, g, todo, a);
        var target := storage[a.obj + a.index].Pos();
        var header := storage[target - 1];
        var v := if header.typ == MOVED then storage[target].at else 0;
        storage[a.obj + a.index] := storage[a.obj + a.index].At(v);
        SweepStep(before, g, Now({}), todo, a, v);
        RestOf(weakFixups, i);
      }
      assert Elems(weakFixups[|weakFixups|..]) == {};
      SameLists(before, g0, Now({}), CurrentLists());
    }

    /** Walks the allocations of `c` by their sizes and destroys the objects constructed there and not
        moved away; the emptied context is returned. */
    method RunDestructors(c: Context, ghost bs: seq<nat>) returns (c': Context)
      requires CanDestroy(storage[..], c, bs, pointers)
      modifies this`pointers, this`destroyed
      ensures c' == c.(next := c.start)
      ensures NoDup(pointers) && forall a :: a in pointers <==> a in old(pointers) && !DeadCell(storage[..], bs, a)
      ensures destroyed == old(destroyed) + ActiveOf(storage[..], bs)
    {
      ghost var m, p0, d0 := storage[..], pointers, destroyed;
      var pos := c.start;
      ghost var k := 0;
      while pos < c.next
        invariant 0 <= k <= |bs| && pos == if k < |bs| then bs[k] - 1 else c.next
        invariant Destroyed(m, bs, k, p0, pointers)
        invariant destroyed == d0 + ActiveOf(m, bs[..k])
        decreases c.next - pos
      {
        VisitBlock(m, c.start, c.next, bs, k);
        var a := storage[pos];
        DestroyStep(m, bs, k, p0, pointers);
        if a.typ != UNINITIALIZED && a.typ != MOVED {
          Destroy(pos + 1, a.size - 1);
        }
        pos := pos + a.size;
        k := k + 1;
      }
      if k < |bs| {
        VisitBlock(m, c.start, c.next, bs, k);
      }
      assert bs[..k] == bs;
      c' := c.(next := c.start);
    }

    /** With the roots registered, copying starts at the beginning of the other half. */
    method BeginCopying()
      requires Valid(View()) && before == View() && fwd == map[] && back == map[] && placed == [] && destroyed == []
      requires pendingFixups == RootsOf(pointers) && weakFixups == []
      modifies this`newContext
      ensures Collecting({}) && newContext.next >= 0
    {
      hide LoopOk, NoDup, Active;
      ValidHalves(before);
      hide Valid;
      newContext := OtherHalf(context);
      BeginLoop(before);
    }

    /** One collection, from a well-formed state to a well-formed state.  `f` is where objects went. */
    method GarbageCollect() returns (ghost f: map<nat, nat>)
      requires Idle()
      modifies this, storage
      ensures Idle() && Collected(old(View()), View(), f) && HeapStep(old(View()), Op.Collect, View())
      ensures UsePercentage() <= old(UsePercentage()) <= 100 && (old(roots) == map[] ==> UsePercentage() == 0)
      ensures NoDup(destroyed)
      ensures forall p :: p in destroyed <==> p in old(blocks) && Active(old(storage[..]), p)
    {
      hide Valid, LoopOk, Collected, NoDup, Active, HeapStep, Collecting;
      ghost var s := View();
      before, fwd, back, placed, destroyed := s, map[], map[], [], [];
      ValidHalves(s);
      RegisterRoots();
      RootsRegistered(s);
      if pendingFixups != [] {
        BeginCopying();
        ProcessFixups();
        f := FinishCollection();
      } else {
        f := DestroyAll();
      }
      CollectIsStep(s, View(), f);
      UseShrinks(s, View(), f);
    }

    /** Without roots nothing is kept: the half in use is emptied in place. */
    method DestroyAll() returns (ghost f: map<nat, nat>)
      requires Idle() && roots == map[] && destroyed == []
      modifies this`context, this`pointers, this`blocks, this`destroyed
      ensures Idle() && Collected(old(View()), View(), f)
      ensures NoDup(destroyed)
      ensures forall p :: p in destroyed <==> p in old(blocks) && Active(old(storage[..]), p)
    {
      hide Valid, Collected, NoDup, CanDestroy, DeadCell, Active, ActiveOf;
      ghost var s := View();
      NothingKept(s);
      EmptyCollected(s);
      context := RunDestructors(context, blocks);
      EmptySeq(pointers);
      assert destroyed == ActiveOf(s.mem, s.blocks);
      blocks := [];
      f := map[];
      ValidHalves(s);
      assert View() == EmptyState(s);
    }

    /** Weak pointers, the swap of contexts, and the destruction of what was not moved. */
    method FinishCollection() returns (ghost f: map<nat, nat>)
      requires Collecting({}) && pendingFixups == [] && before.roots != map[]
      requires blocks == before.blocks && newContext.next >= 0
      modifies this, storage
      ensures Idle() && Collected(before, View(), f) && before == old(before)
      ensures NoDup(destroyed)
      ensures forall p :: p in destroyed <==> p in before.blocks && Active(before.mem, p)
    {
      hide Valid, LoopOk, Swept, Collected, ListsOk, NoDup, CanDestroy, DeadCell, CopyPointer, Active, ActiveOf;
      ghost var s := before;
      SweepWeak();
      ghost var g := Now({});
      CopiesDone(s, g, CurrentLists());
      weakFixups := [];
      var emptied := RunDestructors(context, s.blocks);
      context := newContext;
      newContext := emptied;
      blocks := placed;
      f := fwd;
      FinalValid(s, g, pointers);
      FinalCollected(s, g, pointers);
      assert View() == FinalState(s, g, pointers);
    }

    // ---- What the program does between collections ----

    /** A new object in tracked pointer `r`, its slots initialised by the constructor, or failure when it does not fit. */
    method AllocateAndConstruct(r: nat, typ: nat, inits: seq<Init>) returns (ok: bool)
      requires Idle() && r !in roots && typ < MAX_TYPES && forall i | 0 <= i < |inits| :: Storable(View(), inits[i])
      modifies storage, this`context, this`roots, this`pointers, this`blocks
      ensures Idle() && ok == Room(old(View()), |inits|)
      ensures if ok then HeapStep(old(View()), Alloc(r, typ, inits), View()) else View() == old(View())
    {
      hide Valid, NoDup, Storable, Stored, Apply, WithBlock, BytesToSlots, Laid;
      ghost var s := View();
      ValidHalves(s);
      ValidLaid(s);
      AllocRequest(|inits|);
      var pos, c;
      ok, c, pos := Allocate(context, |inits| * SLOT_SIZE);
      if !ok {
        return;
      }
      AllocIs(s, Alloc(r, typ, inits));
      context := c;
      Complete(pos, typ, inits, s);
      roots := roots[r := pos];
      pointers := Push(pointers, Root(r));
      blocks := blocks + [pos];
    }

    /** Constructs the object allocated at `pos` and gives its header the type. */
    method Complete(pos: nat, typ: nat, inits: seq<Init>, ghost s: State)
      requires 0 < pos && pos + |inits| <= storage.Length == |s.mem| && s.roots == roots && s.pointers == pointers
      requires forall i | 0 <= i < |inits| :: inits[i].from.Some? ==> inits[i].from.value in roots
      requires forall k | 0 <= k < |s.mem| && k != pos - 1 :: storage[k] == s.mem[k]
      modifies storage, this`pointers
      ensures storage[..] == WithBlock(s.mem, pos - 1, typ, Payload(s, inits))
      ensures pointers == s.pointers + TrackedIn(Payload(s, inits), pos)
    {
      hide WithBlock, Stored, TrackedIn;
      ConstructAt(pos, inits, s);
      storage[pos - 1] := Header(1 + |inits|, typ);
      WithBlockIs(s.mem, storage[..], pos - 1, typ, Payload(s, inits));
    }

    /** The constructor: each slot in turn, tracked ones attaching themselves. */
    method ConstructAt(pos: nat, inits: seq<Init>, ghost s: State)
      requires pos + |inits| <= storage.Length && s.roots == roots
      requires forall i | 0 <= i < |inits| :: inits[i].from.Some? ==> inits[i].from.value in roots
      modifies storage, this`pointers
      ensures forall k | 0 <= k < storage.Length ::
        storage[k] == if pos <= k < pos + |inits| then Payload(s, inits)[k - pos] else old(storage[k])
      ensures pointers == old(pointers) + TrackedIn(Payload(s, inits), pos)
    {
      ghost var words := Payload(s, inits);
      for i := 0 to |inits|
        invariant forall k | 0 <= k < storage.Length ::
          storage[k] == if pos <= k < pos + i then words[k - pos] else old(storage[k])
        invariant pointers == old(pointers) + TrackedIn(words[..i], pos)
      {
        var init := inits[i];
        storage[pos + i] := if init.from.Some? then init.shape.At(roots[init.from.value]) else init.shape;
        assert words[..i + 1][..i] == words[..i] && storage[pos + i] == words[i];
        if storage[pos + i].IsTracked() {
          pointers := Push(pointers, Field(pos, i));
        }
      }
      assert words[..|inits|] == words;
    }

    /** An allocation whose constructor throws: the header stays, marked uninitialized. */
    method AllocateAndAbandon(n: nat) returns (ok: bool)
      requires Idle()
      modifies storage, this`context, this`blocks
      ensures Idle() && ok == Room(old(View()), n)
      ensures if ok then HeapStep(old(View()), Abandon(n), View()) else View() == old(View())
    {
      hide Valid, NoDup;
      ghost var s := View();
      ValidHalves(s);
      ValidLaid(s);
      AllocRequest(n);
      var pos, c;
      ok, c, pos := Allocate(context, n * SLOT_SIZE);
      if ok {
        AbandonValid(s, n);
        context := c;
        blocks := blocks + [pos];
      }
    }

    /** Copy construction or assignment of a tracked pointer. */
    method CopyPointerTo(dst: nat, src: nat)
      requires Idle()
      modifies this`roots, this`pointers
      ensures Idle() && HeapStep(old(View()), Copy(dst, src), View())
    {
      hide Valid;
      ValidLaid(View());
      CopyValid(View(), dst, src);
      if dst != src {
        if dst in roots {
          pointers := Erase(pointers, Root(dst));
        }
        if src in roots {
          roots := roots[dst := roots[src]];
          pointers := Push(pointers, Root(dst));
        } else {
          roots := roots - {dst};
        }
      }
    }

    method DropPointer(r: nat)
      requires Idle()
      modifies this`roots, this`pointers
      ensures Idle() && HeapStep(old(View()), Drop(r), View())
    {
      hide Valid;
      ValidLaid(View());
      DropValid(View(), r);
      if r in roots {
        pointers := Erase(pointers, Root(r));
      }
      roots := roots - {r};
    }

    /** A tracked pointer to what slot `i` of an object refers to; none when the slot is null. */
    method LoadField(dst: nat, src: nat, i: nat) returns (ok: bool)
      requires Idle() && Enabled(View(), Load(dst, src, i))
      modifies this`roots, this`pointers
      ensures Idle() && HeapStep(old(View()), Load(dst, src, i), View()) && ok == (dst in roots)
    {
      hide Valid, Target;
      ValidLaid(View());
      FieldAddress(View(), roots[src], i, src);
      LoadValid(View(), dst, src, i);
      var p := storage[roots[src] + i].Pos();
      ok := p != 0;
      if ok {
        roots := roots[dst := p];
        pointers := Push(pointers, Root(dst));
      }
    }

    /** Stores a plain word, or the position a tracked pointer holds, in slot `i` of an object. */
    method PutField(dst: nat, i: nat, shape: Slot, from: Option<nat>)
      requires Idle() && Enabled(View(), Put(dst, i, shape, from))
      modifies storage, this`pointers
      ensures Idle() && HeapStep(old(View()), Put(dst, i, shape, from), View())
    {
      hide Valid, Target;
      ghost var s := View();
      ValidLaid(s);
      FieldAddress(s, roots[dst], i, dst);
      PutValid(s, Put(dst, i, shape, from));
      var p := roots[dst];
      if storage[p + i].IsTracked() {
        pointers := Erase(pointers, Field(p, i));
      }
      storage[p + i] := if from.Some? then shape.At(roots[from.value]) else shape;
      if storage[p + i].IsTracked() {
        pointers := Push(pointers, Field(p, i));
      }
    }
  }

  /** The size in bytes a move asks for, in 32-bit arithmetic. */
  function MoveBytes(size: nat): nat
    requires size >= 1
  {
    ((size - 1) * SLOT_SIZE) % TWO_TO_THE_32
  }

  lemma MoveRequest(size: nat)
    requires 2 <= size
    ensures size <= MAX_SIZE ==> 0 < MoveBytes(size) < UINT32_MAX && BytesToSlots(MoveBytes(size)) == size - 1
  {
  }

  lemma AllocRequest(n: nat)
    ensures 0 < n * SLOT_SIZE < UINT32_MAX <==> 1 <= n && n + 1 <= MAX_SIZE
    ensures BytesToSlots(n * SLOT_SIZE) == n
  {
  }

  /** A collection gives space back, all of it when there are no roots. */
  lemma UseShrinks(s: State, s': State, f: map<nat, nat>)
    requires Valid(s) && Valid(s') && Collected(s, s', f)
    ensures HalvesOk(s) && HalvesOk(s')
    ensures Percent(s'.ctx) <= Percent(s.ctx) <= 100 && (s.roots == map[] ==> Percent(s'.ctx) == 0)
  {
    hide Valid, Collected, Percent;
    ValidHalves(s);
    ValidHalves(s');
    ValidLaid(s);
    KeptSpace(s, f.Keys);
    CollectedSpace(s, s', f);
    PercentMonotone(s'.ctx, s.ctx);
  }

  lemma CollectedSpace(s: State, s': State, f: map<nat, nat>)
    requires Collected(s, s', f)
    ensures s'.half == s.half && s'.ctx.next - s'.ctx.start == SpaceOf(s.mem, s.blocks, f.Keys)
    ensures s.roots == map[] ==> SpaceOf(s.mem, s.blocks, f.Keys) == 0
  {
    hide Reachable, Relocate, Injective, Head, InObject, Word;
    if s.roots == map[] {
      forall p ensures p !in f {
        NothingReachable(s, p);
      }
      assert f.Keys == {};
      SpaceNone(s.mem, s.blocks);
    }
  }

  lemma PercentMonotone(c: Context, c': Context)
    requires c.start <= c.next <= c.limit && c.start < c.limit && c'.start <= c'.next <= c'.limit && c'.start < c'.limit
    requires c.limit - c.start == c'.limit - c'.start && c.next - c.start <= c'.next - c'.start
    ensures Percent(c) <= Percent(c') <= 100 && (c.next == c.start ==> Percent(c) == 0)
  {
    QuotientMonotone((c.next - c.start) * 100, (c'.next - c'.start) * 100, c.limit - c.start);
    if c.next == c.start {
      QuotientAtMost(0, c.limit - c.start, 0);
    }
  }

  /** The percentage is rounded down. */
  lemma PercentExactly(c: Context, p: nat)
    requires c.start <= c.next <= c.limit && c.start < c.limit
    ensures var used, capacity := c.next - c.start, c.limit - c.start;
      Percent(c) == p <==> p * capacity <= used * 100 < (p + 1) * capacity
  {
    QuotientExactly((c.next - c.start) * 100, c.limit - c.start, p);
  }

  lemma QuotientExactly(a: nat, c: nat, q: nat)
    requires 0 < c
    ensures a / c == q <==> q * c <= a < (q + 1) * c
  {
    var d := a / c;
    QuotientBetween(a, c);
    if d < q {
      ProductGrows(d + 1, q, c);
    } else if q < d {
      ProductGrows(q + 1, d, c);
    }
  }

  lemma QuotientBetween(a: nat, c: nat)
    requires 0 < c
    ensures a / c * c <= a < (a / c + 1) * c
  {
    assert a == c * (a / c) + a % c;
  }

  lemma {:induction false} ProductGrows(x: nat, y: nat, c: nat)
    requires x <= y
    ensures x * c <= y * c
  {
    if x < y {
      ProductGrows(x, y - 1, c);
    }
  }

  lemma QuotientMonotone(a: nat, b: nat, c: nat)
    requires 0 < c && a <= b <= 100 * c
    ensures a / c <= b / c <= 100
  {
    var q := b / c;
    assert c * (q + 1) == c * q + c;
    QuotientAtMost(a, c, q);
    QuotientAtMost(b, c, 100);
  }

  lemma QuotientAtMost(a: nat, c: nat, q: nat)
    requires 0 < c && a < c * (q + 1)
    ensures a / c <= q
  {
    ProductMonotone(c, q + 1, a / c);
  }

  lemma ProductMonotone(c: nat, x: nat, y: nat)
    ensures x <= y ==> c * x <= c * y
  {
  }

  lemma KeptSpace(s: State, kept: set<nat>)
    requires Laid(s)
    ensures SpaceOf(s.mem, s.blocks, kept) <= s.ctx.next - s.ctx.start
  {
    hide Tiles, Apart;
    var all := (set p | p in s.blocks) + kept;
    SpaceMonotone(s.mem, s.blocks, kept, all);
    SpaceAll(s.mem, s.ctx.start, s.ctx.next, s.blocks, |s.blocks|, all);
    assert s.blocks[..|s.blocks|] == s.blocks;
  }

  lemma FieldAddress(s: State, p: nat, i: nat, r: nat)
    requires Valid(s) && r in s.roots && s.roots[r] == p && InObject(s.mem, p, i)
    ensures p + i < |s.mem| && Word(s.mem, p, i) == s.mem[p + i]
  {
    LaidAt(s, p);
  }

  /** The one request that is accepted when an object is made and cannot be repeated when it moves:
      32-bit arithmetic turns the size in bytes of the largest object into 0. */
  lemma LargestObjectCannotMove(bytes: nat)
    requires 0 < bytes < UINT32_MAX
    ensures var size := 1 + BytesToSlots(bytes);
      (0 < MoveBytes(size) < UINT32_MAX && BytesToSlots(MoveBytes(size)) == size - 1) <==> bytes <= 0xFFFF_FFF8
    ensures MoveBytes(1 + BytesToSlots(0xFFFF_FFFE)) == 0
  {
  }

  lemma AllocIs(s: State, op: Op)
    requires Valid(s) && op.Alloc? && Enabled(s, op)
    ensures Laid(s) && s.ctx.next + 1 + |op.inits| <= |s.mem| && Valid(Apply(s, op))
    ensures forall i | 0 <= i < |op.inits| :: op.inits[i].from.Some? ==> op.inits[i].from.value in s.roots
    ensures var words := Payload(s, op.inits);
      Apply(s, op) == s.(
        mem := WithBlock(s.mem, s.ctx.next, op.typ, words), ctx := s.ctx.(next := s.ctx.next + 1 + |words|),
        blocks := s.blocks + [s.ctx.next + 1], roots := s.roots[op.r := s.ctx.next + 1],
        pointers := Push(s.pointers + TrackedIn(words, s.ctx.next + 1), Root(op.r)))
  {
    hide Payload, TrackedIn, WithBlock;
    ValidHalves(s);
    AllocValid(s, op);
    assert forall i | 0 <= i < |op.inits| :: Storable(s, op.inits[i]);
  }

  lemma WithBlockIs(m: seq<Slot>, m': seq<Slot>, at: nat, typ: nat, payload: seq<Slot>)
    requires at + 1 + |payload| <= |m| == |m'| && m'[at] == Header(|payload| + 1, typ)
    requires forall k | 0 <= k < |m| && k != at :: m'[k] == if at < k <= at + |payload| then payload[k - at - 1] else m[k]
    ensures m' == WithBlock(m, at, typ, payload)
  {
  }
}
