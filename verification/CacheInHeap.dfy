/** The string cache's table as an object of the collected heap: what a collection does to it. */
module CacheInHeap {
  import opened HeapModel
  import opened Collection
  import opened ObjectGraph
  import C = StringCaches
  import V = ValueRepresentation

  /** The data words of the object at `p`. */
  ghost function Letters(m: seq<Slot>, p: nat): seq<V.Word> {
    seq(if SizeAt(m, p) == 0 then 0 else SizeAt(m, p) - 1, i requires 0 <= i => if Word(m, p, i).Data? then Word(m, p, i).word else 0)
  }

  /** The strings there are: the live objects of the string type, their payload read by `text`. */
  ghost function StringsIn(s: State, typ: nat, text: seq<V.Word> -> C.Name): C.Strings {
    map p | p in s.blocks && Head(s.mem, p).Header? && Head(s.mem, p).typ == typ :: text(Letters(s.mem, p))
  }

  /** The first `n` entries of the table at `p`: a word of data read by `hash`, and a weak pointer. */
  ghost predicate HasEntries(m: seq<Slot>, p: nat, n: nat) {
    forall k {:trigger Word(m, p, 2 * k + 1)} | 0 <= k < n ::
      InObject(m, p, 2 * k) && InObject(m, p, 2 * k + 1) && Word(m, p, 2 * k).Data? && Word(m, p, 2 * k + 1).Weak?
  }

  ghost function EntriesIn(m: seq<Slot>, p: nat, n: nat, hash: V.Word -> bv32): (es: seq<C.Entry>)
    requires HasEntries(m, p, n)
    ensures |es| == n
  {
    seq(n, k requires 0 <= k < n =>
      var e := Word(m, p, 2 * k + 1);
      C.Entry(hash(Word(m, p, 2 * k).word), e.ref))
  }

  /** Collected strings keep their text at their new place. */
  lemma StringsMoved(s: State, s': State, f: map<nat, nat>, typ: nat, text: seq<V.Word> -> C.Name)
    requires Valid(s) && Collected(s, s', f)
    ensures C.Moved(StringsIn(s, typ, text), StringsIn(s', typ, text), f)
  {
    forall p | p in StringsIn(s, typ, text) && p in f
      ensures f[p] != 0 && f[p] in s'.blocks && Head(s'.mem, f[p]) == Head(s.mem, p) && Letters(s'.mem, f[p]) == Letters(s.mem, p)
    {
      PositiveBlock(s, s', f, p);
      assert f[p] in f.Values;
      SameLetters(s, s', f, p);
    }
  }

  lemma SameLetters(s: State, s': State, f: map<nat, nat>, p: nat)
    requires Valid(s) && Collected(s, s', f) && p in f
    ensures Letters(s'.mem, f[p]) == Letters(s.mem, p)
  {
    hide Valid, Collected;
    HeadMoved(s, s', f, p);
    assert |Letters(s'.mem, f[p])| == |Letters(s.mem, p)|;
    forall i: nat | i < |Letters(s.mem, p)| ensures Letters(s'.mem, f[p])[i] == Letters(s.mem, p)[i] {
      WordMoved(s, s', f, p, i);
    }
  }

  /** The table's weak pointers follow the strings that were kept, and the others are null. */
  lemma EntriesMoved(s: State, s': State, f: map<nat, nat>, p: nat, n: nat, hash: V.Word -> bv32)
    requires Valid(s) && Collected(s, s', f) && p in f && HasEntries(s.mem, p, n)
    ensures HasEntries(s'.mem, f[p], n)
    ensures EntriesIn(s'.mem, f[p], n, hash) == C.AllFixedUp(EntriesIn(s.mem, p, n, hash), f)
  {
    hide Valid, Collected;
    forall k: nat | k < n
      ensures InObject(s'.mem, f[p], 2 * k) && InObject(s'.mem, f[p], 2 * k + 1)
      ensures Word(s'.mem, f[p], 2 * k) == Word(s.mem, p, 2 * k) && Word(s.mem, p, 2 * k).Data?
      ensures Word(s'.mem, f[p], 2 * k + 1) == Relocate(Word(s.mem, p, 2 * k + 1), f) && Word(s.mem, p, 2 * k + 1).Weak?
    {
      assert Word(s.mem, p, 2 * k + 1).Weak?;
      WordMoved(s, s', f, p, 2 * k);
      WordMoved(s, s', f, p, 2 * k + 1);
    }
    forall k | 0 <= k < n
      ensures EntriesIn(s'.mem, f[p], n, hash)[k] == C.FixedUp(EntriesIn(s.mem, p, n, hash)[k], f)
    {
      assert Word(s.mem, p, 2 * k + 1).Weak?;
    }
  }

  /**
   * So a collection does to a valid cache in the heap what the cache model says: it keeps the names whose
   * strings are strongly reachable, in their order, and the hashes stay right.
   */
  lemma CollectionKeepsCache(s: State, s': State, f: map<nat, nat>, p: nat, n: nat,
      typ: nat, text: seq<V.Word> -> C.Name, hash: V.Word -> bv32)
    requires Valid(s) && Collected(s, s', f) && p in f && HasEntries(s.mem, p, n)
    requires var es := EntriesIn(s.mem, p, n, hash); var strings := StringsIn(s, typ, text);
      C.EntriesOk(es, strings) && C.Distinct(C.LiveNames(es, strings))
    ensures HasEntries(s'.mem, f[p], n)
    ensures var es := EntriesIn(s.mem, p, n, hash); var strings := StringsIn(s, typ, text);
      var es' := EntriesIn(s'.mem, f[p], n, hash); var strings' := StringsIn(s', typ, text);
      C.EntriesOk(es', strings') && C.LiveNames(es', strings') == C.Keep(C.LiveNames(es, strings), C.MovedNames(es, strings, f))
  {
    var es, strings := EntriesIn(s.mem, p, n, hash), StringsIn(s, typ, text);
    StringsMoved(s, s', f, typ, text);
    EntriesMoved(s, s', f, p, n, hash);
    C.MovedNamesExactly(es, strings, f);
    C.FixupKeeps(es, strings, StringsIn(s', typ, text), f, C.MovedNames(es, strings, f));
  }
}
