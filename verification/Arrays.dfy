/** Array objects: index properties with holes, the length that follows them, and the in-place moves. */
module Arrays {
  import opened Wrappers
  import opened Integers

  /** 32-bit arithmetic. */
  function Wrap(n: nat): nat {
    n % TWO_TO_THE_32
  }

  lemma WrapShrinks(n: nat)
    ensures Wrap(n) < TWO_TO_THE_32
    ensures if n < TWO_TO_THE_32 then Wrap(n) == n else Wrap(n) < n
  {}

  function Lookup<V>(props: map<nat, V>, i: nat): Option<V> {
    if i in props then Some(props[i]) else None
  }

  /** The list of slots below `length`; a hole is None. */
  function SlotsOf<V>(props: map<nat, V>, length: nat): (s: seq<Option<V>>)
    ensures |s| == length && forall i :: 0 <= i < length ==> s[i] == Lookup(props, i)
  {
    seq(length, i requires 0 <= i < length => Lookup(props, i))
  }

  function Filled<V>(items: seq<V>): (s: seq<Option<V>>)
    ensures |s| == |items| && forall i :: 0 <= i < |items| ==> s[i] == Some(items[i])
  {
    seq(|items|, i requires 0 <= i < |items| => Some(items[i]))
  }

  /** What removing `del` slots at `start` and inserting `items` there leaves. */
  function Spliced<V>(s: seq<Option<V>>, start: nat, del: nat, items: seq<V>): (r: seq<Option<V>>)
    requires start + del <= |s|
    ensures |r| == |s| - del + |items|
  {
    s[..start] + Filled(items) + s[start + del..]
  }

  /** What belongs at index `i` after `del` slots at `start` have given way to `items`. */
  function SplicedAt<V>(before: map<nat, V>, start: nat, del: nat, items: seq<V>, i: nat): Option<V> {
    if i < start then Lookup(before, i)
    else if i < start + |items| then Some(items[i - start])
    else Lookup(before, i - |items| + del)
  }

  /** Index by index that is the spliced list, if its length fits in 32 bits. */
  lemma SplicedSlots<V>(before: map<nat, V>, l: nat, after: map<nat, V>, start: nat, del: nat, items: seq<V>)
    requires start + del <= l && l < TWO_TO_THE_32 && |items| < TWO_TO_THE_32
    requires l - del + |items| < TWO_TO_THE_32 ==>
      forall i: nat :: i < l - del + |items| ==> Lookup(after, i) == SplicedAt(before, start, del, items, i)
    ensures l - del + |items| < TWO_TO_THE_32 <==>
      SlotsOf(after, Wrap(l - del + |items|)) == Spliced(SlotsOf(before, l), start, del, items)
  {
    var n := l - del + |items|;
    if n < TWO_TO_THE_32 {
      assert SlotsOf(after, n) == Spliced(SlotsOf(before, l), start, del, items);
    }
  }

  lemma UnshiftedSlots<V>(before: map<nat, V>, l: nat, moved: map<nat, V>, after: map<nat, V>, items: seq<V>)
    requires l < TWO_TO_THE_32 && |items| < TWO_TO_THE_32
    requires l + |items| < TWO_TO_THE_32 ==>
      forall i: nat :: |items| <= i < l + |items| ==> Lookup(moved, i) == Lookup(before, i - |items|)
    requires l + |items| < TWO_TO_THE_32 ==>
      forall i: nat :: i < l + |items| ==>
        Lookup(after, i) == if 0 <= i < 0 + |items| then Some(items[i - 0]) else Lookup(moved, i)
    ensures l + |items| < TWO_TO_THE_32 <==> SlotsOf(after, Wrap(l + |items|)) == Filled(items) + SlotsOf(before, l)
  {
    if l + |items| < TWO_TO_THE_32 {
      assert SlotsOf(after, l + |items|) == Filled(items) + SlotsOf(before, l);
    }
  }

  /** calc_start_index: a negative start counts from the end, and the result is kept within the array. */
  function StartIndex(s: int, l: nat): (r: nat)
    ensures r <= l
  {
    if s < 0 then (if l + s < 0 then 0 else l + s) else if s < l then s else l
  }

  function DeleteCount(count: Option<int>, start: nat, l: nat): (r: nat)
    requires start <= l
    ensures start + r <= l
  {
    var c: int := if count.None? then l else if count.value < 0 then 0 else count.value;
    if c < l - start then c else l - start
  }

  lemma CutExactly(s: int, count: Option<int>, l: nat)
    ensures var at := StartIndex(s, l);
      && at == (if s + l < 0 then 0 else if s < 0 then s + l else if s <= l then s else l)
      && DeleteCount(count, at, l) ==
        if count.None? || count.value > l - at then l - at else if count.value < 0 then 0 else count.value
  {}

  /** No index property is at or above the length. The name 4294967295 is no index. */
  ghost predicate Covers<V>(props: map<nat, V>, length: nat) {
    forall i: nat :: i >= length && i != INVALID_INDEX ==> Lookup(props, i) == None
  }

  /** What an array function is applied to: an array object, whose length follows its index properties, or another. */
  class Receiver<V> {
    const isArray: bool
    var props: map<nat, V>
    var length: nat

    ghost predicate Valid()
      reads this
    {
      && length < TWO_TO_THE_32
      && (forall i :: i in props ==> i < TWO_TO_THE_32)
      && (isArray ==> Tidy())
    }

    /** The length is above every index property. */
    ghost predicate Tidy()
      reads this
    {
      Covers(props, length)
    }

    ghost function Slots(): seq<Option<V>>
      reads this
    {
      SlotsOf(props, length)
    }

    /** The property named `i`, undefined when there is none. */
    function Get(i: nat): Option<V>
      reads this
    {
      Lookup(props, i)
    }

    constructor (isArray: bool, length: nat)
      requires length < TWO_TO_THE_32
      ensures Valid() && this.isArray == isArray && props == map[] && this.length == length
    {
      this.isArray := isArray;
      props := map[];
      this.length := length;
    }

    method Put(i: nat, v: V)
      requires Valid() && i < TWO_TO_THE_32
      modifies this
      ensures Valid() && props == old(props)[i := v]
      ensures forall j: nat :: Lookup(props, j) == if j == i then Some(v) else Lookup(old(props), j)
      ensures length == if isArray && i != INVALID_INDEX && i >= old(length) then i + 1 else old(length)
    {
      if isArray && i != INVALID_INDEX && i >= length {
        length := i + 1;
      }
      props := props[i := v];
      assert forall j: nat :: j != i ==> Lookup(props, j) == Lookup(old(props), j);
    }

    method Delete(i: nat)
      requires Valid()
      modifies this
      ensures Valid() && props == old(props) - {i} && length == old(length)
      ensures forall j: nat :: Lookup(props, j) == if j == i then None else Lookup(old(props), j)
    {
      props := props - {i};
      assert forall j: nat :: j != i ==> Lookup(props, j) == Lookup(old(props), j);
    }

    /** Assigning the length of an array deletes what it no longer covers. */
    method PutLength(n: nat)
      requires Valid() && n < TWO_TO_THE_32
      modifies this
      ensures Valid() && length == n
      ensures forall i: nat :: Lookup(props, i) == if !isArray || i < n || i == INVALID_INDEX then Lookup(old(props), i) else None
    {
      var oldLength := length;
      length := n;
      if isArray {
        var l := n;
        while l < oldLength
          invariant n <= l && (l <= n || l <= oldLength) && length == n
          invariant forall i :: i in props ==> i in old(props)
          invariant forall i: nat :: Lookup(props, i) == if n <= i < l then None else Lookup(old(props), i)
        {
          props := props - {l};
          l := l + 1;
        }
      }
    }

    /** Copies the property `from` to `to`, hole or not. */
    method Move(from: nat, to: nat)
      requires Valid() && to < TWO_TO_THE_32
      modifies this
      ensures Valid() && (forall i: nat :: Lookup(props, i) == if i == to then Lookup(old(props), from) else Lookup(old(props), i))
      ensures old(length) <= length
      ensures length == old(length) || (length == to + 1 && to != INVALID_INDEX)
    {
      if from in props {
        Put(to, props[from]);
      } else {
        Delete(to);
      }
    }

    /**
     * array_shift: the first slot is returned and the others move down. On a receiver that is no array the last
     * slot is left behind, above the new length, unless it was a hole.
     */
    method Shift() returns (res: Option<V>)
      requires Valid()
      modifies this
      ensures Valid()
      ensures old(length) == 0 ==> res == None && Slots() == old(Slots()) && (old(Tidy()) ==> Tidy())
      ensures old(length) > 0 ==> res == old(Slots())[0] && Slots() == old(Slots())[1..]
      ensures old(length) > 0 && old(Tidy()) ==> (Tidy() <==> isArray || old(Slots())[old(length) - 1] == None)
    {
      var l := length;
      if l == 0 {
        PutLength(0);
        return None;
      }
      res := Get(0);
      for k := 1 to l
        invariant Valid() && length == l
        invariant forall i :: 0 <= i < k - 1 ==> Lookup(props, i) == Lookup(old(props), i + 1)
        invariant forall i :: k - 1 <= i ==> Lookup(props, i) == Lookup(old(props), i)
      {
        ghost var next := Lookup(old(props), k);
        assert Lookup(props, k) == next;
        Move(k, k - 1);
      }
      PutLength(l - 1);
      assert forall i :: 0 <= i < l - 1 ==> Slots()[i] == Lookup(props, i);
      assert Slots() == old(Slots())[1..];
      assert !isArray ==> Lookup(props, l - 1) == old(Slots())[l - 1];
    }

    /** Puts the items at `at` and behind it. */
    method PutItems(at: nat, items: seq<V>)
      requires Valid()
      modifies this
      ensures Valid()
      ensures at + |items| < TWO_TO_THE_32 ==>
        && length == (if isArray && |items| > 0 && at + |items| > old(length) then at + |items| else old(length))
        && forall i: nat :: Lookup(props, i) == if at <= i < at + |items| then Some(items[i - at]) else Lookup(old(props), i)
    {
      ghost var fits := at + |items| < TWO_TO_THE_32;
      for j := 0 to |items|
        invariant Valid()
        invariant fits ==> length == if isArray && j > 0 && at + j > old(length) then at + j else old(length)
        invariant fits ==> forall i: nat :: Lookup(props, i) == if at <= i < at + j then Some(items[i - at]) else Lookup(old(props), i)
      {
        Put(Wrap(at + j), items[j]);
      }
    }

    /** Puts the items and then assigns the length. */
    method PutItemsAndLength(at: nat, items: seq<V>, n: nat)
      requires Valid() && at + |items| <= n
      modifies this
      ensures Valid() && length == Wrap(n)
      ensures n < TWO_TO_THE_32 ==>
        && (forall i: nat :: i < n ==>
              Lookup(props, i) == if at <= i < at + |items| then Some(items[i - at]) else Lookup(old(props), i))
        && (Covers(old(props), n) ==> Covers(props, n))
    {
      WrapShrinks(n);
      hide Lookup, Wrap;
      PutItems(at, items);
      PutLength(Wrap(n));
    }

    /** Moves every slot up by `n`, from the end on. */
    method MoveAll(n: nat)
      requires Valid()
      modifies this
      ensures Valid()
      ensures old(length) + n < TWO_TO_THE_32 ==>
        && length <= old(length) + n
        && (forall i: nat :: n <= i < old(length) + n ==> Lookup(props, i) == Lookup(old(props), i - n))
        && (old(Tidy()) ==> Covers(props, old(length) + n))
    {
      hide Lookup;
      var l := length;
      ghost var fits := l + n < TWO_TO_THE_32;
      var k := l;
      while k > 0
        invariant 0 <= k <= l && Valid()
        invariant fits ==> length <= l + n
        invariant fits ==> forall i: nat :: k + n <= i < l + n ==> Lookup(props, i) == Lookup(old(props), i - n)
        invariant fits ==> forall i: nat :: i < k + n || l + n <= i ==> Lookup(props, i) == Lookup(old(props), i)
      {
        assert fits ==> Wrap(k + n - 1) == k + n - 1;
        Move(k - 1, Wrap(k + n - 1));
        k := k - 1;
      }
    }

    /** array_unshift: exactly when the new length fits in 32 bits does it put the items in front. */
    method Unshift(args: seq<V>) returns (newLength: nat)
      requires Valid() && |args| < TWO_TO_THE_32
      modifies this
      ensures Valid() && length == newLength == Wrap(old(length) + |args|)
      ensures old(length) + |args| < TWO_TO_THE_32 <==> Slots() == Filled(args) + old(Slots())
      ensures old(length) + |args| < TWO_TO_THE_32 && old(Tidy()) ==> Tidy()
    {
      var l := length;
      var n := |args|;
      assert l < TWO_TO_THE_32;
      hide Lookup, Filled, SlotsOf, Wrap, Covers, Valid;
      MoveAll(n);
      ghost var moved := props;
      newLength := Wrap(l + n);
      PutItemsAndLength(0, args, l + n);
      WrapShrinks(l + n);
      UnshiftedSlots(old(props), l, moved, props, args);
    }

    /** Copies `del` slots from `at` on into an empty array, holes as holes. */
    method CopyOut(at: nat, del: nat, res: Receiver<V>)
      requires Valid() && res != this && res.Valid() && res.isArray && res.props == map[] && res.length == 0
      requires at + del <= length
      modifies res
      ensures res.Valid() && res.Slots() == Slots()[at..at + del]
    {
      for k := 0 to del
        invariant res.Valid() && res.length <= k
        invariant forall i: nat :: Lookup(res.props, i) == if i < k then Lookup(props, at + i) else None
      {
        if at + k in props {
          res.Put(k, props[at + k]);
        }
      }
      res.PutLength(del);
      assert res.Slots() == Slots()[at..at + del] by {
        forall i: nat | i < del ensures res.Slots()[i] == Slots()[at..at + del][i] {
          assert Lookup(res.props, i) == Lookup(props, at + i);
        }
      }
    }

    /** Closes the gap when fewer items come than go, from the front on, and deletes what is left over at the end. */
    method MoveDown(at: nat, del: nat, n: nat)
      requires Valid() && at + del <= length && n < del
      modifies this
      ensures Valid() && length == old(length)
      ensures forall i: nat :: i < at ==> Lookup(props, i) == Lookup(old(props), i)
      ensures forall i: nat :: at + n <= i < length - del + n ==> Lookup(props, i) == Lookup(old(props), i - n + del)
      ensures forall i: nat :: length - del + n <= i < length ==> Lookup(props, i) == None
      ensures forall i: nat :: length <= i ==> Lookup(props, i) == Lookup(old(props), i)
    {
      hide Lookup;
      var l := length;
      for k := at to l - del
        invariant Valid() && length == l
        invariant forall i: nat :: i < at + n || k + n <= i ==> Lookup(props, i) == Lookup(old(props), i)
        invariant forall i: nat :: at + n <= i < k + n ==> Lookup(props, i) == Lookup(old(props), i - n + del)
      {
        assert Lookup(props, k + del) == Lookup(old(props), k + del);
        Move(k + del, k + n);
      }
      var k := l;
      while k > l - del + n
        invariant l - del + n <= k <= l && Valid() && length == l
        invariant forall i: nat :: i < at || l <= i ==> Lookup(props, i) == Lookup(old(props), i)
        invariant forall i: nat :: at + n <= i < l - del + n ==> Lookup(props, i) == Lookup(old(props), i - n + del)
        invariant forall i: nat :: k <= i < l ==> Lookup(props, i) == None
      {
        k := k - 1;
        Delete(k);
      }
    }

    /** Makes room when more items come than go, from the end on. */
    method MoveUp(at: nat, del: nat, n: nat)
      requires Valid() && at + del <= length && del < n
      modifies this
      ensures Valid()
      ensures old(length) - del + n < TWO_TO_THE_32 ==>
        && length <= old(length) - del + n
        && (forall i: nat :: i < at ==> Lookup(props, i) == Lookup(old(props), i))
        && (forall i: nat :: at + n <= i < old(length) - del + n ==> Lookup(props, i) == Lookup(old(props), i - n + del))
        && forall i: nat :: old(length) - del + n <= i ==> Lookup(props, i) == Lookup(old(props), i)
    {
      hide Lookup;
      var l := length;
      var k := l - del;
      ghost var fits := l - del + n < TWO_TO_THE_32;
      while k > at
        invariant at <= k <= l - del && Valid() && l <= length
        invariant fits ==> length <= l - del + n
        invariant fits ==> forall i: nat :: i < k + n || l - del + n <= i ==> Lookup(props, i) == Lookup(old(props), i)
        invariant fits ==> forall i: nat :: k + n <= i < l - del + n ==> Lookup(props, i) == Lookup(old(props), i - n + del)
      {
        k := k - 1;
        assert fits ==> Lookup(props, k + del) == Lookup(old(props), k + del);
        assert fits ==> Wrap(k + n) == k + n;
        Move(k + del, Wrap(k + n));
      }
    }

    /**
     * array_splice: the removed slots, holes included, become the result; exactly when the new length
     * fits in 32 bits does the array become the spliced list. A negative start counts from the end, and both
     * ends of the cut are kept within the array; a missing count takes everything behind the start.
     */
    method Splice(start: Option<int>, count: Option<int>, items: seq<V>) returns (res: Receiver<V>)
      requires Valid() && |items| < TWO_TO_THE_32
      requires start.None? ==> count.None?
      requires count.None? ==> items == []
      modifies this
      ensures Valid() && fresh(res) && res.Valid()
      ensures start.None? ==> res.Slots() == [] && Slots() == old(Slots())
      ensures start.Some? ==> (
        var s, l := start.value, old(length);
        var at := if s + l < 0 then 0 else if s < 0 then s + l else if s <= l then s else l;
        var del := if count.None? || count.value > l - at then l - at else if count.value < 0 then 0 else count.value;
        && res.Slots() == old(Slots())[at..at + del]
        && length == Wrap(old(length) - del + |items|)
        && (old(length) - del + |items| < TWO_TO_THE_32 <==> Slots() == Spliced(old(Slots()), at, del, items))
        && (old(length) - del + |items| < TWO_TO_THE_32 && old(Tidy()) ==> Tidy()))
    {
      if start.None? {
        res := new Receiver(true, 0);
        return;
      }
      var l := length;
      var at := StartIndex(start.value, l);
      var del := DeleteCount(count, at, l);
      CutExactly(start.value, count, l);
      hide StartIndex, DeleteCount, Lookup, Spliced, SlotsOf, Wrap, Covers, Valid, Slots, Tidy;
      res := Cut(at, del, items);
    }

    /** Takes `del` slots at `at` out into a new array and puts the items there. */
    method Cut(at: nat, del: nat, items: seq<V>) returns (res: Receiver<V>)
      requires Valid() && at + del <= length && |items| < TWO_TO_THE_32
      modifies this
      ensures Valid() && fresh(res) && res.Valid() && res.Slots() == old(Slots())[at..at + del]
      ensures length == Wrap(old(length) - del + |items|)
      ensures old(length) - del + |items| < TWO_TO_THE_32 <==> Slots() == Spliced(old(Slots()), at, del, items)
      ensures old(length) - del + |items| < TWO_TO_THE_32 && old(Tidy()) ==> Tidy()
    {
      res := new Receiver(true, 0);
      CopyOut(at, del, res);
      hide Lookup, Spliced, SlotsOf, Wrap, Covers, Valid;
      Replace(at, del, items);
    }

    /** Moves what stands behind the `del` slots at `at` to where `n` items will leave it. */
    method MoveTail(at: nat, del: nat, n: nat)
      requires Valid() && at + del <= length
      modifies this
      ensures Valid()
      ensures old(length) - del + n < TWO_TO_THE_32 ==>
        && (forall i: nat :: i < at ==> Lookup(props, i) == Lookup(old(props), i))
        && (forall i: nat :: at + n <= i < old(length) - del + n ==> Lookup(props, i) == Lookup(old(props), i - n + del))
        && (old(Tidy()) ==> Covers(props, old(length) - del + n))
    {
      hide Lookup;
      if n < del {
        MoveDown(at, del, n);
      } else if n > del {
        MoveUp(at, del, n);
      }
    }

    /** Moves the tail, puts the items and assigns the length. */
    method MoveAndPut(at: nat, del: nat, items: seq<V>)
      requires Valid() && at + del <= length && |items| < TWO_TO_THE_32
      modifies this
      ensures Valid() && length == Wrap(old(length) - del + |items|)
      ensures old(length) - del + |items| < TWO_TO_THE_32 ==>
        && (forall i: nat :: i < length ==> Lookup(props, i) == SplicedAt(old(props), at, del, items, i))
        && (old(Tidy()) ==> Tidy())
    {
      var n := length - del + |items|;
      WrapShrinks(n);
      hide Lookup, Wrap, Covers, Valid;
      MoveTail(at, del, |items|);
      PutItemsAndLength(at, items, n);
    }

    /** Puts the items where `del` slots were. */
    method Replace(at: nat, del: nat, items: seq<V>)
      requires Valid() && at + del <= length && |items| < TWO_TO_THE_32
      modifies this
      ensures Valid() && length == Wrap(old(length) - del + |items|)
      ensures old(length) - del + |items| < TWO_TO_THE_32 <==> Slots() == Spliced(old(Slots()), at, del, items)
      ensures old(length) - del + |items| < TWO_TO_THE_32 && old(Tidy()) ==> Tidy()
    {
      var l := length;
      WrapShrinks(l - del + |items|);
      assert l < TWO_TO_THE_32;
      hide Lookup, Spliced, SlotsOf, SplicedAt, Wrap, Covers, Valid;
      MoveAndPut(at, del, items);
      SplicedSlots(old(props), l, props, at, del, items);
    }
  }
}
