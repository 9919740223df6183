/** The growable vector that lives in the garbage-collected heap. */
module GcVectors {
  import opened Integers

  // What a table takes besides its elements, and the smallest element there is: a position.
  const TABLE_BYTES: nat := 16
  const MIN_ELEMENT: nat := 4

  /** The request that a table of this capacity makes of the heap, when `free` slots are free, is granted. */
  predicate Granted(capacity: nat, elementSize: nat, free: nat) {
    var bytes := TABLE_BYTES + capacity * elementSize;
    bytes < TWO_TO_THE_32 - 1 && 1 + (bytes + 7) / 8 <= free
  }

  /** No heap holds a table whose doubled capacity would not fit 32 bits. */
  lemma GrantedIsSmall(capacity: nat, elementSize: nat, free: nat)
    requires Granted(capacity, elementSize, free) && elementSize >= MIN_ELEMENT
    ensures capacity < TWO_TO_THE_30
  {
    assert capacity * elementSize == capacity * MIN_ELEMENT + capacity * (elementSize - MIN_ELEMENT);
  }

  /** The capacity doubled until it is enough. */
  function Doubled(capacity: nat, size: nat): (c: nat)
    requires 0 < capacity
    ensures c >= size && c >= capacity
    ensures capacity < size <= TWO_TO_THE_31 ==> c < 2 * size
    decreases size - capacity
  {
    if capacity >= size then capacity else Doubled(2 * capacity, size)
  }

  /** The capacity resize asks for. */
  function Wanted(capacity: nat, size: nat): (c: nat)
    requires 0 < capacity
    ensures c >= size
  {
    if size > TWO_TO_THE_31 && size > capacity then size else Doubled(capacity, size)
  }

  lemma Dropped<T>(was: seq<T>, now: seq<T>, n: nat, index: nat)
    requires index <= n < |was| == |now|
    requires forall k | 0 <= k < index :: now[k] == was[k]
    requires forall k | index <= k < n :: now[k] == was[k + 1]
    ensures now[..n] == was[..n + 1][..index] + was[..n + 1][index + 1..]
  {}

  class GcVector<T(0)> {
    const elementSize: nat
    var table: array<T>
    var length: nat

    ghost predicate Valid()
      reads this
    {
      elementSize >= MIN_ELEMENT && 1 <= table.Length < TWO_TO_THE_30 && length <= table.Length
    }

    ghost function Contents(): seq<T>
      requires Valid()
      reads this, table
    {
      table[..length]
    }

    constructor (capacity: nat, elementSize: nat, free: nat)
      requires 1 <= capacity && elementSize >= MIN_ELEMENT && Granted(capacity, elementSize, free)
      ensures Valid() && fresh(table) && table.Length == capacity && Contents() == [] && this.elementSize == elementSize
    {
      GrantedIsSmall(capacity, elementSize, free);
      this.elementSize := elementSize;
      table := new T[capacity];
      length := 0;
    }

    /** A new table with the same contents and more room, if the heap grants it. */
    method Grow(capacity: nat, free: nat) returns (ok: bool)
      requires Valid() && length <= capacity && 1 <= capacity
      modifies this`table
      ensures Valid() && Contents() == old(Contents()) && ok == Granted(capacity, elementSize, free)
      ensures if ok then fresh(table) && table.Length == capacity else table == old(table)
    {
      ok := Granted(capacity, elementSize, free);
      if !ok {
        return;
      }
      GrantedIsSmall(capacity, elementSize, free);
      var t := new T[capacity];
      for i := 0 to length
        invariant table == old(table) && length == old(length) && table[..] == old(table[..])
        invariant t != table && t[..i] == table[..i]
      {
        t[i] := table[i];
      }
      table := t;
    }

    /** A full table is replaced by one of twice the capacity, a number of 32 bits. */
    method PushBack(e: T, free: nat) returns (ok: bool)
      requires Valid()
      modifies this, table
      ensures Valid() && 2 * old(table.Length) < TWO_TO_THE_32
      ensures ok == (old(length < table.Length) || Granted(2 * old(table.Length), elementSize, free))
      ensures Contents() == if ok then old(Contents()) + [e] else old(Contents())
      ensures if ok && old(length == table.Length) then fresh(table) && table.Length == 2 * old(table.Length) else table == old(table)
    {
      ok := true;
      if length == table.Length {
        ok := Grow(2 * table.Length, free);
      }
      if ok {
        table[length] := e;
        length := length + 1;
      }
    }

    method PopBack()
      requires Valid() && length > 0
      modifies this
      ensures Valid() && table == old(table) && Contents() == old(Contents())[..old(length) - 1]
    {
      length := length - 1;
    }

    /** Moves what is behind `index` down by one. */
    method Erase(index: nat)
      requires Valid() && index < length
      modifies this, table
      ensures Valid() && table == old(table)
      ensures Contents() == old(Contents())[..index] + old(Contents())[index + 1..]
    {
      ghost var was := table[..];
      var i := index;
      while i < length - 1
        invariant index <= i <= length - 1
        invariant length == old(length) && table == old(table)
        invariant forall k :: 0 <= k < length && !(index <= k < i) ==> table[k] == was[k]
        invariant forall k :: index <= k < i ==> table[k] == was[k + 1]
      {
        table[i] := table[i + 1];
        i := i + 1;
      }
      length := length - 1;
      Dropped(was, table[..], length, index);
    }

    /** Cuts the contents, or fills them up with default-constructed elements; the doubling stays in 32 bits. */
    method Resize(size: nat, blank: T, free: nat) returns (ok: bool)
      requires Valid() && size < TWO_TO_THE_32
      modifies this, table
      ensures Valid() && (fresh(table) || table == old(table))
      ensures ok == (size <= old(table.Length) || Granted(Wanted(old(table.Length), size), elementSize, free))
      ensures Contents() == if !ok then old(Contents()) else if size <= old(length) then old(Contents())[..size]
                            else old(Contents()) + seq(size - old(length), _ => blank)
    {
      ok := true;
      if size > table.Length {
        ok := Enlarge(size, free);
      }
      if ok {
        Fill(size, blank);
      }
    }

    method Enlarge(size: nat, free: nat) returns (ok: bool)
      requires Valid() && table.Length < size < TWO_TO_THE_32
      modifies this`table
      ensures Valid() && Contents() == old(Contents()) && ok == Granted(Wanted(old(table.Length), size), elementSize, free)
      ensures if ok then fresh(table) && table.Length >= size else table == old(table)
    {
      var capacity := if size > TWO_TO_THE_31 then size else table.Length;
      while capacity < size
        invariant 1 <= capacity < TWO_TO_THE_32 && length <= capacity
        invariant if size > TWO_TO_THE_31 then capacity == size else Doubled(capacity, size) == Doubled(table.Length, size)
        decreases size - capacity
      {
        capacity := capacity * 2;
      }
      ok := Grow(capacity, free);
    }

    method Fill(size: nat, blank: T)
      requires Valid() && size <= table.Length
      modifies this`length, table
      ensures Valid()
      ensures Contents() == if size <= old(length) then old(Contents())[..size] else old(Contents()) + seq(size - old(length), _ => blank)
    {
      var i := length;
      while i < size
        invariant length == old(length)
        invariant length <= i && (i <= size || i == length)
        invariant table[..length] == old(Contents()) && forall k :: length <= k < i ==> table[k] == blank
      {
        table[i] := blank;
        i := i + 1;
      }
      ghost var was := old(Contents());
      assert size > length ==> table[..size] == was + seq(size - length, _ => blank) by {
        assert forall k :: 0 <= k < length ==> table[k] == table[..length][k] == was[k];
      }
      assert size <= length ==> table[..size] == table[..length][..size];
      length := size;
    }
  }
}
