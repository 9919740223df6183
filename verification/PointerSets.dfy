/** The set of tracked pointers: an unordered array that new members are appended to. */
module PointerSets {

  ghost predicate NoDup<T>(s: seq<T>) {
    forall i, j | 0 <= i < j < |s| :: s[i] != s[j]
  }

  lemma NoDupAppend<T>(s: seq<T>, t: seq<T>)
    requires NoDup(s) && NoDup(t) && forall x :: !(x in s && x in t)
    ensures NoDup(s + t)
  {
    var u := s + t;
    forall i, j | 0 <= i < j < |u|
      ensures u[i] != u[j]
    {
      if i < |s| <= j {
        assert u[i] in s && u[j] in t;
      }
    }
  }

  function LastIndex<T(==)>(s: seq<T>, x: T): (i: nat)
    requires x in s
    ensures i < |s| && s[i] == x && x !in s[i + 1..]
  {
    if s[|s| - 1] == x then |s| - 1
    else
      var i := LastIndex(s[..|s| - 1], x);
      assert s[i + 1..] == s[..|s| - 1][i + 1..] + [s[|s| - 1]];
      i
  }

  /** New members go to the back: the collector relies on it. */
  function Push<T>(s: seq<T>, x: T): seq<T> {
    s + [x]
  }

  /** The last occurrence of `x` is overwritten with the last element. */
  function Erase<T(==)>(s: seq<T>, x: T): seq<T> {
    if x !in s then s else s[LastIndex(s, x) := s[|s| - 1]][..|s| - 1]
  }

  lemma EraseKeeps<T>(s: seq<T>, x: T)
    requires NoDup(s) && x in s
    ensures NoDup(Erase(s, x)) && |Erase(s, x)| == |s| - 1
    ensures forall y :: y in Erase(s, x) <==> y in s && y != x
  {
    var k := LastIndex(s, x);
    var e := Erase(s, x);
    assert forall j | 0 <= j < |e| :: e[j] == if j == k then s[|s| - 1] else s[j];
    forall y | y in s && y != x
      ensures y in e
    {
      var j :| 0 <= j < |s| && s[j] == y;
      assert j < |s| - 1 ==> e[j] == y;
      assert j == |s| - 1 ==> e[k] == y;
    }
  }

  class PointerSet<T(==, 0)> {
    var elems: array<T>
    var size: nat

    ghost predicate Valid()
      reads this
    {
      size <= elems.Length && 0 < elems.Length
    }

    ghost function Contents(): seq<T>
      requires Valid()
      reads this, elems
    {
      elems[..size]
    }

    constructor ()
      ensures Valid() && Contents() == [] && fresh(elems)
    {
      elems := new T[10];
      size := 0;
    }

    /** The array doubles when it is full. */
    method Insert(x: T)
      requires Valid()
      modifies this, elems
      ensures Valid() && (elems == old(elems) || fresh(elems))
      ensures Contents() == Push(old(Contents()), x)
    {
      if size == elems.Length {
        var bigger := new T[2 * elems.Length];
        for i := 0 to size
          invariant bigger[..i] == old(elems[..i])
          invariant unchanged(this) && unchanged(elems)
        {
          bigger[i] := elems[i];
        }
        elems := bigger;
      }
      elems[size] := x;
      size := size + 1;
    }

    method Remove(x: T) returns (found: bool)
      requires Valid()
      modifies this`size, elems
      ensures Valid() && found == (x in old(Contents()))
      ensures Contents() == Erase(old(Contents()), x)
    {
      var i := size;
      while i > 0
        invariant 0 <= i <= size && unchanged(this) && unchanged(elems)
        invariant x !in elems[i..size]
      {
        i := i - 1;
        if elems[i] == x {
          ghost var s := Contents();
          assert x !in s[i + 1..] by { assert s[i + 1..] == elems[i + 1..size]; }
          assert LastIndex(s, x) == i;
          size := size - 1;
          elems[i], elems[size] := elems[size], elems[i];
          assert elems[..size] == s[i := s[|s| - 1]][..|s| - 1];
          return true;
        }
      }
      assert elems[0..size] == elems[..size];
      return false;
    }
  }
}
