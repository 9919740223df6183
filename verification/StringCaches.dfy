/** The move-to-front cache of weakly held strings. */
module StringCaches {
  import opened GcVectors

  type Name = seq<bv8>

  /** A weak pointer to a string, 0 once lost, and the hash of the name it was made for. */
  datatype Entry = Entry(hash: bv32, ref: nat)

  const LOST := Entry(0, 0)
  const ENTRY_SIZE: nat := 8

  /** The strings in the heap, by position. */
  type Strings = map<nat, Name>

  function HashFrom(h: bv32, s: Name): bv32
    decreases |s|
  {
    if s == [] then h else HashFrom((h * 16777619) ^ (s[0] as bv32), s[1..])
  }

  function Hash(s: Name): bv32 {
    HashFrom(2166136261, s)
  }

  /** calc_hash. */
  method CalcHash(s: Name) returns (h: bv32)
    ensures h == Hash(s)
  {
    h := 2166136261;
    for i := 0 to |s|
      invariant HashFrom(h, s[i..]) == Hash(s)
    {
      assert s[i..][0] == s[i] && s[i..][1..] == s[i + 1..];
      h := (h * 16777619) ^ (s[i] as bv32);
    }
    assert s[|s|..] == [];
  }

  /** The first test vectors of 32-bit FNV-1. */
  lemma HashVectors()
    ensures Hash([]) == 0x811C_9DC5 && Hash([97]) == 0x050C_5D7E
  {
    var a: Name := [97];
    assert a[1..] == [];
    assert HashFrom(2166136261, a) == HashFrom((2166136261 * 16777619) ^ (a[0] as bv32), []);
  }

  // ---- Lists of names, most recent first ----

  function Remove(s: seq<Name>, x: Name): seq<Name> {
    if s == [] then [] else if s[0] == x then Remove(s[1..], x) else [s[0]] + Remove(s[1..], x)
  }

  function Take<T>(s: seq<T>, n: nat): seq<T> {
    if |s| <= n then s else s[..n]
  }

  /** What a cache holding `names` holds after `x` has been asked for. */
  function Touch(names: seq<Name>, x: Name, capacity: nat): seq<Name> {
    if x in names then [x] + Remove(names, x) else Take([x] + names, capacity)
  }

  ghost predicate Distinct(s: seq<Name>) {
    forall i, j :: 0 <= i < j < |s| ==> s[i] != s[j]
  }

  lemma {:induction false} RemoveAbsent(s: seq<Name>, x: Name)
    requires x !in s
    ensures Remove(s, x) == s
  {
    if s != [] {
      RemoveAbsent(s[1..], x);
    }
  }

  lemma {:induction false} RemoveSplit(a: seq<Name>, x: Name, b: seq<Name>)
    requires x !in a && x !in b
    ensures Remove(a + [x] + b, x) == a + b
  {
    var s := a + [x] + b;
    if a == [] {
      assert s[1..] == b;
      RemoveAbsent(b, x);
    } else {
      assert s[1..] == a[1..] + [x] + b;
      RemoveSplit(a[1..], x, b);
      assert [a[0]] + (a[1..] + b) == a + b;
    }
  }

  // ---- Entries ----

  function NameOf(strings: Strings, ref: nat): Name {
    if ref in strings then strings[ref] else []
  }

  /** The names of the entries that are not lost, in order. */
  function LiveNames(es: seq<Entry>, strings: Strings): seq<Name> {
    if es == [] then []
    else (if es[0].ref == 0 then [] else [NameOf(strings, es[0].ref)]) + LiveNames(es[1..], strings)
  }

  lemma {:induction false} LiveConcat(a: seq<Entry>, b: seq<Entry>, strings: Strings)
    ensures LiveNames(a + b, strings) == LiveNames(a, strings) + LiveNames(b, strings)
  {
    if a == [] {
      assert a + b == b;
    } else {
      assert (a + b)[1..] == a[1..] + b;
      LiveConcat(a[1..], b, strings);
    }
  }

  lemma LiveOne(e: Entry, strings: Strings)
    ensures LiveNames([e], strings) == if e.ref == 0 then [] else [NameOf(strings, e.ref)]
  {
    assert [e][1..] == [];
  }

  /** Live entries point at strings, and carry the hash of the string they point at. */
  ghost predicate EntriesOk(es: seq<Entry>, strings: Strings) {
    forall i :: 0 <= i < |es| && es[i].ref != 0 ==> es[i].ref in strings && es[i].hash == Hash(strings[es[i].ref])
  }

  lemma {:induction false} LiveHas(es: seq<Entry>, strings: Strings, i: nat)
    requires i < |es| && es[i].ref != 0
    ensures NameOf(strings, es[i].ref) in LiveNames(es, strings)
  {
    if i > 0 {
      LiveHas(es[1..], strings, i - 1);
    }
  }

  lemma {:induction false} LiveFrom(es: seq<Entry>, strings: Strings, x: Name) returns (i: nat)
    requires x in LiveNames(es, strings)
    ensures i < |es| && es[i].ref != 0 && NameOf(strings, es[i].ref) == x
  {
    if es[0].ref != 0 && NameOf(strings, es[0].ref) == x {
      i := 0;
    } else {
      var j := LiveFrom(es[1..], strings, x);
      i := j + 1;
    }
  }

  lemma {:induction false} LiveLength(es: seq<Entry>, strings: Strings)
    ensures |LiveNames(es, strings)| <= |es|
    ensures (forall i :: 0 <= i < |es| ==> es[i].ref != 0) ==> |LiveNames(es, strings)| == |es|
  {
    if es != [] {
      LiveLength(es[1..], strings);
    }
  }

  // ---- What happens to the list ----

  /** Erasing a lost entry leaves the live names alone. */
  lemma EraseLost(es: seq<Entry>, strings: Strings, i: nat)
    requires i < |es| && es[i].ref == 0
    ensures LiveNames(es[..i] + es[i + 1..], strings) == LiveNames(es, strings)
  {
    LiveParts(es, strings, i);
    LiveConcat(es[..i], es[i + 1..], strings);
  }

  lemma LiveParts(es: seq<Entry>, strings: Strings, i: nat)
    requires i < |es|
    ensures LiveNames(es, strings) == LiveNames(es[..i], strings) +
      (if es[i].ref == 0 then [] else [NameOf(strings, es[i].ref)]) + LiveNames(es[i + 1..], strings)
  {
    assert es == es[..i] + [es[i]] + es[i + 1..];
    LiveConcat(es[..i] + [es[i]], es[i + 1..], strings);
    LiveConcat(es[..i], [es[i]], strings);
    LiveOne(es[i], strings);
  }

  /** Moving a live entry to the front moves its name to the front. */
  lemma MoveFirst(es: seq<Entry>, strings: Strings, i: nat, capacity: nat)
    requires i < |es| && es[i].ref != 0 && Distinct(LiveNames(es, strings))
    ensures LiveNames([es[i]] + es[..i] + es[i + 1..], strings) == Touch(LiveNames(es, strings), NameOf(strings, es[i].ref), capacity)
  {
    var x := NameOf(strings, es[i].ref);
    var a, b := LiveNames(es[..i], strings), LiveNames(es[i + 1..], strings);
    LiveParts(es, strings, i);
    assert LiveNames(es, strings) == a + [x] + b;
    LiveConcat([es[i]] + es[..i], es[i + 1..], strings);
    LiveConcat([es[i]], es[..i], strings);
    LiveOne(es[i], strings);
    TouchSplit(a, x, b, capacity);
  }

  lemma TouchSplit(a: seq<Name>, x: Name, b: seq<Name>, capacity: nat)
    requires Distinct(a + [x] + b)
    ensures Touch(a + [x] + b, x, capacity) == [x] + a + b
  {
    DistinctSplit(a, x, b);
    RemoveSplit(a, x, b);
    assert (a + [x] + b)[|a|] == x;
    assert [x] + (a + b) == [x] + a + b;
  }

  lemma DistinctSplit(a: seq<Name>, x: Name, b: seq<Name>)
    requires Distinct(a + [x] + b)
    ensures x !in a && x !in b
  {
    var s := a + [x] + b;
    assert s[|a|] == x;
    forall k | 0 <= k < |a| ensures a[k] != x {
      assert s[k] == a[k];
    }
    forall k | 0 <= k < |b| ensures b[k] != x {
      assert s[|a| + 1 + k] == b[k];
    }
  }

  lemma {:induction false} RemoveSubset(s: seq<Name>, x: Name)
    ensures forall y :: y in Remove(s, x) <==> y in s && y != x
    ensures Distinct(s) ==> Distinct(Remove(s, x))
  {
    if s != [] {
      RemoveSubset(s[1..], x);
      if Distinct(s) {
        assert s[0] !in s[1..];
        assert forall i :: 0 <= i < |s[1..]| ==> s[1..][i] == s[i + 1];
      }
    }
  }

  lemma TouchDistinct(names: seq<Name>, x: Name, capacity: nat)
    requires Distinct(names)
    ensures Distinct(Touch(names, x, capacity))
    ensures capacity > 0 ==> Touch(names, x, capacity) != [] && Touch(names, x, capacity)[0] == x
  {
    RemoveSubset(names, x);
  }

  // ---- Runs ----

  /** Something asked for, or a collection after which only the strings of some names are left. */
  datatype Step = Ask(name: Name) | Collect(kept: set<Name>)

  function Keep(names: seq<Name>, kept: set<Name>): seq<Name> {
    if names == [] then [] else (if names[0] in kept then [names[0]] else []) + Keep(names[1..], kept)
  }

  function Stepped(names: seq<Name>, step: Step, capacity: nat): seq<Name> {
    match step
    case Ask(name) => Touch(names, name, capacity)
    case Collect(kept) => Keep(names, kept)
  }

  /** What the cache holds after a run that starts with an empty cache. */
  function Held(steps: seq<Step>, capacity: nat): seq<Name> {
    if steps == [] then [] else Stepped(Held(steps[..|steps| - 1], capacity), steps[|steps| - 1], capacity)
  }

  /** The names asked for, in order. */
  function Asked(steps: seq<Step>): seq<Name> {
    if steps == [] then [] else
    var before := Asked(steps[..|steps| - 1]);
    match steps[|steps| - 1]
    case Ask(name) => before + [name]
    case Collect(_) => before
  }

  /** When `x` was last asked for. */
  function LastUse(asked: seq<Name>, x: Name): (i: nat)
    requires x in asked
    ensures i < |asked| && asked[i] == x && forall j :: i < j < |asked| ==> asked[j] != x
  {
    if asked[|asked| - 1] == x then |asked| - 1 else LastUse(asked[..|asked| - 1], x)
  }

  /** All of `names` have been asked for, and they stand in the order of their last use, latest first. */
  ghost predicate MostRecentFirst(names: seq<Name>, asked: seq<Name>) {
    && (forall i :: 0 <= i < |names| ==> names[i] in asked)
    && forall i, j :: 0 <= i < j < |names| ==> LastUse(asked, names[j]) < LastUse(asked, names[i])
  }

  lemma OrderIsDistinct(names: seq<Name>, asked: seq<Name>)
    requires MostRecentFirst(names, asked)
    ensures Distinct(names)
  {
    forall i, j | 0 <= i < j < |names| ensures names[i] != names[j] {
      assert LastUse(asked, names[j]) < LastUse(asked, names[i]);
    }
  }

  lemma LastUseStays(asked: seq<Name>, x: Name, y: Name)
    requires x in asked && x != y
    ensures x in asked + [y] && LastUse(asked + [y], x) == LastUse(asked, x)
  {
    assert (asked + [y])[LastUse(asked, x)] == x;
  }

  /** Asking for `x` puts it before whatever part of the list remains. */
  lemma FrontKeepsOrder(rest: seq<Name>, asked: seq<Name>, x: Name)
    requires MostRecentFirst(rest, asked) && x !in rest
    ensures MostRecentFirst([x] + rest, asked + [x])
  {
    var all := [x] + rest;
    assert LastUse(asked + [x], x) == |asked|;
    forall i | 0 <= i < |all| ensures all[i] in asked + [x] && (i > 0 ==> LastUse(asked + [x], all[i]) == LastUse(asked, rest[i - 1])) {
      if i > 0 {
        LastUseStays(asked, rest[i - 1], x);
      }
    }
  }

  lemma {:induction false} RemoveKeepsOrder(names: seq<Name>, x: Name, asked: seq<Name>)
    requires MostRecentFirst(names, asked)
    ensures MostRecentFirst(Remove(names, x), asked) && x !in Remove(names, x)
  {
    RemoveSubset(names, x);
    if names != [] {
      RemoveSubset(names[1..], x);
      assert forall i :: 0 <= i < |names[1..]| ==> names[1..][i] == names[i + 1];
      RemoveKeepsOrder(names[1..], x, asked);
      ConsKeepsOrder(names, Remove(names[1..], x), asked);
    }
  }

  /** Dropping some of the names behind the first. */
  lemma ConsKeepsOrder(names: seq<Name>, rest: seq<Name>, asked: seq<Name>)
    requires names != [] && MostRecentFirst(names, asked) && MostRecentFirst(rest, asked)
    requires forall y :: y in rest ==> y in names[1..]
    ensures MostRecentFirst([names[0]] + rest, asked)
  {
    var all := [names[0]] + rest;
    forall j | 0 < j < |all| ensures LastUse(asked, all[j]) < LastUse(asked, all[0]) {
      assert all[j] in names[1..];
      var k :| 0 <= k < |names[1..]| && names[1..][k] == all[j];
      assert names[k + 1] == all[j];
    }
  }

  lemma {:induction false} KeepKeepsOrder(names: seq<Name>, kept: set<Name>, asked: seq<Name>)
    requires MostRecentFirst(names, asked)
    ensures MostRecentFirst(Keep(names, kept), asked) && |Keep(names, kept)| <= |names|
    ensures forall y :: y in Keep(names, kept) <==> y in names && y in kept
  {
    if names != [] {
      assert forall i :: 0 <= i < |names[1..]| ==> names[1..][i] == names[i + 1];
      KeepKeepsOrder(names[1..], kept, asked);
      ConsKeepsOrder(names, Keep(names[1..], kept), asked);
    }
  }

  lemma TakeKeepsOrder(names: seq<Name>, n: nat, asked: seq<Name>)
    requires MostRecentFirst(names, asked)
    ensures MostRecentFirst(Take(names, n), asked)
  {}

  /** In every run, with collections anywhere: the order, and never more than the capacity. */
  lemma {:induction false} HeldInOrder(steps: seq<Step>, capacity: nat)
    ensures MostRecentFirst(Held(steps, capacity), Asked(steps)) && |Held(steps, capacity)| <= capacity
  {
    if steps != [] {
      var front := steps[..|steps| - 1];
      var before := Held(front, capacity);
      HeldInOrder(front, capacity);
      match steps[|steps| - 1]
      case Ask(x) =>
        RemoveKeepsOrder(before, x, Asked(front));
        if x in before {
          FrontKeepsOrder(Remove(before, x), Asked(front), x);
          RemoveShortens(before, x);
        } else {
          FrontKeepsOrder(before, Asked(front), x);
          TakeKeepsOrder([x] + before, capacity, Asked(steps));
        }
      case Collect(kept) => KeepKeepsOrder(before, kept, Asked(front));
    }
  }

  lemma {:induction false} RemoveShortens(s: seq<Name>, x: Name)
    ensures |Remove(s, x)| <= |s| && (x in s ==> |Remove(s, x)| < |s|)
  {
    if s != [] {
      RemoveShortens(s[1..], x);
    }
  }

  /** All names asked for, each once, latest first. */
  function Recent(asked: seq<Name>): seq<Name> {
    if asked == [] then [] else
    var x := asked[|asked| - 1];
    [x] + Remove(Recent(asked[..|asked| - 1]), x)
  }

  lemma {:induction false} RecentMeans(asked: seq<Name>)
    ensures MostRecentFirst(Recent(asked), asked)
    ensures forall x :: x in Recent(asked) <==> x in asked
  {
    if asked != [] {
      var front, x := asked[..|asked| - 1], asked[|asked| - 1];
      RecentMeans(front);
      RemoveKeepsOrder(Recent(front), x, front);
      FrontKeepsOrder(Remove(Recent(front), x), front, x);
      RemoveSubset(Recent(front), x);
      assert asked == front + [x];
    }
  }

  /** Without collections the cache holds exactly the last distinct names, as many as fit. */
  lemma {:induction false} HoldsTheLastDistinct(steps: seq<Step>, capacity: nat)
    requires capacity > 0 && forall i :: 0 <= i < |steps| ==> steps[i].Ask?
    ensures Held(steps, capacity) == Take(Recent(Asked(steps)), capacity)
  {
    if steps != [] {
      var front, x := steps[..|steps| - 1], steps[|steps| - 1].name;
      HoldsTheLastDistinct(front, capacity);
      RecentMeans(Asked(front));
      OrderIsDistinct(Recent(Asked(front)), Asked(front));
      TouchTake(Recent(Asked(front)), x, capacity);
      assert Asked(steps)[..|Asked(steps)| - 1] == Asked(front);
    }
  }

  /** Bounding the list and then touching is touching and then bounding. */
  lemma TouchTake(r: seq<Name>, x: Name, capacity: nat)
    requires capacity > 0 && Distinct(r)
    ensures Touch(Take(r, capacity), x, capacity) == Take([x] + Remove(r, x), capacity)
  {
    if x in r {
      var i :| 0 <= i < |r| && r[i] == x;
      var a, b := r[..i], r[i + 1..];
      assert r == a + [x] + b;
      DistinctSplit(a, x, b);
      TouchTakeAt(a, x, b, capacity);
    } else {
      RemoveAbsent(r, x);
      assert Take([x] + Take(r, capacity), capacity) == Take([x] + r, capacity);
    }
  }

  lemma TouchTakeAt(a: seq<Name>, x: Name, b: seq<Name>, capacity: nat)
    requires capacity > 0 && x !in a && x !in b
    ensures Touch(Take(a + [x] + b, capacity), x, capacity) == Take([x] + Remove(a + [x] + b, x), capacity)
  {
    RemoveSplit(a, x, b);
    if |a| < capacity {
      var c := Take(b, capacity - |a| - 1);
      TakeMiddle(a, x, b, capacity);
      assert (a + [x] + c)[|a|] == x;
      RemoveSplit(a, x, c);
      TakeFront(a, x, b, capacity);
    } else {
      TakeBefore(a, x, b, capacity);
    }
  }

  lemma TakeMiddle(a: seq<Name>, x: Name, b: seq<Name>, n: nat)
    requires |a| < n
    ensures Take(a + [x] + b, n) == a + [x] + Take(b, n - |a| - 1)
  {}

  lemma TakeFront(a: seq<Name>, x: Name, b: seq<Name>, n: nat)
    requires |a| < n
    ensures Take([x] + (a + b), n) == [x] + (a + Take(b, n - |a| - 1))
  {}

  lemma TakeBefore(a: seq<Name>, x: Name, b: seq<Name>, n: nat)
    requires |a| >= n > 0
    ensures Take(a + [x] + b, n) == a[..n]
    ensures Take([x] + a[..n], n) == Take([x] + (a + b), n)
  {}

  // ---- The cache ----

  class StringHeap {
    var strings: Strings
    var next: nat

    ghost predicate Valid()
      reads this
    {
      next > 0 && forall p :: p in strings ==> 0 < p < next
    }

    constructor ()
      ensures Valid() && strings == map[]
    {
      strings, next := map[], 1;
    }

    method New(name: Name) returns (p: nat)
      requires Valid()
      modifies this
      ensures Valid() && p > 0 && p !in old(strings) && strings == old(strings)[p := name]
    {
      p := next;
      strings := strings[p := name];
      next := next + 1;
    }

    /** A collection: the strings at the positions in `kept` move, each to a new position, the others go. */
    method Collect(kept: set<nat>) returns (forward: map<nat, nat>)
      requires Valid()
      modifies this
      ensures Valid() && Moved(old(strings), strings, forward)
      ensures forward.Keys == old(strings).Keys * kept
      ensures forall p :: p in forward ==> forward[p] !in old(strings)
    {
      ShiftsMove(strings, next, kept);
      forward := Shifts(strings, next, kept);
      strings := Shifted(strings, next, kept);
      next := next + next;
    }
  }

  function Place(p: nat, shift: nat): nat {
    p + shift
  }

  /** A new position for each string that is kept. */
  function Shifts(strings: Strings, shift: nat, kept: set<nat>): map<nat, nat> {
    map p | p in strings && p in kept :: Place(p, shift)
  }

  function Shifted(strings: Strings, shift: nat, kept: set<nat>): Strings {
    map p | p in strings && p in kept :: Place(p, shift) := strings[p]
  }

  lemma ShiftsMove(strings: Strings, shift: nat, kept: set<nat>)
    requires shift > 0 && forall p :: p in strings ==> 0 < p < shift
    ensures var forward := Shifts(strings, shift, kept); var moved := Shifted(strings, shift, kept);
      && Moved(strings, moved, forward) && forward.Keys == strings.Keys * kept
      && (forall p :: p in forward ==> forward[p] !in strings)
      && forall q :: q in moved ==> 0 < q < shift + shift
  {
  }

  /** A collection moves some strings, each to a position of its own, and loses the others. */
  ghost predicate Moved(before: Strings, after: Strings, forward: map<nat, nat>) {
    forall p :: p in before && p in forward ==> forward[p] != 0 && forward[p] in after && after[forward[p]] == before[p]
  }

  /** A weak pointer after a collection. */
  function FixedUp(e: Entry, forward: map<nat, nat>): Entry {
    e.(ref := if e.ref != 0 && e.ref in forward then forward[e.ref] else 0)
  }

  function AllFixedUp(es: seq<Entry>, forward: map<nat, nat>): (r: seq<Entry>)
    ensures |r| == |es| && forall i :: 0 <= i < |es| ==> r[i] == FixedUp(es[i], forward)
  {
    seq(|es|, i requires 0 <= i < |es| => FixedUp(es[i], forward))
  }

  /** The names whose strings have been moved. */
  ghost function MovedNames(es: seq<Entry>, strings: Strings, forward: map<nat, nat>): set<Name> {
    set i | 0 <= i < |es| && es[i].ref != 0 && es[i].ref in forward :: NameOf(strings, es[i].ref)
  }

  lemma KeepCons(x: Name, names: seq<Name>, kept: set<Name>)
    ensures Keep([x] + names, kept) == (if x in kept then [x] else []) + Keep(names, kept)
  {
    assert ([x] + names)[1..] == names;
  }

  lemma {:induction false} FixupKeeps(es: seq<Entry>, before: Strings, after: Strings, forward: map<nat, nat>, kept: set<Name>)
    requires EntriesOk(es, before) && Moved(before, after, forward)
    requires forall i :: 0 <= i < |es| && es[i].ref != 0 ==> (es[i].ref in forward <==> NameOf(before, es[i].ref) in kept)
    ensures LiveNames(AllFixedUp(es, forward), after) == Keep(LiveNames(es, before), kept)
    ensures EntriesOk(AllFixedUp(es, forward), after)
  {
    var fixed := AllFixedUp(es, forward);
    if es != [] {
      assert fixed[1..] == AllFixedUp(es[1..], forward) && fixed[0] == FixedUp(es[0], forward);
      FixupKeeps(es[1..], before, after, forward, kept);
      var rest := LiveNames(es[1..], before);
      if es[0].ref == 0 {
        assert [] + rest == rest;
      } else {
        KeepCons(NameOf(before, es[0].ref), rest, kept);
      }
    }
  }

  /** Different live entries have different names. */
  lemma {:induction false} EntriesApart(es: seq<Entry>, strings: Strings, i: nat, j: nat)
    requires i < j < |es| && es[i].ref != 0 && es[j].ref != 0 && Distinct(LiveNames(es, strings))
    ensures NameOf(strings, es[i].ref) != NameOf(strings, es[j].ref)
  {
    LiveParts(es, strings, i);
    DistinctSplit(LiveNames(es[..i], strings), NameOf(strings, es[i].ref), LiveNames(es[i + 1..], strings));
    LiveHas(es[i + 1..], strings, j - i - 1);
  }

  /** An entry's string was moved exactly when its name is among those of moved strings. */
  lemma MovedNamesExactly(es: seq<Entry>, strings: Strings, forward: map<nat, nat>)
    requires Distinct(LiveNames(es, strings))
    ensures forall i :: 0 <= i < |es| && es[i].ref != 0 ==>
      (es[i].ref in forward <==> NameOf(strings, es[i].ref) in MovedNames(es, strings, forward))
  {
    var kept := MovedNames(es, strings, forward);
    forall i | 0 <= i < |es| && es[i].ref != 0 ensures es[i].ref in forward <==> NameOf(strings, es[i].ref) in kept {
      if NameOf(strings, es[i].ref) in kept {
        var j :| 0 <= j < |es| && es[j].ref != 0 && es[j].ref in forward && NameOf(strings, es[j].ref) == NameOf(strings, es[i].ref);
        if i < j {
          EntriesApart(es, strings, i, j);
        } else if j < i {
          EntriesApart(es, strings, j, i);
        }
      }
    }
  }

  class StringCache {
    const entries: GcVector<Entry>

    /** Hashes are right, and no name is held twice. */
    ghost predicate Valid(strings: Strings)
      reads this, entries, entries.table
    {
      && entries.Valid()
      && EntriesOk(entries.Contents(), strings)
      && Distinct(Names(strings))
    }

    /** The names held, in the order of the entries. */
    ghost function Names(strings: Strings): seq<Name>
      requires entries.Valid()
      reads this, entries, entries.table
    {
      LiveNames(entries.Contents(), strings)
    }

    constructor (capacity: nat, free: nat)
      requires 1 <= capacity && Granted(capacity, ENTRY_SIZE, free)
      ensures fresh(entries) && fresh(entries.table) && entries.table.Length == capacity
      ensures forall strings :: Valid(strings) && Names(strings) == []
    {
      entries := new GcVector(capacity, ENTRY_SIZE, free);
    }

    /** Brings the entry at `i` to the front, swap by swap. */
    method MoveToFront(i: nat)
      requires entries.Valid() && i < entries.length
      modifies entries.table
      ensures entries.Valid()
      ensures var es := old(entries.Contents()); entries.Contents() == [es[i]] + es[..i] + es[i + 1..]
    {
      ghost var es := entries.Contents();
      var t := entries.table;
      var k := i;
      while k > 0
        invariant 0 <= k <= i < entries.length == |es| <= t.Length
        invariant t == entries.table && t[..entries.length] == es[..k] + [es[i]] + es[k..i] + es[i + 1..]
      {
        assert t[k - 1] == t[..entries.length][k - 1] == es[k - 1] && t[k] == t[..entries.length][k] == es[i];
        ghost var was := t[..entries.length];
        t[k], t[k - 1] := t[k - 1], t[k];
        assert t[..entries.length] == was[k := es[k - 1]][k - 1 := es[i]];
        Swapped(es, was, i, k);
        k := k - 1;
      }
      assert es[..0] == [] && [] + [es[i]] == [es[i]];
    }

    /** Moves every entry up by one, onto the last, and puts `e` in front. */
    method ShiftIn(e: Entry)
      requires entries.Valid() && entries.length > 0
      modifies entries.table
      ensures entries.Valid() && entries.Contents() == [e] + old(entries.Contents())[..entries.length - 1]
    {
      ghost var es := entries.Contents();
      var t := entries.table;
      var i := entries.length - 1;
      while i > 0
        invariant 0 <= i < entries.length == |es| <= t.Length && t == entries.table
        invariant forall k :: 0 <= k <= i ==> t[k] == es[k]
        invariant forall k :: i < k < |es| ==> t[k] == es[k - 1]
      {
        t[i] := t[i - 1];
        i := i - 1;
      }
      t[0] := e;
    }

    /** Erases a lost entry. */
    method EraseAt(i: nat, ghost strings: Strings)
      requires entries.Valid() && i < entries.length && entries.table[i].ref == 0 && EntriesOk(entries.Contents(), strings)
      modifies entries, entries.table
      ensures entries.Valid() && entries.table == old(entries.table) && entries.length == old(entries.length) - 1
      ensures EntriesOk(entries.Contents(), strings) && Names(strings) == old(Names(strings))
      ensures forall k :: 0 <= k < i ==> entries.table[k] == old(entries.table[k])
    {
      ghost var es := entries.Contents();
      EraseLost(es, strings, i);
      EraseKeepsOk(es, strings, i);
      entries.Erase(i);
      assert forall k :: 0 <= k < i ==> entries.table[k] == entries.Contents()[k] == es[k];
    }

    /** The string of a live entry, which moves to the front. */
    method Hit(i: nat, ghost strings: Strings) returns (s: nat)
      requires Valid(strings) && i < entries.length && entries.table[i].ref != 0
      modifies entries.table
      ensures Valid(strings) && s == old(entries.table[i].ref) && s in strings
      ensures strings[s] in old(Names(strings))
      ensures Names(strings) == Touch(old(Names(strings)), strings[s], entries.table.Length)
    {
      ghost var es := entries.Contents();
      s := entries.table[i].ref;
      assert s == es[i].ref;
      LiveHas(es, strings, i);
      MoveFirst(es, strings, i, entries.table.Length);
      TouchDistinct(LiveNames(es, strings), strings[s], entries.table.Length);
      MoveToFront(i);
    }

    /**
     * The string for `name`: the one held, moved to the front, or a new one. Entries whose string was
     * lost are erased on the way.
     */
    method Get(heap: StringHeap, name: Name) returns (s: nat)
      requires heap.Valid() && Valid(heap.strings)
      modifies heap, entries, entries.table
      ensures heap.Valid() && Valid(heap.strings)
      ensures s in heap.strings && heap.strings[s] == name
      ensures Names(heap.strings) == Touch(old(Names(heap.strings)), name, entries.table.Length)
      ensures entries.table == old(entries.table)
      ensures heap.strings == if name in old(Names(heap.strings)) then old(heap.strings) else old(heap.strings)[s := name]
    {
      var hash := CalcHash(name);
      ghost var strings, names := heap.strings, Names(heap.strings);
      var i, l := 0, entries.length;
      while i < l
        invariant entries.table == old(entries.table) && entries.Valid() && 0 <= i <= l == entries.length
        invariant heap.Valid() && heap.strings == strings
        invariant EntriesOk(entries.Contents(), strings) && Names(strings) == names
        invariant forall k :: 0 <= k < i ==> entries.table[k].ref != 0 && NameOf(strings, entries.table[k].ref) != name
        decreases l - i
      {
        if entries.table[i].ref == 0 {
          EraseAt(i, strings);
          l := l - 1;
        } else if entries.table[i].hash == hash && heap.strings[entries.table[i].ref] == name {
          s := Hit(i, strings);
          return;
        } else {
          i := i + 1;
        }
      }
      s := Insert(heap, hash, name);
    }

    /** A new string in front; the last entry goes when all are taken. */
    method Insert(heap: StringHeap, hash: bv32, name: Name) returns (s: nat)
      requires heap.Valid() && Valid(heap.strings) && hash == Hash(name)
      requires forall k :: 0 <= k < entries.length ==> entries.table[k].ref != 0 && NameOf(heap.strings, entries.table[k].ref) != name
      modifies heap, entries, entries.table
      ensures heap.Valid() && Valid(heap.strings)
      ensures s in heap.strings && heap.strings[s] == name
      ensures name !in old(Names(heap.strings))
      ensures Names(heap.strings) == Touch(old(Names(heap.strings)), name, entries.table.Length)
      ensures entries.table == old(entries.table) && heap.strings == old(heap.strings)[s := name]
    {
      ghost var strings, names, es := heap.strings, Names(heap.strings), entries.Contents();
      NotHeld(es, strings, name);
      s := heap.New(name);
      if entries.length < entries.table.Length {
        var _ := entries.PushBack(LOST, 0);
      }
      ShiftIn(Entry(hash, s));
      Inserted(es, strings, entries.table.Length, Entry(hash, s), name);
      TouchDistinct(names, name, entries.table.Length);
      assert entries.Contents() == [Entry(hash, s)] + Take(es, entries.table.Length - 1);
    }

    /** The weak pointers after a collection: those to moved strings follow, the others are lost. */
    method Fixup(heap: StringHeap, ghost before: Strings, forward: map<nat, nat>)
      requires Valid(before) && Moved(before, heap.strings, forward)
      modifies entries.table
      ensures Valid(heap.strings)
      ensures Names(heap.strings) == Keep(old(Names(before)), MovedNames(old(entries.Contents()), before, forward))
    {
      ghost var es := entries.Contents();
      var t := entries.table;
      for i := 0 to entries.length
        invariant entries.Valid() && t == entries.table && entries.length == |es|
        invariant forall k :: 0 <= k < i ==> t[k] == FixedUp(es[k], forward)
        invariant forall k :: i <= k < |es| ==> t[k] == es[k]
      {
        t[i] := FixedUp(t[i], forward);
      }
      assert entries.Contents() == AllFixedUp(es, forward);
      ghost var kept := MovedNames(es, before, forward);
      MovedNamesExactly(es, before, forward);
      FixupKeeps(es, before, heap.strings, forward, kept);
      KeepDistinct(LiveNames(es, before), kept);
    }
  }

  // ---- Whole runs of the cache ----

  /** What happens to a cache: a request, or a collection that keeps the strings chosen among all there are. */
  datatype Event = Request(name: Name) | Collection(kept: Strings -> set<nat>)

  /** The table and the strings before an event. */
  datatype Seen = Seen(entries: seq<Entry>, strings: Strings)

  /** The names held whose own strings are kept; other strings may read the same. */
  ghost function NamesKept(seen: Seen, kept: set<nat>): set<Name> {
    set i | 0 <= i < |seen.entries| && seen.entries[i].ref != 0 && seen.entries[i].ref in kept :: NameOf(seen.strings, seen.entries[i].ref)
  }

  /** The step that an event is for the cache. */
  ghost function StepOf(event: Event, seen: Seen): Step {
    match event
    case Request(name) => Ask(name)
    case Collection(kept) => Collect(NamesKept(seen, kept(seen.strings)))
  }

  /** These are the steps, and before every event the live names of the table are what `Held` says. */
  ghost predicate Recorded(events: seq<Event>, steps: seq<Step>, seen: seq<Seen>, capacity: nat) {
    && |steps| == |seen| == |events|
    && forall i {:trigger seen[i]} :: 0 <= i < |events| ==>
         && steps[i] == StepOf(events[i], seen[i])
         && EntriesOk(seen[i].entries, seen[i].strings)
         && LiveNames(seen[i].entries, seen[i].strings) == Held(steps[..i], capacity)
  }

  lemma RecordOne(events: seq<Event>, steps: seq<Step>, seen: seq<Seen>, capacity: nat, event: Event, now: Seen)
    requires Recorded(events, steps, seen, capacity)
    requires EntriesOk(now.entries, now.strings) && LiveNames(now.entries, now.strings) == Held(steps, capacity)
    ensures Recorded(events + [event], steps + [StepOf(event, now)], seen + [now], capacity)
    ensures var step := StepOf(event, now);
      Held(steps + [step], capacity) == Stepped(Held(steps, capacity), step, capacity)
  {
    hide StepOf, EntriesOk, Held, Stepped;
    var more, all := steps + [StepOf(event, now)], seen + [now];
    forall i | 0 <= i < |events| + 1
      ensures more[i] == StepOf((events + [event])[i], all[i])
      ensures EntriesOk(all[i].entries, all[i].strings) && LiveNames(all[i].entries, all[i].strings) == Held(more[..i], capacity)
    {
      assert more[..i] == steps[..i];
      if i == |events| {
        assert steps[..i] == steps;
      } else {
        assert all[i] == seen[i];
      }
    }
    HeldOne(steps, StepOf(event, now), capacity);
  }

  lemma HeldOne(steps: seq<Step>, step: Step, capacity: nat)
    ensures Held(steps + [step], capacity) == Stepped(Held(steps, capacity), step, capacity)
    ensures Asked(steps + [step]) == Asked(steps) + if step.Ask? then [step.name] else []
  {
    assert (steps + [step])[..|steps|] == steps;
  }

  /** One event; for a request, what is handed out is read at once. */
  method Happen(heap: StringHeap, cache: StringCache, event: Event) returns (answers: seq<Name>)
    requires heap.Valid() && cache.Valid(heap.strings)
    modifies heap, cache.entries, cache.entries.table
    ensures heap.Valid() && cache.Valid(heap.strings) && cache.entries.table == old(cache.entries.table)
    ensures var step := StepOf(event, Seen(old(cache.entries.Contents()), old(heap.strings)));
      && cache.Names(heap.strings) == Stepped(old(cache.Names(heap.strings)), step, cache.entries.table.Length)
      && answers == if step.Ask? then [step.name] else []
  {
    answers := [];
    match event
    case Request(name) =>
      var s := cache.Get(heap, name);
      answers := [heap.strings[s]];
    case Collection(choose) =>
      ghost var now := Seen(cache.entries.Contents(), heap.strings);
      var kept := choose(heap.strings);
      var forward := heap.Collect(kept);
      MovedAreKept(now, kept, forward);
      cache.Fixup(heap, now.strings, forward);
  }

  /**
   * A whole run, starting with no strings, in which collections keep whichever strings they like: what is handed out
   * reads as what was asked for, and what is held, in the end and before every event, is told by the steps.
   */
  method RunCache(capacity: nat, free: nat, events: seq<Event>)
      returns (heap: StringHeap, cache: StringCache, answers: seq<Name>, ghost steps: seq<Step>, ghost seen: seq<Seen>)
    requires 1 <= capacity && Granted(capacity, ENTRY_SIZE, free)
    ensures Recorded(events, steps, seen, capacity)
    ensures cache.Valid(heap.strings) && cache.Names(heap.strings) == Held(steps, capacity)
    ensures answers == Asked(steps)
  {
    hide Recorded, Held, Stepped, StepOf, EntriesOk, Distinct, LiveNames;
    heap := new StringHeap();
    cache := new StringCache(capacity, free);
    answers, steps, seen := [], [], [];
    NothingRecorded(capacity);
    for i := 0 to |events|
      invariant fresh(heap) && fresh(cache.entries) && fresh(cache.entries.table)
      invariant heap.Valid() && cache.Valid(heap.strings) && cache.entries.table.Length == capacity
      invariant Recorded(events[..i], steps, seen, capacity)
      invariant cache.Names(heap.strings) == Held(steps, capacity) && answers == Asked(steps)
    {
      ghost var now := Seen(cache.entries.Contents(), heap.strings);
      RecordOne(events[..i], steps, seen, capacity, events[i], now);
      HeldOne(steps, StepOf(events[i], now), capacity);
      var more := Happen(heap, cache, events[i]);
      answers := answers + more;
      steps, seen := steps + [StepOf(events[i], now)], seen + [now];
      assert events[..i] + [events[i]] == events[..i + 1];
    }
    assert events[..|events|] == events;
  }

  lemma NothingRecorded(capacity: nat)
    ensures Recorded([], [], [], capacity) && Held([], capacity) == []
  {
  }

  lemma MovedAreKept(now: Seen, kept: set<nat>, forward: map<nat, nat>)
    requires EntriesOk(now.entries, now.strings) && forward.Keys == now.strings.Keys * kept
    ensures MovedNames(now.entries, now.strings, forward) == NamesKept(now, kept)
  {
    assert forall i :: 0 <= i < |now.entries| && now.entries[i].ref != 0 ==>
      (now.entries[i].ref in forward <==> now.entries[i].ref in kept);
  }

  /** When a collection keeps all strings of some names together, those are the names that stay. */
  lemma KeptTogether(seen: Seen, kept: set<nat>, names: set<Name>)
    requires EntriesOk(seen.entries, seen.strings)
    requires forall p :: p in seen.strings ==> (p in kept <==> seen.strings[p] in names)
    ensures var held := LiveNames(seen.entries, seen.strings); Keep(held, NamesKept(seen, kept)) == Keep(held, names)
  {
    var held := LiveNames(seen.entries, seen.strings);
    forall x | x in held
      ensures x in NamesKept(seen, kept) <==> x in names
    {
      var i := LiveFrom(seen.entries, seen.strings, x);
    }
    KeepDepends(held, NamesKept(seen, kept), names);
  }

  lemma {:induction false} KeepDepends(names: seq<Name>, kept: set<Name>, kept': set<Name>)
    requires forall x | x in names :: x in kept <==> x in kept'
    ensures Keep(names, kept) == Keep(names, kept')
  {
    if names != [] {
      KeepDepends(names[1..], kept, kept');
    }
  }

  lemma Swapped(es: seq<Entry>, was: seq<Entry>, i: nat, k: nat)
    requires 0 < k <= i < |es| && was == es[..k] + [es[i]] + es[k..i] + es[i + 1..]
    ensures was[k := es[k - 1]][k - 1 := es[i]] == es[..k - 1] + [es[i]] + es[k - 1..i] + es[i + 1..]
  {}

  lemma NotHeld(es: seq<Entry>, strings: Strings, name: Name)
    requires forall k :: 0 <= k < |es| ==> es[k].ref != 0 ==> NameOf(strings, es[k].ref) != name
    ensures name !in LiveNames(es, strings)
  {
    if name in LiveNames(es, strings) {
      var k := LiveFrom(es, strings, name);
    }
  }

  lemma EraseKeepsOk(es: seq<Entry>, strings: Strings, i: nat)
    requires i < |es| && EntriesOk(es, strings)
    ensures EntriesOk(es[..i] + es[i + 1..], strings)
  {}

  /** Shifting in an entry for a new string, when no entry is lost. */
  lemma Inserted(es: seq<Entry>, strings: Strings, capacity: nat, e: Entry, name: Name)
    requires EntriesOk(es, strings) && |es| <= capacity && capacity > 0
    requires forall k :: 0 <= k < |es| ==> es[k].ref != 0
    requires e.ref != 0 && e.ref !in strings && e.hash == Hash(name) && name !in LiveNames(es, strings)
    ensures var now := strings[e.ref := name];
      && EntriesOk([e] + Take(es, capacity - 1), now)
      && LiveNames([e] + Take(es, capacity - 1), now) == Touch(LiveNames(es, strings), name, capacity)
  {
    var now := strings[e.ref := name];
    var kept := Take(es, capacity - 1);
    SameNames(kept, strings, e.ref, name);
    LiveConcat([e], kept, now);
    LiveOne(e, now);
    LiveTake(es, strings, capacity - 1);
    TakeMore([name], LiveNames(es, strings), capacity);
  }

  lemma TakeMore(a: seq<Name>, b: seq<Name>, n: nat)
    requires |a| == 1 && n > 0
    ensures Take(a + b, n) == a + Take(b, n - 1)
  {}

  lemma {:induction false} SameNames(es: seq<Entry>, strings: Strings, p: nat, name: Name)
    requires EntriesOk(es, strings) && p !in strings
    ensures LiveNames(es, strings[p := name]) == LiveNames(es, strings)
  {
    if es != [] {
      SameNames(es[1..], strings, p, name);
    }
  }

  lemma {:induction false} LiveTake(es: seq<Entry>, strings: Strings, n: nat)
    requires forall k :: 0 <= k < |es| ==> es[k].ref != 0
    ensures LiveNames(Take(es, n), strings) == Take(LiveNames(es, strings), n)
  {
    LiveLength(es, strings);
    if |es| > n {
      assert es == es[..n] + es[n..];
      LiveConcat(es[..n], es[n..], strings);
      LiveLength(es[..n], strings);
    }
  }

  lemma {:induction false} KeepDistinct(names: seq<Name>, kept: set<Name>)
    requires Distinct(names)
    ensures Distinct(Keep(names, kept)) && forall y :: y in Keep(names, kept) ==> y in names
  {
    if names != [] {
      assert forall i :: 0 <= i < |names[1..]| ==> names[1..][i] == names[i + 1];
      KeepDistinct(names[1..], kept);
      assert names[0] !in names[1..];
    }
  }
}
