/** The indirect binary heap of src/heap.c and src/_heap.c.

Elements stay in the slot they were inserted into; `ofs` lists the slots in heap order, live slots
first.  A larger element is nearer to the top: `less(x, y)` stands for a negative comparison result. */
module Heap {
  import opened Options
  import opened Words

  type Less = (Bytes, Bytes) -> bool

  /** What the comparison must be for a heap order to exist. */
  ghost predicate WeakOrder(less: Less)
  {
    && (forall x :: !less(x, x))
    && (forall x, y, z :: less(x, y) && less(y, z) ==> less(x, z))
    && (forall x, y, z :: less(x, z) ==> less(x, y) || less(y, z))
  }

  function Parent(j: nat): (p: nat)
    requires 0 < j
    ensures p < j && (j == 2 * p + 1 || j == 2 * p + 2)
  {
    (j - 1) / 2
  }

  /** Position `j` holds nothing larger than its parent. */
  ghost predicate Under(v: seq<Bytes>, less: Less, j: nat)
    requires 0 < j < |v|
  {
    !less(v[Parent(j)], v[j])
  }

  /** Heap order below position `lo`. */
  ghost predicate HeapFrom(v: seq<Bytes>, less: Less, lo: nat)
  {
    forall j | 0 < j < |v| && lo <= Parent(j) :: Under(v, less, j)
  }

  lemma {:induction false} TopIsMax(v: seq<Bytes>, less: Less, j: nat)
    requires WeakOrder(less) && HeapFrom(v, less, 0) && j < |v|
    ensures !less(v[0], v[j])
  {
    if 0 < j {
      TopIsMax(v, less, Parent(j));
      assert Under(v, less, j);
    }
  }

  ghost function Swapped<T>(v: seq<T>, i: nat, j: nat): (w: seq<T>)
    requires i < |v| && j < |v|
    ensures |w| == |v|
  {
    v[i := v[j]][j := v[i]]
  }

  // ---------- sifting down ----------

  /** Heap order below `lo` except that position `i` may be too small for its children. */
  ghost predicate Sinking(v: seq<Bytes>, less: Less, lo: nat, i: nat)
    requires i < |v|
  {
    && lo <= i
    && (forall j | 0 < j < |v| && lo <= Parent(j) && Parent(j) != i :: Under(v, less, j))
    && (lo < i ==> lo <= Parent(i) && forall j | 0 < j < |v| && Parent(j) == i :: !less(v[Parent(i)], v[j]))
  }

  lemma SinkStep(v: seq<Bytes>, less: Less, lo: nat, i: nat, child: nat)
    requires WeakOrder(less) && i < |v| && Sinking(v, less, lo, i)
    requires 0 < child < |v| && Parent(child) == i && less(v[i], v[child])
    requires forall j | 0 < j < |v| && Parent(j) == i :: !less(v[child], v[j])
    ensures Sinking(Swapped(v, i, child), less, lo, child)
  {
    var w := Swapped(v, i, child);
    forall j | 0 < j < |w| && lo <= Parent(j) && Parent(j) != child
      ensures Under(w, less, j)
    {
      if Parent(j) != i && j != i {
        assert Under(v, less, j);
      }
    }
    forall j | 0 < j < |w| && Parent(j) == child
      ensures !less(w[i], w[j])
    {
      assert Under(v, less, j);
    }
  }

  lemma SinkEnds(v: seq<Bytes>, less: Less, lo: nat, i: nat)
    requires i < |v| && Sinking(v, less, lo, i)
    requires forall j | 0 < j < |v| && Parent(j) == i :: !less(v[i], v[j])
    ensures HeapFrom(v, less, lo)
  {
  }

  /** The state of a sift-down that began at `lo` and has come to `i`. */
  ghost predicate Fixing(v: seq<Bytes>, less: Less, lo: nat, i: nat)
  {
    if i < |v| then Sinking(v, less, lo, i) else HeapFrom(v, less, lo)
  }

  lemma FixStarts(v: seq<Bytes>, less: Less, lo: nat)
    requires HeapFrom(v, less, lo + 1)
    ensures Fixing(v, less, lo, lo)
  {
  }

  ghost predicate LargestChild(v: seq<Bytes>, less: Less, i: nat, child: nat)
  {
    && 0 < child < |v| && Parent(child) == i
    && forall j | 0 < j < |v| && Parent(j) == i :: !less(v[child], v[j])
  }

  lemma ChooseChild(v: seq<Bytes>, less: Less, i: nat)
    requires WeakOrder(less) && 2 * i + 1 < |v|
    ensures var first := 2 * i + 1;
            LargestChild(v, less, i, if first + 1 < |v| && less(v[first], v[first + 1]) then first + 1 else first)
  {
  }

  lemma FixStep(v: seq<Bytes>, less: Less, lo: nat, i: nat, child: nat)
    requires WeakOrder(less) && i < |v| && Fixing(v, less, lo, i)
    requires LargestChild(v, less, i, child) && less(v[i], v[child])
    ensures Fixing(Swapped(v, i, child), less, lo, child)
  {
    SinkStep(v, less, lo, i, child);
  }

  lemma FixEnds(v: seq<Bytes>, less: Less, lo: nat, i: nat, child: nat)
    requires WeakOrder(less) && Fixing(v, less, lo, i)
    requires 2 * i + 1 < |v| ==> LargestChild(v, less, i, child) && !less(v[i], v[child])
    ensures HeapFrom(v, less, lo)
  {
    if i < |v| {
      SinkEnds(v, less, lo, i);
    }
  }

  // ---------- sifting up ----------

  /** Heap order except that position `i` may be too large for its parent. */
  ghost predicate Rising(v: seq<Bytes>, less: Less, i: nat)
    requires i < |v|
  {
    && (forall j | 0 < j < |v| && j != i :: Under(v, less, j))
    && (0 < i ==> forall j | 0 < j < |v| && Parent(j) == i :: !less(v[Parent(i)], v[j]))
  }

  lemma RiseStep(v: seq<Bytes>, less: Less, i: nat)
    requires WeakOrder(less) && 0 < i < |v| && Rising(v, less, i) && less(v[Parent(i)], v[i])
    ensures Rising(Swapped(v, i, Parent(i)), less, Parent(i))
  {
    var p := Parent(i);
    var w := Swapped(v, i, p);
    forall j | 0 < j < |w| && j != p
      ensures Under(w, less, j)
    {
      if j != i {
        assert Under(v, less, j);
      }
    }
    if 0 < p {
      assert Under(v, less, p);
      forall j | 0 < j < |w| && Parent(j) == p
        ensures !less(w[Parent(p)], w[j])
      {
        if j != i {
          assert Under(v, less, j);
        }
      }
    }
  }

  // ---------- slots ----------

  ghost predicate Permutation(ofs: seq<nat>)
    ensures Permutation(ofs) ==> forall i | 0 <= i < |ofs| :: ofs[i] < |ofs|
  {
    && (forall i | 0 <= i < |ofs| :: ofs[i] < |ofs|)
    && (forall i, j | 0 <= i < j < |ofs| :: ofs[i] != ofs[j])
  }

  ghost function Slots(ofs: seq<nat>, n: nat): (r: set<nat>)
    requires n <= |ofs|
  {
    set i | 0 <= i < n :: ofs[i]
  }

  ghost function Values(data: seq<Bytes>, ofs: seq<nat>, n: nat): (v: seq<Bytes>)
    requires n <= |ofs| == |data| && Permutation(ofs)
    ensures |v| == n && forall i | 0 <= i < n :: v[i] == data[ofs[i]]
  {
    seq(n, i requires 0 <= i < n => data[ofs[i]])
  }

  lemma SwapPermutes(ofs: seq<nat>, i: nat, j: nat)
    requires i < |ofs| && j < |ofs| && Permutation(ofs)
    ensures Permutation(Swapped(ofs, i, j))
  {
  }

  lemma SwapSlots(ofs: seq<nat>, n: nat, i: nat, j: nat)
    requires i < n <= |ofs| && j < n
    ensures Slots(Swapped(ofs, i, j), n) == Slots(ofs, n)
  {
    var swapped := Swapped(ofs, i, j);
    SwapSlotsWithin(ofs, swapped, n, i, j);
    SwapSlotsWithin(swapped, ofs, n, i, j);
  }

  lemma SwapSlotsWithin(ofs: seq<nat>, swapped: seq<nat>, n: nat, i: nat, j: nat)
    requires i < n <= |ofs| && j < n && swapped == Swapped(ofs, i, j)
    ensures Slots(ofs, n) <= Slots(swapped, n)
  {
    forall s | s in Slots(ofs, n)
      ensures s in Slots(swapped, n)
    {
      var k :| 0 <= k < n && ofs[k] == s;
      var at := if k == i then j else if k == j then i else k;
      assert swapped[at] == s;
    }
  }

  lemma SwapValues(data: seq<Bytes>, ofs: seq<nat>, n: nat, i: nat, j: nat)
    requires i < n && j < n <= |ofs| == |data| && Permutation(ofs) && Permutation(Swapped(ofs, i, j))
    ensures Values(data, Swapped(ofs, i, j), n) == Swapped(Values(data, ofs, n), i, j)
  {
    hide Permutation;
  }

  lemma MoreSlots(ofs: seq<nat>, n: nat)
    requires n < |ofs| && Permutation(ofs)
    ensures Slots(ofs, n + 1) == Slots(ofs, n) + {ofs[n]} && ofs[n] !in Slots(ofs, n)
  {
  }

  lemma Swap(data: seq<Bytes>, ofs: seq<nat>, n: nat, i: nat, j: nat)
    requires i < n && j < n <= |ofs| == |data| && Permutation(ofs)
    ensures var swapped := Swapped(ofs, i, j);
            && Permutation(swapped)
            && Slots(swapped, n) == Slots(ofs, n)
            && Values(data, swapped, n) == Swapped(Values(data, ofs, n), i, j)
  {
    hide *;
    SwapPermutes(ofs, i, j);
    SwapSlots(ofs, n, i, j);
    SwapValues(data, ofs, n, i, j);
  }

  /** The slots in use, each with its element. */
  ghost function Stored(data: seq<Bytes>, ofs: seq<nat>, n: nat): (m: map<nat, Bytes>)
    requires n <= |ofs| == |data| && Permutation(ofs)
    ensures m.Keys == Slots(ofs, n) && forall s | s in m :: s < |data| && m[s] == data[s]
  {
    map s | s in Slots(ofs, n) :: data[s]
  }

  ghost predicate IsMax(live: map<nat, Bytes>, less: Less, top: nat)
    ensures IsMax(live, less, top) ==> top in live
  {
    top in live && forall s | s in live :: !less(live[top], live[s])
  }

  lemma TopSlotIsMax(data: seq<Bytes>, ofs: seq<nat>, n: nat, less: Less)
    requires 0 < n <= |ofs| == |data| && Permutation(ofs) && WeakOrder(less)
    requires HeapFrom(Values(data, ofs, n), less, 0)
    ensures IsMax(Stored(data, ofs, n), less, ofs[0])
  {
    var v, live := Values(data, ofs, n), Stored(data, ofs, n);
    assert ofs[0] in Slots(ofs, n) && live[ofs[0]] == v[0];
    forall s | s in live
      ensures !less(live[ofs[0]], live[s])
    {
      var j :| 0 <= j < n && ofs[j] == s;
      TopIsMax(v, less, j);
      assert v[j] == live[s];
    }
  }

  lemma SameStored(data: seq<Bytes>, ofs: seq<nat>, ofs': seq<nat>, n: nat)
    requires n <= |ofs| == |ofs'| == |data| && Permutation(ofs) && Permutation(ofs')
    requires Slots(ofs, n) == Slots(ofs', n)
    ensures Stored(data, ofs, n) == Stored(data, ofs', n)
  {
  }

  lemma Leaves(v: seq<Bytes>, less: Less, lo: nat)
    requires |v| <= 2 * lo
    ensures HeapFrom(v, less, lo)
  {
  }

  /** Swapping the top with the last live position and dropping it leaves heap order below the top. */
  lemma RemoveLast(data: seq<Bytes>, ofs: seq<nat>, n: nat, less: Less)
    requires n < |ofs| == |data| && Permutation(ofs) && HeapFrom(Values(data, ofs, n + 1), less, 0)
    requires Permutation(Swapped(ofs, 0, n)) && Slots(Swapped(ofs, 0, n), n + 1) == Slots(ofs, n + 1)
    ensures HeapFrom(Values(data, Swapped(ofs, 0, n), n), less, 1)
    ensures Stored(data, Swapped(ofs, 0, n), n) == Stored(data, ofs, n + 1) - {ofs[0]}
  {
    var swapped := Swapped(ofs, 0, n);
    assert Stored(data, swapped, n) == Stored(data, ofs, n + 1) - {ofs[0]} by {
      MoreSlots(swapped, n);
    }
    hide Slots, Stored, Permutation;
    var v, w := Values(data, ofs, n + 1), Values(data, swapped, n);
    forall j | 0 < j < |w| && 1 <= Parent(j)
      ensures Under(w, less, j)
    {
      assert Under(v, less, j);
    }
  }

  lemma GrowKeeps(data: seq<Bytes>, ofs: seq<nat>, n: nat, more: seq<Bytes>, free: seq<nat>)
    requires n <= |ofs| == |data| == |more| == |free| && Permutation(ofs)
    requires forall i | 0 <= i < |free| :: free[i] == i + |ofs|
    ensures Permutation(ofs + free)
    ensures Values(data + more, ofs + free, n) == Values(data, ofs, n)
    ensures Stored(data + more, ofs + free, n) == Stored(data, ofs, n)
  {
    assert forall i | 0 <= i < n :: (ofs + free)[i] == ofs[i];
    assert Slots(ofs + free, n) == Slots(ofs, n);
  }

  lemma RiseStarts(data: seq<Bytes>, ofs: seq<nat>, n: nat, x: Bytes, less: Less)
    requires n < |ofs| == |data| && Permutation(ofs) && HeapFrom(Values(data, ofs, n), less, 0)
    ensures Rising(Values(data, ofs, n + 1)[n := x], less, n)
  {
    var v, w := Values(data, ofs, n), Values(data, ofs, n + 1)[n := x];
    forall j | 0 < j < |w| && j != n
      ensures Under(w, less, j)
    {
      assert Under(v, less, j);
    }
  }

  lemma RiseEnds(v: seq<Bytes>, less: Less, i: nat)
    requires i < |v| && Rising(v, less, i) && (0 < i ==> !less(v[Parent(i)], v[i]))
    ensures HeapFrom(v, less, 0)
  {
  }

  /** Writing the new element into the slot at position `pos`, which was the first free one. */
  lemma Stores(data: seq<Bytes>, start: seq<nat>, ofs: seq<nat>, n: nat, pos: nat, x: Bytes)
    requires pos < n <= |ofs| == |data| == |start| && Permutation(start) && Permutation(ofs)
    requires ofs[pos] == start[n - 1] && Slots(ofs, n) == Slots(start, n)
    ensures Values(data[ofs[pos] := x], ofs, n) == Values(data, ofs, n)[pos := x]
    ensures ofs[pos] !in Stored(data, start, n - 1)
    ensures Stored(data[ofs[pos] := x], ofs, n) == Stored(data, start, n - 1)[ofs[pos] := x]
  {
    MoreSlots(start, n - 1);
  }

  lemma EmptyStored(data: seq<Bytes>, ofs: seq<nat>)
    requires |ofs| == |data| && Permutation(ofs)
    ensures Stored(data, ofs, 0) == map[]
  {
  }

  const MAX_ITEMS: nat := 0x8000_0000

  // ---------- runs ----------

  datatype Op = Inserting(x: Bytes) | Taking

  /** What an operation does to a plain map from slots to elements, and what it gives out. */
  ghost predicate StepOf(op: Op, less: Less, live: map<nat, Bytes>, out: Option<Bytes>, live': map<nat, Bytes>)
  {
    match op
    case Inserting(x) => out == None && exists loc: nat :: loc !in live && live' == live[loc := x]
    case Taking =>
      if live == map[] then out == None && live' == map[]
      else exists top :: IsMax(live, less, top) && out == Some(live[top]) && live' == live - {top}
  }

  /** `states` are the maps that a run goes through, and `outs` is what it gives out. */
  ghost predicate IsRun(ops: seq<Op>, less: Less, outs: seq<Option<Bytes>>, states: seq<map<nat, Bytes>>)
  {
    && |outs| == |ops| && |states| == |ops| + 1
    && forall k | 0 <= k < |ops| :: StepOf(ops[k], less, states[k], outs[k], states[k + 1])
  }

  lemma RunMore(ops: seq<Op>, less: Less, outs: seq<Option<Bytes>>, states: seq<map<nat, Bytes>>,
                op: Op, out: Option<Bytes>, live: map<nat, Bytes>)
    requires IsRun(ops, less, outs, states) && StepOf(op, less, states[|ops|], out, live)
    ensures IsRun(ops + [op], less, outs + [out], states + [live])
  {
    hide StepOf;
  }

  lemma InsertedIs(live: map<nat, Bytes>, less: Less, loc: nat, x: Bytes)
    requires loc !in live
    ensures StepOf(Inserting(x), less, live, None, live[loc := x])
  {
  }

  lemma TakenIs(live: map<nat, Bytes>, less: Less, top: nat)
    requires IsMax(live, less, top)
    ensures StepOf(Taking, less, live, Some(live[top]), live - {top})
  {
  }

  lemma NothingTaken(less: Less)
    ensures StepOf(Taking, less, map[], None, map[])
  {
  }

  // ---------- what a run conserves ----------

  ghost function Elements(live: map<nat, Bytes>): (e: multiset<Bytes>)
    decreases |live|
  {
    if live == map[] then multiset{}
    else
      var s :| s in live;
      assert |live - {s}| < |live| by { Fewer(live, s); }
      multiset{live[s]} + Elements(live - {s})
  }

  lemma Fewer(live: map<nat, Bytes>, s: nat)
    requires s in live
    ensures |live - {s}| == |live| - 1
  {
    assert (live - {s}).Keys == live.Keys - {s};
    assert |live| == |live.Keys| && |live - {s}| == |(live - {s}).Keys|;
  }

  lemma SomeSlot(live: map<nat, Bytes>) returns (s: nat)
    requires live != map[]
    ensures s in live && Elements(live) == multiset{live[s]} + Elements(live - {s})
  {
    s :| s in live && Elements(live) == multiset{live[s]} + Elements(live - {s});
  }

  /** Whichever slot is taken out first. */
  lemma {:induction false} ElementsWithout(live: map<nat, Bytes>, s: nat)
    requires s in live
    ensures Elements(live) == multiset{live[s]} + Elements(live - {s})
    decreases |live|
  {
    hide Elements;
    var t := SomeSlot(live);
    if t != s {
      Fewer(live, t);
      Fewer(live, s);
      ElementsWithout(live - {t}, s);
      ElementsWithout(live - {s}, t);
      assert live - {t} - {s} == live - {s} - {t};
    }
  }

  ghost function Inserted(ops: seq<Op>): (e: multiset<Bytes>)
  {
    if ops == [] then multiset{}
    else
      var rest, op := ops[..|ops| - 1], ops[|ops| - 1];
      Inserted(rest) + if op.Inserting? then multiset{op.x} else multiset{}
  }

  ghost function Taken(outs: seq<Option<Bytes>>): (e: multiset<Bytes>)
  {
    if outs == [] then multiset{}
    else
      var rest, out := outs[..|outs| - 1], outs[|outs| - 1];
      Taken(rest) + if out.Some? then multiset{out.value} else multiset{}
  }

  lemma NothingMoved()
    ensures Inserted([]) == multiset{} && Taken([]) == multiset{}
  {
  }

  lemma InsertedLast(ops: seq<Op>)
    requires ops != []
    ensures Inserted(ops) == Inserted(ops[..|ops| - 1]) + Inserted([ops[|ops| - 1]])
  {
    assert [ops[|ops| - 1]][..0] == [];
  }

  lemma TakenLast(outs: seq<Option<Bytes>>)
    requires outs != []
    ensures Taken(outs) == Taken(outs[..|outs| - 1]) + Taken([outs[|outs| - 1]])
  {
    assert [outs[|outs| - 1]][..0] == [];
  }

  lemma Chained<T>(start: multiset<T>, i: multiset<T>, j: multiset<T>, middle: multiset<T>,
                   t: multiset<T>, u: multiset<T>, end: multiset<T>)
    requires start + i == middle + t && middle + j == end + u
    ensures start + (i + j) == end + (t + u)
  {
    assert start + (i + j) == (start + i) + j;
    assert (middle + t) + j == (middle + j) + t;
    assert end + (t + u) == (end + u) + t;
  }

  lemma StepConserves(op: Op, less: Less, live: map<nat, Bytes>, out: Option<Bytes>, live': map<nat, Bytes>)
    requires StepOf(op, less, live, out, live')
    ensures Elements(live) + Inserted([op]) == Elements(live') + Taken([out])
  {
    OneMoved(op, out);
    hide Elements, Inserted, Taken, IsMax;
    match op {
      case Inserting(x) =>
        var loc: nat :| loc !in live && live' == live[loc := x];
        ElementsWithout(live', loc);
        assert live' - {loc} == live;
      case Taking =>
        if live != map[] {
          var top :| IsMax(live, less, top) && out == Some(live[top]) && live' == live - {top};
          ElementsWithout(live, top);
        }
    }
  }

  lemma OneMoved(op: Op, out: Option<Bytes>)
    ensures Inserted([op]) == if op.Inserting? then multiset{op.x} else multiset{}
    ensures Taken([out]) == if out.Some? then multiset{out.value} else multiset{}
  {
    assert [op][..0] == [] && [out][..0] == [];
  }

  /** Nothing is lost and nothing is made: what was there and what was inserted is what was taken and
  what is left. */
  lemma {:induction false} RunConserves(ops: seq<Op>, less: Less, outs: seq<Option<Bytes>>,
                                        states: seq<map<nat, Bytes>>)
    requires IsRun(ops, less, outs, states)
    ensures Elements(states[0]) + Inserted(ops) == Elements(states[|ops|]) + Taken(outs)
  {
    hide Elements, Inserted, Taken, StepOf;
    if ops == [] {
      NothingMoved();
    } else {
      var n := |ops| - 1;
      RunConserves(ops[..n], less, outs[..n], states[..n + 1]);
      StepConserves(ops[n], less, states[n], outs[n], states[n + 1]);
      InsertedLast(ops);
      TakenLast(outs);
      Chained(Elements(states[0]), Inserted(ops[..n]), Inserted([ops[n]]), Elements(states[n]),
              Taken(outs[..n]), Taken([outs[n]]), Elements(states[n + 1]));
    }
  }

  class Heap {
    const less: Less
    const elSize: nat
    var data: seq<Bytes>
    var ofs: seq<nat>
    var numItems: nat

    /** All but the heap order. */
    ghost predicate Shape()
      reads this
    {
      && WeakOrder(less)
      && 0 < |data| == |ofs|
      && numItems <= |ofs|
      && numItems <= MAX_ITEMS
      && Permutation(ofs)
    }

    ghost predicate Valid()
      reads this
    {
      Shape() && HeapFrom(Values(data, ofs, numItems), less, 0)
    }

    /** The elements of the heap, by the slot that was returned when they were inserted. */
    ghost function Live(): (m: map<nat, Bytes>)
      requires Shape()
      reads this
    {
      Stored(data, ofs, numItems)
    }

    /** heap_init */
    constructor (initialSize: nat, elSize: nat, less: Less)
      requires WeakOrder(less) && 0 < elSize
      ensures Valid() && Live() == map[] && this.elSize == elSize && this.less == less && numItems == 0
      ensures |ofs| == if initialSize == 0 then 128 else initialSize
    {
      var size := if initialSize == 0 then 128 else initialSize;
      this.less, this.elSize := less, elSize;
      numItems := 0;
      data := seq(size, _ => Zeros(elSize));
      ofs := seq(size, i => i);
    }

    /** heap_top */
    method Top() returns (top: Bytes)
      requires Valid() && 0 < numItems
      ensures IsMax(Live(), less, ofs[0]) && top == Live()[ofs[0]]
    {
      TopSlotIsMax(data, ofs, numItems, less);
      top := data[ofs[0]];
    }

    /** _heap_fix_down: extends the heap order from below position `lo` to position `lo`. */
    method FixDown(lo: nat)
      requires Shape() && HeapFrom(Values(data, ofs, numItems), less, lo + 1)
      modifies this`ofs
      ensures Shape() && HeapFrom(Values(data, ofs, numItems), less, lo)
      ensures Live() == old(Live())
      ensures ofs[numItems..] == old(ofs[numItems..])
    {
      hide HeapFrom, Permutation, WeakOrder, Slots, Stored, Fixing, LargestChild;
      var i := lo;
      FixStarts(Values(data, ofs, numItems), less, lo);
      var child := 2 * i + 1;
      while child < numItems
        invariant lo <= i && child == 2 * i + 1 && Shape() && |ofs| == |old(ofs)|
        invariant Fixing(Values(data, ofs, numItems), less, lo, i)
        invariant Slots(ofs, numItems) == Slots(old(ofs), numItems)
        invariant ofs[numItems..] == old(ofs[numItems..])
        decreases numItems - i
      {
        ghost var v := Values(data, ofs, numItems);
        ChooseChild(v, less, i);
        if child + 1 < numItems && less(data[ofs[child]], data[ofs[child + 1]]) {
          child := child + 1;
        }
        var parentOfs, childOfs := ofs[i], ofs[child];
        if less(data[parentOfs], data[childOfs]) {
          FixStep(v, less, lo, i, child);
          Swap(data, ofs, numItems, i, child);
          ghost var before := ofs;
          ofs := ofs[child := parentOfs];
          ofs := ofs[i := childOfs];
          assert ofs == Swapped(before, i, child);
          i := child;
          child := 2 * i + 1;
        } else {
          FixEnds(v, less, lo, i, child);
          SameStored(data, old(ofs), ofs, numItems);
          return;
        }
      }
      FixEnds(Values(data, ofs, numItems), less, lo, i, child);
      SameStored(data, old(ofs), ofs, numItems);
    }

    /** heap_build: any elements in the live slots are put into heap order. */
    method Build()
      requires Shape()
      modifies this`ofs
      ensures Valid() && Live() == old(Live())
    {
      hide HeapFrom, Permutation, WeakOrder, Slots, Stored;
      var i := numItems / 2;
      Leaves(Values(data, ofs, numItems), less, i + 1);
      while true
        invariant 0 <= i && Shape() && Live() == old(Live())
        invariant HeapFrom(Values(data, ofs, numItems), less, i + 1)
        decreases i
      {
        FixDown(i);
        if i == 0 {
          return;
        }
        i := i - 1;
      }
    }

    /** heap_remove_top: nothing happens to an empty heap. */
    method RemoveTop()
      requires Valid()
      modifies this`ofs, this`numItems
      ensures Valid()
      ensures numItems == (if old(numItems) == 0 then 0 else old(numItems) - 1)
      ensures if old(numItems) == 0 then Live() == old(Live())
              else IsMax(old(Live()), less, old(ofs[0])) && Live() == old(Live()) - {old(ofs[0])}
    {
      hide HeapFrom, Permutation, WeakOrder, Slots, Stored, IsMax;
      if numItems == 0 {
        return;
      }
      TopSlotIsMax(data, ofs, numItems, less);
      ghost var before, n := ofs, numItems - 1;
      Swap(data, ofs, numItems, 0, n);
      RemoveLast(data, before, n, less);
      numItems := numItems - 1;
      var first, last := ofs[0], ofs[numItems];
      ofs := ofs[0 := last];
      ofs := ofs[numItems := first];
      assert ofs == Swapped(before, 0, n);
      FixDown(0);
    }

    /** The growing part of heap_insert: the new slots are free ones. */
    method Grow()
      requires Valid()
      modifies this`data, this`ofs
      ensures Valid() && Live() == old(Live()) && |ofs| == 2 * |old(ofs)| && |old(ofs)| <= |ofs|
      ensures ofs[|old(ofs)|] == |old(ofs)|
    {
      hide HeapFrom, Permutation, WeakOrder, Slots, Stored;
      var size := |ofs|;
      var more := seq(size, _ => Zeros(elSize));
      var free := seq(size, i => i + size);
      GrowKeeps(data, ofs, numItems, more, free);
      data, ofs := data + more, ofs + free;
    }

    /** The loop of heap_insert: the first free slot travels up to the position where `userData` belongs. */
    method SiftUp(userData: Bytes) returns (pos: nat)
      requires Valid() && numItems < |ofs|
      modifies this`ofs
      ensures |ofs| == |old(ofs)| && Permutation(ofs) && pos <= numItems
      ensures ofs[pos] == old(ofs[numItems]) && Slots(ofs, numItems + 1) == Slots(old(ofs), numItems + 1)
      ensures HeapFrom(Values(data, ofs, numItems + 1)[pos := userData], less, 0)
    {
      hide HeapFrom, Permutation, WeakOrder, Slots, Stored, Rising, Under;
      pos := numItems;
      ghost var n := numItems + 1;
      RiseStarts(data, ofs, numItems, userData, less);
      while pos > 0
        invariant 0 <= pos < n <= |ofs| == |old(ofs)| && Permutation(ofs)
        invariant ofs[pos] == old(ofs[numItems]) && Slots(ofs, n) == Slots(old(ofs), n)
        invariant Rising(Values(data, ofs, n)[pos := userData], less, pos)
      {
        var parent := (pos - 1) / 2;
        ghost var w := Values(data, ofs, n)[pos := userData];
        if less(data[ofs[parent]], userData) {
          var ofsPos, ofsParent := ofs[pos], ofs[parent];
          RiseStep(w, less, pos);
          Swap(data, ofs, n, pos, parent);
          ghost var before := ofs;
          ofs := ofs[pos := ofsParent];
          ofs := ofs[parent := ofsPos];
          assert ofs == Swapped(before, pos, parent);
          assert Values(data, ofs, n)[parent := userData] == Swapped(w, pos, parent);
          pos := parent;
        } else {
          break;
        }
      }
      RiseEnds(Values(data, ofs, n)[pos := userData], less, pos);
    }

    /** heap_insert: the new element takes a free slot, which is returned; every other element stays
    in its own. */
    method Insert(userData: Bytes) returns (loc: nat)
      requires Valid() && |userData| == elSize && numItems < MAX_ITEMS
      modifies this
      ensures Valid() && loc !in old(Live()) && Live() == old(Live())[loc := userData] && numItems == old(numItems) + 1
      ensures if old(numItems) < |old(ofs)| then loc == old(ofs[numItems]) && |ofs| == |old(ofs)|
              else loc == |old(ofs)| && |ofs| == 2 * |old(ofs)|
    {
      hide HeapFrom, Permutation, WeakOrder, Slots, Stored;
      if numItems == |ofs| {
        Grow();
      }
      ghost var start := ofs;
      var pos := SiftUp(userData);
      loc := ofs[pos];
      Stores(data, start, ofs, numItems + 1, pos, userData);
      data := data[loc := userData];
      numItems := numItems + 1;
    }

    /** One operation of a run: an insertion is made as long as the heap may grow, and the top is read
    and removed. */
    method Perform(op: Op) returns (done: bool, out: Option<Bytes>)
      requires Valid() && (op.Inserting? ==> |op.x| == elSize)
      modifies this
      ensures Valid()
      ensures done <==> (op.Inserting? ==> old(numItems) < MAX_ITEMS)
      ensures if done then StepOf(op, less, old(Live()), out, Live()) else unchanged(this)
    {
      hide HeapFrom, Permutation, WeakOrder, Slots, Stored, IsMax, StepOf;
      done, out := true, None;
      match op {
        case Inserting(x) =>
          if numItems == MAX_ITEMS {
            done := false;
          } else {
            var loc := Insert(x);
            InsertedIs(old(Live()), less, loc, x);
          }
        case Taking =>
          if numItems > 0 {
            var top := Top();
            out := Some(top);
            TakenIs(Live(), less, ofs[0]);
          } else {
            EmptyStored(data, ofs);
            NothingTaken(less);
          }
          RemoveTop();
      }
    }

    /** Over every run of insertions and removals the heap agrees with a plain map from slots to
    elements, step by step: an element stays in its slot until it is a maximum and is taken. */
    method Run(ops: seq<Op>) returns (count: nat, outs: seq<Option<Bytes>>, ghost states: seq<map<nat, Bytes>>)
      requires Valid() && forall op | op in ops :: op.Inserting? ==> |op.x| == elSize
      modifies this
      ensures Valid() && count <= |ops| && |states| == count + 1
      ensures IsRun(ops[..count], less, outs, states) && states[0] == old(Live()) && states[count] == Live()
      ensures count < |ops| ==> ops[count].Inserting? && numItems == MAX_ITEMS
    {
      hide HeapFrom, Permutation, WeakOrder, Slots, Stored, StepOf;
      count, outs, states := 0, [], [Live()];
      while count < |ops|
        invariant Valid() && count <= |ops| && |states| == count + 1
        invariant IsRun(ops[..count], less, outs, states) && states[0] == old(Live()) && states[count] == Live()
      {
        assert ops[count] in ops;
        var done, out := Perform(ops[count]);
        if !done {
          return;
        }
        assert ops[..count] + [ops[count]] == ops[..count + 1];
        RunMore(ops[..count], less, outs, states, ops[count], out, Live());
        outs, states, count := outs + [out], states + [Live()], count + 1;
      }
    }

    /** Taking the top until nothing is left: every element once, none larger than the one before. */
    method Drain() returns (out: seq<Bytes>, ghost slots: seq<nat>)
      requires Valid()
      modifies this`ofs, this`numItems
      ensures Valid() && Live() == map[]
      ensures |slots| == |out| && forall i, j | 0 <= i < j < |out| :: slots[i] != slots[j] && !less(out[i], out[j])
      ensures (set s | s in slots) == old(Live()).Keys
      ensures forall i | 0 <= i < |out| :: out[i] == old(Live())[slots[i]]
    {
      hide HeapFrom, Permutation, WeakOrder, Slots, Stored;
      out, slots := [], [];
      while numItems > 0
        invariant Valid() && |slots| == |out|
        invariant forall s | s in slots :: s in old(Live()) && s !in Live()
        invariant forall s | s in old(Live()) :: s in slots || (s in Live() && Live()[s] == old(Live())[s])
        invariant forall s | s in Live() :: s in old(Live())
        invariant forall i | 0 <= i < |out| :: out[i] == old(Live())[slots[i]]
        invariant forall i, s | 0 <= i < |out| && s in Live() :: !less(out[i], Live()[s])
        invariant forall i, j | 0 <= i < j < |out| :: slots[i] != slots[j] && !less(out[i], out[j])
        decreases numItems
      {
        var top := Top();
        out, slots := out + [top], slots + [ofs[0]];
        RemoveTop();
      }
      EmptyStored(data, ofs);
    }
  }
}
