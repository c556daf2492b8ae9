/** The buckets of src/thashtable.c: vectors of (hashcode, record) pairs, each doubling the capacity.

Records are separately allocated; a reference is their address, 0 for none. */
module THashBuckets {
  import opened Words
  import opened Segments
  import opened Probing
  import opened BucketStore

  const BITS: nat := 5

  /** `struct tht_entry`; a free bucket keeps its old hashcode. */
  datatype Bucket = Bucket(hash: uint32, rec: nat)

  type Vectors = seq<seq<Bucket>>

  function Blank(n: nat): (r: seq<Bucket>)
    ensures |r| == n && forall i | 0 <= i < n :: r[i] == Bucket(0, 0)
  {
    seq(n, _ => Bucket(0, 0))
  }

  ghost predicate Shaped(v: Vectors)
    ensures Shaped(v) ==> 0 < |v|
  {
    0 < |v| && forall s | 0 <= s < |v| :: |v[s]| == VectorSize(BITS, s)
  }

  function Capacity(v: Vectors): (n: nat)
    requires 0 < |v|
    ensures 0 < n
  {
    Pow2(BITS + |v| - 1)
  }

  /** `_thashtable_bucket` */
  function At(v: Vectors, b: nat): (x: Bucket)
    requires Shaped(v) && b < Capacity(v)
  {
    Located(BITS, b, |v|);
    LocateIsOnto(BITS, b);
    v[VectorOf(BITS, b)][OffsetOf(BITS, b)]
  }

  function Put(v: Vectors, b: nat, x: Bucket): (r: Vectors)
    requires Shaped(v) && b < Capacity(v)
    ensures |r| == |v|
  {
    Located(BITS, b, |v|);
    LocateIsOnto(BITS, b);
    var s := VectorOf(BITS, b);
    v[s := v[s][OffsetOf(BITS, b) := x]]
  }

  function SlotOf(x: Bucket): Slot
  {
    if x.rec == 0 then Vacant else Entry(x.hash, x.rec)
  }

  ghost function Slots(v: Vectors): (t: Table)
    requires Shaped(v)
    ensures |t| == Capacity(v) && forall b | 0 <= b < |t| :: t[b] == SlotOf(At(v, b))
  {
    seq(Capacity(v), b requires 0 <= b < Capacity(v) => SlotOf(At(v, b)))
  }

  lemma PutSlots(v: Vectors, b: nat, x: Bucket)
    requires Shaped(v) && b < Capacity(v)
    ensures Shaped(Put(v, b, x)) && At(Put(v, b, x), b) == x && Slots(Put(v, b, x)) == Slots(v)[b := SlotOf(x)]
  {
    var w := Put(v, b, x);
    Located(BITS, b, |v|);
    LocateIsOnto(BITS, b);
    assert Shaped(w);
    hide Shaped, Pow2, VectorSize;
    forall c | 0 <= c < Capacity(v)
      ensures At(w, c) == if c == b then x else At(v, c)
    {
      LocateIsOnto(BITS, c);
      Located(BITS, c, |v|);
    }
  }

  lemma GrownSlots(v: Vectors)
    requires Shaped(v)
    ensures var w := v + [Blank(Capacity(v))];
            && Shaped(w) && Capacity(w) == 2 * Capacity(v) && Slots(w)[..Capacity(v)] == Slots(v)
            && forall b | Capacity(v) <= b < Capacity(w) :: Slots(w)[b].Vacant?
  {
    var w := v + [Blank(Capacity(v))];
    assert Capacity(w) == 2 * Capacity(v);
    hide Pow2;
    forall b | 0 <= b < Capacity(w)
      ensures At(w, b) == if b < Capacity(v) then At(v, b) else Bucket(0, 0)
    {
      Located(BITS, b, |w|);
      LocateIsOnto(BITS, b);
      if b < Capacity(v) {
        Located(BITS, b, |v|);
      } else {
        LastVectorHolds(b, |v|);
      }
    }
  }

  lemma LastVectorHolds(b: nat, n: nat)
    requires 0 < n && Pow2(BITS + n - 1) <= b < Pow2(BITS + n)
    ensures VectorOf(BITS, b) == n
  {
    Log2Unique(b, BITS + n - 1);
    Pow2Monotone(BITS, BITS + n - 1);
  }

  // ---------- rehashing ----------

  method FirstVacant(v: Vectors, start: nat, ghost e: nat) returns (q: nat)
    requires Shaped(v) && start < Capacity(v) && e < Capacity(v) && Slots(v)[e].Vacant?
    ensures q < Capacity(v) && Probed(Slots(v), start, q, e) && Slots(v)[q].Vacant?
  {
    hide *;
    ghost var t := Slots(v);
    ProbeStarts(t, start, e);
    q := start;
    SlotRec(v, q);
    while At(v, q).rec != 0
      invariant q < |t| && Probed(t, start, q, e) && (At(v, q).rec == 0 <==> t[q].Vacant?)
      decreases Distance(q, e, |t|)
    {
      ProbeOn(t, start, q, e);
      q := Next(q, Capacity(v));
      SlotRec(v, q);
    }
  }

  lemma SlotRec(v: Vectors, b: nat)
    requires Shaped(v) && b < Capacity(v)
    ensures Slots(v)[b] == if At(v, b).rec == 0 then Vacant else Entry(At(v, b).hash, At(v, b).rec)
  {
  }

  /** `_thashtable_move_buckets_range` */
  method MoveBucketsRange(v: Vectors, begin: nat, end: nat, ghost first: bool, ghost t0: Table, ghost b: nat)
    returns (r: Vectors)
    requires Shaped(v) && 2 * |t0| == Capacity(v) && b < |t0|
    requires begin <= end == (if first then |t0| else b)
    requires Pass(first, t0, Slots(v), b, begin)
    ensures Shaped(r) && |r| == |v| && Pass(first, t0, Slots(r), b, end)
  {
    hide *;
    r := v;
    var p := begin;
    while p < end
      invariant begin <= p <= end && Shaped(r) && |r| == |v| && Capacity(r) == Capacity(v)
      invariant Pass(first, t0, Slots(r), b, p)
    {
      ghost var t := Slots(r);
      ghost var e := PassBound(first, t0, t, b, p);
      ghost var q: nat;
      r, q := MoveBucket(r, p, e);
      PassStep(first, t0, t, Slots(r), b, p, q, e);
      p := p + 1;
    }
  }

  method MoveBucket(v: Vectors, p: nat, ghost e: nat) returns (r: Vectors, ghost q: nat)
    requires Shaped(v) && p < Capacity(v) && e < Capacity(v) && Slots(v)[p := Vacant][e].Vacant?
    ensures Shaped(r) && |r| == |v| && Capacity(r) == Capacity(v) && Relocated(Slots(v), Slots(r), p, q, e)
  {
    hide *;
    ghost var t := Slots(v);
    SlotRec(v, p);
    var x := At(v, p);
    var newBucket: nat := Ideal(x.hash, Capacity(v));
    if p == newBucket {
      RelocatedInPlace(t, p, e);
      return v, p;
    }
    var m := Free(v, p);
    var target := FirstVacant(m, newBucket, e);
    q := target;
    r := Occupy(m, target, Bucket(x.hash, x.rec));
    RelocatedByProbe(t, Slots(r), p, target, e, x.hash, x.rec);
  }

  method Occupy(v: Vectors, b: nat, x: Bucket) returns (r: Vectors)
    requires Shaped(v) && b < Capacity(v)
    ensures Shaped(r) && |r| == |v| && Capacity(r) == Capacity(v)
    ensures Slots(r) == Slots(v)[b := if x.rec == 0 then Vacant else Entry(x.hash, x.rec)]
  {
    PutSlots(v, b, x);
    r := Put(v, b, x);
  }

  /** The record is dropped; the hashcode stays. */
  method Free(v: Vectors, b: nat) returns (r: Vectors)
    requires Shaped(v) && b < Capacity(v)
    ensures Shaped(r) && |r| == |v| && Capacity(r) == Capacity(v) && Slots(r) == Slots(v)[b := Vacant]
  {
    PutSlots(v, b, Bucket(At(v, b).hash, 0));
    r := Put(v, b, Bucket(At(v, b).hash, 0));
  }

  /** `_thashtable_grow` */
  method Grow(v: Vectors) returns (r: Vectors)
    requires Shaped(v) && Ordered(Slots(v)) && Distinct(Slots(v)) && |Recs(Slots(v))| < Capacity(v)
    ensures Shaped(r) && Capacity(r) == 2 * Capacity(v)
    ensures Ordered(Slots(r)) && Distinct(Slots(r))
    ensures Entries(Slots(r)) == Entries(Slots(v)) && Recs(Slots(r)) == Recs(Slots(v))
  {
    hide *;
    ghost var t0 := Slots(v);
    GrownSlots(v);
    var capacity := Capacity(v);
    var w := v + [Blank(capacity)];
    ghost var t := Slots(w);
    ghost var e := VacantExists(t0);
    var b := 0;
    SlotRec(w, b);
    assert t[..capacity][b] == t[b];
    while At(w, b).rec != 0
      invariant b <= e < |t0| == capacity && Shaped(w) && Capacity(w) == 2 * capacity
      invariant t[b] == t0[b] && (At(w, b).rec == 0 <==> t[b].Vacant?)
      decreases e - b
    {
      b := b + 1;
      SlotRec(w, b);
      assert t[..capacity][b] == t[b];
    }
    FirstPassStarts(t0, t, b);
    var m := MoveBucketsRange(w, b, capacity, true, t0, b);
    SameShape(w, m);
    SecondPassStarts(t0, Slots(m), b);
    r := MoveBucketsRange(m, 0, b, false, t0, b);
    SameShape(w, r);
    SecondPassEnds(t0, Slots(r), b);
  }

  lemma SameShape(v: Vectors, w: Vectors)
    requires Shaped(v) && Shaped(w) && |v| == |w|
    ensures Capacity(v) == Capacity(w)
  {
  }

  // ---------- repairing a chain ----------

  /** `_thashtable_fix_chain_down`, behind the emptied bucket `d`; it ends at `z`, the first bucket after
  `d` that was free before. */
  method FixChainDown(v: Vectors, start: nat, ghost t0: Table, ghost d: nat, ghost z: nat)
    returns (r: Vectors, last: nat)
    requires Shaped(v) && start < Capacity(v) && z < Capacity(v) && Repairing(t0, Slots(v), d, z, start)
    ensures Shaped(r) && |r| == |v| && Capacity(r) == Capacity(v) && last == z
    ensures Ordered(Slots(r)) && Distinct(Slots(r))
    ensures Entries(Slots(r)) == Entries(t0) - {t0[d]} && Recs(Slots(r)) == Recs(t0) - {t0[d].rec}
  {
    hide *;
    r, last := v, start;
    SlotRec(r, last);
    while At(r, last).rec != 0
      invariant Shaped(r) && |r| == |v| && Capacity(r) == Capacity(v) && last < Capacity(v)
      invariant Repairing(t0, Slots(r), d, z, last)
      invariant Slots(r)[last] == if At(r, last).rec == 0 then Vacant else Entry(At(r, last).hash, At(r, last).rec)
      decreases Distance(last, z, Capacity(v))
    {
      RepairGoesOn(t0, Slots(r), d, z, last);
      r := FixBucket(r, last, t0, d, z);
      last := Next(last, Capacity(v));
      SlotRec(r, last);
    }
    RepairEnds(t0, Slots(r), d, z, last);
  }

  method FixBucket(v: Vectors, p: nat, ghost t0: Table, ghost d: nat, ghost z: nat) returns (r: Vectors)
    requires Shaped(v) && p < Capacity(v) && p != z
    requires Repairing(t0, Slots(v), d, z, p) && Slots(v)[p].Entry?
    ensures Shaped(r) && |r| == |v| && Capacity(r) == Capacity(v)
    ensures Repairing(t0, Slots(r), d, z, Next(p, Capacity(v)))
  {
    hide *;
    ghost var t := Slots(v);
    ghost var t1 := t[p := Vacant];
    SlotRec(v, p);
    var x := At(v, p);
    var newBucket: nat := Ideal(x.hash, Capacity(v));
    ghost var j := newBucket;
    ProbeStarts(t1, j, p);
    SlotRec(v, newBucket);
    while newBucket != p && At(v, newBucket).rec != 0
      invariant newBucket < |t1| && Probed(t1, j, newBucket, p)
      invariant At(v, newBucket).rec == 0 <==> t[newBucket].Vacant?
      decreases Distance(newBucket, p, |t1|)
    {
      ProbeOn(t1, j, newBucket, p);
      newBucket := Next(newBucket, Capacity(v));
      SlotRec(v, newBucket);
    }
    RepairMove(t0, t, d, z, p, newBucket);
    if newBucket != p {
      var m := Occupy(v, newBucket, x);
      r := Free(m, p);
    } else {
      r := v;
    }
    MovedEitherWay(t, Slots(r), p, newBucket);
  }

  // ---------- visiting every record ----------

  /** `thashtable_foreach` */
  method ForEach(v: Vectors, func: nat -> int) returns (res: int, visited: seq<nat>)
    requires Shaped(v)
    ensures Visited(Listed(Slots(v)), func, visited, res)
  {
    hide *;
    ghost var t := Slots(v);
    VectorCount(v);
    var numBuckets := Log2(Capacity(v)) - BITS + 1;
    var s, vectSize := 0, Pow2(BITS);
    ghost var start := 0;
    visited := [];
    VectorsInOrder(BITS, 0);
    WalkStarts(t, func);
    while s < numBuckets
      invariant s <= numBuckets == |v|
      invariant vectSize == VectorSize(BITS, s) && start == VectorStart(BITS, s)
      invariant start <= |t| && Walked(t, func, start, visited)
      invariant s == numBuckets ==> start == |t|
      decreases numBuckets - s
    {
      res, visited := ForEachInVector(v, s, vectSize, func, visited);
      if res < 0 {
        return;
      }
      start := start + vectSize;
      VectorsInOrder(BITS, s);
      LastOfVectors(v, s);
      if s > 0 {
        vectSize := 2 * vectSize;
      }
      s := s + 1;
    }
    WalkEnds(t, func, visited);
    res := 0;
  }

  method ForEachInVector(v: Vectors, s: nat, vectSize: nat, func: nat -> int, before: seq<nat>)
    returns (res: int, visited: seq<nat>)
    requires Shaped(v) && s < |v| && vectSize == VectorSize(BITS, s)
    requires VectorStart(BITS, s) <= Capacity(v) && Walked(Slots(v), func, VectorStart(BITS, s), before)
    ensures res >= 0 ==> && VectorStart(BITS, s) + vectSize <= Capacity(v)
                         && Walked(Slots(v), func, VectorStart(BITS, s) + vectSize, visited)
    ensures res < 0 ==> Visited(Listed(Slots(v)), func, visited, res)
  {
    hide *;
    visited := before;
    ghost var t, start := Slots(v), VectorStart(BITS, s);
    var i := 0;
    while i < vectSize
      invariant i <= vectSize && start + i <= |t|
      invariant Walked(t, func, start + i, visited)
    {
      PlaceInVector(v, s, i);
      WalkOn(t, func, start + i, visited);
      var rec := v[s][i].rec;
      if rec != 0 {
        visited := visited + [rec];
        res := func(rec);
        if res < 0 {
          return;
        }
      }
      i := i + 1;
    }
    res := 0;
  }

  lemma VectorCount(v: Vectors)
    requires Shaped(v)
    ensures Log2(Capacity(v)) >= BITS && Log2(Capacity(v)) - BITS + 1 == |v| && 0 <= Pow2(BITS)
  {
    Pow2Grows(BITS + |v| - 1, BITS + |v|);
    Log2Unique(Capacity(v), BITS + |v| - 1);
  }

  lemma LastOfVectors(v: Vectors, s: nat)
    requires Shaped(v) && s < |v|
    ensures VectorStart(BITS, s + 1) <= Capacity(v)
    ensures s + 1 == |v| ==> VectorStart(BITS, s + 1) == Capacity(v)
  {
    Pow2Monotone(BITS + s, BITS + |v| - 1);
  }

  lemma PlaceInVector(v: Vectors, s: nat, i: nat)
    requires Shaped(v) && s < |v| && i < VectorSize(BITS, s)
    ensures i < |v[s]| && VectorStart(BITS, s) + i < Capacity(v)
    ensures Slots(v)[VectorStart(BITS, s) + i] == if v[s][i].rec == 0 then Vacant else Entry(v[s][i].hash, v[s][i].rec)
  {
    LocateIsOneToOne(BITS, s, i);
    LastOfVectors(v, s);
    VectorsInOrder(BITS, s);
  }
}
