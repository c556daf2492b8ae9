/** Bucket vectors in byte memory, and the loops that `hashtable` and `lhashtable` run over them.

A bucket is a 32-bit hashcode followed by a 32-bit record reference; reference 0 marks it free, and
the hashcode of a free bucket means nothing.  `Slots` is the table that the bytes represent.  The
loops are proved against the slot-level description in `Probing`, and change no byte outside the
vectors. */
module BucketStore {
  import opened Words
  import opened Probing
  import opened Segments

  function SlotAt(mem: Bytes, a: nat): (s: Slot)
    requires a + BUCKET_SIZE <= |mem|
  {
    if U32(mem, a + 4) == 0 then Vacant else Entry(U32(mem, a), U32(mem, a + 4))
  }

  function HashAt(mem: Bytes, l: Layout, b: nat): (h: uint32)
    requires l.Fits(0, |mem|) && b < l.Capacity()
  {
    l.AddrFits(b, 0, |mem|);
    U32(mem, l.Addr(b))
  }

  function RecAt(mem: Bytes, l: Layout, b: nat): (r: uint32)
    requires l.Fits(0, |mem|) && b < l.Capacity()
  {
    l.AddrFits(b, 0, |mem|);
    U32(mem, l.Addr(b) + 4)
  }

  ghost function Slots(mem: Bytes, l: Layout): (t: Table)
    requires l.Fits(0, |mem|)
    ensures |t| == l.Capacity()
  {
    seq(l.Capacity(), b requires 0 <= b < l.Capacity() => l.AddrFits(b, 0, |mem|); SlotAt(mem, l.Addr(b)))
  }

  /** Memory changed inside the vectors only. */
  ghost predicate OnlyVectors(m: Bytes, m': Bytes, l: Layout) {
    && |m| == |m'|
    && (forall a :: 0 <= a < |m| && !l.Holds(a) ==> m[a] == m'[a])
  }

  lemma NothingWritten(m: Bytes, l: Layout)
    ensures OnlyVectors(m, m, l)
  {
  }

  lemma WrittenTwice(m: Bytes, m': Bytes, m'': Bytes, l: Layout)
    requires OnlyVectors(m, m', l) && OnlyVectors(m', m'', l)
    ensures OnlyVectors(m, m'', l)
  {
  }

  lemma SlotSame(m: Bytes, m': Bytes, a: nat)
    requires Same(m, m', a, BUCKET_SIZE)
    ensures SlotAt(m, a) == SlotAt(m', a)
  {
  }

  /** The table depends on the bytes of its vectors alone. */
  lemma SlotsFrame(m: Bytes, m': Bytes, l: Layout)
    requires l.Fits(0, |m|) && l.Fits(0, |m'|)
    requires forall a :: 0 <= a < |m| && a < |m'| && l.Holds(a) ==> m[a] == m'[a]
    ensures Slots(m, l) == Slots(m', l)
  {
    forall b | 0 <= b < l.Capacity()
      ensures Slots(m, l)[b] == Slots(m', l)[b]
    {
      l.AddrIsHeld(b);
      l.AddrFits(b, 0, |m|);
      l.AddrFits(b, 0, |m'|);
      SlotSame(m, m', l.Addr(b));
    }
  }

  /** What the loops read of a bucket is its slot. */
  lemma SlotsAt(mem: Bytes, l: Layout, b: nat)
    requires l.Fits(0, |mem|) && b < l.Capacity()
    ensures Slots(mem, l)[b] == if RecAt(mem, l, b) == 0 then Vacant else Entry(HashAt(mem, l, b), RecAt(mem, l, b))
  {
  }

  lemma RecAtAddr(mem: Bytes, l: Layout, b: nat)
    requires l.Fits(0, |mem|) && b < l.Capacity()
    ensures l.Addr(b) + 8 <= |mem| && RecAt(mem, l, b) == U32(mem, l.Addr(b) + 4)
  {
    l.AddrFits(b, 0, |mem|);
  }

  /** Memory of zeros is a table of free buckets. */
  lemma ZeroSlots(mem: Bytes, l: Layout)
    requires l.Fits(0, |mem|) && forall a :: 0 <= a < |mem| && l.Holds(a) ==> mem[a] == 0
    ensures forall b :: 0 <= b < l.Capacity() ==> Slots(mem, l)[b].Vacant?
  {
    forall b | 0 <= b < l.Capacity()
      ensures Slots(mem, l)[b].Vacant?
    {
      l.AddrFits(b, 0, |mem|);
      l.AddrIsHeld(b);
      assert U32(mem, l.Addr(b) + 4) == 0;
    }
  }

  /** After `pad` bytes, a zeroed vector is appended that doubles the capacity: it is all free and the
  buckets before it are as they were. */
  lemma AppendedSlots(mem: Bytes, pad: nat, l: Layout)
    requires l.Fits(0, |mem|)
    ensures var m := mem + Zeros(pad) + Zeros(BUCKET_SIZE * l.Capacity());
            var l' := Layout(l.bits, l.vectors + [|mem| + pad]);
            && l'.Fits(0, |m|) && l'.Capacity() == 2 * l.Capacity()
            && Slots(m, l')[..l.Capacity()] == Slots(mem, l)
            && (forall i :: l.Capacity() <= i < l'.Capacity() ==> Slots(m, l')[i].Vacant?)
  {
    var m := mem + Zeros(pad) + Zeros(BUCKET_SIZE * l.Capacity());
    var a, n := |mem| + pad, l.Capacity();
    var l' := Layout(l.bits, l.vectors + [a]);
    l.AppendFits(a, 0, |mem|, |m|);
    l.AppendKeepsAddr(a, 0);
    forall b | 0 <= b < n
      ensures Slots(m, l')[b] == Slots(mem, l)[b]
    {
      l.AppendKeepsAddr(a, b);
      l.AddrFits(b, 0, |mem|);
      SlotSame(mem, m, l.Addr(b));
    }
    forall b | n <= b < 2 * n
      ensures Slots(m, l')[b].Vacant?
    {
      l.AppendKeepsAddr(a, b);
      assert l'.Addr(b) >= a && l'.Addr(b) + 8 <= |m|;
      assert U32(m, l'.Addr(b) + 4) == 0;
    }
  }

  function SetHash(mem: Bytes, l: Layout, b: nat, h: uint32): (r: Bytes)
    requires l.Fits(0, |mem|) && b < l.Capacity()
    ensures |r| == |mem| && HashAt(r, l, b) == h && RecAt(r, l, b) == RecAt(mem, l, b)
    ensures forall i :: 0 <= i < |mem| && !(l.Addr(b) <= i < l.Addr(b) + 8) ==> r[i] == mem[i]
  {
    l.AddrFits(b, 0, |mem|);
    Put32(mem, l.Addr(b), h)
  }

  function SetRec(mem: Bytes, l: Layout, b: nat, x: uint32): (r: Bytes)
    requires l.Fits(0, |mem|) && b < l.Capacity()
    ensures |r| == |mem| && RecAt(r, l, b) == x && HashAt(r, l, b) == HashAt(mem, l, b)
    ensures forall i :: 0 <= i < |mem| && !(l.Addr(b) <= i < l.Addr(b) + 8) ==> r[i] == mem[i]
  {
    l.AddrFits(b, 0, |mem|);
    Put32(mem, l.Addr(b) + 4, x)
  }

  /** A write inside one bucket leaves every other bucket and all other memory as it was. */
  lemma BucketWrite(m: Bytes, m': Bytes, l: Layout, b: nat)
    requires l.Fits(0, |m|) && b < l.Capacity() && |m| == |m'|
    requires forall i :: 0 <= i < |m| && !(l.Addr(b) <= i < l.Addr(b) + 8) ==> m'[i] == m[i]
    ensures forall c :: 0 <= c < l.Capacity() && c != b ==> Slots(m', l)[c] == Slots(m, l)[c]
    ensures OnlyVectors(m, m', l)
  {
    l.AddrIsHeld(b);
    forall c | 0 <= c < l.Capacity() && c != b
      ensures Slots(m', l)[c] == Slots(m, l)[c]
    {
      l.AddrFits(c, 0, |m|);
      if c < b {
        l.AddrIncreases(c, b, 0, |m|);
      } else {
        l.AddrIncreases(b, c, 0, |m|);
      }
      SlotSame(m, m', l.Addr(c));
    }
  }

  lemma SetRecSlots(mem: Bytes, l: Layout, b: nat, x: uint32)
    requires l.Fits(0, |mem|) && b < l.Capacity()
    ensures Slots(SetRec(mem, l, b, x), l)
         == Slots(mem, l)[b := if x == 0 then Vacant else Entry(HashAt(mem, l, b), x)]
    ensures OnlyVectors(mem, SetRec(mem, l, b, x), l)
  {
    hide *;
    var r := SetRec(mem, l, b, x);
    BucketWrite(mem, r, l, b);
    SlotsAt(r, l, b);
  }

  lemma SetHashSlots(mem: Bytes, l: Layout, b: nat, h: uint32)
    requires l.Fits(0, |mem|) && b < l.Capacity() && RecAt(mem, l, b) == 0
    ensures Slots(SetHash(mem, l, b, h), l) == Slots(mem, l)
    ensures OnlyVectors(mem, SetHash(mem, l, b, h), l)
    ensures HashAt(SetHash(mem, l, b, h), l, b) == h
  {
    hide *;
    var r := SetHash(mem, l, b, h);
    BucketWrite(mem, r, l, b);
    SlotsAt(r, l, b);
    SlotsAt(mem, l, b);
  }

  /** Filling a free bucket: hashcode first, then the record reference. */
  method Fill(mem: Bytes, l: Layout, b: nat, h: uint32, x: uint32) returns (r: Bytes)
    requires l.Fits(0, |mem|) && b < l.Capacity() && Slots(mem, l)[b].Vacant?
    ensures |r| == |mem| && OnlyVectors(mem, r, l)
    ensures Slots(r, l) == Slots(mem, l)[b := if x == 0 then Vacant else Entry(h, x)]
  {
    hide *;
    SlotsAt(mem, l, b);
    SetHashSlots(mem, l, b, h);
    var m := SetHash(mem, l, b, h);
    SetRecSlots(m, l, b, x);
    r := SetRec(m, l, b, x);
    WrittenTwice(mem, m, r, l);
  }

  /** The probe of the relocation loops: the first free bucket from `start` on. */
  method FirstVacant(mem: Bytes, l: Layout, start: nat, ghost e: nat) returns (q: nat)
    requires l.Fits(0, |mem|) && start < l.Capacity() && e < l.Capacity()
    requires Slots(mem, l)[e].Vacant?
    ensures q < l.Capacity() && Probed(Slots(mem, l), start, q, e) && Slots(mem, l)[q].Vacant?
  {
    hide *;
    ghost var t := Slots(mem, l);
    ProbeStarts(t, start, e);
    q := start;
    SlotsAt(mem, l, q);
    while RecAt(mem, l, q) != 0
      invariant q < |t| && Probed(t, start, q, e)
      invariant t[q] == if RecAt(mem, l, q) == 0 then Vacant else Entry(HashAt(mem, l, q), RecAt(mem, l, q))
      decreases Distance(q, e, |t|)
    {
      ProbeOn(t, start, q, e);
      q := Next(q, l.Capacity());
      SlotsAt(mem, l, q);
    }
  }

  /** The pass that rehashes buckets `begin` up to `end` under the new mask.  `t0` is the table before it
  doubled and `b` its first free bucket; the pass is the first one when it starts there.
  `skipVacant`: lhashtable steps over free buckets, hashtable relocates their stale hashcodes. */
  method MoveBucketsRange(mem: Bytes, l: Layout, begin: nat, end: nat, skipVacant: bool,
                          ghost first: bool, ghost t0: Table, ghost b: nat) returns (r: Bytes)
    requires l.Fits(0, |mem|) && 2 * |t0| == l.Capacity() && b < |t0|
    requires begin <= end == (if first then |t0| else b)
    requires Pass(first, t0, Slots(mem, l), b, begin)
    ensures |r| == |mem| && OnlyVectors(mem, r, l)
    ensures Pass(first, t0, Slots(r, l), b, end)
  {
    hide *;
    NothingWritten(mem, l);
    r := mem;
    var p := begin;
    while p < end
      invariant begin <= p <= end && |r| == |mem|
      invariant OnlyVectors(mem, r, l)
      invariant Pass(first, t0, Slots(r, l), b, p)
    {
      ghost var m, t := r, Slots(r, l);
      ghost var e := PassBound(first, t0, t, b, p);
      ghost var q: nat;
      r, q := MoveBucket(r, l, p, skipVacant, e);
      PassStep(first, t0, t, Slots(r, l), b, p, q, e);
      WrittenTwice(mem, m, r, l);
      p := p + 1;
    }
  }

  /** One iteration of the rehashing pass: the entry of bucket `p`, if there is one, moves to the first
  free bucket `q` from its ideal one on. */
  method MoveBucket(mem: Bytes, l: Layout, p: nat, skipVacant: bool, ghost e: nat) returns (r: Bytes, ghost q: nat)
    requires l.Fits(0, |mem|) && p < l.Capacity() && e < l.Capacity()
    requires Slots(mem, l)[p := Vacant][e].Vacant?
    ensures |r| == |mem| && OnlyVectors(mem, r, l)
    ensures Relocated(Slots(mem, l), Slots(r, l), p, q, e)
  {
    hide *;
    ghost var t := Slots(mem, l);
    SlotsAt(mem, l, p);
    var rec := RecAt(mem, l, p);
    var hash := HashAt(mem, l, p);
    var newBucket: nat := Ideal(hash, l.Capacity());
    if (skipVacant && rec == 0) || p == newBucket {
      NothingWritten(mem, l);
      RelocatedInPlace(t, p, e);
      return mem, p;
    }
    SetRecSlots(mem, l, p, 0);
    var m := SetRec(mem, l, p, 0);
    var target := FirstVacant(m, l, newBucket, e);
    q := target;
    r := Fill(m, l, target, hash, rec);
    WrittenTwice(mem, m, r, l);
    RelocatedByProbe(t, Slots(r, l), p, target, e, hash, rec);
  }

  /** Rehashing a table whose last vector was just appended and is all free: the entries stay the same
  and every one of them is reachable under the new mask. */
  method Rehash(mem: Bytes, l: Layout, skipVacant: bool, ghost t0: Table) returns (r: Bytes)
    requires l.Fits(0, |mem|) && 2 * |t0| == l.Capacity()
    requires Ordered(t0) && Distinct(t0) && |Recs(t0)| < |t0|
    requires Slots(mem, l)[..|t0|] == t0
    requires forall i :: |t0| <= i < l.Capacity() ==> Slots(mem, l)[i].Vacant?
    ensures |r| == |mem| && OnlyVectors(mem, r, l)
    ensures Ordered(Slots(r, l)) && Distinct(Slots(r, l))
    ensures Entries(Slots(r, l)) == Entries(t0) && Recs(Slots(r, l)) == Recs(t0)
    ensures InTurn(t0) ==> InTurn(Slots(r, l))
  {
    hide *;
    var capacity := l.Capacity() / 2;
    ghost var t := Slots(mem, l);
    ghost var e := VacantExists(t0);
    var b := 0;
    SlotsAt(mem, l, b);
    // The entries in front of the first free bucket may have wrapped around: they come last.
    while RecAt(mem, l, b) != 0
      invariant b <= e && t[b] == t0[b]
      invariant t[b] == if RecAt(mem, l, b) == 0 then Vacant else Entry(HashAt(mem, l, b), RecAt(mem, l, b))
      decreases e - b
    {
      b := b + 1;
      SlotsAt(mem, l, b);
    }
    FirstPassStarts(t0, t, b);
    var m := MoveBucketsRange(mem, l, b, capacity, skipVacant, true, t0, b);
    SecondPassStarts(t0, Slots(m, l), b);
    r := MoveBucketsRange(m, l, 0, b, skipVacant, false, t0, b);
    SecondPassEnds(t0, Slots(r, l), b);
    WrittenTwice(mem, m, r, l);
  }

  /** Tombstone-free repair of the chain behind the emptied bucket `d`, starting at the bucket after it
  and ending at `z`, the first bucket after `d` that was free before the deletion. */
  method FixChainDown(mem: Bytes, l: Layout, start: nat, ghost t0: Table, ghost d: nat, ghost z: nat)
      returns (r: Bytes, last: nat)
    requires l.Fits(0, |mem|) && start < l.Capacity() && z < l.Capacity()
    requires Repairing(t0, Slots(mem, l), d, z, start)
    ensures |r| == |mem| && OnlyVectors(mem, r, l)
    ensures last == z
    ensures Ordered(Slots(r, l)) && Distinct(Slots(r, l))
    ensures Entries(Slots(r, l)) == Entries(t0) - {t0[d]} && Recs(Slots(r, l)) == Recs(t0) - {t0[d].rec}
  {
    hide *;
    NothingWritten(mem, l);
    r, last := mem, start;
    SlotsAt(r, l, last);
    while RecAt(r, l, last) != 0
      invariant |r| == |mem| && OnlyVectors(mem, r, l) && last < l.Capacity()
      invariant Repairing(t0, Slots(r, l), d, z, last)
      invariant Slots(r, l)[last] == if RecAt(r, l, last) == 0 then Vacant
                else Entry(HashAt(r, l, last), RecAt(r, l, last))
      decreases Distance(last, z, l.Capacity())
    {
      RepairGoesOn(t0, Slots(r, l), d, z, last);
      ghost var m := r;
      r := FixBucket(r, l, last, t0, d, z);
      WrittenTwice(mem, m, r, l);
      last := Next(last, l.Capacity());
      SlotsAt(r, l, last);
    }
    RepairEnds(t0, Slots(r, l), d, z, last);
  }

  /** One iteration of the repair: move the entry of `p` to the first free bucket between its ideal
  bucket and `p`, if there is one. */
  method FixBucket(mem: Bytes, l: Layout, p: nat, ghost t0: Table, ghost d: nat, ghost z: nat) returns (r: Bytes)
    requires l.Fits(0, |mem|) && p < l.Capacity() && p != z
    requires Repairing(t0, Slots(mem, l), d, z, p) && Slots(mem, l)[p].Entry?
    ensures |r| == |mem| && OnlyVectors(mem, r, l)
    ensures Repairing(t0, Slots(r, l), d, z, Next(p, l.Capacity()))
  {
    hide *;
    ghost var t := Slots(mem, l);
    ghost var t1 := t[p := Vacant];
    SlotsAt(mem, l, p);
    var hash := HashAt(mem, l, p);
    var newBucket: nat := Ideal(hash, l.Capacity());
    ghost var j := newBucket;
    ProbeStarts(t1, j, p);
    SlotsAt(mem, l, newBucket);
    while newBucket != p && RecAt(mem, l, newBucket) != 0
      invariant newBucket < |t1| && Probed(t1, j, newBucket, p)
      invariant t[newBucket] == if RecAt(mem, l, newBucket) == 0 then Vacant
                else Entry(HashAt(mem, l, newBucket), RecAt(mem, l, newBucket))
      decreases Distance(newBucket, p, |t1|)
    {
      ProbeOn(t1, j, newBucket, p);
      newBucket := Next(newBucket, l.Capacity());
      SlotsAt(mem, l, newBucket);
    }
    RepairMove(t0, t, d, z, p, newBucket);
    if newBucket != p {
      var m := Fill(mem, l, newBucket, hash, RecAt(mem, l, p));
      SetRecSlots(m, l, p, 0);
      r := SetRec(m, l, p, 0);
      WrittenTwice(mem, m, r, l);
    } else {
      r := mem;
      NothingWritten(mem, l);
    }
    MovedEitherWay(t, Slots(r, l), p, newBucket);
  }

  // ---------- visiting every record ----------

  /** `visited` is a walk over the records `all` that ended with `res`: at the first negative answer, or at the end. */
  ghost predicate Visited(all: seq<nat>, func: nat -> int, visited: seq<nat>, res: int) {
    && visited <= all
    && (res >= 0 ==> visited == all && forall i :: 0 <= i < |all| ==> func(all[i]) >= 0)
    && (res < 0 ==> && 0 < |visited| && func(visited[|visited| - 1]) == res
                    && forall i :: 0 <= i < |visited| - 1 ==> func(visited[i]) >= 0)
  }

  /** The walk of the foreach functions: vector by vector, stopping when the callback answers with a
  negative number.  `visited` are the references it was called with. */
  method ForEach(mem: Bytes, l: Layout, func: nat -> int) returns (res: int, visited: seq<nat>)
    requires l.Fits(0, |mem|)
    ensures Visited(Listed(Slots(mem, l)), func, visited, res)
  {
    hide *;
    ghost var t := Slots(mem, l);
    l.VectorCount();
    var numSlots := Log2(l.Capacity()) + 1 - l.bits;
    var s, vectSize := 0, Pow2(l.bits);
    ghost var start := 0;
    visited := [];
    VectorsInOrder(l.bits, 0);
    WalkStarts(t, func);
    while s < numSlots
      invariant s <= numSlots == |l.vectors|
      invariant vectSize == VectorSize(l.bits, s) && start == VectorStart(l.bits, s)
      invariant start <= |t| && Walked(t, func, start, visited)
      invariant s == numSlots ==> start == |t|
      decreases numSlots - s
    {
      res, visited := ForEachInVector(mem, l, s, vectSize, func, visited);
      if res < 0 {
        return;
      }
      start := start + vectSize;
      VectorsInOrder(l.bits, s);
      LastVector(l, s);
      if s > 0 {
        vectSize := 2 * vectSize;
      }
      s := s + 1;
    }
    WalkEnds(t, func, visited);
    res := 0;
  }

  method ForEachInVector(mem: Bytes, l: Layout, s: nat, vectSize: nat, func: nat -> int, before: seq<nat>)
      returns (res: int, visited: seq<nat>)
    requires l.Fits(0, |mem|) && s < |l.vectors| && vectSize == VectorSize(l.bits, s)
    requires VectorStart(l.bits, s) <= l.Capacity() && Walked(Slots(mem, l), func, VectorStart(l.bits, s), before)
    ensures res >= 0 ==> && VectorStart(l.bits, s) + vectSize <= l.Capacity()
                         && Walked(Slots(mem, l), func, VectorStart(l.bits, s) + vectSize, visited)
    ensures res < 0 ==> Visited(Listed(Slots(mem, l)), func, visited, res)
  {
    hide *;
    visited := before;
    ghost var t, start := Slots(mem, l), VectorStart(l.bits, s);
    var i := 0;
    while i < vectSize
      invariant i <= vectSize && start + i <= |t|
      invariant Walked(t, func, start + i, visited)
    {
      BucketInVector(mem, l, s, i);
      WalkOn(t, func, start + i, visited);
      var rec := U32(mem, l.vectors[s] + 8 * i + 4);
      if rec > 0 {
        visited := visited + [rec];
        res := func(rec);
        if res < 0 {
          return;
        }
      }
      i := i + 1;
    }
    res := 0;
  }

  /** The callback was called for the records below bucket `b` and never answered with a negative number. */
  ghost predicate Walked(t: Table, func: nat -> int, b: nat, visited: seq<nat>)
    requires b <= |t|
  {
    visited == Listed(t[..b]) && forall i :: 0 <= i < |visited| ==> func(visited[i]) >= 0
  }

  lemma WalkStarts(t: Table, func: nat -> int)
    ensures Walked(t, func, 0, [])
  {
  }

  lemma WalkOn(t: Table, func: nat -> int, b: nat, visited: seq<nat>)
    requires b < |t| && Walked(t, func, b, visited)
    ensures t[b].Vacant? ==> Walked(t, func, b + 1, visited)
    ensures t[b].Entry? && func(t[b].rec) >= 0 ==> Walked(t, func, b + 1, visited + [t[b].rec])
    ensures t[b].Entry? && func(t[b].rec) < 0 ==> Visited(Listed(t), func, visited + [t[b].rec], func(t[b].rec))
  {
    ListedStep(t, b);
    ListedPrefix(t, b + 1);
  }

  lemma WalkEnds(t: Table, func: nat -> int, visited: seq<nat>)
    requires Walked(t, func, |t|, visited)
    ensures Visited(Listed(t), func, visited, 0)
  {
    assert t[..|t|] == t;
  }

  lemma VectorsInOrder(bits: nat, s: nat)
    ensures VectorStart(bits, 0) == 0 && VectorSize(bits, 0) == Pow2(bits)
    ensures VectorStart(bits, s + 1) == VectorStart(bits, s) + VectorSize(bits, s)
    ensures VectorSize(bits, s + 1) == if s > 0 then 2 * VectorSize(bits, s) else VectorSize(bits, s)
  {
  }

  lemma LastVector(l: Layout, s: nat)
    requires s < |l.vectors|
    ensures VectorStart(l.bits, s + 1) <= l.Capacity()
    ensures s + 1 == |l.vectors| ==> VectorStart(l.bits, s + 1) == l.Capacity()
  {
    Pow2Monotone(l.bits + s, l.bits + |l.vectors| - 1);
  }

  lemma BucketInVector(mem: Bytes, l: Layout, s: nat, i: nat)
    requires l.Fits(0, |mem|) && s < |l.vectors| && i < VectorSize(l.bits, s)
    ensures l.vectors[s] + 8 * i + 8 <= |mem| && VectorStart(l.bits, s) + i < l.Capacity()
    ensures var t, rec := Slots(mem, l), U32(mem, l.vectors[s] + 8 * i + 4);
            var x := t[VectorStart(l.bits, s) + i];
            if rec == 0 then x.Vacant? else x.Entry? && x.rec == rec
  {
    hide *;
    l.AddrInVector(s, i);
    RecAtAddr(mem, l, VectorStart(l.bits, s) + i);
    SlotsAt(mem, l, VectorStart(l.bits, s) + i);
  }

  lemma {:induction false} ListedPrefix(t: Table, b: nat)
    requires b <= |t|
    ensures Listed(t[..b]) <= Listed(t)
    decreases |t| - b
  {
    if b < |t| {
      ListedStep(t, b);
      ListedPrefix(t, b + 1);
    } else {
      assert t[..b] == t;
    }
  }
}
