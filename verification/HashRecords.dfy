/** The memory of a `hashtable`: bucket vectors, live records and free-listed records.

A record is a key size, a value size and the bytes of both.  When it is freed, the link of the free
list and the total size overlay its first eight bytes. */
module HashRecords {
  import opened Words
  import opened Probing
  import opened Segments
  import opened BucketStore
  import opened Ownership
  import opened HashIndex

  const HEADER_SIZE := 140
  const REC_HEADER := 8
  const INITIAL_BITS := 5
  const MEMORY_LIMIT := 0x1_0000_0000

  /** What the header and the memory behind it hold: `[0, HEADER_SIZE)` of `mem` is the header itself. */
  datatype State = State(mem: Bytes, layout: Layout, size: nat, freeList: nat)

  /** Ghost bookkeeping: the owner of every byte, the length of every record region, the free list and
  the live records by offset. */
  datatype Plan = Plan(tags: Tags, lens: map<nat, nat>, free: seq<nat>, live: map<nat, Rec>)

  /** The record at `o`, which fills its region of `n` bytes, is `rec`. */
  predicate Stored(mem: Bytes, o: nat, n: nat, rec: Rec)
    ensures Stored(mem, o, n, rec) ==> o + 8 <= |mem|
  {
    && n == REC_HEADER + |rec.key| + |rec.val| && o + n <= |mem|
    && U32(mem, o) == |rec.key| && U32(mem, o + 4) == |rec.val|
    && Load(mem, o + REC_HEADER, |rec.key|) == rec.key
    && Load(mem, o + REC_HEADER + |rec.key|, |rec.val|) == rec.val
  }

  lemma StoredReads(mem: Bytes, o: nat, n: nat, rec: Rec)
    requires Stored(mem, o, n, rec)
    ensures o + 8 + U32(mem, o) + U32(mem, o + 4) <= |mem|
    ensures Rec(Load(mem, o + 8, U32(mem, o)), Load(mem, o + 8 + U32(mem, o), U32(mem, o + 4))) == rec
  {
    hide U32, Load;
  }

  /** The comparison of a probe: sizes first, then bytes. */
  predicate KeyMatches(mem: Bytes, o: nat, key: Bytes)
    requires o + 8 <= |mem|
  {
    U32(mem, o) == |key| && o + REC_HEADER + |key| <= |mem| && Load(mem, o + REC_HEADER, |key|) == key
  }

  lemma KeyMatchesStored(mem: Bytes, o: nat, n: nat, rec: Rec, key: Bytes)
    requires Stored(mem, o, n, rec)
    ensures KeyMatches(mem, o, key) <==> rec.key == key
  {
  }

  // ---------- the invariant, piece by piece ----------

  ghost predicate Shaped(mem: Bytes, l: Layout, tags: Tags) {
    && HEADER_SIZE <= |tags| == |mem| <= MEMORY_LIMIT
    && Owned(tags, 0, HEADER_SIZE, Unowned)
    && l.bits == INITIAL_BITS && l.Fits(0, |mem|)
    && VectorsOwned(tags, l, 0)
  }

  /** Every record region, live or free, is made of bytes of its own. */
  ghost predicate Regions(tags: Tags, lens: map<nat, nat>) {
    forall o :: o in lens ==> 0 < o && REC_HEADER <= lens[o] && Owned(tags, o, lens[o], Record(0, o))
  }

  ghost predicate AllStored(mem: Bytes, live: map<nat, Rec>, lens: map<nat, nat>) {
    forall o :: o in live ==> o in lens && Stored(mem, o, lens[o], live[o])
  }

  function LinkTo(free: seq<nat>, i: nat): (o: nat) {
    if i < |free| then free[i] else 0
  }

  ghost predicate FreeAt(mem: Bytes, lens: map<nat, nat>, free: seq<nat>, i: nat)
    requires i < |free|
  {
    && free[i] in lens && REC_HEADER <= lens[free[i]] && free[i] + lens[free[i]] <= |mem|
    && U32(mem, free[i]) == LinkTo(free, i + 1)
    && U32(mem, free[i] + 4) == lens[free[i]] - REC_HEADER
  }

  ghost predicate NoDuplicates(free: seq<nat>) {
    forall i, j :: 0 <= i < j < |free| ==> free[i] != free[j]
  }

  /** The free list is `free`: linked through the records, acyclic, each with its own size. */
  ghost predicate FreeOk(mem: Bytes, lens: map<nat, nat>, free: seq<nat>, head: nat) {
    && head == LinkTo(free, 0)
    && NoDuplicates(free)
    && (forall i :: 0 <= i < |free| ==> FreeAt(mem, lens, free, i))
  }

  /** Every region is either live, or free, or in `hole` (being allocated or released). */
  ghost predicate Partition(recs: set<nat>, free: seq<nat>, hole: set<nat>, all: set<nat>) {
    && (forall o :: o in all <==> o in recs || o in free || o in hole)
    && (forall o :: o in recs ==> o !in free && o !in hole)
    && (forall o :: o in free ==> o !in hole)
  }

  ghost predicate Sound(hc: Hash, s: State, p: Plan, hole: set<nat>)
    ensures Sound(hc, s, p, hole) ==> s.layout.Fits(0, |s.mem|)
  {
    && Shaped(s.mem, s.layout, p.tags)
    && Regions(p.tags, p.lens)
    && Index(hc, Slots(s.mem, s.layout), p.live, s.size)
    && AllStored(s.mem, p.live, p.lens)
    && FreeOk(s.mem, p.lens, p.free, s.freeList)
    && Partition(p.live.Keys, p.free, hole, p.lens.Keys)
  }

  // ---------- frames ----------

  lemma StoredSame(m: Bytes, m': Bytes, o: nat, n: nat, rec: Rec)
    requires Same(m, m', o, n) && Stored(m, o, n, rec)
    ensures Stored(m', o, n, rec)
  {
    assert U32(m', o) == U32(m, o) && U32(m', o + 4) == U32(m, o + 4);
    SameLoad(m, m', o + REC_HEADER, |rec.key|);
    SameLoad(m, m', o + REC_HEADER + |rec.key|, |rec.val|);
  }

  /** The regions of `lens` are still there. */
  ghost predicate Extends(lens: map<nat, nat>, lens': map<nat, nat>) {
    forall o :: o in lens ==> o in lens' && lens'[o] == lens[o]
  }

  lemma StoredKept(m: Bytes, m': Bytes, tags: Tags, lens: map<nat, nat>, lens': map<nat, nat>, live: map<nat, Rec>,
                   touched: set<nat>)
    requires Regions(tags, lens) && Extends(lens, lens') && AllStored(m, live, lens) && KeptBut(m, m', tags, 0, touched)
    requires forall o :: o in live ==> o !in touched
    ensures AllStored(m', live, lens')
  {
    forall o | o in live
      ensures o in lens' && Stored(m', o, lens'[o], live[o])
    {
      RegionKept(m, m', tags, 0, touched, o, o, lens[o]);
      StoredSame(m, m', o, lens[o], live[o]);
    }
  }

  /** A free record whose region is not written and whose successor stays the same. */
  lemma FreeAtKept(m: Bytes, m': Bytes, tags: Tags, lens: map<nat, nat>, lens': map<nat, nat>, touched: set<nat>,
                   free: seq<nat>, i: nat, free': seq<nat>, i': nat)
    requires Regions(tags, lens) && Extends(lens, lens') && KeptBut(m, m', tags, 0, touched)
    requires i < |free| && i' < |free'| && FreeAt(m, lens, free, i)
    requires free[i] == free'[i'] && free[i] !in touched && LinkTo(free, i + 1) == LinkTo(free', i' + 1)
    ensures FreeAt(m', lens', free', i')
  {
    var o := free[i];
    RegionKept(m, m', tags, 0, touched, o, o, lens[o]);
    assert U32(m', o) == U32(m, o) && U32(m', o + 4) == U32(m, o + 4);
  }

  lemma FreeKept(m: Bytes, m': Bytes, tags: Tags, lens: map<nat, nat>, lens': map<nat, nat>, touched: set<nat>,
                 free: seq<nat>, head: nat)
    requires Regions(tags, lens) && Extends(lens, lens') && KeptBut(m, m', tags, 0, touched)
    requires FreeOk(m, lens, free, head) && forall o :: o in free ==> o !in touched
    ensures FreeOk(m', lens', free, head)
  {
    forall i | 0 <= i < |free|
      ensures FreeAt(m', lens', free, i)
    {
      FreeAtKept(m, m', tags, lens, lens', touched, free, i, free, i);
    }
  }

  lemma RegionsGrow(tags: Tags, more: Tags, lens: map<nat, nat>)
    requires Regions(tags, lens)
    ensures Regions(tags + more, lens)
  {
    forall o | o in lens
      ensures 0 < o && REC_HEADER <= lens[o] && Owned(tags + more, o, lens[o], Record(0, o))
    {
      assert Owned(tags, o, lens[o], Record(0, o));
      assert forall i :: o <= i < o + lens[o] ==> (tags + more)[i] == tags[i];
    }
  }

  lemma VectorsKept(m: Bytes, m': Bytes, l: Layout, tags: Tags)
    requires VectorsOwned(tags, l, 0) && |tags| == |m| <= |m'|
    requires forall a :: 0 <= a < |m| && tags[a] == Buckets(0) ==> m'[a] == m[a]
    ensures l.Fits(0, |m'|) && Slots(m', l) == Slots(m, l)
  {
    l.FitsMore(0, |m|, |m'|);
    SlotsFrame(m, m', l);
  }

  /** A write inside one region touches no bucket and no other region. */
  lemma RegionWritten(m: Bytes, m': Bytes, l: Layout, tags: Tags, o: nat, n: nat)
    requires VectorsOwned(tags, l, 0) && |tags| == |m| == |m'| && Owned(tags, o, n, Record(0, o))
    requires forall a :: 0 <= a < |m| && !(o <= a < o + n) ==> m'[a] == m[a]
    ensures KeptBut(m, m', tags, 0, {o}) && Slots(m', l) == Slots(m, l)
  {
    VectorsKept(m, m', l, tags);
  }

  /** Writing buckets touches no region. */
  lemma BucketsWritten(m: Bytes, m': Bytes, l: Layout, tags: Tags)
    requires VectorsOwned(tags, l, 0) && |tags| == |m| && OnlyVectors(m, m', l)
    ensures KeptBut(m, m', tags, 0, {})
  {
  }

  lemma KeptTwice(m: Bytes, m': Bytes, m'': Bytes, tags: Tags, touched: set<nat>, touched': set<nat>)
    requires KeptBut(m, m', tags, 0, touched) && KeptBut(m', m'', tags, 0, touched') && |m| == |m'|
    ensures KeptBut(m, m'', tags, 0, touched + touched')
  {
  }

  // ---------- allocation ----------

  /** A fresh region at the end of memory, not yet a record. */
  function ExtendPlan(p: Plan, n: nat): (r: Plan)
    ensures r.live == p.live && r.free == p.free
    ensures r.lens == p.lens[|p.tags| := n]
  {
    p.(tags := p.tags + Repeat(Record(0, |p.tags|), n), lens := p.lens[|p.tags| := n])
  }

  lemma EndIsNew(tags: Tags, lens: map<nat, nat>)
    requires Regions(tags, lens)
    ensures |tags| !in lens
  {
  }

  lemma FreshShape(mem: Bytes, l: Layout, p: Plan, n: nat)
    requires Shaped(mem, l, p.tags) && Regions(p.tags, p.lens) && REC_HEADER <= n && |mem| + n <= MEMORY_LIMIT
    requires Partition(p.live.Keys, p.free, {}, p.lens.Keys)
    ensures var m, p' := mem + Zeros(n), ExtendPlan(p, n);
            && Shaped(m, l, p'.tags) && Regions(p'.tags, p'.lens) && KeptBut(mem, m, p.tags, 0, {})
            && Partition(p'.live.Keys, p'.free, {|mem|}, p'.lens.Keys) && Extends(p.lens, p'.lens) && |mem| !in p.lens
  {
    var o := |mem|;
    var more := Repeat(Record(0, o), n);
    EndIsNew(p.tags, p.lens);
    VectorsOwnedGrows(p.tags, more, l, 0);
    l.FitsMore(0, o, o + n);
    RegionsGrow(p.tags, more, p.lens);
  }

  lemma AllocFresh(hc: Hash, s: State, p: Plan, n: nat)
    requires Sound(hc, s, p, {}) && REC_HEADER <= n && |s.mem| + n <= MEMORY_LIMIT
    ensures var s', p' := s.(mem := s.mem + Zeros(n)), ExtendPlan(p, n);
            && Sound(hc, s', p', {|s.mem|}) && |s.mem| !in p.lens
            && Slots(s'.mem, s.layout) == Slots(s.mem, s.layout)
  {
    hide Owned, VectorsOwned, Regions, Index, AllStored, FreeOk, Partition, Slots, KeptBut, ExtendPlan, Extends;
    var m, p' := s.mem + Zeros(n), ExtendPlan(p, n);
    FreshShape(s.mem, s.layout, p, n);
    VectorsKept(s.mem, m, s.layout, p.tags);
    StoredKept(s.mem, m, p.tags, p.lens, p'.lens, p.live, {});
    FreeKept(s.mem, m, p.tags, p.lens, p'.lens, {}, p.free, s.freeList);
  }

  function Without(free: seq<nat>, k: nat): (r: seq<nat>)
    requires k < |free|
    ensures |r| == |free| - 1
    ensures forall i :: 0 <= i < |r| ==> r[i] == free[if i < k then i else i + 1]
  {
    free[..k] + free[k + 1..]
  }

  /** Taking the `k`-th record off the free list: the link before it, in the header or in the record
  before it, is redirected. */
  function Unlinked(s: State, free: seq<nat>, k: nat): (r: State)
    requires k < |free|
    requires k > 0 ==> free[k - 1] + 4 <= |s.mem| && LinkTo(free, k + 1) < MEMORY_LIMIT
    ensures r == if k == 0 then State(s.mem, s.layout, s.size, LinkTo(free, 1))
                 else State(Put32(s.mem, free[k - 1], LinkTo(free, k + 1)), s.layout, s.size, s.freeList)
  {
    if k == 0 then s.(freeList := LinkTo(free, 1))
    else s.(mem := Put32(s.mem, free[k - 1], LinkTo(free, k + 1)))
  }

  lemma FreeInBounds(hc: Hash, s: State, p: Plan, hole: set<nat>, k: nat)
    requires Sound(hc, s, p, hole) && k < |p.free|
    ensures p.free[k] in p.lens && 0 < p.free[k] && REC_HEADER <= p.lens[p.free[k]]
    ensures p.free[k] + p.lens[p.free[k]] <= |s.mem| <= MEMORY_LIMIT
    ensures U32(s.mem, p.free[k]) == LinkTo(p.free, k + 1)
    ensures U32(s.mem, p.free[k] + 4) == p.lens[p.free[k]] - REC_HEADER
    ensures Owned(p.tags, p.free[k], p.lens[p.free[k]], Record(0, p.free[k]))
    ensures LinkTo(p.free, k + 1) < MEMORY_LIMIT
  {
    hide Index, AllStored, Partition, Slots;
    assert FreeAt(s.mem, p.lens, p.free, k);
  }

  lemma WithoutIsPartition(recs: set<nat>, free: seq<nat>, all: set<nat>, k: nat)
    requires k < |free| && Partition(recs, free, {}, all) && NoDuplicates(free)
    ensures Partition(recs, Without(free, k), {free[k]}, all) && NoDuplicates(Without(free, k))
  {
    var free' := Without(free, k);
    forall o
      ensures o in free' <==> o in free && o != free[k]
    {
      if o in free && o != free[k] {
        var i :| 0 <= i < |free| && free[i] == o;
        assert free'[if i < k then i else i - 1] == o;
      }
    }
  }

  lemma Unlink(hc: Hash, s: State, p: Plan, k: nat)
    requires Sound(hc, s, p, {}) && k < |p.free|
    requires k > 0 ==> p.free[k - 1] + 4 <= |s.mem| && LinkTo(p.free, k + 1) < MEMORY_LIMIT
    ensures var s', p' := Unlinked(s, p.free, k), p.(free := Without(p.free, k));
            && Sound(hc, s', p', {p.free[k]}) && 0 < p.free[k] < MEMORY_LIMIT && p.free[k] !in p.live
            && Slots(s'.mem, s.layout) == Slots(s.mem, s.layout)
  {
    hide Index, AllStored, Slots, KeptBut, Regions, NoDuplicates, Owned, VectorsOwned, FreeAt;
    var s' := Unlinked(s, p.free, k);
    var touched := if k == 0 then {} else {p.free[k - 1]};
    FreeInBounds(hc, s, p, {}, k);
    WithoutIsPartition(p.live.Keys, p.free, p.lens.Keys, k);
    if k > 0 {
      FreeInBounds(hc, s, p, {}, k - 1);
      RegionWritten(s.mem, s'.mem, s.layout, p.tags, p.free[k - 1], p.lens[p.free[k - 1]]);
    } else {
      NothingKept(s.mem, p.tags);
    }
    StoredKept(s.mem, s'.mem, p.tags, p.lens, p.lens, p.live, touched);
    UnlinkFree(s, p, k);
  }

  lemma NothingKept(m: Bytes, tags: Tags)
    requires |tags| == |m|
    ensures KeptBut(m, m, tags, 0, {})
  {
  }

  lemma PutBeside(mem: Bytes, a: nat, x: uint32)
    requires a + 8 <= |mem|
    ensures U32(Put32(mem, a, x), a + 4) == U32(mem, a + 4)
  {
  }

  lemma UnlinkFree(s: State, p: Plan, k: nat)
    requires Regions(p.tags, p.lens) && FreeOk(s.mem, p.lens, p.free, s.freeList) && |p.tags| == |s.mem|
    requires k < |p.free| && NoDuplicates(Without(p.free, k))
    requires k > 0 ==> p.free[k - 1] + 4 <= |s.mem| && LinkTo(p.free, k + 1) < MEMORY_LIMIT
    requires KeptBut(s.mem, Unlinked(s, p.free, k).mem, p.tags, 0, if k == 0 then {} else {p.free[k - 1]})
    ensures var s' := Unlinked(s, p.free, k);
            FreeOk(s'.mem, p.lens, Without(p.free, k), s'.freeList)
  {
    var s', free' := Unlinked(s, p.free, k), Without(p.free, k);
    var touched := if k == 0 then {} else {p.free[k - 1]};
    forall i | 0 <= i < |free'|
      ensures FreeAt(s'.mem, p.lens, free', i)
    {
      var j := if i < k then i else i + 1;
      assert FreeAt(s.mem, p.lens, p.free, j);
      if i + 1 == k {
        LinkAround(s.mem, p.lens, p.free, k);
      } else {
        assert p.free[j] !in touched;
        hide FreeOk, FreeAt, NoDuplicates, Regions, KeptBut;
        FreeAtKept(s.mem, s'.mem, p.tags, p.lens, p.lens, touched, p.free, j, free', i);
      }
    }
  }

  /** The record before the `k`-th one is linked to the one behind it. */
  lemma LinkAround(mem: Bytes, lens: map<nat, nat>, free: seq<nat>, k: nat)
    requires 0 < k < |free| && FreeAt(mem, lens, free, k - 1) && LinkTo(free, k + 1) < MEMORY_LIMIT
    ensures FreeAt(Put32(mem, free[k - 1], LinkTo(free, k + 1)), lens, Without(free, k), k - 1)
  {
    PutBeside(mem, free[k - 1], LinkTo(free, k + 1));
  }

  /** Position of the first free record whose region is exactly right for `n` bytes of key and value. */
  ghost function FirstFit(free: seq<nat>, lens: map<nat, nat>, n: nat): (k: nat)
    ensures k <= |free|
    ensures k < |free| ==> free[k] in lens && lens[free[k]] == REC_HEADER + n
    ensures forall i :: 0 <= i < k ==> free[i] !in lens || lens[free[i]] != REC_HEADER + n
  {
    if free == [] || (free[0] in lens && lens[free[0]] == REC_HEADER + n) then 0
    else 1 + FirstFit(free[1..], lens, n)
  }

  /** Where a record of `n` key and value bytes goes: to the first fitting free record, else to the end of memory. */
  ghost predicate Allotted(free: seq<nat>, lens: map<nat, nat>, end: nat, n: nat, o: nat, free': seq<nat>, end': nat) {
    var k := FirstFit(free, lens, n);
    if k < |free| then o == free[k] && free' == Without(free, k) && end' == end
    else o == end && free' == free && end' == end + REC_HEADER + n
  }

  lemma AllottedRecycled(free: seq<nat>, lens: map<nat, nat>, end: nat, n: nat, k: nat)
    requires k < |free| && FirstFit(free, lens, n) == k
    ensures Allotted(free, lens, end, n, free[k], Without(free, k), end) && free[k] in lens
            && lens[free[k]] == REC_HEADER + n
  {
  }

  lemma AllottedFresh(free: seq<nat>, lens: map<nat, nat>, end: nat, n: nat)
    requires FirstFit(free, lens, n) == |free|
    ensures Allotted(free, lens, end, n, end, free, end + REC_HEADER + n)
  {
  }

  lemma FreeStart(hc: Hash, s: State, p: Plan)
    requires Sound(hc, s, p, {})
    ensures s.freeList == LinkTo(p.free, 0)
  {
  }

  lemma FreeStep(hc: Hash, s: State, p: Plan, k: nat, n: nat)
    requires Sound(hc, s, p, {}) && k <= |p.free| && LinkTo(p.free, k) != 0 && FirstFit(p.free, p.lens, n) >= k
    ensures k < |p.free| && p.free[k] == LinkTo(p.free, k)
    ensures p.free[k] + 8 <= |s.mem| && U32(s.mem, p.free[k]) == LinkTo(p.free, k + 1)
    ensures k > 0 ==> 0 < p.free[k - 1] && p.free[k - 1] + 4 <= |s.mem| && LinkTo(p.free, k + 1) < MEMORY_LIMIT
    ensures if U32(s.mem, p.free[k] + 4) == n then FirstFit(p.free, p.lens, n) == k
            else FirstFit(p.free, p.lens, n) >= k + 1
  {
    hide Sound, U32;
    FreeInBounds(hc, s, p, {}, k);
    if k > 0 {
      FreeInBounds(hc, s, p, {}, k - 1);
    }
  }

  lemma FreeEnd(hc: Hash, s: State, p: Plan, k: nat)
    requires Sound(hc, s, p, {}) && k <= |p.free| && LinkTo(p.free, k) == 0
    ensures k == |p.free|
  {
    if k < |p.free| {
      FreeInBounds(hc, s, p, {}, k);
    }
  }

  // ---------- writing a record ----------

  function WriteKey(mem: Bytes, o: nat, key: Bytes, valLen: uint32): (r: Bytes)
    requires o + REC_HEADER + |key| <= |mem| && |key| < MEMORY_LIMIT
    ensures |r| == |mem|
  {
    Store(Put32(Put32(mem, o, |key|), o + 4, valLen), o + REC_HEADER, key)
  }

  lemma KeyWritten(mem: Bytes, o: nat, key: Bytes, valLen: uint32)
    requires o + REC_HEADER + |key| + valLen <= |mem| && |key| < MEMORY_LIMIT
    ensures var r := WriteKey(mem, o, key, valLen);
            && Stored(r, o, REC_HEADER + |key| + valLen, Rec(key, Load(mem, o + REC_HEADER + |key|, valLen)))
            && (forall a :: 0 <= a < |mem| && !(o <= a < o + REC_HEADER + |key| + valLen) ==> r[a] == mem[a])
  {
    var m1 := Put32(mem, o, |key|);
    var m2 := Put32(m1, o + 4, valLen);
    var r := Store(m2, o + REC_HEADER, key);
    assert U32(m2, o) == U32(m1, o);
    assert U32(r, o) == U32(m2, o) && U32(r, o + 4) == U32(m2, o + 4);
    LoadStored(m2, o + REC_HEADER, key);
    var v := o + REC_HEADER + |key|;
    assert Same(mem, r, v, valLen);
    SameLoad(mem, r, v, valLen);
  }

  lemma ValueWritten(mem: Bytes, o: nat, n: nat, rec: Rec, val: Bytes)
    requires Stored(mem, o, n, rec) && |val| == |rec.val|
    ensures var r := Store(mem, o + REC_HEADER + |rec.key|, val);
            && Stored(r, o, n, Rec(rec.key, val))
            && (forall a :: 0 <= a < |mem| && !(o <= a < o + n) ==> r[a] == mem[a])
  {
    var v := o + REC_HEADER + |rec.key|;
    var r := Store(mem, v, val);
    assert U32(r, o) == U32(mem, o) && U32(r, o + 4) == U32(mem, o + 4);
    assert Same(mem, r, o + REC_HEADER, |rec.key|);
    SameLoad(mem, r, o + REC_HEADER, |rec.key|);
    LoadStored(mem, v, val);
  }

  // ---------- the operations ----------

  lemma HoleIsRegion(hc: Hash, s: State, p: Plan, o: nat)
    requires Sound(hc, s, p, {o})
    ensures o in p.lens && 0 < o && o !in p.live && Owned(p.tags, o, p.lens[o], Record(0, o)) && |p.tags| == |s.mem|
    ensures VectorsOwned(p.tags, s.layout, 0)
  {
  }

  lemma HoleFits(hc: Hash, s: State, p: Plan, o: nat)
    requires Sound(hc, s, p, {o}) && o in p.lens
    ensures 0 < o && o + p.lens[o] <= |s.mem| <= MEMORY_LIMIT && REC_HEADER <= p.lens[o]
  {
    hide Index, Slots, FreeOk, AllStored, Partition, VectorsOwned;
    assert Owned(p.tags, o, p.lens[o], Record(0, o));
  }

  lemma TagsLength(hc: Hash, s: State, p: Plan, hole: set<nat>)
    requires Sound(hc, s, p, hole)
    ensures |p.tags| == |s.mem|
  {
  }

  /** The allocated region `o` becomes the record of a new key, entered at bucket `q`. */
  lemma Entered(hc: Hash, s: State, p: Plan, o: nat, q: nat, e: nat, rec: Rec, m: Bytes)
    requires Sound(hc, s, p, {o}) && 2 * s.size + 2 <= s.layout.Capacity() && q < s.layout.Capacity()
    requires o in p.lens && |m| == |s.mem| && KeptBut(s.mem, m, p.tags, 0, {o})
    requires Probed(Slots(s.mem, s.layout), Ideal(hc(rec.key), s.layout.Capacity()), q, e)
             && Slots(s.mem, s.layout)[q].Vacant?
    requires Slots(m, s.layout) == Slots(s.mem, s.layout)[q := Entry(hc(rec.key), o)]
    requires Stored(m, o, p.lens[o], rec)
    ensures Sound(hc, State(m, s.layout, s.size + 1, s.freeList), p.(live := p.live[o := rec]), {}) && o !in p.live
  {
    hide Owned, VectorsOwned, Regions, Index, FreeOk, Slots, KeptBut, Stored, Probed, Ideal;
    HoleIsRegion(hc, s, p, o);
    IndexEnter(hc, Slots(s.mem, s.layout), p.live, s.size, q, e, o, rec);
    StoredKept(s.mem, m, p.tags, p.lens, p.lens, p.live, {o});
    FreeKept(s.mem, m, p.tags, p.lens, p.lens, {o}, p.free, s.freeList);
  }

  /** Writing the header and the key of the allocated region `o`, whose bucket is already filled. */
  lemma KeyEntered(hc: Hash, s: State, p: Plan, o: nat, q: nat, e: nat, key: Bytes, valLen: uint32, m: Bytes)
    requires Sound(hc, s, p, {o}) && 2 * s.size + 2 <= s.layout.Capacity() && q < s.layout.Capacity()
    requires o in p.lens && p.lens[o] == REC_HEADER + |key| + valLen && |key| < MEMORY_LIMIT
    requires Probed(Slots(s.mem, s.layout), Ideal(hc(key), s.layout.Capacity()), q, e)
             && Slots(s.mem, s.layout)[q].Vacant?
    requires |m| == |s.mem| && OnlyVectors(s.mem, m, s.layout)
    requires Slots(m, s.layout) == Slots(s.mem, s.layout)[q := Entry(hc(key), o)]
    ensures 0 < o && o + 8 + |key| + valLen <= |m| && o !in p.live
    ensures var rec := Rec(key, Load(m, o + 8 + |key|, valLen));
            Sound(hc, State(WriteKey(m, o, key, valLen), s.layout, s.size + 1, s.freeList),
              p.(live := p.live[o := rec]), {})
    ensures Slots(WriteKey(m, o, key, valLen), s.layout) == Slots(m, s.layout)
  {
    hide Sound, Slots, OnlyVectors, Probed, KeptBut, Stored, WriteKey, Ideal, VectorsOwned, Load;
    HoleIsRegion(hc, s, p, o);
    assert o + p.lens[o] <= |m|;
    KeyWritten(m, o, key, valLen);
    var m', rec := WriteKey(m, o, key, valLen), Rec(key, Load(m, o + REC_HEADER + |key|, valLen));
    BucketsWritten(s.mem, m, s.layout, p.tags);
    RegionWritten(m, m', s.layout, p.tags, o, p.lens[o]);
    KeptTwice(s.mem, m, m', p.tags, {}, {o});
    assert {} + {o} == {o};
    Entered(hc, s, p, o, q, e, rec, m');
  }

  lemma ReleasePartition(live: map<nat, Rec>, free: seq<nat>, o: nat, all: set<nat>)
    requires Partition(live.Keys, free, {}, all) && o in live
    ensures Partition((live - {o}).Keys, [o] + free, {}, all) && o !in free && o in all
  {
    forall x
      ensures x in [o] + free <==> x == o || x in free
    {
    }
  }

  /** The regions of two records, live or removed, have no byte in common, nor has one with the buckets. */
  lemma RegionsApart(hc: Hash, s: State, p: Plan, o: nat, o': nat)
    requires Sound(hc, s, p, {}) && o in p.lens && o' in p.lens
    ensures o + p.lens[o] <= |s.mem| && (o != o' ==> o + p.lens[o] <= o' || o' + p.lens[o'] <= o)
    ensures forall x :: o <= x < o + p.lens[o] ==> !s.layout.Holds(x)
  {
    hide Index, FreeOk, Slots, AllStored, Partition;
    assert Owned(p.tags, o, p.lens[o], Record(0, o)) && Owned(p.tags, o', p.lens[o'], Record(0, o'));
    if o != o' {
      OwnedApart(p.tags, o, p.lens[o], Record(0, o), o', p.lens[o'], Record(0, o'));
    }
  }

  // A state is sound by its parts.

  lemma Parts(hc: Hash, s: State, p: Plan)
    requires Sound(hc, s, p, {})
    ensures Shaped(s.mem, s.layout, p.tags) && |p.tags| == |s.mem| && Regions(p.tags, p.lens)
    ensures Index(hc, Slots(s.mem, s.layout), p.live, s.size) && AllStored(s.mem, p.live, p.lens)
    ensures FreeOk(s.mem, p.lens, p.free, s.freeList) && Partition(p.live.Keys, p.free, {}, p.lens.Keys)
  {
    hide Index, Slots, FreeOk, AllStored, Partition, Regions, Owned, VectorsOwned;
  }

  lemma Whole(hc: Hash, s: State, p: Plan, m: Bytes, size: nat, freeList: nat, p': Plan)
    requires Shaped(s.mem, s.layout, p.tags) && |m| == |s.mem| && s.layout.Fits(0, |m|) && p'.tags == p.tags
    requires Regions(p'.tags, p'.lens) && Index(hc, Slots(m, s.layout), p'.live, size) && AllStored(m, p'.live, p'.lens)
    requires FreeOk(m, p'.lens, p'.free, freeList) && Partition(p'.live.Keys, p'.free, {}, p'.lens.Keys)
    ensures Sound(hc, State(m, s.layout, size, freeList), p', {})
  {
    hide Index, Slots, FreeOk, AllStored, Partition, Regions, Owned, VectorsOwned;
  }

  lemma AllStoredLess(m: Bytes, live: map<nat, Rec>, lens: map<nat, nat>, o: nat)
    requires AllStored(m, live, lens)
    ensures AllStored(m, live - {o}, lens) && Extends(lens, lens)
  {
    hide Stored;
  }

  /** The record entered at bucket `d` leaves the table and becomes the head of the free list. */
  lemma Released(hc: Hash, s: State, p: Plan, t: Table, t': Table, d: nat, o: nat, m: Bytes)
    requires Sound(hc, s, p, {}) && t == Slots(s.mem, s.layout) && |m| == |s.mem| && t' == Slots(m, s.layout)
    requires d < |t| == |t'| && t[d].Entry? && t[d].rec == o && KeptBut(s.mem, m, p.tags, 0, {o})
    requires Ordered(t') && Distinct(t') && Entries(t') == Entries(t) - {t[d]} && Recs(t') == Recs(t) - {o}
    requires o + 8 <= |m| && U32(m, o) == s.freeList && o in p.lens && U32(m, o + 4) == p.lens[o] - REC_HEADER
    ensures 0 < s.size
    ensures Sound(hc, State(m, s.layout, s.size - 1, o), p.(free := [o] + p.free, live := p.live - {o}), {})
  {
    hide *;
    Parts(hc, s, p);
    IndexLeave(hc, t, t', p.live, s.size, d);
    ReleasePartition(p.live, p.free, o, p.lens.Keys);
    AllStoredLess(s.mem, p.live, p.lens, o);
    StoredKept(s.mem, m, p.tags, p.lens, p.lens, p.live - {o}, {o});
    ReleaseFree(s, p, o, m);
    Whole(hc, s, p, m, s.size - 1, o, p.(free := [o] + p.free, live := p.live - {o}));
  }

  lemma ReleaseFree(s: State, p: Plan, o: nat, m: Bytes)
    requires Regions(p.tags, p.lens) && FreeOk(s.mem, p.lens, p.free, s.freeList) && KeptBut(s.mem, m, p.tags, 0, {o})
    requires |p.tags| == |m| && o in p.lens && o !in p.free && o + 8 <= |m|
    requires U32(m, o) == s.freeList && U32(m, o + 4) == p.lens[o] - REC_HEADER
    ensures FreeOk(m, p.lens, [o] + p.free, o)
  {
    var free' := [o] + p.free;
    assert Owned(p.tags, o, p.lens[o], Record(0, o));
    forall i | 0 <= i < |free'|
      ensures FreeAt(m, p.lens, free', i)
    {
      if i > 0 {
        assert FreeAt(s.mem, p.lens, p.free, i - 1);
        FreeAtKept(s.mem, m, p.tags, p.lens, p.lens, {o}, p.free, i - 1, free', i);
      }
    }
  }

  /** Overwriting the value of a live record, in place, with as many bytes. */
  lemma Overwritten(hc: Hash, s: State, p: Plan, o: nat, val: Bytes)
    requires Sound(hc, s, p, {}) && o in p.live && |p.live[o].val| == |val|
    ensures o + 8 <= |s.mem| && U32(s.mem, o) == |p.live[o].key| && o + 8 + |p.live[o].key| + |val| <= |s.mem|
    ensures var m := Store(s.mem, o + 8 + |p.live[o].key|, val);
            && Sound(hc, s.(mem := m), p.(live := p.live[o := Rec(p.live[o].key, val)]), {})
            && Slots(m, s.layout) == Slots(s.mem, s.layout)
  {
    hide Sound, Slots, KeptBut, Stored, Owned, VectorsOwned;
    LiveIsStored(hc, s, p, o);
    var rec, n := p.live[o], p.lens[o];
    ValueWritten(s.mem, o, n, rec, val);
    var m := Store(s.mem, o + REC_HEADER + |rec.key|, val);
    RegionWritten(s.mem, m, s.layout, p.tags, o, n);
    Rewritten(hc, s, p, o, val, m);
  }

  lemma LiveIsStored(hc: Hash, s: State, p: Plan, o: nat)
    requires Sound(hc, s, p, {}) && o in p.live
    ensures o in p.lens && Stored(s.mem, o, p.lens[o], p.live[o]) && Owned(p.tags, o, p.lens[o], Record(0, o))
    ensures REC_HEADER + |p.live[o].key| + |p.live[o].val| == p.lens[o] && o + p.lens[o] <= |s.mem|
    ensures U32(s.mem, o) == |p.live[o].key| && U32(s.mem, o + 4) == |p.live[o].val|
    ensures |p.tags| == |s.mem| <= MEMORY_LIMIT && VectorsOwned(p.tags, s.layout, 0) && 0 < o && o !in p.free
  {
    hide Index, FreeOk, Slots;
  }

  lemma Rewritten(hc: Hash, s: State, p: Plan, o: nat, val: Bytes, m: Bytes)
    requires Sound(hc, s, p, {}) && o in p.live && |m| == |s.mem| && KeptBut(s.mem, m, p.tags, 0, {o})
    requires Slots(m, s.layout) == Slots(s.mem, s.layout)
    requires o in p.lens && Stored(m, o, p.lens[o], Rec(p.live[o].key, val))
    ensures Sound(hc, s.(mem := m), p.(live := p.live[o := Rec(p.live[o].key, val)]), {})
  {
    hide Owned, VectorsOwned, Regions, Index, Slots, KeptBut, Stored, FreeOk;
    var rest := p.live - {o};
    StoredKept(s.mem, m, p.tags, p.lens, p.lens, rest, {o});
    FreeKept(s.mem, m, p.tags, p.lens, p.lens, {o}, p.free, s.freeList);
    IndexOverwrite(hc, Slots(s.mem, s.layout), p.live, s.size, o, val);
    assert p.live[o := Rec(p.live[o].key, val)].Keys == p.live.Keys;
  }

  // ---------- growth ----------

  function GrownLayout(l: Layout, end: nat): (r: Layout) {
    Layout(l.bits, l.vectors + [Align8(end)])
  }

  /** The aligned, zeroed vector that doubles the capacity. */
  function GrownMemory(mem: Bytes, l: Layout): (r: Bytes)
    requires 0 < |l.vectors|
    ensures |r| == Align8(|mem|) + BUCKET_SIZE * l.Capacity()
  {
    mem + Zeros(Align8(|mem|) - |mem|) + Zeros(BUCKET_SIZE * l.Capacity())
  }

  function GrownPlan(p: Plan, l: Layout): (r: Plan)
    requires 0 < |l.vectors|
    ensures r.lens == p.lens && r.free == p.free && r.live == p.live
  {
    p.(tags := p.tags + Repeat(Unowned, Align8(|p.tags|) - |p.tags|) + Repeat(Buckets(0), BUCKET_SIZE * l.Capacity()))
  }

  /** The appended vector is all free and the buckets before it are as they were. */
  lemma GrownSlots(mem: Bytes, l: Layout)
    requires l.Fits(0, |mem|)
    ensures var m, l' := GrownMemory(mem, l), GrownLayout(l, |mem|);
            && l'.Fits(0, |m|) && l'.Capacity() == 2 * l.Capacity()
            && Slots(m, l')[..l.Capacity()] == Slots(mem, l)
            && (forall i :: l.Capacity() <= i < l'.Capacity() ==> Slots(m, l')[i].Vacant?)
  {
    AppendedSlots(mem, Align8(|mem|) - |mem|, l);
  }

  lemma GrownShape(s: State, p: Plan, m: Bytes)
    requires Shaped(s.mem, s.layout, p.tags) && Regions(p.tags, p.lens)
    requires |m| == |GrownMemory(s.mem, s.layout)| <= MEMORY_LIMIT
    requires OnlyVectors(GrownMemory(s.mem, s.layout), m, GrownLayout(s.layout, |s.mem|))
    ensures var p' := GrownPlan(p, s.layout);
            && Shaped(m, GrownLayout(s.layout, |s.mem|), p'.tags) && Regions(p'.tags, p'.lens)
            && KeptBut(s.mem, m, p.tags, 0, {})
  {
    var l' := GrownLayout(s.layout, |s.mem|);
    var pad := Align8(|s.mem|) - |s.mem|;
    VectorsOwnedAppend(p.tags, pad, s.layout, 0);
    RegionsGrow(p.tags, Repeat(Unowned, pad) + Repeat(Buckets(0), BUCKET_SIZE * s.layout.Capacity()), p.lens);
    var tags' := GrownPlan(p, s.layout).tags;
    assert tags' == p.tags + (Repeat(Unowned, pad) + Repeat(Buckets(0), BUCKET_SIZE * s.layout.Capacity()));
    forall a | 0 <= a < |s.mem| && p.tags[a].Record?
      ensures m[a] == s.mem[a]
    {
      assert tags'[a] == p.tags[a];
      assert !l'.Holds(a);
    }
  }

  /** A vector appended and the buckets rehashed: the same records, in order under the new mask. */
  lemma Grown(hc: Hash, s: State, p: Plan, m: Bytes)
    requires Sound(hc, s, p, {}) && |m| == |GrownMemory(s.mem, s.layout)| <= MEMORY_LIMIT
    requires var l := GrownLayout(s.layout, |s.mem|);
             && l.Fits(0, |m|) && OnlyVectors(GrownMemory(s.mem, s.layout), m, l)
             && Ordered(Slots(m, l)) && Distinct(Slots(m, l))
             && Entries(Slots(m, l)) == Entries(Slots(s.mem, s.layout))
             && Recs(Slots(m, l)) == Recs(Slots(s.mem, s.layout))
    ensures Sound(hc, State(m, GrownLayout(s.layout, |s.mem|), s.size, s.freeList), GrownPlan(p, s.layout), {})
    ensures GrownLayout(s.layout, |s.mem|).Capacity() == 2 * s.layout.Capacity()
  {
    var l, p' := GrownLayout(s.layout, |s.mem|), GrownPlan(p, s.layout);
    s.layout.AppendKeepsAddr(Align8(|s.mem|), 0);
    GrownShape(s, p, m);
    hide Shaped, Regions, AllStored, FreeOk, Partition, Index, Ordered, Distinct, Entries, Recs, KeptBut, Slots,
         OnlyVectors;
    IndexRearranged(hc, Slots(s.mem, s.layout), Slots(m, l), p.live, s.size);
    StoredKept(s.mem, m, p.tags, p.lens, p'.lens, p.live, {});
    FreeKept(s.mem, m, p.tags, p.lens, p'.lens, {}, p.free, s.freeList);
  }

  lemma EvenCapacity(hc: Hash, s: State, p: Plan, hole: set<nat>)
    requires Sound(hc, s, p, hole)
    ensures s.layout.Capacity() % 2 == 0 && 2 <= s.layout.Capacity() && 2 * s.size <= s.layout.Capacity()
  {
  }

  // ---------- removal ----------

  /** The free-list link and the size, over the first eight bytes of the record. */
  function WriteLink(mem: Bytes, o: nat, next: uint32): (r: Bytes)
    requires o + 8 <= |mem| && U32(mem, o) + U32(mem, o + 4) < MEMORY_LIMIT
    ensures |r| == |mem|
  {
    Put32(Put32(mem, o + 4, U32(mem, o) + U32(mem, o + 4)), o, next)
  }

  lemma LinkBytes(mem: Bytes, o: nat, next: uint32)
    requires o + 8 <= |mem| && U32(mem, o) + U32(mem, o + 4) < MEMORY_LIMIT
    ensures var m := WriteLink(mem, o, next);
            && U32(m, o) == next && U32(m, o + 4) == U32(mem, o) + U32(mem, o + 4)
            && (forall a :: 0 <= a < |mem| && !(o <= a < o + 8) ==> m[a] == mem[a])
  {
    var m1 := Put32(mem, o + 4, U32(mem, o) + U32(mem, o + 4));
    assert U32(WriteLink(mem, o, next), o + 4) == U32(m1, o + 4);
  }

  /** A found record can be released. */
  lemma Releasable(hc: Hash, s: State, p: Plan, o: nat)
    requires Sound(hc, s, p, {}) && o in p.live
    ensures s.freeList < MEMORY_LIMIT && 0 < o
    ensures o in p.lens && REC_HEADER <= p.lens[o] && o + p.lens[o] <= |s.mem| && o + 8 <= |s.mem|
    ensures U32(s.mem, o) + U32(s.mem, o + 4) == p.lens[o] - REC_HEADER < MEMORY_LIMIT
    ensures Owned(p.tags, o, p.lens[o], Record(0, o)) && |p.tags| == |s.mem| && VectorsOwned(p.tags, s.layout, 0)
  {
    hide Index, Slots, Owned, VectorsOwned, Stored, FreeAt;
    if p.free != [] {
      FreeInBounds(hc, s, p, {}, 0);
    }
    LiveIsStored(hc, s, p, o);
  }

  lemma LinkWritten(hc: Hash, s: State, p: Plan, o: nat, next: uint32)
    requires Sound(hc, s, p, {}) && o in p.live && o + 8 <= |s.mem| && U32(s.mem, o) + U32(s.mem, o + 4) < MEMORY_LIMIT
    ensures var m := WriteLink(s.mem, o, next);
            && s.layout.Fits(0, |m|) && Slots(m, s.layout) == Slots(s.mem, s.layout)
            && KeptBut(s.mem, m, p.tags, 0, {o}) && o in p.lens
            && U32(m, o) == next && U32(m, o + 4) == p.lens[o] - REC_HEADER
  {
    hide Index, Slots, WriteLink, KeptBut, AllStored, FreeOk, Partition, Owned, VectorsOwned;
    Releasable(hc, s, p, o);
    LinkBytes(s.mem, o, next);
    RegionWritten(s.mem, WriteLink(s.mem, o, next), s.layout, p.tags, o, p.lens[o]);
  }

  /** Repairing the chain after the link was written leaves the link alone. */
  lemma RemovedFrame(hc: Hash, s: State, p: Plan, o: nat, m: Bytes, m': Bytes)
    requires Sound(hc, s, p, {}) && OnlyVectors(m, m', s.layout) && |m| == |s.mem| && o in p.live
    requires KeptBut(s.mem, m, p.tags, 0, {o}) && o + 8 <= |m|
    ensures KeptBut(s.mem, m', p.tags, 0, {o}) && U32(m', o) == U32(m, o) && U32(m', o + 4) == U32(m, o + 4)
  {
    hide Sound, Slots, Stored;
    LiveIsStored(hc, s, p, o);
    assert Same(m, m', o, 8);
  }

  lemma RepairBegins(hc: Hash, s: State, p: Plan, d: nat, e: nat) returns (z: nat)
    requires Sound(hc, s, p, {}) && d < s.layout.Capacity() && e < s.layout.Capacity()
    requires Slots(s.mem, s.layout)[d].Entry? && Slots(s.mem, s.layout)[e].Vacant?
    ensures z < s.layout.Capacity()
    ensures var t := Slots(s.mem, s.layout); Repairing(t, t[d := Vacant], d, z, Next(d, s.layout.Capacity()))
  {
    var t := Slots(s.mem, s.layout);
    z := RunEndExists(t, d, e, d);
    RepairStarts(t, d, z);
  }

  // ---------- the empty table ----------

  lemma Pow2Values()
    ensures Pow2(INITIAL_BITS) == 32
  {
    assert Pow2(2) == 4;
    assert Pow2(4) == 16;
  }

  lemma InitialState(hc: Hash)
    ensures var s := State(Zeros(HEADER_SIZE + 32 * BUCKET_SIZE), Layout(INITIAL_BITS, [HEADER_SIZE]), 0, 0);
            var p := Plan(Repeat(Unowned, HEADER_SIZE) + Repeat(Buckets(0), 32 * BUCKET_SIZE), map[], [], map[]);
            Sound(hc, s, p, {})
  {
    Pow2Values();
    var m, l := Zeros(HEADER_SIZE + 32 * BUCKET_SIZE), Layout(INITIAL_BITS, [HEADER_SIZE]);
    assert l.Capacity() == 32 && l.End(0) == HEADER_SIZE + 32 * BUCKET_SIZE;
    forall a: nat
      ensures l.Holds(a) <==> HEADER_SIZE <= a < HEADER_SIZE + 32 * BUCKET_SIZE
    {
      assert l.Holds(a) <==> l.vectors[0] <= a < l.End(0);
    }
    ZeroSlots(m, l);
    IndexEmpty(hc, Slots(m, l));
  }

  /** Pre-sizing: an empty table needs no rehashing when a vector is appended. */
  lemma EmptyGrown(hc: Hash, s: State, p: Plan)
    requires Sound(hc, s, p, {}) && s.size == 0 && |s.mem| <= 144 + 8 * s.layout.Capacity()
    requires 2 * s.layout.Capacity() <= 0x1000_0000
    ensures var s' := State(GrownMemory(s.mem, s.layout), GrownLayout(s.layout, |s.mem|), 0, s.freeList);
            && Sound(hc, s', GrownPlan(p, s.layout), {})
            && |s'.mem| <= 144 + 8 * s'.layout.Capacity()
            && |s'.layout.vectors| == |s.layout.vectors| + 1 && s'.layout.bits == s.layout.bits
  {
    var m, l := GrownMemory(s.mem, s.layout), GrownLayout(s.layout, |s.mem|);
    var t, t' := Slots(s.mem, s.layout), Slots(m, l);
    GrownSlots(s.mem, s.layout);
    EmptyIndexVacant(hc, t, p.live);
    assert forall i :: 0 <= i < |t| ==> t'[..|t|][i] == t'[i];
    hide Sound, Slots, OnlyVectors;
    IndexEmpty(hc, t);
    IndexEmpty(hc, t');
    NothingWritten(m, l);
    Grown(hc, s, p, m);
  }

  lemma CapacityBelow(l: Layout, numSlots: nat)
    requires 0 < |l.vectors| < numSlots && l.bits == INITIAL_BITS
    ensures INITIAL_BITS == 5 && 2 * l.Capacity() <= Pow2(INITIAL_BITS + numSlots - 1)
  {
    Pow2Grows(INITIAL_BITS + |l.vectors| - 1, INITIAL_BITS + numSlots - 1);
  }

  lemma LargePowers()
    ensures Pow2(27) == 0x0800_0000 && Pow2(28) == 0x1000_0000
  {
    assert Pow2(9) == 512;
    assert Pow2(18) == 512 * 512;
  }

  lemma LogOfPresized(n: nat)
    requires 32 < n <= 0x0800_0000
    ensures var wanted := 2 * NextPow2(n);
            && INITIAL_BITS < Log2(wanted) && Pow2(Log2(wanted)) == wanted <= 0x1000_0000
  {
    var k := Log2(n - 1);
    assert 2 * NextPow2(n) == Pow2(k + 2);
    Log2Unique(Pow2(k + 2), k + 2);
    Pow2Values();
    Pow2Reflects(INITIAL_BITS, k + 2);
    LargePowers();
    Pow2Reflects(k, 27);
    Pow2Monotone(k + 2, 28);
  }
}
