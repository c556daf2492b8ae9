/** One sub-table of an `lhashtable` and its share of the common memory.

Records live in data blocks of 1 MB and are named by a packed 32-bit reference: 17 bits of offset, in
units of 8 bytes, and 15 bits of block number.  Block 0 is never used, so that no reference is 0. */
module LHashRecords {
  import opened Words
  import opened Probing
  import opened Segments
  import opened BucketStore
  import opened Ownership
  import opened HashIndex

  const BLOCK_SIZE := 0x10_0000
  const OFFSETS := 0x2_0000 // values of the 17-bit offset
  const REC_HEADER := 4
  const MIN_BITS := 3
  const NUM_DATA_BLOCKS := 4096
  const FREELIST_COUNT := 8192
  const NUM_SUB_TABLES := 256

  /** A sub-table; `dataStart` are its data blocks, of which the last is the current one. */
  datatype Sub = Sub(layout: Layout, size: nat, nextAlloc: nat, dataStart: seq<nat>, freelist: seq<nat>)

  /** Ghost bookkeeping: length of every record region, the free lists by size class, the live records. */
  datatype SubPlan = SubPlan(lens: map<nat, nat>, free: seq<seq<nat>>, live: map<nat, Rec>)

  /** `LHT_SUB_TABLE_HASH`. */
  function SubOf(h: uint32): (i: nat)
    ensures i < NUM_SUB_TABLES
  {
    ((h % 256) as bv8 ^ (h / 256 % 256) as bv8) as nat
  }

  // ---------- packed references ----------

  /** Number of the free list for regions of `n` bytes. */
  function Class(n: nat): (c: nat) {
    n / 8
  }

  function BlockOf(ref: nat): (b: nat) {
    ref / OFFSETS
  }

  function Pack(block: nat, ofs: nat): (ref: nat)
    requires ofs < OFFSETS
    ensures BlockOf(ref) == block && ref % OFFSETS == ofs
  {
    block * OFFSETS + ofs
  }

  /** `_lhashtable_data_ofs_to_abs_ofs`. */
  function AbsOfs(dataStart: seq<nat>, ref: nat): (a: nat)
    requires BlockOf(ref) < |dataStart|
  {
    dataStart[BlockOf(ref)] + 8 * (ref % OFFSETS)
  }

  ghost predicate BlocksOk(dataStart: seq<nat>, end: nat) {
    && 1 <= |dataStart| <= NUM_DATA_BLOCKS + 1
    && (forall b :: 1 <= b < |dataStart| ==> 0 < dataStart[b] && dataStart[b] + BLOCK_SIZE <= end)
    && (forall b, b' :: 1 <= b < b' < |dataStart| ==> dataStart[b] + BLOCK_SIZE <= dataStart[b'])
  }

  /** Decoding is injective: references into the blocks with the same address are equal. */
  lemma AbsOfsInjective(dataStart: seq<nat>, end: nat, ref: nat, ref': nat)
    requires BlocksOk(dataStart, end)
    requires 1 <= BlockOf(ref) < |dataStart| && 1 <= BlockOf(ref') < |dataStart|
    requires AbsOfs(dataStart, ref) == AbsOfs(dataStart, ref')
    ensures ref == ref'
  {
    assert ref == OFFSETS * BlockOf(ref) + ref % OFFSETS;
    assert ref' == OFFSETS * BlockOf(ref') + ref' % OFFSETS;
  }

  /** References into the blocks fit 32 bits and none of them is 0. */
  lemma RefFits(dataStart: seq<nat>, end: nat, ref: nat)
    requires BlocksOk(dataStart, end) && 1 <= BlockOf(ref) < |dataStart|
    ensures 0 < ref < 0x1_0000_0000
  {
  }

  // ---------- the invariant, piece by piece ----------

  /** The record at `a`, in a region of `n` bytes, is `rec`. */
  predicate Stored(mem: Bytes, a: nat, n: nat, rec: Rec)
    ensures Stored(mem, a, n, rec) ==> a + 4 <= |mem|
  {
    && n == Align8(REC_HEADER + |rec.key| + |rec.val|) && a + n <= |mem|
    && U16(mem, a) == |rec.key| && U16(mem, a + 2) == |rec.val|
    && Load(mem, a + REC_HEADER, |rec.key|) == rec.key
    && Load(mem, a + REC_HEADER + |rec.key|, |rec.val|) == rec.val
  }

  predicate KeyMatches(mem: Bytes, a: nat, key: Bytes)
    requires a + 4 <= |mem|
  {
    |key| == U16(mem, a) && a + REC_HEADER + |key| <= |mem| && Load(mem, a + REC_HEADER, |key|) == key
  }

  lemma KeyMatchesStored(mem: Bytes, a: nat, n: nat, rec: Rec, key: Bytes)
    requires Stored(mem, a, n, rec)
    ensures KeyMatches(mem, a, key) <==> rec.key == key
  {
  }

  /** A record region: inside a data block, a multiple of 8 bytes, small enough for its free list, all its own. */
  ghost predicate RegionAt(tags: Tags, i: nat, dataStart: seq<nat>, lens: map<nat, nat>, ref: nat)
    requires ref in lens
  {
    && 1 <= BlockOf(ref) < |dataStart|
    && 8 <= lens[ref] < 8 * FREELIST_COUNT && lens[ref] % 8 == 0
    && Owned(tags, AbsOfs(dataStart, ref), lens[ref], Record(i, ref))
  }

  ghost predicate Regions(tags: Tags, i: nat, dataStart: seq<nat>, lens: map<nat, nat>) {
    forall ref :: ref in lens ==> RegionAt(tags, i, dataStart, lens, ref)
  }

  /** The rest of the current block is spare. */
  ghost predicate SpareOk(tags: Tags, i: nat, dataStart: seq<nat>, nextAlloc: nat) {
    && 1 <= |dataStart| && nextAlloc <= BLOCK_SIZE && nextAlloc % 8 == 0
    && (|dataStart| == 1 ==> nextAlloc == BLOCK_SIZE)
    && (|dataStart| > 1 ==> Owned(tags, dataStart[|dataStart| - 1] + nextAlloc, BLOCK_SIZE - nextAlloc, Spare(i)))
  }

  ghost predicate AllStored(mem: Bytes, dataStart: seq<nat>, live: map<nat, Rec>, lens: map<nat, nat>) {
    forall ref :: ref in live ==>
      ref in lens && BlockOf(ref) < |dataStart| && Stored(mem, AbsOfs(dataStart, ref), lens[ref], live[ref])
  }

  function LinkTo(list: seq<nat>, j: nat): (ref: nat) {
    if j < |list| then list[j] else 0
  }

  ghost predicate FreeAt(mem: Bytes, dataStart: seq<nat>, lens: map<nat, nat>, c: nat, list: seq<nat>, j: nat)
    requires j < |list|
  {
    && list[j] in lens && lens[list[j]] == 8 * c && BlockOf(list[j]) < |dataStart|
    && AbsOfs(dataStart, list[j]) + 4 <= |mem|
    && U32(mem, AbsOfs(dataStart, list[j])) == LinkTo(list, j + 1)
  }

  /** A free list: acyclic, linked through the first four bytes of its records, of one size class. */
  ghost predicate ListOk(mem: Bytes, dataStart: seq<nat>, lens: map<nat, nat>, c: nat, list: seq<nat>, head: nat) {
    && head == LinkTo(list, 0)
    && (forall j, k :: 0 <= j < k < |list| ==> list[j] != list[k])
    && (forall j :: 0 <= j < |list| ==> FreeAt(mem, dataStart, lens, c, list, j))
  }

  ghost predicate ListsOk(mem: Bytes, dataStart: seq<nat>, lens: map<nat, nat>, free: seq<seq<nat>>, heads: seq<nat>) {
    && |free| == |heads| == FREELIST_COUNT
    && (forall c :: 0 <= c < FREELIST_COUNT ==> ListOk(mem, dataStart, lens, c, free[c], heads[c]))
  }

  /** In the free list of its own size class. */
  ghost predicate InFree(free: seq<seq<nat>>, lens: map<nat, nat>, ref: nat) {
    ref in lens && Class(lens[ref]) < |free| && ref in free[Class(lens[ref])]
  }

  /** Every region is exactly one of: live, free, in `hole`. */
  ghost predicate Partition(live: set<nat>, free: seq<seq<nat>>, hole: set<nat>, lens: map<nat, nat>) {
    && (forall ref :: ref in lens ==> ref in live || InFree(free, lens, ref) || ref in hole)
    && (forall ref :: ref in live ==> ref in lens && !InFree(free, lens, ref) && ref !in hole)
    && (forall ref :: ref in hole ==> ref in lens && !InFree(free, lens, ref))
  }

  ghost predicate OwnKeys(hc: Hash, i: nat, live: map<nat, Rec>) {
    forall ref :: ref in live ==> SubOf(hc(live[ref].key)) == i
  }

  ghost predicate Shaped(mem: Bytes, tags: Tags, i: nat, l: Layout)
    ensures Shaped(mem, tags, i, l) ==> l.Fits(0, |mem|) && |tags| == |mem|
  {
    0 < |tags| == |mem| && l.bits == MIN_BITS && l.Fits(0, |mem|) && VectorsOwned(tags, l, i)
  }

  ghost predicate SubSound(hc: Hash, mem: Bytes, tags: Tags, i: nat, s: Sub, p: SubPlan, hole: set<nat>)
    ensures SubSound(hc, mem, tags, i, s, p, hole) ==> s.layout.Fits(0, |mem|) && |tags| == |mem|
  {
    && Shaped(mem, tags, i, s.layout)
    && BlocksOk(s.dataStart, |mem|)
    && SpareOk(tags, i, s.dataStart, s.nextAlloc)
    && Regions(tags, i, s.dataStart, p.lens)
    && KeyIndex(hc, Slots(mem, s.layout), p.live, s.size)
    && OwnKeys(hc, i, p.live)
    && AllStored(mem, s.dataStart, p.live, p.lens)
    && ListsOk(mem, s.dataStart, p.lens, p.free, s.freelist)
    && Partition(p.live.Keys, p.free, hole, p.lens)
  }

  // ---------- frames ----------

  lemma StoredSame(m: Bytes, m': Bytes, a: nat, n: nat, rec: Rec)
    requires Same(m, m', a, n) && Stored(m, a, n, rec)
    ensures Stored(m', a, n, rec)
  {
    assert U16(m', a) == U16(m, a) && U16(m', a + 2) == U16(m, a + 2);
    SameLoad(m, m', a + REC_HEADER, |rec.key|);
    SameLoad(m, m', a + REC_HEADER + |rec.key|, |rec.val|);
  }

  /** `ds` and `lens` still hold in `ds'` and `lens'`. */
  ghost predicate Extends(ds: seq<nat>, lens: map<nat, nat>, ds': seq<nat>, lens': map<nat, nat>) {
    && ds <= ds'
    && (forall ref :: ref in lens ==> ref in lens' && lens'[ref] == lens[ref])
  }

  lemma StoredKept(m: Bytes, m': Bytes, tags: Tags, i: nat, ds: seq<nat>, lens: map<nat, nat>,
                   ds': seq<nat>, lens': map<nat, nat>, live: map<nat, Rec>, touched: set<nat>)
    requires Regions(tags, i, ds, lens) && Extends(ds, lens, ds', lens') && AllStored(m, ds, live, lens)
    requires KeptBut(m, m', tags, i, touched) && forall ref :: ref in live ==> ref !in touched
    ensures AllStored(m', ds', live, lens')
  {
    hide Stored, Owned, KeptBut, Same;
    forall ref | ref in live
      ensures ref in lens' && BlockOf(ref) < |ds'| && Stored(m', AbsOfs(ds', ref), lens'[ref], live[ref])
    {
      assert RegionAt(tags, i, ds, lens, ref);
      RegionKept(m, m', tags, i, touched, ref, AbsOfs(ds, ref), lens[ref]);
      StoredSame(m, m', AbsOfs(ds, ref), lens[ref], live[ref]);
    }
  }

  /** A free record whose region is not written and whose successor stays the same. */
  lemma FreeAtKept(m: Bytes, m': Bytes, tags: Tags, i: nat, ds: seq<nat>, lens: map<nat, nat>, ds': seq<nat>,
                   lens': map<nat, nat>, touched: set<nat>, c: nat, list: seq<nat>, j: nat, list': seq<nat>, j': nat)
    requires Regions(tags, i, ds, lens) && Extends(ds, lens, ds', lens') && KeptBut(m, m', tags, i, touched)
    requires j < |list| && j' < |list'| && FreeAt(m, ds, lens, c, list, j)
    requires list[j] == list'[j'] && list[j] !in touched && LinkTo(list, j + 1) == LinkTo(list', j' + 1)
    ensures FreeAt(m', ds', lens', c, list', j')
  {
    var ref := list[j];
    assert RegionAt(tags, i, ds, lens, ref);
    var a := AbsOfs(ds, ref);
    RegionKept(m, m', tags, i, touched, ref, a, lens[ref]);
    assert Same(m, m', a, 4);
    assert U32(m', a) == U32(m, a);
  }

  lemma ListKept(m: Bytes, m': Bytes, tags: Tags, i: nat, ds: seq<nat>, lens: map<nat, nat>, ds': seq<nat>,
                 lens': map<nat, nat>, touched: set<nat>, c: nat, list: seq<nat>, head: nat)
    requires Regions(tags, i, ds, lens) && Extends(ds, lens, ds', lens') && KeptBut(m, m', tags, i, touched)
    requires ListOk(m, ds, lens, c, list, head) && forall ref :: ref in list ==> ref !in touched
    ensures ListOk(m', ds', lens', c, list, head)
  {
    forall j | 0 <= j < |list|
      ensures FreeAt(m', ds', lens', c, list, j)
    {
      FreeAtKept(m, m', tags, i, ds, lens, ds', lens', touched, c, list, j, list, j);
    }
  }

  /** A listed record is in the list of its own class. */
  lemma ListedIsFree(m: Bytes, ds: seq<nat>, lens: map<nat, nat>, free: seq<seq<nat>>, heads: seq<nat>, c: nat,
                     ref: nat)
    requires ListsOk(m, ds, lens, free, heads) && c < FREELIST_COUNT && ref in free[c]
    ensures ref in lens && lens[ref] == 8 * c && InFree(free, lens, ref)
  {
    assert ListOk(m, ds, lens, c, free[c], heads[c]);
    var j :| 0 <= j < |free[c]| && free[c][j] == ref;
    assert FreeAt(m, ds, lens, c, free[c], j);
  }

  lemma ListsKept(m: Bytes, m': Bytes, tags: Tags, i: nat, ds: seq<nat>, lens: map<nat, nat>, ds': seq<nat>,
                  lens': map<nat, nat>, touched: set<nat>, free: seq<seq<nat>>, heads: seq<nat>)
    requires Regions(tags, i, ds, lens) && Extends(ds, lens, ds', lens') && KeptBut(m, m', tags, i, touched)
    requires ListsOk(m, ds, lens, free, heads) && forall ref :: ref in touched ==> !InFree(free, lens, ref)
    ensures ListsOk(m', ds', lens', free, heads)
  {
    forall c | 0 <= c < FREELIST_COUNT
      ensures ListOk(m', ds', lens', c, free[c], heads[c])
    {
      forall ref | ref in free[c]
        ensures ref !in touched
      {
        ListedIsFree(m, ds, lens, free, heads, c, ref);
      }
      ListKept(m, m', tags, i, ds, lens, ds', lens', touched, c, free[c], heads[c]);
    }
  }

  lemma VectorsKept(m: Bytes, m': Bytes, l: Layout, tags: Tags, i: nat)
    requires VectorsOwned(tags, l, i) && |tags| == |m| <= |m'|
    requires forall a :: 0 <= a < |m| && tags[a] == Buckets(i) ==> m'[a] == m[a]
    ensures l.Fits(0, |m'|) && Slots(m', l) == Slots(m, l)
  {
    l.FitsMore(0, |m|, |m'|);
    SlotsFrame(m, m', l);
  }

  /** A write inside one region touches no bucket and no other region. */
  lemma RegionWritten(m: Bytes, m': Bytes, l: Layout, tags: Tags, i: nat, ref: nat, a: nat, n: nat)
    requires VectorsOwned(tags, l, i) && |tags| == |m| == |m'| && Owned(tags, a, n, Record(i, ref))
    requires forall x :: 0 <= x < |m| && !(a <= x < a + n) ==> m'[x] == m[x]
    ensures KeptBut(m, m', tags, i, {ref}) && Slots(m', l) == Slots(m, l) && OthersKept(m, tags, m', tags, i)
  {
    VectorsKept(m, m', l, tags, i);
  }

  /** Writing buckets touches no region. */
  lemma BucketsWritten(m: Bytes, m': Bytes, l: Layout, tags: Tags, i: nat)
    requires VectorsOwned(tags, l, i) && |tags| == |m| && OnlyVectors(m, m', l)
    ensures KeptBut(m, m', tags, i, {}) && OthersKept(m, tags, m', tags, i)
  {
  }

  lemma KeptTwice(m: Bytes, m': Bytes, m'': Bytes, tags: Tags, i: nat, touched: set<nat>, touched': set<nat>)
    requires KeptBut(m, m', tags, i, touched) && KeptBut(m', m'', tags, i, touched') && |m| == |m'|
    ensures KeptBut(m, m'', tags, i, touched + touched')
  {
  }

  // ---------- the other sub-tables ----------

  lemma OtherOwned(m: Bytes, tags: Tags, m': Bytes, tags': Tags, i: nat, a: nat, n: nat, tag: Tag)
    requires OthersKept(m, tags, m', tags', i) && Owned(tags, a, n, tag) && !tag.Unowned? && tag.table != i
    ensures Owned(tags', a, n, tag) && Same(m, m', a, n)
  {
  }

  lemma OtherShape(m: Bytes, tags: Tags, m': Bytes, tags': Tags, i: nat, j: nat, l: Layout)
    requires OthersKept(m, tags, m', tags', i) && i != j && Shaped(m, tags, j, l)
    ensures Shaped(m', tags', j, l) && Slots(m', l) == Slots(m, l)
  {
    VectorsKept(m, m', l, tags, j);
    l.FitsMore(0, |tags|, |tags'|);
    forall a | 0 <= a < |tags'|
      ensures l.Holds(a) <==> tags'[a] == Buckets(j)
    {
      if a >= |tags| {
        l.HoldsFits(a, 0, |tags|);
      } else if OwnedBy(tags[a], i) {
        assert tags'[a].Unowned? || OwnedBy(tags'[a], i);
      }
    }
  }

  /** What is done to one sub-table leaves every other one sound. */
  lemma OtherSound(hc: Hash, m: Bytes, tags: Tags, m': Bytes, tags': Tags, i: nat, j: nat, s: Sub, p: SubPlan)
    requires OthersKept(m, tags, m', tags', i) && i != j && SubSound(hc, m, tags, j, s, p, {})
    ensures SubSound(hc, m', tags', j, s, p, {})
  {
    hide Shaped, Regions, KeyIndex, Index, OwnKeys, AllStored, ListsOk, Partition, Slots, OthersKept, Owned, KeptBut,
         Extends;
    OtherShape(m, tags, m', tags', i, j, s.layout);
    OtherRegions(m, tags, m', tags', i, j, s, p);
    OtherKept(m, tags, m', tags', i, j);
    ExtendsSame(s.dataStart, p.lens);
    StoredKept(m, m', tags, j, s.dataStart, p.lens, s.dataStart, p.lens, p.live, {});
    ListsKept(m, m', tags, j, s.dataStart, p.lens, s.dataStart, p.lens, {}, p.free, s.freelist);
    OtherSpare(m, tags, m', tags', i, j, s);
  }

  lemma ExtendsSame(ds: seq<nat>, lens: map<nat, nat>)
    ensures Extends(ds, lens, ds, lens)
  {
  }

  lemma OtherKept(m: Bytes, tags: Tags, m': Bytes, tags': Tags, i: nat, j: nat)
    requires OthersKept(m, tags, m', tags', i) && i != j
    ensures |m| <= |m'| && KeptBut(m, m', tags, j, {})
  {
  }

  lemma OtherSpare(m: Bytes, tags: Tags, m': Bytes, tags': Tags, i: nat, j: nat, s: Sub)
    requires OthersKept(m, tags, m', tags', i) && i != j && SpareOk(tags, j, s.dataStart, s.nextAlloc)
    requires BlocksOk(s.dataStart, |m|)
    ensures SpareOk(tags', j, s.dataStart, s.nextAlloc) && BlocksOk(s.dataStart, |m'|)
  {
    if |s.dataStart| > 1 {
      OtherOwned(m, tags, m', tags', i, s.dataStart[|s.dataStart| - 1] + s.nextAlloc, BLOCK_SIZE - s.nextAlloc,
        Spare(j));
    }
  }

  lemma OtherRegions(m: Bytes, tags: Tags, m': Bytes, tags': Tags, i: nat, j: nat, s: Sub, p: SubPlan)
    requires OthersKept(m, tags, m', tags', i) && i != j && Regions(tags, j, s.dataStart, p.lens)
    ensures Regions(tags', j, s.dataStart, p.lens)
  {
    forall ref | ref in p.lens
      ensures RegionAt(tags', j, s.dataStart, p.lens, ref)
    {
      assert RegionAt(tags, j, s.dataStart, p.lens, ref);
      OtherOwned(m, tags, m', tags', i, AbsOfs(s.dataStart, ref), p.lens[ref], Record(j, ref));
    }
  }

  // ---------- memory appended for this sub-table ----------

  /** Bytes handed to the sub-table at the end of memory. */
  lemma AppendedShape(m: Bytes, m': Bytes, tags: Tags, i: nat, s: Sub, p: SubPlan, tag: Tag, n: nat)
    requires |m'| == |m| + n && |tags| == |m| && OwnedBy(tag, i)
    requires forall a :: 0 <= a < |m| && !OwnedBy(tags[a], i) ==> m'[a] == m[a]
    requires Regions(tags, i, s.dataStart, p.lens) && BlocksOk(s.dataStart, |m|)
             && SpareOk(tags, i, s.dataStart, s.nextAlloc)
    ensures var tags' := tags + Repeat(tag, n);
            && OthersKept(m, tags, m', tags', i) && Regions(tags', i, s.dataStart, p.lens)
            && BlocksOk(s.dataStart, |m'|) && SpareOk(tags', i, s.dataStart, s.nextAlloc)
  {
    var tags' := tags + Repeat(tag, n);
    forall ref | ref in p.lens
      ensures RegionAt(tags', i, s.dataStart, p.lens, ref)
    {
      assert RegionAt(tags, i, s.dataStart, p.lens, ref);
    }
  }

  function GrownLayout(l: Layout, end: nat): (r: Layout) {
    Layout(l.bits, l.vectors + [end])
  }

  function GrownMemory(mem: Bytes, l: Layout): (r: Bytes)
    requires 0 < |l.vectors|
    ensures |r| == |mem| + BUCKET_SIZE * l.Capacity()
  {
    mem + Zeros(BUCKET_SIZE * l.Capacity())
  }

  function GrownTags(tags: Tags, i: nat, l: Layout): (r: Tags)
    requires 0 < |l.vectors|
    ensures |r| == |tags| + BUCKET_SIZE * l.Capacity()
  {
    tags + Repeat(Buckets(i), BUCKET_SIZE * l.Capacity())
  }

  lemma GrownSlots(mem: Bytes, l: Layout)
    requires l.Fits(0, |mem|)
    ensures var m, l' := GrownMemory(mem, l), GrownLayout(l, |mem|);
            && l'.Fits(0, |m|) && l'.Capacity() == 2 * l.Capacity()
            && Slots(m, l')[..l.Capacity()] == Slots(mem, l)
            && (forall i :: l.Capacity() <= i < l'.Capacity() ==> Slots(m, l')[i].Vacant?)
  {
    AppendedSlots(mem, 0, l);
    assert mem + Zeros(0) == mem;
  }

  lemma GrownShape(m0: Bytes, tags: Tags, i: nat, l: Layout, m: Bytes)
    requires Shaped(m0, tags, i, l) && |m| == |GrownMemory(m0, l)|
             && OnlyVectors(GrownMemory(m0, l), m, GrownLayout(l, |m0|))
    ensures Shaped(m, GrownTags(tags, i, l), i, GrownLayout(l, |m0|)) && KeptBut(m0, m, tags, i, {})
    ensures forall a :: 0 <= a < |m0| && !OwnedBy(tags[a], i) ==> m[a] == m0[a]
  {
    var l', tags' := GrownLayout(l, |m0|), GrownTags(tags, i, l);
    VectorsOwnedAppend(tags, 0, l, i);
    assert tags + Repeat(Unowned, 0) == tags;
    forall a | 0 <= a < |m0| && tags[a] != Buckets(i)
      ensures m[a] == m0[a]
    {
      assert tags'[a] == tags[a];
      assert !l'.Holds(a);
    }
  }

  /** A vector appended and the buckets rehashed: the same records, in order under the new mask. */
  lemma SubGrown(hc: Hash, m0: Bytes, tags: Tags, i: nat, s: Sub, p: SubPlan, m: Bytes)
    requires SubSound(hc, m0, tags, i, s, p, {}) && |m| == |GrownMemory(m0, s.layout)|
    requires var l := GrownLayout(s.layout, |m0|);
             && l.Fits(0, |m|) && OnlyVectors(GrownMemory(m0, s.layout), m, l)
             && Ordered(Slots(m, l)) && Distinct(Slots(m, l))
             && Entries(Slots(m, l)) == Entries(Slots(m0, s.layout))
             && Recs(Slots(m, l)) == Recs(Slots(m0, s.layout))
    ensures SubSound(hc, m, GrownTags(tags, i, s.layout), i, s.(layout := GrownLayout(s.layout, |m0|)), p, {})
    ensures OthersKept(m0, tags, m, GrownTags(tags, i, s.layout), i)
    ensures GrownLayout(s.layout, |m0|).Capacity() == 2 * s.layout.Capacity()
  {
    hide Shaped, Regions, KeyIndex, Index, OwnKeys, AllStored, ListsOk, Partition, Slots, OthersKept, KeptBut, Extends,
         BlocksOk, SpareOk, Ordered, Distinct, Entries, Recs, OnlyVectors;
    var l := GrownLayout(s.layout, |m0|);
    s.layout.AppendKeepsAddr(|m0|, 0);
    GrownShape(m0, tags, i, s.layout, m);
    AppendedShape(m0, m, tags, i, s, p, Buckets(i), BUCKET_SIZE * s.layout.Capacity());
    IndexRearranged(hc, Slots(m0, s.layout), Slots(m, l), p.live, s.size);
    ExtendsSame(s.dataStart, p.lens);
    StoredKept(m0, m, tags, i, s.dataStart, p.lens, s.dataStart, p.lens, p.live, {});
    ListsKept(m0, m, tags, i, s.dataStart, p.lens, s.dataStart, p.lens, {}, p.free, s.freelist);
  }

  /** A fresh data block. */
  lemma BlockAppended(hc: Hash, m: Bytes, tags: Tags, i: nat, s: Sub, p: SubPlan)
    requires SubSound(hc, m, tags, i, s, p, {}) && |s.dataStart| <= NUM_DATA_BLOCKS
    ensures var m', tags' := m + Zeros(BLOCK_SIZE), tags + Repeat(Spare(i), BLOCK_SIZE);
            && SubSound(hc, m', tags', i, s.(dataStart := s.dataStart + [|m|], nextAlloc := 0), p, {})
            && OthersKept(m, tags, m', tags', i) && Slots(m', s.layout) == Slots(m, s.layout)
  {
    var m', tags', ds := m + Zeros(BLOCK_SIZE), tags + Repeat(Spare(i), BLOCK_SIZE), s.dataStart + [|m|];
    hide Regions, KeyIndex, Index, OwnKeys, AllStored, ListsOk, Partition, Slots, OthersKept;
    assert SpareOk(tags', i, ds, 0) && BlocksOk(ds, |m'|) && KeptBut(m, m', tags, i, {});
    assert Extends(s.dataStart, p.lens, ds, p.lens);
    VectorsKept(m, m', s.layout, tags, i);
    VectorsOwnedGrows(tags, Repeat(Spare(i), BLOCK_SIZE), s.layout, i);
    hide Shaped, VectorsOwned, BlocksOk, SpareOk, KeptBut, Extends;
    AppendedShape(m, m', tags, i, s, p, Spare(i), BLOCK_SIZE);
    RegionsMore(tags', i, s.dataStart, ds, p.lens);
    StoredKept(m, m', tags, i, s.dataStart, p.lens, ds, p.lens, p.live, {});
    ListsKept(m, m', tags, i, s.dataStart, p.lens, ds, p.lens, {}, p.free, s.freelist);
  }

  lemma RegionsMore(tags: Tags, i: nat, ds: seq<nat>, ds': seq<nat>, lens: map<nat, nat>)
    requires Regions(tags, i, ds, lens) && Extends(ds, lens, ds', lens)
    ensures Regions(tags, i, ds', lens)
  {
    forall ref | ref in lens
      ensures RegionAt(tags, i, ds', lens, ref)
    {
      assert RegionAt(tags, i, ds, lens, ref);
    }
  }

  // ---------- allocation ----------

  function Retag(tags: Tags, a: nat, n: nat, tag: Tag): (r: Tags)
    requires a + n <= |tags|
    ensures |r| == |tags| && forall x :: 0 <= x < |tags| ==> r[x] == if a <= x < a + n then tag else tags[x]
  {
    tags[..a] + Repeat(tag, n) + tags[a + n..]
  }

  ghost predicate CanBump(s: Sub, n: nat) {
    1 < |s.dataStart| && 8 <= n < 8 * FREELIST_COUNT && n % 8 == 0 && s.nextAlloc + n <= BLOCK_SIZE
      && s.nextAlloc % 8 == 0
  }

  function BumpRef(s: Sub): (ref: nat)
    requires 1 < |s.dataStart| && s.nextAlloc < BLOCK_SIZE
    ensures BlockOf(ref) == |s.dataStart| - 1
    ensures s.nextAlloc % 8 == 0 ==> AbsOfs(s.dataStart, ref) == s.dataStart[|s.dataStart| - 1] + s.nextAlloc
  {
    Pack(|s.dataStart| - 1, s.nextAlloc / 8)
  }

  function BumpTags(tags: Tags, i: nat, s: Sub, n: nat): (r: Tags)
    requires 1 < |s.dataStart| && s.nextAlloc < BLOCK_SIZE && s.dataStart[|s.dataStart| - 1] + s.nextAlloc + n <= |tags|
  {
    Retag(tags, s.dataStart[|s.dataStart| - 1] + s.nextAlloc, n, Record(i, BumpRef(s)))
  }

  lemma BumpShape(m: Bytes, tags: Tags, i: nat, s: Sub, p: SubPlan, n: nat)
    requires CanBump(s, n) && 0 < |tags| == |m| && s.layout.bits == MIN_BITS && VectorsOwned(tags, s.layout, i)
    requires Regions(tags, i, s.dataStart, p.lens) && SpareOk(tags, i, s.dataStart, s.nextAlloc)
    ensures s.dataStart[|s.dataStart| - 1] + s.nextAlloc + n <= |tags|
    ensures var tags', ref := BumpTags(tags, i, s, n), BumpRef(s);
            && ref !in p.lens && Shaped(m, tags', i, s.layout) && SpareOk(tags', i, s.dataStart, s.nextAlloc + n)
            && Regions(tags', i, s.dataStart, p.lens[ref := n]) && OthersKept(m, tags, m, tags', i)
  {
    var ref := BumpRef(s);
    var a := s.dataStart[|s.dataStart| - 1] + s.nextAlloc;
    assert tags[a] == Spare(i);
    NotYetUsed(tags, i, s.dataStart, p.lens, ref);
    var tags' := BumpTags(tags, i, s, n);
    var lens' := p.lens[ref := n];
    forall r | r in lens'
      ensures RegionAt(tags', i, s.dataStart, lens', r)
    {
      if r != ref {
        assert RegionAt(tags, i, s.dataStart, p.lens, r);
        StillOwned(tags, tags', a, n, i, AbsOfs(s.dataStart, r), p.lens[r], r);
      }
    }
  }

  lemma NotYetUsed(tags: Tags, i: nat, ds: seq<nat>, lens: map<nat, nat>, ref: nat)
    requires Regions(tags, i, ds, lens) && BlockOf(ref) < |ds| && AbsOfs(ds, ref) < |tags|
             && !tags[AbsOfs(ds, ref)].Record?
    ensures ref !in lens
  {
    assert ref in lens ==> RegionAt(tags, i, ds, lens, ref);
  }

  lemma StillOwned(tags: Tags, tags': Tags, a: nat, n: nat, i: nat, x: nat, len: nat, r: nat)
    requires |tags'| == |tags| && Owned(tags, a, n, Spare(i)) && Owned(tags, x, len, Record(i, r))
    requires forall y :: 0 <= y < |tags| && !(a <= y < a + n) ==> tags'[y] == tags[y]
    ensures Owned(tags', x, len, Record(i, r))
  {
    forall y | x <= y < x + len
      ensures tags'[y] == Record(i, r)
    {
      assert tags[y] == Record(i, r);
    }
  }

  lemma BumpPartition(m: Bytes, ds: seq<nat>, live: set<nat>, free: seq<seq<nat>>, heads: seq<nat>, lens: map<nat, nat>,
                      ref: nat, n: nat)
    requires ref !in lens && Partition(live, free, {}, lens) && ListsOk(m, ds, lens, free, heads)
    requires 8 <= n < 8 * FREELIST_COUNT && n % 8 == 0
    ensures Partition(live, free, {ref}, lens[ref := n])
  {
    if ref in free[n / 8] {
      ListedIsFree(m, ds, lens, free, heads, n / 8, ref);
    }
  }

  /** A fresh region carved from the current block, not yet a record. */
  lemma Bumped(hc: Hash, m: Bytes, tags: Tags, i: nat, s: Sub, p: SubPlan, n: nat)
    requires SubSound(hc, m, tags, i, s, p, {}) && CanBump(s, n)
    ensures s.dataStart[|s.dataStart| - 1] + s.nextAlloc + n <= |tags|
    ensures var tags', ref := BumpTags(tags, i, s, n), BumpRef(s);
            && SubSound(hc, m, tags', i, s.(nextAlloc := s.nextAlloc + n), p.(lens := p.lens[ref := n]), {ref})
            && OthersKept(m, tags, m, tags', i) && ref !in p.lens
  {
    hide VectorsOwned, Regions, KeyIndex, Index, OwnKeys, AllStored, ListsOk, Partition, Slots, OthersKept, KeptBut,
         SpareOk, BumpTags, BumpRef;
    BumpShape(m, tags, i, s, p, n);
    var ref := BumpRef(s);
    BumpPartition(m, s.dataStart, p.live.Keys, p.free, s.freelist, p.lens, ref, n);
    NothingKept(m, tags, i);
    StoredKept(m, m, tags, i, s.dataStart, p.lens, s.dataStart, p.lens[ref := n], p.live, {});
    ListsKept(m, m, tags, i, s.dataStart, p.lens, s.dataStart, p.lens[ref := n], {}, p.free, s.freelist);
  }

  lemma NothingKept(m: Bytes, tags: Tags, i: nat)
    requires |tags| == |m|
    ensures KeptBut(m, m, tags, i, {})
  {
  }

  /** The head of the free list of class `c` is taken off. */
  lemma Popped(hc: Hash, m: Bytes, tags: Tags, i: nat, s: Sub, p: SubPlan, c: nat)
    requires SubSound(hc, m, tags, i, s, p, {}) && c < FREELIST_COUNT && |s.freelist| == FREELIST_COUNT
             && s.freelist[c] != 0
    ensures |p.free| == FREELIST_COUNT && 0 < |p.free[c]| && s.freelist[c] == p.free[c][0]
    ensures var ref := p.free[c][0];
            && ref in p.lens && p.lens[ref] == 8 * c && BlockOf(ref) < |s.dataStart|
               && AbsOfs(s.dataStart, ref) + 4 <= |m|
            && var s' := s.(freelist := s.freelist[c := U32(m, AbsOfs(s.dataStart, ref))]);
            SubSound(hc, m, tags, i, s', p.(free := p.free[c := p.free[c][1..]]), {ref})
  {
    hide Shaped, BlocksOk, SpareOk, Regions, KeyIndex, Index, OwnKeys, AllStored, Slots;
    assert ListOk(m, s.dataStart, p.lens, c, p.free[c], s.freelist[c]);
    assert FreeAt(m, s.dataStart, p.lens, c, p.free[c], 0);
    var list := p.free[c];
    var ref := list[0];
    PopList(m, s.dataStart, p.lens, c, list, s.freelist[c]);
    PopPartition(m, s.dataStart, p.live.Keys, p.free, s.freelist, p.lens, c);
  }

  lemma PopList(m: Bytes, ds: seq<nat>, lens: map<nat, nat>, c: nat, list: seq<nat>, head: nat)
    requires ListOk(m, ds, lens, c, list, head) && 0 < |list|
    ensures BlockOf(list[0]) < |ds| && AbsOfs(ds, list[0]) + 4 <= |m|
    ensures ListOk(m, ds, lens, c, list[1..], U32(m, AbsOfs(ds, list[0])))
  {
    assert FreeAt(m, ds, lens, c, list, 0);
    var rest := list[1..];
    forall j | 0 <= j < |rest|
      ensures FreeAt(m, ds, lens, c, rest, j)
    {
      assert FreeAt(m, ds, lens, c, list, j + 1);
      assert LinkTo(rest, j + 1) == LinkTo(list, j + 2);
    }
  }

  lemma PopPartition(m: Bytes, ds: seq<nat>, live: set<nat>, free: seq<seq<nat>>, heads: seq<nat>, lens: map<nat, nat>,
                     c: nat)
    requires Partition(live, free, {}, lens) && ListsOk(m, ds, lens, free, heads) && c < FREELIST_COUNT && 0 < |free[c]|
    ensures Partition(live, free[c := free[c][1..]], {free[c][0]}, lens)
  {
    var ref, free' := free[c][0], free[c := free[c][1..]];
    ListedIsFree(m, ds, lens, free, heads, c, ref);
    assert ListOk(m, ds, lens, c, free[c], heads[c]);
    forall r | r in lens
      ensures InFree(free', lens, r) <==> InFree(free, lens, r) && r != ref
    {
      assert r in free[c] <==> r == ref || r in free[c][1..];
    }
  }

  // ---------- writing records ----------

  function WriteKey(mem: Bytes, a: nat, key: Bytes, valLen: uint16): (r: Bytes)
    requires a + REC_HEADER + |key| <= |mem| && |key| < 0x1_0000
    ensures |r| == |mem|
  {
    Store(Put16(Put16(mem, a, |key|), a + 2, valLen), a + REC_HEADER, key)
  }

  lemma KeyWritten(mem: Bytes, a: nat, n: nat, key: Bytes, valLen: uint16)
    requires n == Align8(REC_HEADER + |key| + valLen) && a + n <= |mem| && |key| < 0x1_0000
    ensures var r := WriteKey(mem, a, key, valLen);
            && Stored(r, a, n, Rec(key, Load(mem, a + REC_HEADER + |key|, valLen)))
            && (forall x :: 0 <= x < |mem| && !(a <= x < a + n) ==> r[x] == mem[x])
  {
    var m1 := Put16(mem, a, |key|);
    var m2 := Put16(m1, a + 2, valLen);
    var r := Store(m2, a + REC_HEADER, key);
    assert U16(m2, a) == U16(m1, a);
    assert U16(r, a) == U16(m2, a) && U16(r, a + 2) == U16(m2, a + 2);
    LoadStored(m2, a + REC_HEADER, key);
    var v := a + REC_HEADER + |key|;
    assert Same(mem, r, v, valLen);
    SameLoad(mem, r, v, valLen);
  }

  /** Giving the value another length within the same region. */
  lemma LengthWritten(mem: Bytes, a: nat, n: nat, rec: Rec, valLen: uint16)
    requires Stored(mem, a, n, rec) && n == Align8(REC_HEADER + |rec.key| + valLen)
    ensures var r := Put16(mem, a + 2, valLen);
            && Stored(r, a, n, Rec(rec.key, Load(mem, a + REC_HEADER + |rec.key|, valLen)))
            && (forall x :: 0 <= x < |mem| && !(a <= x < a + n) ==> r[x] == mem[x])
  {
    var r := Put16(mem, a + 2, valLen);
    var v := a + REC_HEADER + |rec.key|;
    assert U16(r, a) == U16(mem, a);
    assert Same(mem, r, a + REC_HEADER, |rec.key|) && Same(mem, r, v, valLen);
    SameLoad(mem, r, a + REC_HEADER, |rec.key|);
    SameLoad(mem, r, v, valLen);
  }

  lemma ValueWritten(mem: Bytes, a: nat, n: nat, rec: Rec, val: Bytes)
    requires Stored(mem, a, n, rec) && |val| <= |rec.val|
    ensures var r := Store(mem, a + REC_HEADER + |rec.key|, val);
            && Stored(r, a, n, Rec(rec.key, val + rec.val[|val|..]))
            && (forall x :: 0 <= x < |mem| && !(a <= x < a + n) ==> r[x] == mem[x])
  {
    var v := a + REC_HEADER + |rec.key|;
    var r := Store(mem, v, val);
    assert U16(r, a) == U16(mem, a) && U16(r, a + 2) == U16(mem, a + 2);
    assert Same(mem, r, a + REC_HEADER, |rec.key|);
    SameLoad(mem, r, a + REC_HEADER, |rec.key|);
    LoadPatched(mem, v, |rec.val|, val);
  }

  lemma LoadPatched(mem: Bytes, v: nat, n: nat, val: Bytes)
    requires |val| <= n && v + n <= |mem|
    ensures Load(Store(mem, v, val), v, n) == val + Load(mem, v, n)[|val|..]
  {
  }

  // ---------- the operations ----------

  /** What any write to records and buckets amounts to. */
  lemma Assembled(hc: Hash, m: Bytes, m': Bytes, tags: Tags, i: nat, s: Sub, s': Sub, p: SubPlan, p': SubPlan,
                  hole: set<nat>, touched: set<nat>)
    requires SubSound(hc, m, tags, i, s, p, hole) && |m'| == |m| && KeptBut(m, m', tags, i, touched)
    requires s'.layout == s.layout && s'.dataStart == s.dataStart && s'.nextAlloc == s.nextAlloc && p'.lens == p.lens
    requires KeyIndex(hc, Slots(m', s.layout), p'.live, s'.size) && OwnKeys(hc, i, p'.live)
    requires forall ref :: ref in p'.live && ref !in touched ==> ref in p.live && p'.live[ref] == p.live[ref]
    requires forall ref :: ref in p'.live && ref in touched
                           ==> ref in p.lens && BlockOf(ref) < |s.dataStart|
                               && Stored(m', AbsOfs(s.dataStart, ref), p.lens[ref], p'.live[ref])
    requires ListsOk(m', s.dataStart, p.lens, p'.free, s'.freelist) && Partition(p'.live.Keys, p'.free, {}, p.lens)
    ensures SubSound(hc, m', tags, i, s', p', {})
  {
    hide VectorsOwned, Regions, KeyIndex, Index, OwnKeys, ListsOk, Partition, Slots, KeptBut, SpareOk, Stored;
    var kept := map ref | ref in p'.live && ref !in touched :: p'.live[ref];
    ExtendsSame(s.dataStart, p.lens);
    StoredKept(m, m', tags, i, s.dataStart, p.lens, s.dataStart, p.lens, kept, touched);
    forall ref | ref in p'.live
      ensures ref in p.lens && BlockOf(ref) < |s.dataStart|
              && Stored(m', AbsOfs(s.dataStart, ref), p.lens[ref], p'.live[ref])
    {
      if ref !in touched {
        assert ref in kept;
      }
    }
  }

  lemma Parts(hc: Hash, m: Bytes, tags: Tags, i: nat, s: Sub, p: SubPlan, hole: set<nat>)
    requires SubSound(hc, m, tags, i, s, p, hole)
    ensures Regions(tags, i, s.dataStart, p.lens) && KeyIndex(hc, Slots(m, s.layout), p.live, s.size)
            && OwnKeys(hc, i, p.live)
    ensures ListsOk(m, s.dataStart, p.lens, p.free, s.freelist) && Partition(p.live.Keys, p.free, hole, p.lens)
    ensures |p.free| == |s.freelist| == FREELIST_COUNT
  {
  }

  lemma OwnKeysUpdate(hc: Hash, i: nat, live: map<nat, Rec>, gone: nat, ref: nat, rec: Rec)
    requires OwnKeys(hc, i, live)
    ensures OwnKeys(hc, i, live - {gone})
    ensures SubOf(hc(rec.key)) == i ==> OwnKeys(hc, i, live[ref := rec]) && OwnKeys(hc, i, (live - {gone})[ref := rec])
    ensures forall x :: x in live ==> SubOf(hc(live[x].key)) == i
  {
  }

  lemma NotFree(free: seq<seq<nat>>, lens: map<nat, nat>, x: nat, y: nat)
    requires !InFree(free, lens, x) && !InFree(free, lens, y)
    ensures forall z :: z in {x, y} ==> !InFree(free, lens, z)
  {
  }

  lemma EnterPartition(live: set<nat>, free: seq<seq<nat>>, lens: map<nat, nat>, ref: nat)
    requires Partition(live, free, {ref}, lens)
    ensures Partition(live + {ref}, free, {}, lens)
  {
  }

  lemma HoleIsRegion(hc: Hash, m: Bytes, tags: Tags, i: nat, s: Sub, p: SubPlan, ref: nat)
    requires SubSound(hc, m, tags, i, s, p, {ref})
    ensures ref in p.lens && ref !in p.live && !InFree(p.free, p.lens, ref)
            && RegionAt(tags, i, s.dataStart, p.lens, ref)
    ensures 0 < ref < 0x1_0000_0000 && AbsOfs(s.dataStart, ref) + p.lens[ref] <= |m|
    ensures VectorsOwned(tags, s.layout, i) && BlocksOk(s.dataStart, |m|)
  {
    hide KeyIndex, Index, Slots, ListsOk, AllStored;
    assert RegionAt(tags, i, s.dataStart, p.lens, ref);
    RefFits(s.dataStart, |m|, ref);
  }

  lemma LiveIsStored(hc: Hash, m: Bytes, tags: Tags, i: nat, s: Sub, p: SubPlan, hole: set<nat>, ref: nat)
    requires SubSound(hc, m, tags, i, s, p, hole) && ref in p.live
    ensures ref in p.lens && ref !in hole && !InFree(p.free, p.lens, ref) && RegionAt(tags, i, s.dataStart, p.lens, ref)
    ensures Stored(m, AbsOfs(s.dataStart, ref), p.lens[ref], p.live[ref])
    ensures AbsOfs(s.dataStart, ref) + p.lens[ref] <= |m|
    ensures p.lens[ref] == Align8(REC_HEADER + |p.live[ref].key| + |p.live[ref].val|)
    ensures U16(m, AbsOfs(s.dataStart, ref)) == |p.live[ref].key|
            && U16(m, AbsOfs(s.dataStart, ref) + 2) == |p.live[ref].val|
    ensures VectorsOwned(tags, s.layout, i) && BlocksOk(s.dataStart, |m|)
  {
    hide KeyIndex, Index, Slots, ListsOk, OwnKeys, VectorsOwned;
    assert RegionAt(tags, i, s.dataStart, p.lens, ref);
  }

  /** The region `ref`, whose bucket has been filled, becomes the record of a new key. */
  lemma Entered(hc: Hash, m: Bytes, m': Bytes, tags: Tags, i: nat, s: Sub, p: SubPlan, ref: nat, q: nat, e: nat,
                rec: Rec)
    requires SubSound(hc, m, tags, i, s, p, {ref}) && 2 * s.size + 2 <= s.layout.Capacity() && q < s.layout.Capacity()
    requires Absent(p.live, rec.key) && SubOf(hc(rec.key)) == i && |m'| == |m| && KeptBut(m, m', tags, i, {ref})
    requires Probed(Slots(m, s.layout), Ideal(hc(rec.key), s.layout.Capacity()), q, e) && Slots(m, s.layout)[q].Vacant?
    requires Slots(m', s.layout) == Slots(m, s.layout)[q := Entry(hc(rec.key), ref)]
    requires ref in p.lens && BlockOf(ref) < |s.dataStart| && Stored(m', AbsOfs(s.dataStart, ref), p.lens[ref], rec)
    ensures SubSound(hc, m', tags, i, s.(size := s.size + 1), p.(live := p.live[ref := rec]), {})
  {
    hide *;
    Parts(hc, m, tags, i, s, p, {ref});
    HoleIsRegion(hc, m, tags, i, s, p, ref);
    IndexEnter(hc, Slots(m, s.layout), p.live, s.size, q, e, ref, rec);
    UniqueMore(p.live, ref, rec);
    OwnKeysUpdate(hc, i, p.live, ref, ref, rec);
    NotFree(p.free, p.lens, ref, ref);
    ExtendsSame(s.dataStart, p.lens);
    ListsKept(m, m', tags, i, s.dataStart, p.lens, s.dataStart, p.lens, {ref}, p.free, s.freelist);
    EnterPartition(p.live.Keys, p.free, p.lens, ref);
    var live := p.live[ref := rec];
    assert live.Keys == p.live.Keys + {ref};
    Assembled(hc, m, m', tags, i, s, s.(size := s.size + 1), p, p.(live := live), {ref}, {ref});
  }

  /** A record written in place: same key, same region. */
  lemma Rewritten(hc: Hash, m: Bytes, m': Bytes, tags: Tags, i: nat, s: Sub, p: SubPlan, ref: nat, val: Bytes)
    requires SubSound(hc, m, tags, i, s, p, {}) && ref in p.live && |m'| == |m| && KeptBut(m, m', tags, i, {ref})
    requires Slots(m', s.layout) == Slots(m, s.layout)
    requires ref in p.lens && BlockOf(ref) < |s.dataStart|
             && Stored(m', AbsOfs(s.dataStart, ref), p.lens[ref], Rec(p.live[ref].key, val))
    ensures SubSound(hc, m', tags, i, s, p.(live := p.live[ref := Rec(p.live[ref].key, val)]), {})
  {
    hide *;
    Parts(hc, m, tags, i, s, p, {});
    LiveIsStored(hc, m, tags, i, s, p, {}, ref);
    IndexOverwrite(hc, Slots(m, s.layout), p.live, s.size, ref, val);
    UniqueMore(p.live, ref, Rec(p.live[ref].key, val));
    OwnKeysUpdate(hc, i, p.live, ref, ref, Rec(p.live[ref].key, val));
    NotFree(p.free, p.lens, ref, ref);
    ExtendsSame(s.dataStart, p.lens);
    ListsKept(m, m', tags, i, s.dataStart, p.lens, s.dataStart, p.lens, {ref}, p.free, s.freelist);
    var live := p.live[ref := Rec(p.live[ref].key, val)];
    assert live.Keys == p.live.Keys;
    Assembled(hc, m, m', tags, i, s, s, p, p.(live := live), {}, {ref});
  }

  /** Pushing a region on the free list of its class. */
  function Push(free: seq<seq<nat>>, c: nat, ref: nat): (r: seq<seq<nat>>)
    requires c < |free|
  {
    free[c := [ref] + free[c]]
  }

  /** The region `o`, of class `c`, has been linked to the head of its free list. */
  ghost predicate Linked(m: Bytes, s: Sub, p: SubPlan, o: nat, c: nat)
    ensures Linked(m, s, p, o, c) ==> c < |p.free| == |s.freelist|
  {
    && |p.free| == |s.freelist| == FREELIST_COUNT
    && o in p.lens && c == Class(p.lens[o]) < FREELIST_COUNT && BlockOf(o) < |s.dataStart|
    && AbsOfs(s.dataStart, o) + 4 <= |m| && U32(m, AbsOfs(s.dataStart, o)) == s.freelist[c]
  }

  lemma ListsPush(m: Bytes, m': Bytes, tags: Tags, i: nat, s: Sub, p: SubPlan, touched: set<nat>, ref: nat, c: nat)
    requires Regions(tags, i, s.dataStart, p.lens) && KeptBut(m, m', tags, i, touched) && |m'| == |m| == |tags|
    requires ListsOk(m, s.dataStart, p.lens, p.free, s.freelist) && ref in p.lens && !InFree(p.free, p.lens, ref)
    requires forall x :: x in touched ==> !InFree(p.free, p.lens, x)
    requires Linked(m', s, p, ref, c)
    ensures ListsOk(m', s.dataStart, p.lens, Push(p.free, c, ref), s.freelist[c := ref])
  {
    hide KeptBut, Extends, InFree;
    var ds := s.dataStart;
    assert RegionAt(tags, i, ds, p.lens, ref);
    ExtendsSame(ds, p.lens);
    ListsKept(m, m', tags, i, ds, p.lens, ds, p.lens, touched, p.free, s.freelist);
    FreeOfClass(p.free, p.lens, ref);
    assert ListOk(m', ds, p.lens, c, p.free[c], s.freelist[c]);
    PushList(m', ds, p.lens, c, p.free[c], s.freelist[c], ref);
  }

  lemma FreeOfClass(free: seq<seq<nat>>, lens: map<nat, nat>, ref: nat)
    requires ref in lens && Class(lens[ref]) < |free| && !InFree(free, lens, ref)
    ensures ref !in free[Class(lens[ref])]
  {
  }

  lemma PushList(m: Bytes, ds: seq<nat>, lens: map<nat, nat>, c: nat, list: seq<nat>, head: nat, ref: nat)
    requires ListOk(m, ds, lens, c, list, head) && ref !in list && ref in lens && lens[ref] == 8 * c
             && BlockOf(ref) < |ds|
    requires AbsOfs(ds, ref) + 4 <= |m| && U32(m, AbsOfs(ds, ref)) == head
    ensures ListOk(m, ds, lens, c, [ref] + list, ref)
  {
    var list' := [ref] + list;
    forall j | 0 <= j < |list'|
      ensures FreeAt(m, ds, lens, c, list', j)
    {
      if j > 0 {
        assert FreeAt(m, ds, lens, c, list, j - 1);
        assert LinkTo(list', j + 1) == LinkTo(list, j);
      }
    }
  }

  lemma PushPartition(m: Bytes, live: set<nat>, s: Sub, p: SubPlan, hole: set<nat>, ref: nat, c: nat)
    requires Partition(live, p.free, hole, p.lens) && ref in live && Linked(m, s, p, ref, c)
    ensures Partition(live - {ref} + hole, Push(p.free, c, ref), {}, p.lens)
  {
    var free' := Push(p.free, c, ref);
    forall r | r in p.lens
      ensures InFree(free', p.lens, r) <==> InFree(p.free, p.lens, r) || r == ref
    {
    }
  }

  /** The record of bucket `d` leaves the table and heads the free list of its class. */
  lemma Released(hc: Hash, m: Bytes, m': Bytes, tags: Tags, i: nat, s: Sub, p: SubPlan, d: nat, o: nat, c: nat)
    requires SubSound(hc, m, tags, i, s, p, {}) && d < s.layout.Capacity() && |m'| == |m|
             && KeptBut(m, m', tags, i, {o})
    requires Slots(m, s.layout)[d].Entry? && Slots(m, s.layout)[d].rec == o
    requires Ordered(Slots(m', s.layout)) && Distinct(Slots(m', s.layout))
    requires Entries(Slots(m', s.layout)) == Entries(Slots(m, s.layout)) - {Slots(m, s.layout)[d]}
    requires Recs(Slots(m', s.layout)) == Recs(Slots(m, s.layout)) - {o}
    requires Linked(m', s, p, o, c)
    ensures 0 < s.size && o in p.live
    ensures SubSound(hc, m', tags, i, s.(size := s.size - 1, freelist := s.freelist[c := o]),
                     p.(live := p.live - {o}, free := Push(p.free, c, o)), {})
  {
    hide *;
    Parts(hc, m, tags, i, s, p, {});
    IndexLeave(hc, Slots(m, s.layout), Slots(m', s.layout), p.live, s.size, d);
    UniqueLess(p.live, o);
    LiveIsStored(hc, m, tags, i, s, p, {}, o);
    OwnKeysUpdate(hc, i, p.live, o, o, p.live[o]);
    NotFree(p.free, p.lens, o, o);
    ListsPush(m, m', tags, i, s, p, {o}, o, c);
    PushPartition(m', p.live.Keys, s, p, {}, o, c);
    var live := p.live - {o};
    assert live.Keys == p.live.Keys - {o} + {};
    Assembled(hc, m, m', tags, i, s, s.(size := s.size - 1, freelist := s.freelist[c := o]), p,
              p.(live := live, free := Push(p.free, c, o)), {}, {o});
  }

  /** The records once the key of `o` has another record, `ref`. */
  ghost function Moved(live: map<nat, Rec>, o: nat, ref: nat, val: Bytes): (r: map<nat, Rec>)
    requires o in live
    ensures r == (live - {o})[ref := Rec(live[o].key, val)]
  {
    (live - {o})[ref := Rec(live[o].key, val)]
  }

  /** The record `o` of bucket `d` moves to the region `ref`, and its old region heads the free list of its class. */
  lemma Replaced(hc: Hash, m: Bytes, m': Bytes, tags: Tags, i: nat, s: Sub, p: SubPlan, d: nat, o: nat, c: nat,
                 ref: nat, val: Bytes)
    requires SubSound(hc, m, tags, i, s, p, {ref}) && d < s.layout.Capacity() && |m'| == |m|
             && KeptBut(m, m', tags, i, {o, ref})
    requires Slots(m, s.layout)[d].Entry? && Slots(m, s.layout)[d].rec == o && o in p.live
    requires Slots(m', s.layout) == Slots(m, s.layout)[d := Entry(Slots(m, s.layout)[d].hash, ref)]
    requires ref in p.lens && BlockOf(ref) < |s.dataStart|
             && Stored(m', AbsOfs(s.dataStart, ref), p.lens[ref], Rec(p.live[o].key, val))
    requires Linked(m', s, p, o, c)
    ensures SubSound(hc, m', tags, i, s.(freelist := s.freelist[c := o]),
                     p.(live := Moved(p.live, o, ref, val), free := Push(p.free, c, o)), {})
  {
    hide *;
    Parts(hc, m, tags, i, s, p, {ref});
    HoleIsRegion(hc, m, tags, i, s, p, ref);
    LiveIsStored(hc, m, tags, i, s, p, {ref}, o);
    IndexReplace(hc, Slots(m, s.layout), p.live, s.size, d, ref, val);
    UniqueLess(p.live, o);
    UniqueMore(p.live - {o}, ref, Rec(p.live[o].key, val));
    OwnKeysUpdate(hc, i, p.live, o, ref, Rec(p.live[o].key, val));
    NotFree(p.free, p.lens, o, ref);
    ListsPush(m, m', tags, i, s, p, {o, ref}, o, c);
    PushPartition(m', p.live.Keys, s, p, {ref}, o, c);
    var live := Moved(p.live, o, ref, val);
    assert live.Keys == p.live.Keys - {o} + {ref};
    Assembled(hc, m, m', tags, i, s, s.(freelist := s.freelist[c := o]), p,
      p.(live := live, free := Push(p.free, c, o)), {ref}, {o, ref});
  }

  // ---------- put_key and del, write by write ----------

  /** Filling bucket `q` gave `m1`; writing the header and the key of the region makes it a record. */
  lemma KeyEntered(hc: Hash, m: Bytes, m1: Bytes, tags: Tags, i: nat, s: Sub, p: SubPlan, ref: nat, q: nat, e: nat,
                   key: Bytes, valLen: uint16)
    requires SubSound(hc, m, tags, i, s, p, {ref}) && 2 * s.size + 2 <= s.layout.Capacity() && q < s.layout.Capacity()
    requires Absent(p.live, key) && SubOf(hc(key)) == i && |m1| == |m| && OnlyVectors(m, m1, s.layout)
    requires Probed(Slots(m, s.layout), Ideal(hc(key), s.layout.Capacity()), q, e) && Slots(m, s.layout)[q].Vacant?
    requires Slots(m1, s.layout) == Slots(m, s.layout)[q := Entry(hc(key), ref)]
    requires ref in p.lens && p.lens[ref] == Align8(REC_HEADER + |key| + valLen) && |key| < 0x1_0000
    ensures BlockOf(ref) < |s.dataStart| && AbsOfs(s.dataStart, ref) + 4 + |key| + valLen <= |m|
    ensures var a := AbsOfs(s.dataStart, ref);
            var m2 := WriteKey(m1, a, key, valLen);
            var rec := Rec(key, Load(m1, a + 4 + |key|, valLen));
            && SubSound(hc, m2, tags, i, s.(size := s.size + 1), p.(live := p.live[ref := rec]), {})
            && OthersKept(m, tags, m2, tags, i)
  {
    hide *;
    HeaderSize();
    HoleIsRegion(hc, m, tags, i, s, p, ref);
    InBlocks(tags, i, s.dataStart, p.lens, ref);
    var a, n := AbsOfs(s.dataStart, ref), p.lens[ref];
    KeyWritten(m1, a, n, key, valLen);
    var m2 := WriteKey(m1, a, key, valLen);
    BucketsWritten(m, m1, s.layout, tags, i);
    RegionWritten(m1, m2, s.layout, tags, i, ref, a, n);
    KeptTwice(m, m1, m2, tags, i, {}, {ref});
    assert {} + {ref} == {ref};
    OthersKeptTwice(m, tags, m1, tags, m2, tags, i);
    Entered(hc, m, m2, tags, i, s, p, ref, q, e, Rec(key, Load(m1, a + 4 + |key|, valLen)));
  }

  lemma HeaderSize()
    ensures REC_HEADER == 4 && FREELIST_COUNT == 8192
  {
  }

  lemma InBlocks(tags: Tags, i: nat, ds: seq<nat>, lens: map<nat, nat>, ref: nat)
    requires ref in lens && RegionAt(tags, i, ds, lens, ref)
    ensures 1 <= BlockOf(ref) < |ds| && 8 <= lens[ref] && Class(lens[ref]) < FREELIST_COUNT
            && lens[ref] == 8 * Class(lens[ref])
    ensures Owned(tags, AbsOfs(ds, ref), lens[ref], Record(i, ref))
  {
  }

  /** Another value length in the same region keeps the common prefix of the value. */
  lemma LengthChanged(hc: Hash, m: Bytes, tags: Tags, i: nat, s: Sub, p: SubPlan, ref: nat, valLen: uint16)
    requires SubSound(hc, m, tags, i, s, p, {}) && ref in p.live && ref in p.lens
    requires p.lens[ref] == Align8(REC_HEADER + |p.live[ref].key| + valLen)
    ensures BlockOf(ref) < |s.dataStart| && AbsOfs(s.dataStart, ref) + 4 + |p.live[ref].key| + valLen <= |m|
    ensures var a, key := AbsOfs(s.dataStart, ref), p.live[ref].key;
            var m1, val := Put16(m, a + 2, valLen), Load(m, a + 4 + |key|, valLen);
            && SubSound(hc, m1, tags, i, s, p.(live := p.live[ref := Rec(key, val)]), {})
            && OthersKept(m, tags, m1, tags, i) && SamePrefix(val, p.live[ref].val)
  {
    hide *;
    HeaderSize();
    LiveIsStored(hc, m, tags, i, s, p, {}, ref);
    InBlocks(tags, i, s.dataStart, p.lens, ref);
    var a, n, rec := AbsOfs(s.dataStart, ref), p.lens[ref], p.live[ref];
    LengthWritten(m, a, n, rec, valLen);
    var m1 := Put16(m, a + 2, valLen);
    RegionWritten(m, m1, s.layout, tags, i, ref, a, n);
    Rewritten(hc, m, m1, tags, i, s, p, ref, Load(m, a + 4 + |rec.key|, valLen));
    StoredPrefix(m, a, n, rec, valLen);
  }

  function Min(x: nat, y: nat): (r: nat) {
    if x < y then x else y
  }

  /** Two values agree as far as both go. */
  ghost predicate SamePrefix(v: Bytes, w: Bytes) {
    v[..Min(|v|, |w|)] == w[..Min(|v|, |w|)]
  }

  lemma StoredPrefix(mem: Bytes, a: nat, n: nat, rec: Rec, valLen: nat)
    requires Stored(mem, a, n, rec) && a + 4 + |rec.key| + valLen <= |mem|
    ensures SamePrefix(Load(mem, a + 4 + |rec.key|, valLen), rec.val)
  {
    var v := a + 4 + |rec.key|;
    assert rec.val == mem[v..v + |rec.val|];
  }

  /** The value is overwritten with as many bytes. */
  lemma ValueChanged(hc: Hash, m: Bytes, tags: Tags, i: nat, s: Sub, p: SubPlan, ref: nat, val: Bytes)
    requires SubSound(hc, m, tags, i, s, p, {}) && ref in p.live && |p.live[ref].val| == |val|
    ensures BlockOf(ref) < |s.dataStart| && AbsOfs(s.dataStart, ref) + 4 + |p.live[ref].key| + |val| <= |m|
    ensures U16(m, AbsOfs(s.dataStart, ref)) == |p.live[ref].key|
    ensures var a, key := AbsOfs(s.dataStart, ref), p.live[ref].key;
            var m1 := Store(m, a + 4 + |key|, val);
            && SubSound(hc, m1, tags, i, s, p.(live := p.live[ref := Rec(key, val)]), {})
            && OthersKept(m, tags, m1, tags, i)
  {
    hide *;
    HeaderSize();
    LiveIsStored(hc, m, tags, i, s, p, {}, ref);
    InBlocks(tags, i, s.dataStart, p.lens, ref);
    var a, n, rec := AbsOfs(s.dataStart, ref), p.lens[ref], p.live[ref];
    ValueWritten(m, a, n, rec, val);
    assert val + rec.val[|val|..] == val;
    var m1 := Store(m, a + 4 + |rec.key|, val);
    RegionWritten(m, m1, s.layout, tags, i, ref, a, n);
    Rewritten(hc, m, m1, tags, i, s, p, ref, val);
  }

  /** Copying the key and what fits of the value of record `o` to the region `ref`. */
  function CopyRecord(m: Bytes, a: nat, a': nat, key: Bytes, valLen: uint16, keep: nat): (r: Bytes)
    requires |key| < 0x1_0000 && a + 4 + |key| + keep <= |m| && a' + 4 + |key| + keep <= |m|
    ensures |r| == |m|
  {
    var m1 := WriteKey(m, a', key, valLen);
    Store(m1, a' + 4 + |key|, Load(m1, a + 4 + |key|, keep))
  }

  lemma CopiedKey(m: Bytes, l: Layout, tags: Tags, i: nat, o: nat, a: nat, n: nat, rec: Rec, ref: nat, a': nat, n': nat,
                  valLen: uint16)
    requires VectorsOwned(tags, l, i) && |tags| == |m| && o != ref && |rec.key| < 0x1_0000
    requires Owned(tags, a, n, Record(i, o)) && Owned(tags, a', n', Record(i, ref))
    requires Stored(m, a, n, rec) && n' == Align8(REC_HEADER + |rec.key| + valLen)
    ensures a' + 4 + |rec.key| + valLen <= |m|
    ensures var m1 := WriteKey(m, a', rec.key, valLen);
            && KeptBut(m, m1, tags, i, {ref}) && Slots(m1, l) == Slots(m, l) && OthersKept(m, tags, m1, tags, i)
            && Stored(m1, a, n, rec) && Stored(m1, a', n', Rec(rec.key, Load(m, a' + 4 + |rec.key|, valLen)))
  {
    hide *;
    HeaderSize();
    OwnedBounds(tags, a', n', Record(i, ref));
    KeyWritten(m, a', n', rec.key, valLen);
    var m1 := WriteKey(m, a', rec.key, valLen);
    RegionWritten(m, m1, l, tags, i, ref, a', n');
    RegionKept(m, m1, tags, i, {ref}, o, a, n);
    StoredSame(m, m1, a, n, rec);
  }

  lemma CopiedValue(m: Bytes, m1: Bytes, l: Layout, tags: Tags, i: nat, ref: nat, a': nat, n': nat, key: Bytes,
                    v: Bytes, pre: Bytes)
    requires VectorsOwned(tags, l, i) && |tags| == |m| == |m1| && Owned(tags, a', n', Record(i, ref))
    requires KeptBut(m, m1, tags, i, {ref}) && Slots(m1, l) == Slots(m, l) && OthersKept(m, tags, m1, tags, i)
    requires Stored(m1, a', n', Rec(key, v)) && |pre| <= |v|
    ensures a' + 4 + |key| + |v| <= |m1|
    ensures var m2 := Store(m1, a' + 4 + |key|, pre);
            && KeptBut(m, m2, tags, i, {ref}) && Slots(m2, l) == Slots(m, l) && OthersKept(m, tags, m2, tags, i)
            && Stored(m2, a', n', Rec(key, pre + v[|pre|..]))
  {
    hide *;
    HeaderSize();
    StoredBounds(m1, a', n', Rec(key, v));
    ValueWritten(m1, a', n', Rec(key, v), pre);
    var m2 := Store(m1, a' + 4 + |key|, pre);
    RegionWritten(m1, m2, l, tags, i, ref, a', n');
    KeptTwice(m, m1, m2, tags, i, {ref}, {ref});
    assert {ref} + {ref} == {ref};
    OthersKeptTwice(m, tags, m1, tags, m2, tags, i);
  }

  lemma Copied(m: Bytes, l: Layout, tags: Tags, i: nat, o: nat, a: nat, n: nat, rec: Rec, ref: nat, a': nat, n': nat,
               valLen: uint16, keep: nat)
      returns (val: Bytes)
    requires VectorsOwned(tags, l, i) && |tags| == |m| && o != ref && |rec.key| < 0x1_0000
    requires Owned(tags, a, n, Record(i, o)) && Owned(tags, a', n', Record(i, ref))
    requires Stored(m, a, n, rec) && n' == Align8(REC_HEADER + |rec.key| + valLen) && keep == Min(|rec.val|, valLen)
    ensures a + 4 + |rec.key| + keep <= |m| && a' + 4 + |rec.key| + keep <= |m|
    ensures |val| == valLen && SamePrefix(val, rec.val)
    ensures var m2 := CopyRecord(m, a, a', rec.key, valLen, keep);
            && KeptBut(m, m2, tags, i, {ref}) && Slots(m2, l) == Slots(m, l) && OthersKept(m, tags, m2, tags, i)
            && Stored(m2, a', n', Rec(rec.key, val))
  {
    hide *;
    HeaderSize();
    MinIs(|rec.val|, valLen);
    StoredBounds(m, a, n, rec);
    CopiedKey(m, l, tags, i, o, a, n, rec, ref, a', n', valLen);
    var m1, v := WriteKey(m, a', rec.key, valLen), Load(m, a' + 4 + |rec.key|, valLen);
    var pre := Load(m1, a + 4 + |rec.key|, keep);
    CopyIs(m, a, a', rec.key, valLen, keep);
    CopiedValue(m, m1, l, tags, i, ref, a', n', rec.key, v, pre);
    val := pre + v[|pre|..];
    CopyPrefix(m1, a, n, rec, pre, v);
  }

  lemma StoredBounds(m: Bytes, a: nat, n: nat, rec: Rec)
    requires Stored(m, a, n, rec)
    ensures a + 4 + |rec.key| + |rec.val| <= |m| && |rec.key| < 0x1_0000 && |rec.val| < 0x1_0000
  {
  }

  lemma MinIs(x: nat, y: nat)
    ensures Min(x, y) <= x && Min(x, y) <= y && (Min(x, y) == x || Min(x, y) == y)
  {
  }

  lemma CopyIs(m: Bytes, a: nat, a': nat, key: Bytes, valLen: uint16, keep: nat)
    requires |key| < 0x1_0000 && a + 4 + |key| + keep <= |m| && a' + 4 + |key| + keep <= |m|
    ensures CopyRecord(m, a, a', key, valLen, keep)
         == Store(WriteKey(m, a', key, valLen), a' + 4 + |key|, Load(WriteKey(m, a', key, valLen), a + 4 + |key|, keep))
  {
  }

  lemma CopyPrefix(m: Bytes, a: nat, n: nat, rec: Rec, pre: Bytes, rest: Bytes)
    requires Stored(m, a, n, rec) && |pre| == Min(|rec.val|, |rest|) && a + 4 + |rec.key| + |pre| <= |m|
    requires pre == Load(m, a + 4 + |rec.key|, |pre|)
    ensures |pre| <= |rest| && SamePrefix(pre + rest[|pre|..], rec.val)
  {
    StoredPrefix(m, a, n, rec, |pre|);
  }

  /** Linking the old region `o` into its free list (`m3`) and redirecting the bucket (`m4`) leave the new record
  alone. */
  lemma RelinkedRegions(m: Bytes, m2: Bytes, m3: Bytes, m4: Bytes, l: Layout, tags: Tags, i: nat, o: nat, a: nat,
                        n: nat, ref: nat, a': nat, n': nat, rec: Rec, head: uint32)
    requires VectorsOwned(tags, l, i) && |tags| == |m| == |m2| && o != ref
    requires Owned(tags, a, n, Record(i, o)) && Owned(tags, a', n', Record(i, ref)) && 4 <= n
    requires KeptBut(m, m2, tags, i, {ref}) && Slots(m2, l) == Slots(m, l) && OthersKept(m, tags, m2, tags, i)
    requires Stored(m2, a', n', rec) && a + 4 <= |m2| && m3 == Put32(m2, a, head) && |m4| == |m3|
             && OnlyVectors(m3, m4, l)
    ensures KeptBut(m, m4, tags, i, {o, ref}) && OthersKept(m, tags, m4, tags, i) && Slots(m3, l) == Slots(m, l)
    ensures Stored(m4, a', n', rec) && Same(m3, m4, a, n) && U32(m3, a) == head
  {
    hide *;
    RegionWritten(m2, m3, l, tags, i, o, a, n);
    BucketsWritten(m3, m4, l, tags, i);
    KeptTwice(m2, m3, m4, tags, i, {o}, {});
    assert {o} + {} == {o};
    KeptTwice(m, m2, m4, tags, i, {ref}, {o});
    assert {ref} + {o} == {o, ref};
    OthersKeptTwice(m, tags, m2, tags, m3, tags, i);
    OthersKeptTwice(m, tags, m3, tags, m4, tags, i);
    RegionKept(m2, m4, tags, i, {o}, ref, a', n');
    StoredSame(m2, m4, a', n', rec);
    RegionKept(m3, m4, tags, i, {}, o, a, n);
  }

  lemma LinkedAt(m3: Bytes, m4: Bytes, s: Sub, p: SubPlan, o: nat, c: nat)
    requires o in p.lens && c == Class(p.lens[o]) < FREELIST_COUNT && |p.free| == |s.freelist| == FREELIST_COUNT
    requires BlockOf(o) < |s.dataStart| && AbsOfs(s.dataStart, o) + 4 <= |m3| && 4 <= p.lens[o]
    requires U32(m3, AbsOfs(s.dataStart, o)) == s.freelist[c] && Same(m3, m4, AbsOfs(s.dataStart, o), p.lens[o])
    ensures Linked(m4, s, p, o, c)
  {
    assert U32(m4, AbsOfs(s.dataStart, o)) == U32(m3, AbsOfs(s.dataStart, o));
  }

  /** Deleting: the record is linked into its free list (`m1`), its bucket is freed and the chain repaired (`m2`). */
  lemma Deleted(hc: Hash, m: Bytes, m1: Bytes, m2: Bytes, tags: Tags, i: nat, s: Sub, p: SubPlan, t: Table, t': Table,
                d: nat, o: nat, c: nat)
    requires SubSound(hc, m, tags, i, s, p, {}) && t == Slots(m, s.layout) && |m1| == |m2| == |m|
             && t' == Slots(m2, s.layout)
    requires d < |t| && o in p.live && o in p.lens && t[d].Entry? && t[d].rec == o
    requires KeptBut(m, m1, tags, i, {o}) && OthersKept(m, tags, m1, tags, i) && Linked(m1, s, p, o, c)
             && OnlyVectors(m1, m2, s.layout)
    requires Ordered(t') && Distinct(t') && Entries(t') == Entries(t) - {t[d]} && Recs(t') == Recs(t) - {o}
    ensures 0 < s.size && OthersKept(m, tags, m2, tags, i)
    ensures SubSound(hc, m2, tags, i, s.(size := s.size - 1, freelist := s.freelist[c := o]),
                     p.(live := p.live - {o}, free := Push(p.free, c, o)), {})
  {
    hide *;
    LiveIsStored(hc, m, tags, i, s, p, {}, o);
    InBlocks(tags, i, s.dataStart, p.lens, o);
    BucketsWritten(m1, m2, s.layout, tags, i);
    KeptTwice(m, m1, m2, tags, i, {o}, {});
    assert {o} + {} == {o};
    OthersKeptTwice(m, tags, m1, tags, m2, tags, i);
    RegionKept(m1, m2, tags, i, {}, o, AbsOfs(s.dataStart, o), p.lens[o]);
    StillLinked(m1, m2, s, p, o, c);
    Released(hc, m, m2, tags, i, s, p, d, o, c);
  }

  lemma StillLinked(m1: Bytes, m2: Bytes, s: Sub, p: SubPlan, o: nat, c: nat)
    requires Linked(m1, s, p, o, c) && Same(m1, m2, AbsOfs(s.dataStart, o), p.lens[o]) && 4 <= p.lens[o]
    ensures Linked(m2, s, p, o, c)
  {
    assert U32(m2, AbsOfs(s.dataStart, o)) == U32(m1, AbsOfs(s.dataStart, o));
  }

  /** The first write of a deletion: the link over the first bytes of the record. */
  lemma LinkWritten(hc: Hash, m: Bytes, tags: Tags, i: nat, s: Sub, p: SubPlan, hole: set<nat>, o: nat, c: nat)
    requires SubSound(hc, m, tags, i, s, p, hole) && o in p.live && o in p.lens && c == Class(p.lens[o])
    ensures BlockOf(o) < |s.dataStart| && AbsOfs(s.dataStart, o) + 4 <= |m| && |s.freelist| == FREELIST_COUNT
            && c < |s.freelist|
    ensures s.freelist[c] < 0x1_0000_0000
    ensures var m1 := Put32(m, AbsOfs(s.dataStart, o), s.freelist[c]);
            && KeptBut(m, m1, tags, i, {o}) && OthersKept(m, tags, m1, tags, i) && Linked(m1, s, p, o, c)
            && Slots(m1, s.layout) == Slots(m, s.layout)
  {
    hide *;
    Parts(hc, m, tags, i, s, p, hole);
    LiveIsStored(hc, m, tags, i, s, p, hole, o);
    InBlocks(tags, i, s.dataStart, p.lens, o);
    HeadFits(hc, m, tags, i, s, p, hole, c);
    var a, n := AbsOfs(s.dataStart, o), p.lens[o];
    var m1 := Put32(m, a, s.freelist[c]);
    RegionWritten(m, m1, s.layout, tags, i, o, a, n);
    SameSelf(m1, a, n);
    LinkedAt(m1, m1, s, p, o, c);
  }

  lemma SameSelf(m: Bytes, a: nat, n: nat)
    requires a + n <= |m|
    ensures Same(m, m, a, n)
  {
  }

  /** The head of a free list is 0 or a reference into the blocks. */
  lemma HeadFits(hc: Hash, m: Bytes, tags: Tags, i: nat, s: Sub, p: SubPlan, hole: set<nat>, c: nat)
    requires SubSound(hc, m, tags, i, s, p, hole) && c < FREELIST_COUNT
    ensures |s.freelist| == FREELIST_COUNT && s.freelist[c] < 0x1_0000_0000
  {
    hide KeyIndex, Index, Slots, AllStored, Partition, Shaped;
    assert ListOk(m, s.dataStart, p.lens, c, p.free[c], s.freelist[c]);
    if p.free[c] != [] {
      assert FreeAt(m, s.dataStart, p.lens, c, p.free[c], 0);
      assert RegionAt(tags, i, s.dataStart, p.lens, p.free[c][0]);
      RefFits(s.dataStart, |m|, p.free[c][0]);
    }
  }
}
