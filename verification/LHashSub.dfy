/** The operations of an `lhashtable` on the one sub-table that a key belongs to.

Each of them returns the memory and the sub-table it leaves behind; what is left of the other
sub-tables is stated by `OthersKept`. */
module LHashSub {
  import opened Words
  import opened Probing
  import opened Segments
  import opened BucketStore
  import opened Ownership
  import opened HashIndex
  import opened LHashRecords

  /** `_lhashtable_resize_table_if_needed`. */
  method ResizeIfNeeded(hc: Hash, mem: Bytes, ghost tags: Tags, i: nat, s: Sub, ghost p: SubPlan)
      returns (m: Bytes, ghost tags': Tags, s': Sub)
    requires SubSound(hc, mem, tags, i, s, p, {})
    ensures SubSound(hc, m, tags', i, s', p, {}) && OthersKept(mem, tags, m, tags', i)
    ensures s' == s.(layout := s'.layout) && 2 * s.size + 2 <= s'.layout.Capacity()
    ensures if 2 * s.size + 2 <= s.layout.Capacity() then m == mem && s' == s
            else && s'.layout == GrownLayout(s.layout, |mem|)
                 && 0 < |s.layout.vectors| && |m| == |mem| + BUCKET_SIZE * s.layout.Capacity()
  {
    hide *;
    Parts(hc, mem, tags, i, s, p, {});
    EvenCapacity(hc, mem, tags, i, s, p);
    if s.size < s.layout.Capacity() / 2 {
      OthersKeptSame(mem, tags, i);
      return mem, tags, s;
    }
    ghost var t0 := Slots(mem, s.layout);
    GrownSlots(mem, s.layout);
    RehashReady(hc, t0, p.live, s.size);
    var l := GrownLayout(s.layout, |mem|);
    m := Rehash(GrownMemory(mem, s.layout), l, true, t0);
    SubGrown(hc, mem, tags, i, s, p, m);
    s' := s.(layout := l);
    tags' := GrownTags(tags, i, s.layout);
  }

  lemma EvenCapacity(hc: Hash, mem: Bytes, tags: Tags, i: nat, s: Sub, p: SubPlan)
    requires SubSound(hc, mem, tags, i, s, p, {})
    ensures s.layout.Capacity() % 2 == 0 && 2 <= s.layout.Capacity() && 2 * s.size <= s.layout.Capacity()
  {
  }

  /** The probe: the bucket of the key, or the free bucket that ends its run. */
  method Find(hc: Hash, mem: Bytes, ghost tags: Tags, ghost i: nat, s: Sub, ghost p: SubPlan, key: Bytes)
      returns (found: bool, b: nat, ghost e: nat)
    requires SubSound(hc, mem, tags, i, s, p, {})
    ensures b < s.layout.Capacity() && e < s.layout.Capacity() && Slots(mem, s.layout)[e].Vacant?
    ensures found ==> Slots(mem, s.layout)[b].Entry? && var o := Slots(mem, s.layout)[b].rec;
                      o == RecAt(mem, s.layout, b) != 0 && o in p.live && p.live[o].key == key
    ensures !found ==> && Absent(p.live, key) && Slots(mem, s.layout)[b].Vacant?
                       && Probed(Slots(mem, s.layout), Ideal(hc(key), s.layout.Capacity()), b, e)
  {
    hide *;
    Parts(hc, mem, tags, i, s, p, {});
    var l := s.layout;
    ghost var t := Slots(mem, l);
    e := VacantSlot(hc, t, p.live, s.size);
    var h := hc(key);
    b := Ideal(h, l.Capacity());
    ghost var j := b;
    ProbeStarts(t, j, e);
    NothingPassed(t, p.live, j, key);
    SlotsAt(mem, l, b);
    while RecAt(mem, l, b) != 0
      invariant b < |t| && Probed(t, j, b, e) && NotPassed(t, p.live, j, b, key)
      invariant t[b] == if RecAt(mem, l, b) == 0 then Vacant else Entry(HashAt(mem, l, b), RecAt(mem, l, b))
      decreases Distance(b, e, |t|)
    {
      SlotIsLive(hc, t, p.live, s.size, b);
      if h == HashAt(mem, l, b) {
        var ref := RecAt(mem, l, b);
        LiveIsStored(hc, mem, tags, i, s, p, {}, ref);
        InBlocks(tags, i, s.dataStart, p.lens, ref);
        var a := AbsOfs(s.dataStart, ref);
        KeyMatchesStored(mem, a, p.lens[ref], p.live[ref], key);
        if KeyMatches(mem, a, key) {
          return true, b, e;
        }
      }
      PassOne(t, p.live, j, b, e, key);
      ProbeOn(t, j, b, e);
      b := Next(b, l.Capacity());
      SlotsAt(mem, l, b);
    }
    ProbeFails(hc, t, p.live, s.size, key, b, e);
    found := false;
  }

  /** A region of `n` bytes (a multiple of 8) can be handed out without exceeding the data blocks. */
  predicate HasRoom(s: Sub, n: nat)
    requires Class(n) < |s.freelist|
  {
    s.freelist[Class(n)] != 0 || BLOCK_SIZE - s.nextAlloc >= n || |s.dataStart| <= NUM_DATA_BLOCKS
  }

  /** A region of `n` bytes is small enough to have a free list, and there is a place for it. */
  predicate CanAlloc(s: Sub, n: nat)
  {
    n < 8 * FREELIST_COUNT && Class(n) < |s.freelist| && HasRoom(s, n)
  }

  /** The key is there, in a region that also suits a value of `v` bytes: nothing is allocated for it. */
  ghost predicate InPlace(c: map<Bytes, Bytes>, key: Bytes, v: nat)
  {
    key in c && RegionSize(|key|, |c[key]|) == RegionSize(|key|, v)
  }

  /** What a put of `v` bytes needs: a region, unless the record stays in its own. */
  ghost predicate Admits(s: Sub, c: map<Bytes, Bytes>, key: Bytes, v: nat)
  {
    InPlace(c, key, v) || CanAlloc(s, RegionSize(|key|, v))
  }

  lemma UnfoldCanAlloc(s: Sub, n: nat)
    requires CanAlloc(s, n)
    ensures n < 8 * FREELIST_COUNT && Class(n) < |s.freelist| && HasRoom(s, n)
  {
  }

  lemma UnfoldAdmits(s: Sub, c: map<Bytes, Bytes>, key: Bytes, v: nat)
    requires Admits(s, c, key, v)
    ensures (key !in c || RegionSize(|key|, |c[key]|) != RegionSize(|key|, v)) ==> CanAlloc(s, RegionSize(|key|, v))
  {
  }

  /** The data blocks, and the regions cut from them, are the same. */
  ghost predicate SameBlocks(s: Sub, p: SubPlan, s': Sub, p': SubPlan)
  {
    s'.dataStart == s.dataStart && s'.nextAlloc == s.nextAlloc && p'.lens == p.lens
  }

  /** What an allocation of `n` bytes leaves of the data blocks: a region from the free list changes
  nothing, one that fits is cut from the current block, and only one that does not begins a new block. */
  ghost predicate Took(s: Sub, p: SubPlan, s': Sub, p': SubPlan, n: nat, ref: nat)
  {
    if Class(n) < |s.freelist| && s.freelist[Class(n)] != 0 then
      SameBlocks(s, p, s', p') && ref == s.freelist[Class(n)]
    else if s.nextAlloc + n <= BLOCK_SIZE then
      && s'.dataStart == s.dataStart && s'.nextAlloc == s.nextAlloc + n
      && ref !in p.lens && p'.lens == p.lens[ref := n]
    else
      && |s'.dataStart| == |s.dataStart| + 1 && s.dataStart <= s'.dataStart && s'.nextAlloc == n
      && ref !in p.lens && p'.lens == p.lens[ref := n]
  }

  /** What a put of a value of `v` bytes does to the data blocks, with its record at `ref` afterwards. */
  ghost predicate Placed(s: Sub, p: SubPlan, s': Sub, p': SubPlan, key: Bytes, v: nat, ref: nat)
  {
    if InPlace(ByKey(p.live), key, v) then SameBlocks(s, p, s', p')
    else Took(s, p, s', p', RegionSize(|key|, v), ref)
  }

  lemma TookFrom(s: Sub, s0: Sub, p: SubPlan, s': Sub, p': SubPlan, s'': Sub, p'': SubPlan, n: nat, ref: nat)
    requires Took(s0, p, s', p', n, ref) && s0 == s.(layout := s0.layout)
    requires SameBlocks(s', p', s'', p'')
    ensures Took(s, p, s'', p'', n, ref)
  {
  }

  /** Memory grows by whole blocks only. */
  ghost predicate MoreBlocks(mem: Bytes, s: Sub, m: Bytes, s': Sub)
  {
    |m| == |mem| + BLOCK_SIZE * (|s'.dataStart| - |s.dataStart|)
  }

  lemma MoreBlocksFrom(mem: Bytes, s: Sub, m: Bytes, s': Sub, s0: Sub, m': Bytes, s'': Sub)
    requires MoreBlocks(mem, s, m, s') && s0.dataStart == s.dataStart && |m'| == |m| && s''.dataStart == s'.dataStart
    ensures MoreBlocks(mem, s0, m', s'')
  {
  }

  lemma NoMoreBlocks(mem: Bytes, s: Sub, m: Bytes)
    requires |m| == |mem|
    ensures MoreBlocks(mem, s, m, s)
  {
  }

  /** The length of the memory once the buckets are ready for a put, and once it has its place. */
  ghost predicate Lengthened(mem: Bytes, s: Sub, m: Bytes, s': Sub)
  {
    && 0 < |s.layout.vectors|
    && |m| == |mem| + (if 2 * s.size + 2 <= s.layout.Capacity() then 0 else BUCKET_SIZE * s.layout.Capacity())
              + BLOCK_SIZE * (|s'.dataStart| - |s.dataStart|)
  }

  /** `_lhashtable_sub_alloc`: from the free list of the class, else from the current block, else from a new block. */
  method SubAlloc(hc: Hash, mem: Bytes, ghost tags: Tags, i: nat, s: Sub, ghost p: SubPlan, n: nat)
      returns (m: Bytes, ghost tags': Tags, s': Sub, ghost p': SubPlan, ref: nat)
    requires SubSound(hc, mem, tags, i, s, p, {}) && |s.freelist| == FREELIST_COUNT
    requires 8 <= n && n % 8 == 0 && CanAlloc(s, n)
    ensures SubSound(hc, m, tags', i, s', p', {ref}) && OthersKept(mem, tags, m, tags', i)
    ensures ref in p'.lens && p'.lens[ref] == n && p'.live == p.live
    ensures s'.layout == s.layout && s'.size == s.size && Slots(m, s.layout) == Slots(mem, s.layout)
    ensures Took(s, p, s', p', n, ref) && MoreBlocks(mem, s, m, s')
    ensures |s'.dataStart| == |s.dataStart| ==> m == mem
  {
    assert 8 * Class(n) == n && Class(n) == n / 8;
    hide SubSound, Slots, OthersKept, AbsOfs, BlockOf, BumpTags, BumpRef, Class, Took;
    var c := Class(n);
    m, tags', s', p' := mem, tags, s, p;
    OthersKeptSame(mem, tags, i);
    if s.freelist[c] != 0 {
      Popped(hc, m, tags', i, s', p', c);
      ref := s.freelist[c];
      s' := s.(freelist := s.freelist[c := U32(m, AbsOfs(s.dataStart, ref))]);
      p' := p.(free := p.free[c := p.free[c][1..]]);
      TookListed(s, p, s', p', n, ref);
      return;
    }
    m, tags', s' := BlockFor(hc, mem, tags, i, s, p, n);
    Bumped(hc, m, tags', i, s', p', n);
    OthersKeptTwice(mem, tags, m, tags', m, BumpTags(tags', i, s', n), i);
    ref := BumpRef(s');
    tags' := BumpTags(tags', i, s', n);
    p' := p'.(lens := p'.lens[ref := n]);
    s' := s'.(nextAlloc := s'.nextAlloc + n);
    TookCut(s, p, s', p', n, ref);
  }

  /** The block that the region is cut from: the current one if it is large enough, else a new one. */
  method BlockFor(hc: Hash, mem: Bytes, ghost tags: Tags, i: nat, s: Sub, ghost p: SubPlan, n: nat)
      returns (m: Bytes, ghost tags': Tags, s': Sub)
    requires SubSound(hc, mem, tags, i, s, p, {}) && 8 <= n < 8 * FREELIST_COUNT && n % 8 == 0
    requires BLOCK_SIZE - s.nextAlloc >= n || |s.dataStart| <= NUM_DATA_BLOCKS
    ensures SubSound(hc, m, tags', i, s', p, {}) && OthersKept(mem, tags, m, tags', i) && CanBump(s', n)
    ensures Slots(m, s.layout) == Slots(mem, s.layout) && MoreBlocks(mem, s, m, s')
    ensures if s.nextAlloc + n <= BLOCK_SIZE then m == mem && s' == s
            else s' == s.(dataStart := s.dataStart + [|mem|], nextAlloc := 0)
  {
    hide SubSound, Slots, OthersKept, AbsOfs, BlockOf, Class, Zeros, Repeat;
    m, tags', s' := mem, tags, s;
    OthersKeptSame(mem, tags, i);
    SpareFacts(hc, m, tags', i, s', p);
    if BLOCK_SIZE - s.nextAlloc < n {
      BlockAppended(hc, m, tags', i, s', p);
      s' := s'.(dataStart := s'.dataStart + [|m|], nextAlloc := 0);
      m, tags' := m + Zeros(BLOCK_SIZE), tags' + Repeat(Spare(i), BLOCK_SIZE);
    }
  }

  lemma TookListed(s: Sub, p: SubPlan, s': Sub, p': SubPlan, n: nat, ref: nat)
    requires Class(n) < |s.freelist| && s.freelist[Class(n)] == ref != 0
    requires s'.dataStart == s.dataStart && s'.nextAlloc == s.nextAlloc && p'.lens == p.lens
    ensures Took(s, p, s', p', n, ref)
  {
  }

  lemma TookCut(s: Sub, p: SubPlan, s': Sub, p': SubPlan, n: nat, ref: nat)
    requires Class(n) < |s.freelist| && s.freelist[Class(n)] == 0 && ref !in p.lens && p'.lens == p.lens[ref := n]
    requires if s.nextAlloc + n <= BLOCK_SIZE then s'.dataStart == s.dataStart && s'.nextAlloc == s.nextAlloc + n
             else |s'.dataStart| == |s.dataStart| + 1 && s.dataStart <= s'.dataStart && s'.nextAlloc == n
    ensures Took(s, p, s', p', n, ref)
  {
  }

  // ---------- how much a sub-table holds ----------

  /** The regions of `n` bytes that have been cut from the data blocks. */
  ghost function Cut(s: Sub, n: nat): (k: nat)
    requires 0 < n
  {
    if |s.dataStart| <= 1 then 0 else Times(|s.dataStart| - 2, Fitting(BLOCK_SIZE, n)) + Fitting(s.nextAlloc, n)
  }

  /** The regions of `n` bytes that fit into so many bytes. */
  function Fitting(bytes: nat, n: nat): nat
    requires 0 < n
  {
    bytes / n
  }

  function Times(k: nat, per: nat): nat
  {
    k * per
  }

  /** All regions are of `n` bytes, and the blocks are filled with them from the front. */
  ghost predicate OneSize(s: Sub, p: SubPlan, n: nat)
  {
    && 8 <= n < 8 * FREELIST_COUNT && n % 8 == 0 && 1 <= |s.dataStart|
    && (|s.dataStart| == 1 ==> s.nextAlloc == BLOCK_SIZE)
    && (|s.dataStart| > 1 ==> s.nextAlloc <= BLOCK_SIZE && s.nextAlloc % n == 0)
    && (forall ref :: ref in p.lens ==> p.lens[ref] == n)
    && |p.lens| == Cut(s, n)
  }

  lemma OneSizeFirst(s: Sub, p: SubPlan, n: nat)
    requires |s.dataStart| == 1 && s.nextAlloc == BLOCK_SIZE && p.lens == map[]
    requires 8 <= n < 8 * FREELIST_COUNT && n % 8 == 0
    ensures OneSize(s, p, n)
  {
  }

  /** A put of a record of that size keeps it so. */
  lemma OneSizePlaced(s: Sub, p: SubPlan, s': Sub, p': SubPlan, key: Bytes, v: nat, ref: nat, n: nat)
    requires OneSize(s, p, n) && Placed(s, p, s', p', key, v, ref) && RegionSize(|key|, v) == n
    ensures OneSize(s', p', n)
  {
    hide OneSize, InPlace, RegionSize, Took, SameBlocks;
    if InPlace(ByKey(p.live), key, v) {
      OneSizeStays(s, p, s', p', n);
    } else {
      OneSizeTook(s, p, s', p', n, ref);
    }
  }

  lemma OneSizeStays(s: Sub, p: SubPlan, s': Sub, p': SubPlan, n: nat)
    requires OneSize(s, p, n) && SameBlocks(s, p, s', p')
    ensures OneSize(s', p', n)
  {
  }

  lemma {:induction false} DivideRest(n: nat, q: nat, rest: nat)
    requires rest < n
    ensures (n * q + rest) / n == q && (n * q + rest) % n == rest
  {
    var x := n * q + rest;
    var d, e := x / n, x % n;
    assert x == n * d + e;
    if d < q {
      AtLeast(n, d, q);
    } else if q < d {
      AtLeast(n, q, d);
    }
  }

  lemma AtLeast(n: nat, a: nat, b: nat)
    requires a < b
    ensures n * a + n <= n * b
  {
    assert (a + 1) * n <= b * n;
  }

  lemma OneMoreCut(at: nat, n: nat)
    requires 0 < n && at % n == 0
    ensures (at + n) % n == 0 && (at + n) / n == at / n + 1
  {
    var q := at / n;
    assert at == n * q && at + n == n * (q + 1);
    DivideRest(n, q + 1, 0);
  }

  /** A block in which no further region fits holds as many as a block can. */
  lemma BlockIsFull(at: nat, n: nat, total: nat)
    requires 0 < n && at % n == 0 && at <= total < at + n
    ensures at / n == total / n
  {
    var q := at / n;
    assert at == n * q;
    DivideRest(n, q, total - at);
  }

  lemma OneSizeTook(s: Sub, p: SubPlan, s': Sub, p': SubPlan, n: nat, ref: nat)
    requires OneSize(s, p, n) && Took(s, p, s', p', n, ref)
    ensures OneSize(s', p', n)
  {
    if Class(n) < |s.freelist| && s.freelist[Class(n)] != 0 {
      OneSizeStays(s, p, s', p', n);
    } else {
      assert |p'.lens| == |p.lens| + 1;
      if s.nextAlloc + n <= BLOCK_SIZE {
        OneMoreCut(s.nextAlloc, n);
      } else {
        NewBlockCut(s, n);
        OneMoreCut(0, n);
      }
    }
  }

  lemma NewBlockCut(s: Sub, n: nat)
    requires 8 <= n <= BLOCK_SIZE && 1 <= |s.dataStart| && BLOCK_SIZE < s.nextAlloc + n
    requires |s.dataStart| > 1 ==> s.nextAlloc <= BLOCK_SIZE && s.nextAlloc % n == 0
    ensures Cut(s, n) == Times(|s.dataStart| - 1, Fitting(BLOCK_SIZE, n))
  {
    if |s.dataStart| > 1 {
      BlockIsFull(s.nextAlloc, n, BLOCK_SIZE);
      var k, per := |s.dataStart| - 2, Fitting(BLOCK_SIZE, n);
      assert k * per + per == (k + 1) * per;
    }
  }

  /** With regions of one size, a sub-table refuses one only when all that its blocks can hold are in use. */
  lemma HoldsUpTo(hc: Hash, mem: Bytes, tags: Tags, i: nat, s: Sub, p: SubPlan, n: nat)
    requires SubSound(hc, mem, tags, i, s, p, {}) && OneSize(s, p, n)
    requires s.size < NUM_DATA_BLOCKS * Fitting(BLOCK_SIZE, n)
    ensures CanAlloc(s, n)
  {
    SpareFacts(hc, mem, tags, i, s, p);
    if !CanAlloc(s, n) {
      NewBlockCut(s, n);
      NothingFree(hc, mem, tags, i, s, p, n);
      BlockLimit(hc, mem, tags, i, s, p);
    }
  }

  lemma BlockLimit(hc: Hash, mem: Bytes, tags: Tags, i: nat, s: Sub, p: SubPlan)
    requires SubSound(hc, mem, tags, i, s, p, {})
    ensures |s.dataStart| <= NUM_DATA_BLOCKS + 1
  {
  }

  /** With an empty free list for the one size there is, every region is in use. */
  lemma NothingFree(hc: Hash, mem: Bytes, tags: Tags, i: nat, s: Sub, p: SubPlan, n: nat)
    requires SubSound(hc, mem, tags, i, s, p, {}) && OneSize(s, p, n) && Class(n) < FREELIST_COUNT
    requires Class(n) < |s.freelist| && s.freelist[Class(n)] == 0
    ensures s.size == |p.lens|
  {
    Parts(hc, mem, tags, i, s, p, {});
    hide SubSound, Slots, Regions, ListOk, OwnKeys, Hashed, Ordered, Distinct, UniqueKeys, Recs, Entries, Partition;
    NothingListed(hc, mem, tags, i, s, p, Class(n));
    AllInUse(p, n);
    assert |p.live| == |p.live.Keys| && |p.lens| == |p.lens.Keys|;
  }

  lemma NothingListed(hc: Hash, mem: Bytes, tags: Tags, i: nat, s: Sub, p: SubPlan, c: nat)
    requires SubSound(hc, mem, tags, i, s, p, {}) && c < FREELIST_COUNT && c < |s.freelist| && s.freelist[c] == 0
    ensures c < |p.free| && p.free[c] == []
  {
    hide Slots, KeyIndex, AllStored, OwnKeys, Shaped, BlocksOk, SpareOk, Partition;
    assert ListOk(mem, s.dataStart, p.lens, c, p.free[c], s.freelist[c]);
    assert p.free[c] != [] ==> FreeAt(mem, s.dataStart, p.lens, c, p.free[c], 0);
  }

  lemma AllInUse(p: SubPlan, n: nat)
    requires Partition(p.live.Keys, p.free, {}, p.lens) && Class(n) < |p.free| && p.free[Class(n)] == []
    requires forall ref :: ref in p.lens ==> p.lens[ref] == n
    ensures p.live.Keys == p.lens.Keys
  {
  }

  lemma SpareFacts(hc: Hash, mem: Bytes, tags: Tags, i: nat, s: Sub, p: SubPlan)
    requires SubSound(hc, mem, tags, i, s, p, {})
    ensures s.nextAlloc <= BLOCK_SIZE && s.nextAlloc % 8 == 0 && 1 <= |s.dataStart|
    ensures |s.dataStart| == 1 ==> s.nextAlloc == BLOCK_SIZE
    ensures |s.freelist| == FREELIST_COUNT
  {
  }

  /** The size of a region for a record with `k` key bytes and `v` value bytes. */
  function RegionSize(k: nat, v: nat): (n: nat)
    ensures 8 <= n && n % 8 == 0 && REC_HEADER + k + v <= n && k < n && v < n
  {
    Align8(REC_HEADER + k + v)
  }

  /** `p` after the value of `key` became `val`, now kept at `ref`. */
  ghost predicate Updated(p: SubPlan, p': SubPlan, key: Bytes, val: Bytes, ref: nat) {
    && UniqueKeys(p.live) && UniqueKeys(p'.live)
    && ref in p'.live && p'.live[ref] == Rec(key, val)
    && ByKey(p'.live) == ByKey(p.live)[key := val]
  }

  /** `lhashtable_put_key`: makes room for a value of `valLen` bytes under the key.  A value that was there
  keeps what fits of it; the rest of the value is whatever the memory held. */
  method PutKey(hc: Hash, mem: Bytes, ghost tags: Tags, i: nat, s: Sub, ghost p: SubPlan, key: Bytes, valLen: nat)
      returns (m: Bytes, ghost tags': Tags, s': Sub, ghost p': SubPlan, ref: nat, inserted: bool, ghost val: Bytes)
    requires SubSound(hc, mem, tags, i, s, p, {}) && SubOf(hc(key)) == i && |s.freelist| == FREELIST_COUNT
    requires Admits(s, ByKey(p.live), key, valLen)
    ensures SubSound(hc, m, tags', i, s', p', {}) && OthersKept(mem, tags, m, tags', i)
    ensures |val| == valLen && Updated(p, p', key, val, ref)
    ensures inserted == (key !in ByKey(p.live)) && s'.size == s.size + if inserted then 1 else 0
    ensures !inserted ==> SamePrefix(val, ByKey(p.live)[key])
    ensures Placed(s, p, s', p', key, valLen, ref) && Lengthened(mem, s, m, s')
  {
    hide *;
    HeaderSize();
    Parts(hc, mem, tags, i, s, p, {});
    var n := RegionSize(|key|, valLen);
    var m0, s0;
    ghost var tags0;
    m0, tags0, s0 := ResizeIfNeeded(hc, mem, tags, i, s, p);
    RoomIsSame(s, s0, n);
    UnfoldAdmits(s, ByKey(p.live), key, valLen);
    Parts(hc, m0, tags0, i, s0, p, {});
    IndexByKey(hc, Slots(m0, s0.layout), p.live, s0.size);
    ByKeyHas(p.live, key);
    var found, b, e := Find(hc, m0, tags0, i, s0, p, key);
    if !found {
      inserted := true;
      m, tags', s', p', ref, val := InsertRecord(hc, m0, tags0, i, s0, p, b, e, key, valLen);
      OthersKeptTwice(mem, tags, m0, tags0, m, tags', i);
      PlacedAnew(s, s0, p, s', p', key, valLen, ref);
      MoreBlocksFrom(m0, s0, m, s', s, m, s');
    IsLengthened(mem, s, m0, m, s');
      return;
    }
    inserted := false;
    Present(p.live, RecAt(m0, s0.layout, b));
    ByKeyAt(p.live, RecAt(m0, s0.layout, b));
    m, tags', s', p', ref, val := ReplaceRecord(hc, m0, tags0, i, s0, p, b, key, valLen);
    OthersKeptTwice(mem, tags, m0, tags0, m, tags', i);
    PlacedAgain(s, s0, p, s', p', key, valLen, ref);
    MoreBlocksFrom(m0, s0, m, s', s, m, s');
    IsLengthened(mem, s, m0, m, s');
  }

  lemma PlacedAnew(s: Sub, s0: Sub, p: SubPlan, s': Sub, p': SubPlan, key: Bytes, v: nat, ref: nat)
    requires s0 == s.(layout := s0.layout) && key !in ByKey(p.live) && Took(s0, p, s', p', RegionSize(|key|, v), ref)
    ensures Placed(s, p, s', p', key, v, ref)
  {
    hide ByKey, RegionSize, Class;
  }

  lemma PlacedAgain(s: Sub, s0: Sub, p: SubPlan, s': Sub, p': SubPlan, key: Bytes, v: nat, ref: nat)
    requires s0 == s.(layout := s0.layout) && key in ByKey(p.live)
    requires if RegionSize(|key|, |ByKey(p.live)[key]|) == RegionSize(|key|, v) then SameBlocks(s0, p, s', p')
             else Took(s0, p, s', p', RegionSize(|key|, v), ref)
    ensures Placed(s, p, s', p', key, v, ref)
  {
    hide ByKey, RegionSize, Class;
  }

  lemma IsLengthened(mem: Bytes, s: Sub, m0: Bytes, m: Bytes, s': Sub)
    requires 0 < |s.layout.vectors|
    requires |m0| == |mem| + if 2 * s.size + 2 <= s.layout.Capacity() then 0 else BUCKET_SIZE * s.layout.Capacity()
    requires MoreBlocks(m0, s, m, s')
    ensures Lengthened(mem, s, m, s')
  {
  }

  /** The key was found at bucket `b`: its record is resized in place, or moved when it needs another size class. */
  method ReplaceRecord(hc: Hash, mem: Bytes, ghost tags: Tags, i: nat, s: Sub, ghost p: SubPlan, b: nat, key: Bytes,
                       valLen: nat)
      returns (m: Bytes, ghost tags': Tags, s': Sub, ghost p': SubPlan, ref: nat, ghost val: Bytes)
    requires SubSound(hc, mem, tags, i, s, p, {}) && |s.freelist| == FREELIST_COUNT && b < s.layout.Capacity()
             && UniqueKeys(p.live)
    requires Slots(mem, s.layout)[b].Entry? && Slots(mem, s.layout)[b].rec in p.live
             && p.live[Slots(mem, s.layout)[b].rec].key == key
    requires RegionSize(|key|, |p.live[Slots(mem, s.layout)[b].rec].val|) != RegionSize(|key|, valLen)
             ==> CanAlloc(s, RegionSize(|key|, valLen))
    ensures SubSound(hc, m, tags', i, s', p', {}) && OthersKept(mem, tags, m, tags', i)
    ensures |val| == valLen && Updated(p, p', key, val, ref) && s'.size == s.size
    ensures SamePrefix(val, p.live[Slots(mem, s.layout)[b].rec].val)
    ensures if RegionSize(|key|, |p.live[Slots(mem, s.layout)[b].rec].val|) == RegionSize(|key|, valLen)
            then SameBlocks(s, p, s', p') else Took(s, p, s', p', RegionSize(|key|, valLen), ref)
    ensures MoreBlocks(mem, s, m, s')
  {
    hide *;
    HeaderSize();
    SlotsAt(mem, s.layout, b);
    var o := RecAt(mem, s.layout, b);
    LiveIsStored(hc, mem, tags, i, s, p, {}, o);
    InBlocks(tags, i, s.dataStart, p.lens, o);
    var a := AbsOfs(s.dataStart, o);
    var n, oldn := RegionSize(|key|, valLen), RegionSize(U16(mem, a), U16(mem, a + 2));
    RegionSizeIs(|key|, valLen);
    RegionSizeIs(|key|, |p.live[o].val|);
    if n == oldn {
      LengthChanged(hc, mem, tags, i, s, p, o, valLen);
      val := Load(mem, a + 4 + |key|, valLen);
      ByKeyEnter(p.live, o, Rec(key, val));
      m, tags', s', p', ref := Put16(mem, a + 2, valLen), tags, s, p.(live := p.live[o := Rec(key, val)]), o;
      BlocksAreSame(s, p, s', p');
      NoMoreBlocks(mem, s, m);
      IsUpdated(p, p', key, val, ref);
    } else {
      m, tags', s', p', ref, val := MoveRecord(hc, mem, tags, i, s, p, b, o, key, valLen);
    }
  }

  lemma RoomIsSame(s: Sub, s': Sub, n: nat)
    requires s' == s.(layout := s'.layout)
    ensures CanAlloc(s, n) ==> CanAlloc(s', n)
  {
  }

  lemma BlocksAreSame(s: Sub, p: SubPlan, s': Sub, p': SubPlan)
    requires s'.dataStart == s.dataStart && s'.nextAlloc == s.nextAlloc && p'.lens == p.lens
    ensures SameBlocks(s, p, s', p')
  {
  }

  lemma RegionSizeIs(k: nat, v: nat)
    ensures RegionSize(k, v) == Align8(REC_HEADER + k + v)
  {
  }

  lemma IsUpdated(p: SubPlan, p': SubPlan, key: Bytes, val: Bytes, ref: nat)
    requires UniqueKeys(p.live) && UniqueKeys(p'.live) && ref in p'.live && p'.live[ref] == Rec(key, val)
    requires ByKey(p'.live) == ByKey(p.live)[key := val]
    ensures Updated(p, p', key, val, ref)
  {
  }

  /** A record for a new key, entered at the free bucket `b`. */
  method InsertRecord(hc: Hash, mem: Bytes, ghost tags: Tags, i: nat, s: Sub, ghost p: SubPlan, b: nat, ghost e: nat,
                      key: Bytes, valLen: nat)
      returns (m: Bytes, ghost tags': Tags, s': Sub, ghost p': SubPlan, ref: nat, ghost val: Bytes)
    requires SubSound(hc, mem, tags, i, s, p, {}) && SubOf(hc(key)) == i && |s.freelist| == FREELIST_COUNT
    requires UniqueKeys(p.live) && Absent(p.live, key) && 2 * s.size + 2 <= s.layout.Capacity()
             && b < s.layout.Capacity()
    requires Probed(Slots(mem, s.layout), Ideal(hc(key), s.layout.Capacity()), b, e) && Slots(mem, s.layout)[b].Vacant?
    requires CanAlloc(s, RegionSize(|key|, valLen))
    ensures SubSound(hc, m, tags', i, s', p', {}) && OthersKept(mem, tags, m, tags', i)
    ensures |val| == valLen && Updated(p, p', key, val, ref) && s'.size == s.size + 1
    ensures Took(s, p, s', p', RegionSize(|key|, valLen), ref)
    ensures MoreBlocks(mem, s, m, s')
  {
    hide *;
    HeaderSize();
    RegionSizeIs(|key|, valLen);
    UnfoldCanAlloc(s, RegionSize(|key|, valLen));
    var m0, s0;
    ghost var p0;
    m0, tags', s0, p0, ref := SubAlloc(hc, mem, tags, i, s, p, RegionSize(|key|, valLen));
    HoleIsRegion(hc, m0, tags', i, s0, p0, ref);
    var m1 := Fill(m0, s0.layout, b, hc(key), ref);
    KeyEntered(hc, m0, m1, tags', i, s0, p0, ref, b, e, key, valLen);
    var a := AbsOfs(s0.dataStart, ref);
    m := WriteKey(m1, a, key, valLen);
    OthersKeptTwice(mem, tags, m0, tags', m, tags', i);
    val := Load(m1, a + 4 + |key|, valLen);
    ByKeyEnter(p.live, ref, Rec(key, val));
    s' := s0.(size := s0.size + 1);
    p' := p0.(live := p0.live[ref := Rec(key, val)]);
    BlocksAreSame(s0, p0, s', p');
    TookFrom(s, s, p, s0, p0, s', p', RegionSize(|key|, valLen), ref);
    MoreBlocksFrom(mem, s, m0, s0, s, m, s');
    IsUpdated(p, p', key, val, ref);
  }

  /** The replacement of a record by one of another size class. */
  method MoveRecord(hc: Hash, mem: Bytes, ghost tags: Tags, i: nat, s: Sub, ghost p: SubPlan, b: nat, o: nat,
                    key: Bytes, valLen: nat)
      returns (m: Bytes, ghost tags': Tags, s': Sub, ghost p': SubPlan, ref: nat, ghost val: Bytes)
    requires SubSound(hc, mem, tags, i, s, p, {}) && |s.freelist| == FREELIST_COUNT && b < s.layout.Capacity()
    requires Slots(mem, s.layout)[b].Entry? && Slots(mem, s.layout)[b].rec == o && o in p.live && p.live[o].key == key
    requires CanAlloc(s, RegionSize(|key|, valLen))
    ensures SubSound(hc, m, tags', i, s', p', {}) && OthersKept(mem, tags, m, tags', i)
    ensures |val| == valLen && Updated(p, p', key, val, ref) && s'.size == s.size && SamePrefix(val, p.live[o].val)
    ensures Took(s, p, s', p', RegionSize(|key|, valLen), ref)
    ensures MoreBlocks(mem, s, m, s')
  {
    hide *;
    HeaderSize();
    var n := RegionSize(|key|, valLen);
    RegionSizeIs(|key|, valLen);
    UnfoldCanAlloc(s, n);
    Parts(hc, mem, tags, i, s, p, {});
    var m0, s0;
    ghost var p0;
    m0, tags', s0, p0, ref := SubAlloc(hc, mem, tags, i, s, p, n);
    Parts(hc, m0, tags', i, s0, p0, {ref});
    HoleIsRegion(hc, m0, tags', i, s0, p0, ref);
    LiveIsStored(hc, m0, tags', i, s0, p0, {ref}, o);
    InBlocks(tags', i, s0.dataStart, p0.lens, ref);
    InBlocks(tags', i, s0.dataStart, p0.lens, o);
    var a, a' := AbsOfs(s0.dataStart, o), AbsOfs(s0.dataStart, ref);
    var keep := Min(U16(m0, a + 2), valLen);
    var oldn := RegionSize(|key|, U16(m0, a + 2));
    RegionSizeIs(|key|, U16(m0, a + 2));
    val := Copied(m0, s0.layout, tags', i, o, a, p0.lens[o], p0.live[o], ref, a', n, valLen, keep);
    var m2 := CopyRecord(m0, a, a', key, valLen, keep);
    var c := Class(oldn);
    HeadFits(hc, m0, tags', i, s0, p0, {ref}, c);
    var m3 := Put32(m2, a, s0.freelist[c]);
    RelinkedSlots(m2, m3, s0.layout, tags', i, o, a, p0.lens[o]);
    SlotsAt(m3, s0.layout, b);
    SetRecSlots(m3, s0.layout, b, ref);
    m := SetRec(m3, s0.layout, b, ref);
    RelinkedRegions(m0, m2, m3, m, s0.layout, tags', i, o, a, p0.lens[o], ref, a', n, Rec(key, val), s0.freelist[c]);
    LinkedAt(m3, m, s0, p0, o, c);
    Replaced(hc, m0, m, tags', i, s0, p0, b, o, c, ref, val);
    OthersKeptTwice(mem, tags, m0, tags', m, tags', i);
    IndexByKey(hc, Slots(mem, s.layout), p.live, s.size);
    MovedByKey(p.live, o, ref, val);
    s' := s0.(freelist := s0.freelist[c := o]);
    p' := p0.(live := (p0.live - {o})[ref := Rec(key, val)], free := Push(p0.free, c, o));
    BlocksAreSame(s0, p0, s', p');
    TookFrom(s, s, p, s0, p0, s', p', n, ref);
    MoreBlocksFrom(mem, s, m0, s0, s, m, s');
    IsUpdated(p, p', key, val, ref);
  }

  lemma RelinkedSlots(m2: Bytes, m3: Bytes, l: Layout, tags: Tags, i: nat, o: nat, a: nat, n: nat)
    requires VectorsOwned(tags, l, i) && |tags| == |m2| == |m3| && Owned(tags, a, n, Record(i, o)) && 4 <= n
    requires forall x :: 0 <= x < |m2| && !(a <= x < a + 4) ==> m3[x] == m2[x]
    ensures l.Fits(0, |m3|) && Slots(m3, l) == Slots(m2, l)
  {
    hide Slots, KeptBut;
    RegionWritten(m2, m3, l, tags, i, o, a, n);
  }

  lemma MovedByKey(live: map<nat, Rec>, o: nat, ref: nat, val: Bytes)
    requires UniqueKeys(live) && o in live && ref !in live
    ensures var live' := (live - {o})[ref := Rec(live[o].key, val)];
            UniqueKeys(live') && ByKey(live') == ByKey(live)[live[o].key := val]
  {
    hide *;
    UniqueLess(live, o);
    ByKeyLeave(live, o);
    var key, rest := live[o].key, live - {o};
    ByKeyEnter(rest, ref, Rec(key, val));
    assert (ByKey(live) - {key})[key := val] == ByKey(live)[key := val];
  }

  /** `lhashtable_put`: put_key, then the whole value is written. */
  method Put(hc: Hash, mem: Bytes, ghost tags: Tags, i: nat, s: Sub, ghost p: SubPlan, key: Bytes, val: Bytes)
      returns (m: Bytes, ghost tags': Tags, s': Sub, ghost p': SubPlan, ref: nat, inserted: bool)
    requires SubSound(hc, mem, tags, i, s, p, {}) && SubOf(hc(key)) == i && |s.freelist| == FREELIST_COUNT
    requires Admits(s, ByKey(p.live), key, |val|)
    ensures SubSound(hc, m, tags', i, s', p', {}) && OthersKept(mem, tags, m, tags', i)
    ensures Updated(p, p', key, val, ref)
    ensures inserted == (key !in ByKey(p.live)) && s'.size == s.size + if inserted then 1 else 0
    ensures Placed(s, p, s', p', key, |val|, ref) && Lengthened(mem, s, m, s')
  {
    hide *;
    ghost var v, tags0, p0;
    var m0;
    m0, tags0, s', p0, ref, inserted, v := PutKey(hc, mem, tags, i, s, p, key, |val|);
    UpdatedFacts(p, p0, key, v, ref);
    ValueChanged(hc, m0, tags0, i, s', p0, ref, val);
    var a := AbsOfs(s'.dataStart, ref);
    m, tags' := Store(m0, a + 4 + U16(m0, a), val), tags0;
    OthersKeptTwice(mem, tags, m0, tags0, m, tags', i);
    p' := p0.(live := p0.live[ref := Rec(key, val)]);
    Present(p0.live, ref);
    ByKeyEnter(p0.live, ref, Rec(key, val));
    assert ByKey(p.live)[key := v][key := val] == ByKey(p.live)[key := val];
    IsUpdated(p, p', key, val, ref);
    ValueStays(mem, m0, s, p, m, s', p0, p', key, |val|, ref);
  }

  lemma ValueStays(mem: Bytes, m0: Bytes, s: Sub, p: SubPlan, m: Bytes, s': Sub, p0: SubPlan, p': SubPlan, key: Bytes,
                   v: nat, ref: nat)
    requires Placed(s, p, s', p0, key, v, ref) && Lengthened(mem, s, m0, s') && p'.lens == p0.lens && |m| == |m0|
    ensures Placed(s, p, s', p', key, v, ref) && Lengthened(mem, s, m, s')
  {
    hide ByKey, RegionSize, Class;
  }

  lemma UpdatedFacts(p: SubPlan, p': SubPlan, key: Bytes, val: Bytes, ref: nat)
    requires Updated(p, p', key, val, ref)
    ensures UniqueKeys(p.live) && UniqueKeys(p'.live)
    ensures ref in p'.live && p'.live[ref] == Rec(key, val) && ByKey(p'.live) == ByKey(p.live)[key := val]
  {
  }

  /** `lhashtable_del`. */
  method Del(hc: Hash, mem: Bytes, ghost tags: Tags, i: nat, s: Sub, ghost p: SubPlan, key: Bytes)
      returns (m: Bytes, s': Sub, ghost p': SubPlan, deleted: bool)
    requires SubSound(hc, mem, tags, i, s, p, {})
    ensures SubSound(hc, m, tags, i, s', p', {}) && OthersKept(mem, tags, m, tags, i)
    ensures UniqueKeys(p.live) && UniqueKeys(p'.live) && deleted == (key in ByKey(p.live))
    ensures ByKey(p'.live) == ByKey(p.live) - {key} && s'.size + (if deleted then 1 else 0) == s.size
    ensures SameBlocks(s, p, s', p') && |m| == |mem| && s'.layout == s.layout
  {
    hide *;
    Parts(hc, mem, tags, i, s, p, {});
    ghost var t := Slots(mem, s.layout);
    IndexByKey(hc, t, p.live, s.size);
    ByKeyHas(p.live, key);
    var found, b, e := Find(hc, mem, tags, i, s, p, key);
    if !found {
      OthersKeptSame(mem, tags, i);
      assert ByKey(p.live) - {key} == ByKey(p.live);
      BlocksAreSame(s, p, s, p);
      return mem, s, p, false;
    }
    deleted := true;
    Present(p.live, RecAt(mem, s.layout, b));
    ByKeyLeave(p.live, RecAt(mem, s.layout, b));
    m, s', p' := RemoveRecord(hc, mem, tags, i, s, p, b, e);
  }

  /** The record of bucket `b` goes to the free list of its class; the chain behind the bucket is repaired. */
  method RemoveRecord(hc: Hash, mem: Bytes, ghost tags: Tags, ghost i: nat, s: Sub, ghost p: SubPlan, b: nat,
                      ghost e: nat)
      returns (m: Bytes, s': Sub, ghost p': SubPlan)
    requires SubSound(hc, mem, tags, i, s, p, {}) && b < s.layout.Capacity() && e < s.layout.Capacity()
    requires Slots(mem, s.layout)[b].Entry? && Slots(mem, s.layout)[e].Vacant? && Slots(mem, s.layout)[b].rec in p.live
    ensures SubSound(hc, m, tags, i, s', p', {}) && OthersKept(mem, tags, m, tags, i)
    ensures p'.live == p.live - {Slots(mem, s.layout)[b].rec} && s'.size + 1 == s.size
    ensures SameBlocks(s, p, s', p') && |m| == |mem| && s'.layout == s.layout
  {
    hide *;
    Parts(hc, mem, tags, i, s, p, {});
    ghost var t := Slots(mem, s.layout);
    SlotsAt(mem, s.layout, b);
    var o := RecAt(mem, s.layout, b);
    LiveIsStored(hc, mem, tags, i, s, p, {}, o);
    InBlocks(tags, i, s.dataStart, p.lens, o);
    var a := AbsOfs(s.dataStart, o);
    var c := Class(RegionSize(U16(mem, a), U16(mem, a + 2)));
    RegionSizeIs(U16(mem, a), U16(mem, a + 2));
    LinkWritten(hc, mem, tags, i, s, p, {}, o, c);
    var m1 := Put32(mem, a, s.freelist[c]);
    ghost var z := RepairReady(hc, t, p.live, s.size, b, e);
    SetRecSlots(m1, s.layout, b, 0);
    var m2 := SetRec(m1, s.layout, b, 0);
    var last;
    m, last := FixChainDown(m2, s.layout, Next(b, s.layout.Capacity()), t, b, z);
    WrittenTwice(m1, m2, m, s.layout);
    Deleted(hc, mem, m1, m, tags, i, s, p, t, Slots(m, s.layout), b, o, c);
    s' := s.(size := s.size - 1, freelist := s.freelist[c := o]);
    p' := p.(live := p.live - {o}, free := Push(p.free, c, o));
    BlocksAreSame(s, p, s', p');
  }

  lemma RepairReady(hc: Hash, t: Table, live: map<nat, Rec>, size: nat, d: nat, e: nat) returns (z: nat)
    requires KeyIndex(hc, t, live, size) && d < |t| && t[d].Entry? && e < |t| && t[e].Vacant?
    ensures z < |t| && Repairing(t, t[d := Vacant], d, z, Next(d, |t|))
  {
    z := RunEndExists(t, d, e, d);
    RepairStarts(t, d, z);
  }
}
