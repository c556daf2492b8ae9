/** The persistent hash table of src/lhashtable.c: 256 sub-tables in one growing memory. */
module LHashTable {
  import opened Words
  import opened Probing
  import opened Segments
  import opened BucketStore
  import opened Ownership
  import opened HashIndex
  import opened LHashRecords
  import Sub = LHashSub

  const HEADER_SIZE := 2088
  const SUB_HEADER_SIZE := 65792 // the fields of a sub-table, its free lists and its table of data blocks

  // ---------- the sub-tables together ----------

  ghost predicate AllSound(hc: Hash, mem: Bytes, tags: Tags, subs: seq<LHashRecords.Sub>, plans: seq<SubPlan>) {
    && |subs| == |plans|
    && (forall i :: 0 <= i < |subs| ==> SubSound(hc, mem, tags, i, subs[i], plans[i], {}))
  }

  function SumSizes(subs: seq<LHashRecords.Sub>): (n: nat) {
    if subs == [] then 0 else SumSizes(subs[..|subs| - 1]) + subs[|subs| - 1].size
  }

  lemma {:induction false} SumUpdate(subs: seq<LHashRecords.Sub>, i: nat, s: LHashRecords.Sub)
    requires i < |subs|
    ensures SumSizes(subs[i := s]) == SumSizes(subs) - subs[i].size + s.size
  {
    var n := |subs| - 1;
    if i < n {
      SumUpdate(subs[..n], i, s);
      assert subs[i := s][..n] == subs[..n][i := s];
    } else {
      assert subs[i := s][..n] == subs[..n];
    }
  }

  /** Keys of the sub-tables, each looked for where its hashcode sends it. */
  ghost function AllKeys(hc: Hash, plans: seq<SubPlan>): (r: set<Bytes>) {
    set i, key | 0 <= i < |plans| && key in ByKey(plans[i].live) && SubOf(hc(key)) == i :: key
  }

  /** The map that the table represents. */
  ghost function Union(hc: Hash, plans: seq<SubPlan>): (r: map<Bytes, Bytes>)
    ensures r.Keys == AllKeys(hc, plans)
  {
    map key | key in AllKeys(hc, plans) :: ByKey(plans[SubOf(hc(key))].live)[key]
  }

  lemma UnionAt(hc: Hash, plans: seq<SubPlan>, key: Bytes)
    requires |plans| == NUM_SUB_TABLES
    ensures var own := ByKey(plans[SubOf(hc(key))].live);
            && (key in Union(hc, plans) <==> key in own)
            && (key in own ==> Union(hc, plans)[key] == own[key])
  {
    assert key in ByKey(plans[SubOf(hc(key))].live) ==> key in AllKeys(hc, plans);
  }

  lemma UnionUpdate(hc: Hash, plans: seq<SubPlan>, p: SubPlan, key: Bytes, val: Bytes)
    requires |plans| == NUM_SUB_TABLES && ByKey(p.live) == ByKey(plans[SubOf(hc(key))].live)[key := val]
    ensures Union(hc, plans[SubOf(hc(key)) := p]) == Union(hc, plans)[key := val]
  {
    hide *;
    var plans' := plans[SubOf(hc(key)) := p];
    forall k
      ensures k in Union(hc, plans') <==> k in Union(hc, plans)[key := val]
      ensures k in Union(hc, plans') ==> Union(hc, plans')[k] == Union(hc, plans)[key := val][k]
    {
      UnionAt(hc, plans, k);
      UnionAt(hc, plans', k);
    }
  }

  lemma UnionRemove(hc: Hash, plans: seq<SubPlan>, p: SubPlan, key: Bytes)
    requires |plans| == NUM_SUB_TABLES && ByKey(p.live) == ByKey(plans[SubOf(hc(key))].live) - {key}
    ensures Union(hc, plans[SubOf(hc(key)) := p]) == Union(hc, plans) - {key}
  {
    hide *;
    var plans' := plans[SubOf(hc(key)) := p];
    forall k
      ensures k in Union(hc, plans') <==> k in Union(hc, plans) - {key}
      ensures k in Union(hc, plans') ==> Union(hc, plans')[k] == Union(hc, plans)[k]
    {
      UnionAt(hc, plans, k);
      UnionAt(hc, plans', k);
    }
  }

  /** The header counts the keys. */
  lemma UnionSize(hc: Hash, mem: Bytes, tags: Tags, subs: seq<LHashRecords.Sub>, plans: seq<SubPlan>)
    requires AllSound(hc, mem, tags, subs, plans) && |subs| == NUM_SUB_TABLES
    ensures |Union(hc, plans)| == SumSizes(subs)
  {
    KeysCount(hc, mem, tags, subs, plans);
  }

  lemma {:induction false} KeysCount(hc: Hash, mem: Bytes, tags: Tags, subs: seq<LHashRecords.Sub>, plans: seq<SubPlan>)
    requires AllSound(hc, mem, tags, subs, plans)
    ensures |AllKeys(hc, plans)| == SumSizes(subs)
  {
    if subs == [] {
      assert AllKeys(hc, plans) == {};
    } else {
      var n := |subs| - 1;
      assert SubSound(hc, mem, tags, n, subs[n], plans[n], {});
      KeysCount(hc, mem, tags, subs[..n], plans[..n]);
      hide SubSound, ByKey, SubOf;
      OwnCount(hc, mem, tags, n, subs[n], plans[n]);
      LastKeys(hc, plans);
    }
  }

  lemma OwnCount(hc: Hash, mem: Bytes, tags: Tags, i: nat, s: LHashRecords.Sub, p: SubPlan)
    requires SubSound(hc, mem, tags, i, s, p, {})
    ensures |ByKey(p.live)| == s.size && forall key :: key in ByKey(p.live) ==> SubOf(hc(key)) == i
  {
    hide KeyIndex, Index, Slots, ByKey, AllStored, ListsOk, Partition;
    IndexByKey(hc, Slots(mem, s.layout), p.live, s.size);
    forall key | key in ByKey(p.live)
      ensures SubOf(hc(key)) == i
    {
      var o := ByKeyFrom(p.live, key);
    }
  }

  lemma KeyOfOne(hc: Hash, plans: seq<SubPlan>, key: Bytes)
    ensures key in AllKeys(hc, plans) <==>
              var i := SubOf(hc(key)); i < |plans| && key in ByKey(plans[i].live)
  {
    hide ByKey, SubOf;
  }

  lemma LastKeys(hc: Hash, plans: seq<SubPlan>)
    requires plans != [] && forall key :: key in ByKey(plans[|plans| - 1].live) ==> SubOf(hc(key)) == |plans| - 1
    ensures |AllKeys(hc, plans)| == |AllKeys(hc, plans[..|plans| - 1])| + |ByKey(plans[|plans| - 1].live)|
  {
    hide ByKey, SubOf;
    var n := |plans| - 1;
    var before, last := AllKeys(hc, plans[..n]), ByKey(plans[n].live);
    forall key
      ensures key in AllKeys(hc, plans) <==> key in before || key in last
    {
      KeyOfOne(hc, plans, key);
      KeyOfOne(hc, plans[..n], key);
    }
    assert AllKeys(hc, plans) == before + last.Keys;
    assert before !! last.Keys;
  }

  /** A sub-table was replaced; the others stand. */
  lemma OneReplaced(hc: Hash, m: Bytes, tags: Tags, m': Bytes, tags': Tags, i: nat,
                    subs: seq<LHashRecords.Sub>, plans: seq<SubPlan>, s: LHashRecords.Sub, p: SubPlan)
    requires AllSound(hc, m, tags, subs, plans) && i < |subs| && OthersKept(m, tags, m', tags', i)
    requires SubSound(hc, m', tags', i, s, p, {})
    ensures AllSound(hc, m', tags', subs[i := s], plans[i := p])
  {
    hide SubSound, OthersKept;
    forall j | 0 <= j < |subs| && j != i
      ensures SubSound(hc, m', tags', j, subs[j], plans[j], {})
    {
      OtherSound(hc, m, tags, m', tags', i, j, subs[j], plans[j]);
    }
  }

  // ---------- initialisation ----------

  function FreshLayout(end: nat): (l: Layout) {
    Layout(MIN_BITS, [end])
  }

  function FreshSub(end: nat): (s: LHashRecords.Sub) {
    LHashRecords.Sub(FreshLayout(end), 0, BLOCK_SIZE, [0], seq(FREELIST_COUNT, _ => 0))
  }

  ghost function FreshPlan(): (p: SubPlan) {
    SubPlan(map[], seq(FREELIST_COUNT, _ => []), map[])
  }

  /** The memory of one more sub-table: its fields, then its first vector of buckets. */
  function FreshMemory(mem: Bytes): (r: Bytes)
    ensures |r| == |mem| + SUB_HEADER_SIZE + 64
  {
    mem + Zeros(SUB_HEADER_SIZE) + Zeros(64)
  }

  function FreshTags(tags: Tags, i: nat): (r: Tags)
    ensures |r| == |tags| + SUB_HEADER_SIZE + 64
  {
    tags + Repeat(Unowned, SUB_HEADER_SIZE) + Repeat(Buckets(i), 64)
  }

  /** No byte belongs to a sub-table from `i` on. */
  ghost predicate UnusedFrom(tags: Tags, i: nat) {
    forall a :: 0 <= a < |tags| && !tags[a].Unowned? ==> tags[a].table < i
  }

  lemma FreshVector(mem: Bytes, tags: Tags, i: nat)
    requires |tags| == |mem| && UnusedFrom(tags, i)
    ensures var m, tags', l := FreshMemory(mem), FreshTags(tags, i), FreshLayout(|mem| + SUB_HEADER_SIZE);
            && Shaped(m, tags', i, l) && OthersKept(mem, tags, m, tags', i) && UnusedFrom(tags', i + 1)
            && forall b :: 0 <= b < l.Capacity() ==> Slots(m, l)[b].Vacant?
  {
    var m, tags', l := FreshMemory(mem), FreshTags(tags, i), FreshLayout(|mem| + SUB_HEADER_SIZE);
    assert Pow2(3) == 8;
    assert l.Capacity() == 8 && l.End(0) == |m|;
    forall a: nat
      ensures l.Holds(a) <==> |mem| + SUB_HEADER_SIZE <= a < |m|
    {
      assert l.Holds(a) <==> l.vectors[0] <= a < l.End(0);
    }
    ZeroSlots(m, l);
  }

  lemma SubCreated(hc: Hash, mem: Bytes, tags: Tags, i: nat)
    requires |tags| == |mem| && UnusedFrom(tags, i)
    ensures SubSound(hc, FreshMemory(mem), FreshTags(tags, i), i, FreshSub(|mem| + SUB_HEADER_SIZE), FreshPlan(), {})
    ensures OthersKept(mem, tags, FreshMemory(mem), FreshTags(tags, i), i) && UnusedFrom(FreshTags(tags, i), i + 1)
  {
    FreshVector(mem, tags, i);
    hide OthersKept, UnusedFrom, Shaped, Slots;
    IndexEmpty(hc, Slots(FreshMemory(mem), FreshLayout(|mem| + SUB_HEADER_SIZE)));
  }

  lemma UnionEmpty(hc: Hash, plans: seq<SubPlan>, subs: seq<LHashRecords.Sub>)
    requires |plans| == |subs| && forall i :: 0 <= i < |plans| ==> plans[i] == FreshPlan() && subs[i].size == 0
    ensures Union(hc, plans) == map[] && SumSizes(subs) == 0
  {
    assert ByKey(FreshPlan().live) == map[];
    SumZero(subs);
  }

  lemma {:induction false} SumZero(subs: seq<LHashRecords.Sub>)
    requires forall i :: 0 <= i < |subs| ==> subs[i].size == 0
    ensures SumSizes(subs) == 0
  {
    if subs != [] {
      SumZero(subs[..|subs| - 1]);
    }
  }

  /** `i` empty sub-tables have been set up. */
  ghost predicate Created(hc: Hash, mem: Bytes, tags: Tags, subs: seq<LHashRecords.Sub>, plans: seq<SubPlan>, i: nat) {
    && |subs| == |plans| == i && |tags| == |mem|
    && AllSound(hc, mem, tags, subs, plans) && UnusedFrom(tags, i)
    && forall j :: 0 <= j < i ==> plans[j] == FreshPlan() && subs[j].size == 0 && NoBlocks(subs[j])
  }

  /** No data block has been taken yet. */
  ghost predicate NoBlocks(s: LHashRecords.Sub) {
    |s.dataStart| == 1 && s.nextAlloc == BLOCK_SIZE
  }

  lemma CreatedNone(hc: Hash)
    ensures Created(hc, Zeros(HEADER_SIZE), Repeat(Unowned, HEADER_SIZE), [], [], 0) && 0 <= NUM_SUB_TABLES
  {
  }

  lemma CreatedMore(hc: Hash, mem: Bytes, tags: Tags, subs: seq<LHashRecords.Sub>, plans: seq<SubPlan>, i: nat)
    requires Created(hc, mem, tags, subs, plans, i)
    ensures Created(hc, FreshMemory(mem), FreshTags(tags, i), subs + [FreshSub(|mem| + SUB_HEADER_SIZE)],
                    plans + [FreshPlan()], i + 1)
  {
    hide SubSound, OthersKept, FreshMemory, FreshTags, FreshSub, FreshPlan;
    SubCreated(hc, mem, tags, i);
    FreshSize(|mem| + SUB_HEADER_SIZE);
    OneAdded(hc, mem, tags, FreshMemory(mem), FreshTags(tags, i), subs, plans, FreshSub(|mem| + SUB_HEADER_SIZE),
      FreshPlan());
  }

  lemma CreatedAll(hc: Hash, mem: Bytes, tags: Tags, subs: seq<LHashRecords.Sub>, plans: seq<SubPlan>, i: nat)
    requires Created(hc, mem, tags, subs, plans, i)
    ensures |subs| == |plans| == i && AllSound(hc, mem, tags, subs, plans)
    ensures Union(hc, plans) == map[] && SumSizes(subs) == 0
    ensures forall j: nat, n: nat ::
              j < |subs| && 8 <= n < 8 * FREELIST_COUNT && n % 8 == 0 ==> Sub.OneSize(subs[j], plans[j], n)
  {
    hide SubSound;
    UnionEmpty(hc, plans, subs);
    forall j: nat, n: nat | j < |subs| && 8 <= n < 8 * FREELIST_COUNT && n % 8 == 0
      ensures Sub.OneSize(subs[j], plans[j], n)
    {
      Sub.OneSizeFirst(subs[j], plans[j], n);
    }
  }

  // ---------- visiting every record ----------

  function Decode(dataStart: seq<nat>, ref: nat): (a: nat) {
    if BlockOf(ref) < |dataStart| then AbsOfs(dataStart, ref) else 0
  }

  function Decoded(dataStart: seq<nat>, refs: seq<nat>): (r: seq<nat>)
    ensures |r| == |refs| && forall k :: 0 <= k < |refs| ==> r[k] == Decode(dataStart, refs[k])
  {
    seq(|refs|, k requires 0 <= k < |refs| => Decode(dataStart, refs[k]))
  }

  ghost predicate Laid(mem: Bytes, subs: seq<LHashRecords.Sub>) {
    forall i :: 0 <= i < |subs| ==> subs[i].layout.Fits(0, |mem|)
  }

  /** The offsets of the records, sub-table by sub-table, in the order of the buckets. */
  ghost function AllOffsets(mem: Bytes, subs: seq<LHashRecords.Sub>): (r: seq<nat>)
    requires Laid(mem, subs)
  {
    if subs == [] then [] else
    var n := |subs| - 1;
    AllOffsets(mem, subs[..n]) + Decoded(subs[n].dataStart, Listed(Slots(mem, subs[n].layout)))
  }

  ghost predicate IsOffset(o: nat, subs: seq<LHashRecords.Sub>, plans: seq<SubPlan>)
    requires |subs| == |plans|
  {
    exists i, ref :: 0 <= i < |subs| && ref in plans[i].live && o == Decode(subs[i].dataStart, ref)
  }

  /** Every live record is among them, nothing else is, and none twice. */
  ghost predicate Exact(offsets: seq<nat>, subs: seq<LHashRecords.Sub>, plans: seq<SubPlan>)
    requires |subs| == |plans|
  {
    && (forall i, ref :: 0 <= i < |subs| && ref in plans[i].live ==> Decode(subs[i].dataStart, ref) in offsets)
    && (forall k :: 0 <= k < |offsets| ==> IsOffset(offsets[k], subs, plans))
    && (forall k, k' :: 0 <= k < k' < |offsets| ==> offsets[k] != offsets[k'])
  }

  /** The byte at a record's offset carries the tag of the record. */
  lemma TagAtOffset(hc: Hash, mem: Bytes, tags: Tags, i: nat, s: LHashRecords.Sub, p: SubPlan, ref: nat)
    requires SubSound(hc, mem, tags, i, s, p, {}) && ref in p.live
    ensures Decode(s.dataStart, ref) < |tags| && tags[Decode(s.dataStart, ref)] == Record(i, ref)
  {
    LiveIsStored(hc, mem, tags, i, s, p, {}, ref);
    hide SubSound, Stored;
    InBlocks(tags, i, s.dataStart, p.lens, ref);
  }

  /** One sub-table's part of the list. */
  lemma OwnOffsets(hc: Hash, mem: Bytes, tags: Tags, i: nat, s: LHashRecords.Sub, p: SubPlan)
    requires SubSound(hc, mem, tags, i, s, p, {})
    ensures var refs := Listed(Slots(mem, s.layout));
            var offsets := Decoded(s.dataStart, refs);
            && (forall ref :: ref in p.live <==> ref in refs)
            && (forall k :: 0 <= k < |refs| ==> offsets[k] < |tags| && tags[offsets[k]] == Record(i, refs[k]))
            && (forall k, k' :: 0 <= k < k' < |refs| ==> offsets[k] != offsets[k'])
  {
    hide *;
    var refs := Listed(Slots(mem, s.layout));
    Parts(hc, mem, tags, i, s, p, {});
    ListedIndex(hc, Slots(mem, s.layout), p.live, s.size);
    forall k | 0 <= k < |refs|
      ensures Decode(s.dataStart, refs[k]) < |tags| && tags[Decode(s.dataStart, refs[k])] == Record(i, refs[k])
    {
      TagAtOffset(hc, mem, tags, i, s, p, refs[k]);
    }
  }

  lemma ListedIndex(hc: Hash, t: Table, live: map<nat, Rec>, size: nat)
    requires KeyIndex(hc, t, live, size)
    ensures forall o :: o in live <==> o in Listed(t)
    ensures forall k, k' :: 0 <= k < k' < |Listed(t)| ==> Listed(t)[k] != Listed(t)[k']
  {
    ListedIsRecs(t);
  }

  lemma SoundIsLaid(hc: Hash, mem: Bytes, tags: Tags, subs: seq<LHashRecords.Sub>, plans: seq<SubPlan>)
    requires AllSound(hc, mem, tags, subs, plans)
    ensures Laid(mem, subs)
  {
    hide SubSound;
  }

  lemma {:induction false} AllOffsetsExact(hc: Hash, mem: Bytes, tags: Tags, subs: seq<LHashRecords.Sub>,
                                           plans: seq<SubPlan>)
    requires AllSound(hc, mem, tags, subs, plans) && Laid(mem, subs)
    ensures Exact(AllOffsets(mem, subs), subs, plans)
    ensures forall o :: o in AllOffsets(mem, subs) ==> o < |tags| && tags[o].Record? && tags[o].table < |subs|
  {
    if subs != [] {
      hide SubSound, Listed, Slots, Decode, Decoded, Exact, IsOffset;
      var n := |subs| - 1;
      AllOffsetsExact(hc, mem, tags, subs[..n], plans[..n]);
      OwnOffsets(hc, mem, tags, n, subs[n], plans[n]);
      var refs := Listed(Slots(mem, subs[n].layout));
      ExactMore(tags, AllOffsets(mem, subs[..n]), refs, subs, plans);
    }
  }

  lemma ExactMore(tags: Tags, before: seq<nat>, refs: seq<nat>, subs: seq<LHashRecords.Sub>, plans: seq<SubPlan>)
    requires subs != [] && |subs| == |plans| && Exact(before, subs[..|subs| - 1], plans[..|subs| - 1])
    requires forall o :: o in before ==> o < |tags| && tags[o].Record? && tags[o].table < |subs| - 1
    requires forall ref :: ref in plans[|subs| - 1].live <==> ref in refs
    requires var offsets := Decoded(subs[|subs| - 1].dataStart, refs);
             && (forall k :: 0 <= k < |refs| ==> offsets[k] < |tags| && tags[offsets[k]] == Record(|subs| - 1, refs[k]))
             && (forall k, k' :: 0 <= k < k' < |refs| ==> offsets[k] != offsets[k'])
    ensures var all := before + Decoded(subs[|subs| - 1].dataStart, refs);
            && Exact(all, subs, plans)
            && forall o :: o in all ==> o < |tags| && tags[o].Record? && tags[o].table < |subs|
  {
    hide Decode, Decoded;
    var n := |subs| - 1;
    var own := Decoded(subs[n].dataStart, refs);
    var all := before + own;
    forall i, ref | 0 <= i < |subs| && ref in plans[i].live
      ensures Decode(subs[i].dataStart, ref) in all
    {
      OffsetListed(before, refs, subs, plans, i, ref);
    }
    hide IsOffset;
    forall k | 0 <= k < |all|
      ensures IsOffset(all[k], subs, plans)
    {
      if k < |before| {
        OffsetOfMore(before[k], subs, plans);
      } else {
        assert refs[k - |before|] in refs;
        OffsetOfLast(refs[k - |before|], subs, plans);
      }
    }
    ApartMore(tags, before, own, n);
  }

  /** Offsets of earlier sub-tables and of sub-table `n` differ, for their tags do. */
  lemma ApartMore(tags: Tags, before: seq<nat>, own: seq<nat>, n: nat)
    requires forall o :: o in before ==> o < |tags| && tags[o].Record? && tags[o].table < n
    requires forall k :: 0 <= k < |own| ==> own[k] < |tags| && tags[own[k]].Record? && tags[own[k]].table == n
    requires forall k, k' :: 0 <= k < k' < |before| ==> before[k] != before[k']
    requires forall k, k' :: 0 <= k < k' < |own| ==> own[k] != own[k']
    ensures forall o :: o in before + own ==> o < |tags| && tags[o].Record? && tags[o].table < n + 1
    ensures forall k, k' :: 0 <= k < k' < |before + own| ==> (before + own)[k] != (before + own)[k']
  {
    var all := before + own;
    forall k, k' | 0 <= k < k' < |all|
      ensures all[k] != all[k']
    {
      if k < |before| <= k' {
        assert all[k] in before && tags[own[k' - |before|]].table == n;
      }
    }
  }

  lemma OffsetListed(before: seq<nat>, refs: seq<nat>, subs: seq<LHashRecords.Sub>, plans: seq<SubPlan>, i: nat,
                     ref: nat)
    requires subs != [] && |subs| == |plans| && Exact(before, subs[..|subs| - 1], plans[..|subs| - 1])
    requires forall ref :: ref in plans[|subs| - 1].live <==> ref in refs
    requires i < |subs| && ref in plans[i].live
    ensures Decode(subs[i].dataStart, ref) in before + Decoded(subs[|subs| - 1].dataStart, refs)
  {
    hide Decode, Decoded;
    var n := |subs| - 1;
    if i < n {
      assert ref in plans[..n][i].live && subs[..n][i] == subs[i];
      assert Decode(subs[..n][i].dataStart, ref) in before;
    } else {
      assert i == n && ref in refs;
      var k :| 0 <= k < |refs| && refs[k] == ref;
      assert Decoded(subs[n].dataStart, refs)[k] == Decode(subs[n].dataStart, ref);
    }
  }

  lemma OffsetOfMore(o: nat, subs: seq<LHashRecords.Sub>, plans: seq<SubPlan>)
    requires subs != [] && |subs| == |plans| && IsOffset(o, subs[..|subs| - 1], plans[..|subs| - 1])
    ensures IsOffset(o, subs, plans)
  {
    hide Decode;
    var n := |subs| - 1;
    var i, ref :| 0 <= i < n && ref in plans[..n][i].live && o == Decode(subs[..n][i].dataStart, ref);
    assert ref in plans[i].live && o == Decode(subs[i].dataStart, ref);
  }

  lemma OffsetOfLast(ref: nat, subs: seq<LHashRecords.Sub>, plans: seq<SubPlan>)
    requires subs != [] && |subs| == |plans| && ref in plans[|subs| - 1].live
    ensures IsOffset(Decode(subs[|subs| - 1].dataStart, ref), subs, plans)
  {
  }

  // ---------- disjointness ----------

  /** No byte belongs to the buckets of two sub-tables, or to two bucket vectors of one. */
  lemma VectorsApart(hc: Hash, mem: Bytes, tags: Tags, subs: seq<LHashRecords.Sub>, plans: seq<SubPlan>, i: nat, j: nat)
    requires AllSound(hc, mem, tags, subs, plans) && i < |subs| && j < |subs|
    ensures i != j ==> forall x :: subs[i].layout.Holds(x) ==> !subs[j].layout.Holds(x)
    ensures var l := subs[i].layout; forall v, w :: 0 <= v < w < |l.vectors| ==> l.End(v) <= l.vectors[w]
  {
    assert SubSound(hc, mem, tags, i, subs[i], plans[i], {}) && SubSound(hc, mem, tags, j, subs[j], plans[j], {});
    hide KeyIndex, Index, Slots, Regions, ListsOk, Partition, OwnKeys, AllStored;
    forall x: nat | subs[i].layout.Holds(x)
      ensures x < |tags| && tags[x] == Buckets(i)
    {
      subs[i].layout.HoldsFits(x, 0, |tags|);
    }
  }

  /** Two different record regions, live or free, of any sub-tables, have no byte in common; nor has a
  record region one with the buckets of any sub-table, nor have the buckets of two sub-tables. */
  lemma RecordsApart(hc: Hash, mem: Bytes, tags: Tags, subs: seq<LHashRecords.Sub>, plans: seq<SubPlan>, i: nat,
                     ref: nat, j: nat, ref': nat)
    requires AllSound(hc, mem, tags, subs, plans) && i < |subs| && j < |subs| && ref in plans[i].lens
             && ref' in plans[j].lens
    ensures 1 <= BlockOf(ref) < |subs[i].dataStart| && 1 <= BlockOf(ref') < |subs[j].dataStart|
    ensures (i, ref) != (j, ref') ==> var a, a' := AbsOfs(subs[i].dataStart, ref), AbsOfs(subs[j].dataStart, ref');
                                      a + plans[i].lens[ref] <= a' || a' + plans[j].lens[ref'] <= a
    ensures forall x ::
              AbsOfs(subs[i].dataStart, ref) <= x < AbsOfs(subs[i].dataStart, ref) + plans[i].lens[ref] ==>
                !subs[j].layout.Holds(x)
    ensures i != j ==> forall x :: subs[i].layout.Holds(x) ==> !subs[j].layout.Holds(x)
  {
    assert SubSound(hc, mem, tags, i, subs[i], plans[i], {}) && SubSound(hc, mem, tags, j, subs[j], plans[j], {});
    RegionOf(hc, mem, tags, i, subs[i], plans[i], ref);
    RegionOf(hc, mem, tags, j, subs[j], plans[j], ref');
    hide SubSound, AbsOfs, BlockOf;
    var a, a' := AbsOfs(subs[i].dataStart, ref), AbsOfs(subs[j].dataStart, ref');
    if (i, ref) != (j, ref') {
      OwnedApart(tags, a, plans[i].lens[ref], Record(i, ref), a', plans[j].lens[ref'], Record(j, ref'));
    }
    forall x | a <= x < a + plans[i].lens[ref]
      ensures !subs[j].layout.Holds(x)
    {
      assert tags[x] == Record(i, ref);
    }
    VectorsApart(hc, mem, tags, subs, plans, i, j);
  }

  lemma RegionOf(hc: Hash, mem: Bytes, tags: Tags, i: nat, s: LHashRecords.Sub, p: SubPlan, ref: nat)
    requires SubSound(hc, mem, tags, i, s, p, {}) && ref in p.lens
    ensures 1 <= BlockOf(ref) < |s.dataStart| && 8 <= p.lens[ref] && 0 < ref < 0x1_0000_0000
    ensures Owned(tags, AbsOfs(s.dataStart, ref), p.lens[ref], Record(i, ref)) && VectorsOwned(tags, s.layout, i)
  {
    hide KeyIndex, Index, Slots, AllStored, ListsOk, Partition;
    assert RegionAt(tags, i, s.dataStart, p.lens, ref);
    RefFits(s.dataStart, |mem|, ref);
  }

  // ---------- runs ----------

  datatype Op =
    | PutOp(key: Bytes, val: Bytes)
    | PutKeyOp(key: Bytes, valLen: nat)
    | GetOp(key: Bytes)
    | DelOp(key: Bytes)

  /** What an operation does to a plain map. */
  ghost predicate StepOf(op: Op, c: map<Bytes, Bytes>, c': map<Bytes, Bytes>) {
    match op
    case PutOp(key, val) => c' == c[key := val]
    case PutKeyOp(key, n) => && key in c' && |c'[key]| == n && c' == c[key := c'[key]]
                             && (key in c ==> SamePrefix(c'[key], c[key]))
    case GetOp(key) => c' == c
    case DelOp(key) => c' == c - {key}
  }

  lemma StepIs(op: Op, c: map<Bytes, Bytes>, c': map<Bytes, Bytes>)
    requires op.PutOp? ==> c' == c[op.key := op.val]
    requires op.PutKeyOp? ==> && op.key in c' && |c'[op.key]| == op.valLen && c' == c[op.key := c'[op.key]]
                              && (op.key in c ==> SamePrefix(c'[op.key], c[op.key]))
    requires op.GetOp? ==> c' == c
    requires op.DelOp? ==> c' == c - {op.key}
    ensures StepOf(op, c, c')
  {
  }

  /** `states` are the maps that a run goes through. */
  ghost predicate IsRun(ops: seq<Op>, states: seq<map<Bytes, Bytes>>) {
    && |states| == |ops| + 1
    && (forall k :: 0 <= k < |ops| ==> StepOf(ops[k], states[k], states[k + 1]))
  }

  lemma RunStarts(ops: seq<Op>, c: map<Bytes, Bytes>)
    ensures IsRun(ops[..0], [c])
  {
  }

  lemma RunMore(ops: seq<Op>, n: nat, states: seq<map<Bytes, Bytes>>, c: map<Bytes, Bytes>)
    requires n < |ops| && |states| == n + 1 && IsRun(ops[..n], states) && StepOf(ops[n], states[n], c)
    ensures IsRun(ops[..n + 1], states + [c])
  {
    hide StepOf;
    forall k | 0 <= k < n + 1
      ensures StepOf(ops[..n + 1][k], (states + [c])[k], (states + [c])[k + 1])
    {
      if k < n {
        assert ops[..n][k] == ops[k];
      }
    }
  }

  // ---------- what the operations do to the data blocks ----------

  /** The memory with the sub-tables in it. */
  datatype Tables = Tables(mem: Bytes, subs: seq<LHashRecords.Sub>, plans: seq<SubPlan>)

  /** What a put into sub-table `i` leaves: only this one is touched, and its blocks as needed. */
  ghost predicate PutInto(t: Tables, t': Tables, i: nat, key: Bytes, v: nat, ref: nat)
  {
    && i < |t.subs| == |t.plans| == |t'.subs| == |t'.plans|
    && t'.subs == t.subs[i := t'.subs[i]] && t'.plans == t.plans[i := t'.plans[i]]
    && Sub.Placed(t.subs[i], t.plans[i], t'.subs[i], t'.plans[i], key, v, ref)
    && Sub.Lengthened(t.mem, t.subs[i], t'.mem, t'.subs[i])
  }

  /** All regions ever cut in sub-table `j` are of `n` bytes. */
  ghost predicate OneSizeIn(t: Tables, j: nat, n: nat)
  {
    j < |t.subs| == |t.plans| && Sub.OneSize(t.subs[j], t.plans[j], n)
  }

  lemma SmallEnough(t: Tables)
    requires |t.subs| == |t.plans| == NUM_SUB_TABLES
    requires forall j: nat, n: nat ::
               j < |t.subs| && 8 <= n < 8 * FREELIST_COUNT && n % 8 == 0 ==> Sub.OneSize(t.subs[j], t.plans[j], n)
    ensures forall j: nat, n: nat ::
              j < NUM_SUB_TABLES && 8 <= n < 8 * FREELIST_COUNT && n % 8 == 0 ==> OneSizeIn(t, j, n)
  {
    hide Sub.OneSize;
  }

  lemma PutKeepsSize(t: Tables, t': Tables, i: nat, key: Bytes, v: nat, ref: nat, j: nat, n: nat)
    requires PutInto(t, t', i, key, v, ref)
    ensures OneSizeIn(t, j, n) && (i == j ==> Sub.RegionSize(|key|, v) == n) ==> OneSizeIn(t', j, n)
  {
    hide Sub.OneSize, Sub.Placed, Sub.Lengthened, Sub.RegionSize;
    if OneSizeIn(t, j, n) && i == j && Sub.RegionSize(|key|, v) == n {
      Sub.OneSizePlaced(t.subs[j], t.plans[j], t'.subs[j], t'.plans[j], key, v, ref, n);
    }
  }

  lemma DelKeepsSize(t: Tables, t': Tables, i: nat, j: nat, n: nat)
    requires i < |t.subs| == |t.plans| == |t'.subs| == |t'.plans|
    requires t'.subs == t.subs[i := t'.subs[i]] && t'.plans == t.plans[i := t'.plans[i]]
    requires Sub.SameBlocks(t.subs[i], t.plans[i], t'.subs[i], t'.plans[i])
    ensures OneSizeIn(t, j, n) ==> OneSizeIn(t', j, n)
  {
    hide Sub.OneSize, Sub.SameBlocks;
    if OneSizeIn(t, j, n) && j == i {
      Sub.OneSizeStays(t.subs[i], t.plans[i], t'.subs[i], t'.plans[i], n);
    }
  }

  lemma IsPutInto(t: Tables, t': Tables, i: nat, key: Bytes, v: nat, ref: nat)
    requires i < |t.subs| == |t.plans| == |t'.subs| == |t'.plans|
    requires t'.subs == t.subs[i := t'.subs[i]] && t'.plans == t.plans[i := t'.plans[i]]
    requires Sub.Placed(t.subs[i], t.plans[i], t'.subs[i], t'.plans[i], key, v, ref)
    requires Sub.Lengthened(t.mem, t.subs[i], t'.mem, t'.subs[i])
    ensures PutInto(t, t', i, key, v, ref)
  {
  }

  // ---------- the table ----------

  class LHashTable {
    const hashcode: Hash

    var mem: Bytes
    var size: nat
    var subs: seq<LHashRecords.Sub>

    ghost var tags: Tags
    ghost var plans: seq<SubPlan>

    ghost predicate Valid()
      reads this
    {
      |subs| == NUM_SUB_TABLES && AllSound(hashcode, mem, tags, subs, plans) && size == SumSizes(subs) < 0x1_0000_0000
    }

    /** The map from keys to values. */
    ghost function Contents(): (r: map<Bytes, Bytes>)
      reads this
      ensures r == Union(hashcode, plans)
    {
      Union(hashcode, plans)
    }

    /** A new region for the key and `v` value bytes can be had. */
    predicate CanPut(key: Bytes, v: nat)
      requires |subs| == NUM_SUB_TABLES
      reads this
    {
      Sub.CanAlloc(subs[SubOf(hashcode(key))], Sub.RegionSize(|key|, v))
    }

    /** What a put demands: room for a region unless the record stays in its own, and a count that
    does not overflow when the key is new. */
    ghost predicate Fits(key: Bytes, v: nat)
      requires |subs| == NUM_SUB_TABLES
      reads this
    {
      && (key !in Contents() ==> size < 0xFFFF_FFFF)
      && (Sub.InPlace(Contents(), key, v) || CanPut(key, v))
    }

    /** Only a put can fail. */
    ghost predicate Possible(op: Op)
      requires |subs| == NUM_SUB_TABLES
      reads this
      ensures op.PutOp? ==> Possible(op) == Fits(op.key, |op.val|)
      ensures op.PutKeyOp? ==> Possible(op) == Fits(op.key, op.valLen)
      ensures op.GetOp? || op.DelOp? ==> Possible(op)
    {
      match op
      case PutOp(key, val) => Fits(key, |val|)
      case PutKeyOp(key, n) => Fits(key, n)
      case GetOp(_) => true
      case DelOp(_) => true
    }

    /** What the pointers to the key and the value of the record at `ofs` show. */
    ghost predicate RecordAt(ofs: nat, key: Bytes, val: Bytes)
      reads this
    {
      0 < ofs && Stored(mem, ofs, Sub.RegionSize(|key|, |val|), Rec(key, val))
    }

    ghost function State(): (t: Tables)
      reads this
      ensures t == Tables(mem, subs, plans)
    {
      Tables(mem, subs, plans)
    }

    /** The operation puts no record of another size into sub-table `j`. */
    ghost predicate KeepsSize(op: Op, j: nat, n: nat)
    {
      match op
      case PutOp(key, val) => SubOf(hashcode(key)) == j ==> Sub.RegionSize(|key|, |val|) == n
      case PutKeyOp(key, v) => SubOf(hashcode(key)) == j ==> Sub.RegionSize(|key|, v) == n
      case GetOp(_) => true
      case DelOp(_) => true
    }

    // With these lemmas the methods below need no definition.

    /** A put of a record of the one size fits as long as its sub-table has not as many keys as its blocks
    can hold. */
    lemma FitsOneSize(key: Bytes, v: nat, n: nat)
      requires Valid() && |subs| == NUM_SUB_TABLES && OneSizeIn(State(), SubOf(hashcode(key)), n)
               && Sub.RegionSize(|key|, v) == n
      requires subs[SubOf(hashcode(key))].size < NUM_DATA_BLOCKS * Sub.Fitting(BLOCK_SIZE, n) && size < 0xFFFF_FFFF
      ensures Fits(key, v)
    {
      var i := SubOf(hashcode(key));
      Unfold(i);
      hide SubSound, Sub.OneSize, Sub.CanAlloc, Sub.RegionSize, SubOf, AllSound;
      Sub.HoldsUpTo(hashcode, mem, tags, i, subs[i], plans[i], n);
    }

    lemma Unfold(i: nat)
      requires Valid() && i < NUM_SUB_TABLES
      ensures |subs| == |plans| == NUM_SUB_TABLES && AllSound(hashcode, mem, tags, subs, plans)
      ensures SubSound(hashcode, mem, tags, i, subs[i], plans[i], {}) && size == SumSizes(subs) < 0x1_0000_0000
      ensures |subs[i].freelist| == FREELIST_COUNT
    {
      Sub.SpareFacts(hashcode, mem, tags, i, subs[i], plans[i]);
    }

    lemma UnfoldAll()
      requires Valid()
      ensures |subs| == |plans| == NUM_SUB_TABLES && AllSound(hashcode, mem, tags, subs, plans) && |Contents()| == size
    {
      UnionSize(hashcode, mem, tags, subs, plans);
    }

    lemma Fold()
      requires |subs| == NUM_SUB_TABLES && AllSound(hashcode, mem, tags, subs, plans)
               && size == SumSizes(subs) < 0x1_0000_0000
      ensures Valid() && |Contents()| == size
    {
      UnionSize(hashcode, mem, tags, subs, plans);
    }

    lemma UnfoldFits(key: Bytes, v: nat)
      requires |subs| == |plans| == NUM_SUB_TABLES && Fits(key, v)
      ensures var i := SubOf(hashcode(key)); Sub.Admits(subs[i], ByKey(plans[i].live), key, v)
      ensures key !in ByKey(plans[SubOf(hashcode(key))].live) ==> size < 0xFFFF_FFFF
    {
      hide Sub.CanAlloc, ByKey;
      UnionAt(hashcode, plans, key);
    }

    lemma FitsIs(key: Bytes, v: nat)
      requires |subs| == NUM_SUB_TABLES
      ensures key !in Contents() ==> Fits(key, v) == (size < 0xFFFF_FFFF && CanPut(key, v))
      ensures key in Contents() ==>
                Fits(key, v) == (Sub.RegionSize(|key|, |Contents()[key]|) == Sub.RegionSize(|key|, v) || CanPut(key, v))
    {
      hide Sub.CanAlloc, Union;
    }

    lemma RecordLength(ofs: nat, key: Bytes, val: Bytes)
      requires RecordAt(ofs, key, val)
      ensures ofs + 4 <= |mem| && U16(mem, ofs + 2) == |val|
    {
      hide U16, Load;
    }

    /** Whether a put is possible, as the length of the record that is there tells. */
    method CheckFits(key: Bytes, v: nat) returns (ok: bool)
      requires Valid()
      ensures |subs| == NUM_SUB_TABLES && ok == Fits(key, v)
    {
      hide *;
      UnfoldAll();
      FitsIs(key, v);
      var ofs := Get(key);
      if ofs == 0 {
        ok := size < 0xFFFF_FFFF && CanPut(key, v);
      } else {
        RecordLength(ofs, key, Contents()[key]);
        ok := Sub.RegionSize(|key|, U16(mem, ofs + 2)) == Sub.RegionSize(|key|, v) || CanPut(key, v);
      }
    }

    /** A live record is what its offset shows. */
    lemma ShowsRecord(i: nat, ref: nat)
      requires Valid() && i < NUM_SUB_TABLES && i < |plans| && ref in plans[i].live
      ensures BlockOf(ref) < |subs[i].dataStart|
      ensures RecordAt(AbsOfs(subs[i].dataStart, ref), plans[i].live[ref].key, plans[i].live[ref].val)
    {
      Unfold(i);
      var s, p := subs[i], plans[i];
      LiveIsStored(hashcode, mem, tags, i, s, p, {}, ref);
      hide SubSound, Stored;
      InBlocks(tags, i, s.dataStart, p.lens, ref);
      assert 0 < s.dataStart[BlockOf(ref)];
    }

    constructor (hashcode: Hash)
      ensures this.hashcode == hashcode && Valid() && Contents() == map[] && size == 0
      ensures forall j: nat, n: nat ::
                j < NUM_SUB_TABLES && 8 <= n < 8 * FREELIST_COUNT && n % 8 == 0 ==> OneSizeIn(State(), j, n)
    {
      this.hashcode := hashcode;
      mem, size, subs := Zeros(HEADER_SIZE), 0, [];
      tags, plans := Repeat(Unowned, HEADER_SIZE), [];
      new;
      hide *;
      CreatedNone(hashcode);
      var i := 0;
      while i < NUM_SUB_TABLES
        invariant 0 <= i <= NUM_SUB_TABLES && size == 0 && this.hashcode == hashcode
        invariant Created(hashcode, mem, tags, subs, plans, i)
      {
        CreatedMore(hashcode, mem, tags, subs, plans, i);
        tags, plans := FreshTags(tags, i), plans + [FreshPlan()];
        subs := subs + [FreshSub(|mem| + SUB_HEADER_SIZE)];
        mem := FreshMemory(mem);
        i := i + 1;
      }
      CreatedAll(hashcode, mem, tags, subs, plans, i);
      Fold();
      SmallEnough(State());
    }

    /** `lhashtable_put`. */
    method Put(key: Bytes, val: Bytes) returns (ofs: nat, ghost ref: nat)
      requires Valid() && Fits(key, |val|)
      modifies this
      ensures Valid() && Contents() == old(Contents())[key := val] && |Contents()| == size
      ensures RecordAt(ofs, key, val) && PutInto(old(State()), State(), SubOf(hashcode(key)), key, |val|, ref)
    {
      hide *;
      var i := SubOf(hashcode(key));
      Unfold(i);
      UnfoldFits(key, |val|);
      ghost var tags', p';
      var m, s, at, inserted;
      m, tags', s, p', at, inserted := Sub.Put(hashcode, mem, tags, i, subs[i], plans[i], key, val);
      ref := at;
      Sub.UpdatedFacts(plans[i], p', key, val, ref);
      UnionUpdate(hashcode, plans, p', key, val);
      OneReplaced(hashcode, mem, tags, m, tags', i, subs, plans, s, p');
      SumUpdate(subs, i, s);
      mem, tags, subs, plans := m, tags', subs[i := s], plans[i := p'];
      if inserted {
        size := size + 1;
      }
      Fold();
      IsPutInto(old(State()), State(), i, key, |val|, ref);
      ShowsRecord(i, ref);
      ofs := AbsOfs(s.dataStart, at);
    }

    /** `lhashtable_put_key`: the value has the new length and keeps what both lengths have in common. */
    method PutKey(key: Bytes, valLen: nat) returns (ofs: nat, inserted: bool, ghost ref: nat)
      requires Valid() && Fits(key, valLen)
      modifies this
      ensures Valid() && |Contents()| == size && inserted == (key !in old(Contents()))
      ensures key in Contents() && |Contents()[key]| == valLen && Contents() == old(Contents())[key := Contents()[key]]
      ensures !inserted ==> SamePrefix(Contents()[key], old(Contents())[key])
      ensures RecordAt(ofs, key, Contents()[key])
      ensures PutInto(old(State()), State(), SubOf(hashcode(key)), key, valLen, ref)
    {
      hide *;
      var i := SubOf(hashcode(key));
      Unfold(i);
      UnfoldFits(key, valLen);
      UnionAt(hashcode, plans, key);
      ghost var tags', p', val;
      var m, s, at;
      m, tags', s, p', at, inserted, val := Sub.PutKey(hashcode, mem, tags, i, subs[i], plans[i], key, valLen);
      ref := at;
      Sub.UpdatedFacts(plans[i], p', key, val, ref);
      UnionUpdate(hashcode, plans, p', key, val);
      OneReplaced(hashcode, mem, tags, m, tags', i, subs, plans, s, p');
      SumUpdate(subs, i, s);
      mem, tags, subs, plans := m, tags', subs[i := s], plans[i := p'];
      if inserted {
        size := size + 1;
      }
      Fold();
      IsPutInto(old(State()), State(), i, key, valLen, ref);
      ShowsRecord(i, ref);
      ofs := AbsOfs(s.dataStart, at);
    }

    /** `lhashtable_get`: the offset of the record of the key, or 0. */
    method Get(key: Bytes) returns (ofs: nat)
      requires Valid()
      ensures ofs == 0 <==> key !in Contents()
      ensures ofs != 0 ==> RecordAt(ofs, key, Contents()[key])
    {
      hide *;
      var i := SubOf(hashcode(key));
      Unfold(i);
      ghost var p := plans[i];
      UnionAt(hashcode, plans, key);
      Parts(hashcode, mem, tags, i, subs[i], p, {});
      IndexByKey(hashcode, Slots(mem, subs[i].layout), p.live, subs[i].size);
      ByKeyHas(p.live, key);
      var found, b, e := Sub.Find(hashcode, mem, tags, i, subs[i], p, key);
      if !found {
        return 0;
      }
      var ref := RecAt(mem, subs[i].layout, b);
      Present(p.live, ref);
      ByKeyAt(p.live, ref);
      ShowsRecord(i, ref);
      ofs := AbsOfs(subs[i].dataStart, ref);
      PositiveOffset(ofs, key, Contents()[key]);
    }

    lemma PositiveOffset(ofs: nat, key: Bytes, val: Bytes)
      requires RecordAt(ofs, key, val)
      ensures 0 < ofs
    {
    }

    /** `lhashtable_del`: 0 if the key was there, else -1. */
    method Del(key: Bytes) returns (res: int)
      requires Valid()
      modifies this
      ensures Valid() && Contents() == old(Contents()) - {key} && |Contents()| == size
      ensures res == if key in old(Contents()) then 0 else -1
      ensures |mem| == |old(mem)|
      ensures forall j, n :: OneSizeIn(old(State()), j, n) ==> OneSizeIn(State(), j, n)
    {
      hide *;
      var i := SubOf(hashcode(key));
      Unfold(i);
      UnionAt(hashcode, plans, key);
      ghost var p';
      var m, s, deleted;
      m, s, p', deleted := Sub.Del(hashcode, mem, tags, i, subs[i], plans[i], key);
      UnionRemove(hashcode, plans, p', key);
      OneReplaced(hashcode, mem, tags, m, tags, i, subs, plans, s, p');
      SumUpdate(subs, i, s);
      mem, subs, plans := m, subs[i := s], plans[i := p'];
      forall j, n | OneSizeIn(old(State()), j, n)
        ensures OneSizeIn(State(), j, n)
      {
        DelKeepsSize(old(State()), State(), i, j, n);
      }
      res := -1;
      if deleted {
        size := size - 1;
        res := 0;
      }
      Fold();
    }

    /** `lhashtable_foreach`: the callback sees the offset of every record exactly once, unless it answers with a
    negative number, which ends the walk. */
    method ForEach(callback: nat -> int) returns (res: int, visited: seq<nat>)
      requires Valid()
      ensures |subs| == |plans| && Laid(mem, subs) && Exact(AllOffsets(mem, subs), subs, plans)
      ensures Visited(AllOffsets(mem, subs), callback, visited, res)
    {
      hide *;
      UnfoldAll();
      SoundIsLaid(hashcode, mem, tags, subs, plans);
      AllOffsetsExact(hashcode, mem, tags, subs, plans);
      visited := [];
      res := 0;
      var i := 0;
      NothingVisited(mem, subs, callback);
      while i < |subs|
        invariant 0 <= i <= |subs| && VisitedUpTo(mem, subs, callback, i, visited)
      {
        LaidAt(mem, subs, i);
        var ds := subs[i].dataStart;
        var refs;
        res, refs := BucketStore.ForEach(mem, subs[i].layout, (ref: nat) => callback(Decode(ds, ref)));
        VisitMore(mem, subs, callback, i, visited, refs, res, (ref: nat) => callback(Decode(ds, ref)));
        visited := visited + Decoded(ds, refs);
        if res < 0 {
          return;
        }
        i := i + 1;
      }
      VisitedAll(mem, subs, callback, visited);
      res := 0;
    }

    /** The operation was carried out on the table; a put that does not fit is not.  Where sub-table `j`
    has regions of `n` bytes only, a put there fits until it holds as many keys as its blocks can. */
    method Perform(op: Op, ghost j: nat, ghost n: nat) returns (done: bool)
      requires Valid()
      modifies this
      ensures Valid() && |Contents()| == size
      ensures |subs| == |old(subs)| == NUM_SUB_TABLES && done == old(Possible(op))
      ensures if done then StepOf(op, old(Contents()), Contents()) else unchanged(this)
      ensures OneSizeIn(old(State()), j, n) && KeepsSize(op, j, n)
              ==> OneSizeIn(State(), j, n) && (!done ==> Refusable(op, j, n))
    {
      hide *;
      UnfoldAll();
      done := true;
      match op {
        case PutOp(key, val) =>
          done := CheckFits(key, |val|);
          if done {
            var ofs, ref := Put(key, val);
            StepIs(op, old(Contents()), Contents());
            KeepsSizeIs(op, j, n);
            PutKeepsSize(old(State()), State(), SubOf(hashcode(key)), key, |val|, ref, j, n);
          } else {
            RefusedWhen(op, j, n);
          }
        case PutKeyOp(key, v) =>
          done := CheckFits(key, v);
          if done {
            var ofs, inserted, ref := PutKey(key, v);
            StepIs(op, old(Contents()), Contents());
            KeepsSizeIs(op, j, n);
            PutKeepsSize(old(State()), State(), SubOf(hashcode(key)), key, v, ref, j, n);
          } else {
            RefusedWhen(op, j, n);
          }
        case GetOp(key) =>
          var ofs := Get(key);
          StepIs(op, old(Contents()), Contents());
        case DelOp(key) =>
          var res := Del(key);
          StepIs(op, old(Contents()), Contents());
      }
      UnfoldAll();
    }

    /** A put is refused for one of these reasons only: it goes to another sub-table, or this one holds as
    many keys as its blocks can, or the table as many as it can count. */
    ghost predicate Refusable(op: Op, j: nat, n: nat)
      reads this
    {
      && (op.PutOp? || op.PutKeyOp?)
      && (SubOf(hashcode(op.key)) == j < |subs| ==>
            size == 0xFFFF_FFFF || (0 < n && NUM_DATA_BLOCKS * Sub.Fitting(BLOCK_SIZE, n) <= subs[j].size))
    }

    lemma RefusedWhen(op: Op, j: nat, n: nat)
      requires Valid() && (op.PutOp? || op.PutKeyOp?) && |subs| == NUM_SUB_TABLES && !Possible(op)
      ensures OneSizeIn(State(), j, n) && KeepsSize(op, j, n) ==> Refusable(op, j, n)
    {
      if OneSizeIn(State(), j, n) && KeepsSize(op, j, n) && SubOf(hashcode(op.key)) == j {
        SizeIsCounted();
        var v := if op.PutOp? then |op.val| else op.valLen;
        assert 0 < n;
        hide Sub.OneSize, AllSound, SubOf, Sub.RegionSize, Fits, Sub.Fitting;
        if size < 0xFFFF_FFFF && subs[j].size < NUM_DATA_BLOCKS * Sub.Fitting(BLOCK_SIZE, n) {
          FitsOneSize(op.key, v, n);
        }
      }
    }

    lemma SizeIsCounted()
      requires Valid()
      ensures size <= 0xFFFF_FFFF
    {
    }

    lemma KeepsSizeIs(op: Op, j: nat, n: nat)
      ensures op.PutOp? && KeepsSize(op, j, n) && SubOf(hashcode(op.key)) == j
              ==> Sub.RegionSize(|op.key|, |op.val|) == n
      ensures op.PutKeyOp? && KeepsSize(op, j, n) && SubOf(hashcode(op.key)) == j ==>
                Sub.RegionSize(|op.key|, op.valLen) == n
    {
    }

    /** Over every run, until a put does not fit, the table agrees with a plain map, step by
    step, and counts its keys.  As long as the records of a sub-table `j` are of one size, a put there is
    refused only when its blocks hold as many records as they can. */
    method Run(ops: seq<Op>, ghost j: nat, ghost n: nat) returns (count: nat, ghost states: seq<map<Bytes, Bytes>>)
      requires Valid()
      modifies this
      ensures Valid() && |Contents()| == size
      ensures count <= |ops| && |states| == count + 1 && IsRun(ops[..count], states)
      ensures states[0] == old(Contents()) && states[count] == Contents()
      ensures |subs| == NUM_SUB_TABLES && (count < |ops| ==> !Possible(ops[count]))
      ensures OneSizeIn(old(State()), j, n) && (forall k :: 0 <= k < |ops| ==> KeepsSize(ops[k], j, n)) ==>
                OneSizeIn(State(), j, n) && (count < |ops| ==> Refusable(ops[count], j, n))
    {
      hide *;
      UnfoldAll();
      count := 0;
      states := [Contents()];
      RunStarts(ops, Contents());
      while count < |ops|
        invariant Valid() && |Contents()| == size && count <= |ops| && |subs| == NUM_SUB_TABLES
        invariant |states| == count + 1 && IsRun(ops[..count], states) && states[0] == old(Contents())
                  && states[count] == Contents()
        invariant OneSizeIn(old(State()), j, n) && (forall k :: 0 <= k < |ops| ==> KeepsSize(ops[k], j, n))
                  ==> OneSizeIn(State(), j, n)
      {
        var done := Perform(ops[count], j, n);
        if !done {
          return;
        }
        RunMore(ops, count, states, Contents());
        states := states + [Contents()];
        count := count + 1;
      }
    }
  }

  // ---------- the walk of foreach ----------

  ghost predicate VisitedUpTo(mem: Bytes, subs: seq<LHashRecords.Sub>, callback: nat -> int, i: nat, visited: seq<nat>)
    requires i <= |subs| && Laid(mem, subs)
  {
    visited == AllOffsets(mem, subs[..i]) && forall k :: 0 <= k < |visited| ==> callback(visited[k]) >= 0
  }

  lemma LaidAt(mem: Bytes, subs: seq<LHashRecords.Sub>, i: nat)
    requires Laid(mem, subs) && i < |subs|
    ensures subs[i].layout.Fits(0, |mem|)
  {
  }

  lemma NothingVisited(mem: Bytes, subs: seq<LHashRecords.Sub>, callback: nat -> int)
    requires Laid(mem, subs)
    ensures VisitedUpTo(mem, subs, callback, 0, [])
  {
  }

  lemma OffsetsStep(mem: Bytes, subs: seq<LHashRecords.Sub>, i: nat)
    requires Laid(mem, subs) && i < |subs| && subs[i].layout.Fits(0, |mem|)
    ensures AllOffsets(mem, subs[..i + 1]) == AllOffsets(mem, subs[..i])
            + Decoded(subs[i].dataStart, Listed(Slots(mem, subs[i].layout)))
  {
    assert subs[..i + 1][..i] == subs[..i];
  }

  lemma {:induction false} OffsetsPrefix(mem: Bytes, subs: seq<LHashRecords.Sub>, i: nat)
    requires Laid(mem, subs) && i <= |subs|
    ensures AllOffsets(mem, subs[..i]) <= AllOffsets(mem, subs)
    decreases |subs| - i
  {
    hide AllOffsets, Listed, Slots;
    if i < |subs| {
      LaidAt(mem, subs, i);
      OffsetsStep(mem, subs, i);
      OffsetsPrefix(mem, subs, i + 1);
    } else {
      assert subs[..i] == subs;
    }
  }

  lemma VisitMore(mem: Bytes, subs: seq<LHashRecords.Sub>, callback: nat -> int, i: nat, visited: seq<nat>,
                  refs: seq<nat>, res: int, func: nat -> int)
    requires Laid(mem, subs) && i < |subs| && subs[i].layout.Fits(0, |mem|)
             && VisitedUpTo(mem, subs, callback, i, visited)
    requires forall ref: nat :: func(ref) == callback(Decode(subs[i].dataStart, ref))
    requires Visited(Listed(Slots(mem, subs[i].layout)), func, refs, res)
    ensures res >= 0 ==> VisitedUpTo(mem, subs, callback, i + 1, visited + Decoded(subs[i].dataStart, refs))
    ensures res < 0 ==> Visited(AllOffsets(mem, subs), callback, visited + Decoded(subs[i].dataStart, refs), res)
  {
    hide AllOffsets, Listed, Slots, Decode, Decoded, Visited;
    OffsetsStep(mem, subs, i);
    OffsetsPrefix(mem, subs, i + 1);
    var ds, all := subs[i].dataStart, Listed(Slots(mem, subs[i].layout));
    DecodeVisited(ds, all, refs, func, callback, res);
    VisitedConcat(AllOffsets(mem, subs), visited, Decoded(ds, all), Decoded(ds, refs), callback, res);
  }

  lemma DecodeVisited(ds: seq<nat>, all: seq<nat>, refs: seq<nat>, func: nat -> int, callback: nat -> int, res: int)
    requires forall ref: nat :: func(ref) == callback(Decode(ds, ref))
    requires Visited(all, func, refs, res)
    ensures Visited(Decoded(ds, all), callback, Decoded(ds, refs), res)
  {
    hide Decode, Decoded;
    assert forall k :: 0 <= k < |refs| ==> refs[k] == all[k];
    if res < 0 {
      assert Decoded(ds, refs)[|refs| - 1] == Decode(ds, refs[|refs| - 1]);
    }
  }

  lemma VisitedConcat(all: seq<nat>, before: seq<nat>, own: seq<nat>, seen: seq<nat>, callback: nat -> int, res: int)
    requires (forall k :: 0 <= k < |before| ==> callback(before[k]) >= 0) && Visited(own, callback, seen, res)
             && before + own <= all
    ensures res >= 0 ==> seen == own && forall k :: 0 <= k < |before + seen| ==> callback((before + seen)[k]) >= 0
    ensures res < 0 ==> Visited(all, callback, before + seen, res)
  {
    if res < 0 {
      assert before + seen <= before + own;
      assert (before + seen)[|before + seen| - 1] == seen[|seen| - 1];
    }
  }

  lemma VisitedAll(mem: Bytes, subs: seq<LHashRecords.Sub>, callback: nat -> int, visited: seq<nat>)
    requires Laid(mem, subs) && VisitedUpTo(mem, subs, callback, |subs|, visited)
    ensures Visited(AllOffsets(mem, subs), callback, visited, 0)
  {
    assert subs[..|subs|] == subs;
  }

  lemma FreshSize(end: nat)
    ensures FreshSub(end).size == 0 && NoBlocks(FreshSub(end))
  {
  }

  lemma OneAdded(hc: Hash, m: Bytes, tags: Tags, m': Bytes, tags': Tags, subs: seq<LHashRecords.Sub>,
                 plans: seq<SubPlan>, s: LHashRecords.Sub, p: SubPlan)
    requires AllSound(hc, m, tags, subs, plans) && OthersKept(m, tags, m', tags', |subs|)
    requires SubSound(hc, m', tags', |subs|, s, p, {})
    ensures AllSound(hc, m', tags', subs + [s], plans + [p])
  {
    hide SubSound, OthersKept;
    forall j | 0 <= j < |subs|
      ensures SubSound(hc, m', tags', j, subs[j], plans[j], {})
    {
      OtherSound(hc, m, tags, m', tags', |subs|, j, subs[j], plans[j]);
    }
  }
}
