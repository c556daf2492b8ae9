/** The hash table of src/hashtable.c: open addressing over segmented buckets, records addressed by
their offset, an exact-fit free list threaded through the removed records. */
module HashTable {
  import opened Words
  import opened Probing
  import opened Segments
  import opened BucketStore
  import opened Ownership
  import opened HashIndex
  import opened HashRecords

  class HashTable {
    const hashcode: Hash

    // The memory handed out by the allocator so far, and the fields of the header at its start.
    var mem: Bytes
    var slots: Layout
    var size: nat
    var freeList: nat

    ghost var plan: Plan

    ghost predicate Valid()
      reads this
    {
      Sound(hashcode, State(mem, slots, size, freeList), plan, {})
    }

    /** The records of the table, by offset. */
    ghost function Live(): (r: map<nat, Rec>)
      reads this
      ensures r == plan.live
    {
      plan.live
    }

    /** The removed records, in the order of the free list. */
    ghost function Free(): (r: seq<nat>)
      reads this
      ensures r == plan.free
    {
      plan.free
    }

    /** The length of the region of every record, live or removed. */
    ghost function Lengths(): (r: map<nat, nat>)
      reads this
      ensures r == plan.lens
    {
      plan.lens
    }

    /** Where the memory ends once the table has made sure that it can take one more record. */
    function Reserved(): nat
      requires 0 < |slots.vectors|
      reads this
    {
      if size > (slots.Capacity() - 1) / 2 then |GrownMemory(mem, slots)| else |mem|
    }

    /** A region for `n` key and value bytes can be had when the memory ends at `end`: a removed record
    of that size, or room below the limit of 32-bit offsets. */
    ghost predicate HasSpace(end: nat, n: nat)
      reads this
    {
      end <= MEMORY_LIMIT && (FirstFit(Free(), Lengths(), n) < |Free()| || end + REC_HEADER + n <= MEMORY_LIMIT)
    }

    lemma UnfoldSpace(end: nat, n: nat)
      requires HasSpace(end, n)
      ensures end <= MEMORY_LIMIT
      ensures FirstFit(Free(), Lengths(), n) < |Free()| || end + REC_HEADER + n <= MEMORY_LIMIT
    {
    }

    lemma FoldSpace(end: nat, n: nat)
      requires end <= MEMORY_LIMIT
      ensures HasSpace(end, n) <==> FirstFit(Free(), Lengths(), n) < |Free()| || end + REC_HEADER + n <= MEMORY_LIMIT
    {
    }

    /** Records whose keys have the same hash are entered in the order of their offsets. */
    ghost predicate InOrder()
      reads this
    {
      slots.Fits(0, |mem|) && InTurn(Slots(mem, slots))
    }

    /** The capacity then. */
    ghost function Room(): nat
      requires 0 < |slots.vectors|
      reads this
    {
      if size > (slots.Capacity() - 1) / 2 then 2 * slots.Capacity() else slots.Capacity()
    }

    /** `_hashtable_init`: an empty table, with buckets for `initialSize` records if that is more than the
    first vector holds. */
    constructor (hashcode: Hash, initialSize: nat)
      requires initialSize <= 0x0800_0000
      ensures this.hashcode == hashcode
      ensures Valid() && Live() == map[] && Free() == [] && size == 0
      ensures slots.Capacity() == if initialSize > 32 then 2 * NextPow2(initialSize) else 32
      ensures initialSize <= 32 ==> |mem| == HEADER_SIZE + 32 * BUCKET_SIZE
    {
      this.hashcode := hashcode;
      mem := Zeros(HEADER_SIZE + 32 * BUCKET_SIZE);
      slots, size, freeList := Layout(INITIAL_BITS, [HEADER_SIZE]), 0, 0;
      plan := Plan(Repeat(Unowned, HEADER_SIZE) + Repeat(Buckets(0), 32 * BUCKET_SIZE), map[], [], map[]);
      new;
      hide Sound, Pow2, NextPow2, Log2, Repeat, Zeros;
      InitialState(hashcode);
      Pow2Values();
      if initialSize > 32 {
        LogOfPresized(initialSize);
        AddVectors(Log2(2 * NextPow2(initialSize)) + 1 - INITIAL_BITS);
      }
    }

    /** The pre-sizing loop: vectors are added to the empty table until it has `numSlots`. */
    method AddVectors(numSlots: nat)
      requires Valid() && Live() == map[] && Free() == [] && size == 0 && slots.bits == INITIAL_BITS
      requires |slots.vectors| == 1 && |mem| <= 144 + 8 * slots.Capacity()
      requires 1 <= numSlots && Pow2(INITIAL_BITS + numSlots - 1) <= 0x1000_0000
      modifies this
      ensures Valid() && Live() == map[] && Free() == [] && size == 0 && slots.bits == INITIAL_BITS
      ensures |slots.vectors| == numSlots
    {
      hide *;
      var s := 1;
      while s < numSlots
        invariant Valid() && Live() == map[] && Free() == [] && size == 0
        invariant 1 <= s <= numSlots && s == |slots.vectors| && slots.bits == INITIAL_BITS
        invariant |mem| <= 144 + 8 * slots.Capacity()
      {
        Unfold();
        CapacityBelow(slots, numSlots);
        EmptyGrown(hashcode, State(mem, slots, size, freeList), plan);
        plan := GrownPlan(plan, slots);
        mem, slots := GrownMemory(mem, slots), GrownLayout(slots, |mem|);
        Fold();
        s := s + 1;
      }
    }

    // With these two lemmas the methods below need no definition.

    lemma Unfold()
      requires Valid()
      ensures Sound(hashcode, State(mem, slots, size, freeList), plan, {}) && slots.Fits(0, |mem|)
      ensures HEADER_SIZE <= |mem| <= MEMORY_LIMIT && Index(hashcode, Slots(mem, slots), Live(), size)
      ensures REC_HEADER == 8 && HEADER_SIZE == 140 && MEMORY_LIMIT == 0x1_0000_0000
    {
    }

    lemma EmptyIsInOrder()
      requires Valid() && Live() == map[]
      ensures InOrder()
    {
      hide Sound, Slots;
      Unfold();
      EmptyInTurn(hashcode, Slots(mem, slots), Live(), size);
    }

    lemma IsInOrder()
      requires slots.Fits(0, |mem|)
      ensures InOrder() <==> InTurn(Slots(mem, slots))
    {
    }

    lemma LiveInside()
      requires Valid()
      ensures forall o | o in Live() :: o < |mem|
    {
      hide Sound;
      Unfold();
      forall o | o in Live()
        ensures o < |mem|
      {
        LiveIsStored(hashcode, State(mem, slots, size, freeList), plan, o);
      }
    }

    lemma Fold()
      requires Sound(hashcode, State(mem, slots, size, freeList), plan, {})
      ensures Valid()
    {
    }

    /** `_hashtable_grow`: the capacity doubles, the records stay where they are. */
    method Grow()
      requires Valid() && |GrownMemory(mem, slots)| <= MEMORY_LIMIT
      modifies this
      ensures Valid() && Live() == old(Live())
      ensures size == old(size) && freeList == old(freeList) && Free() == old(Free()) && Lengths() == old(Lengths())
      ensures slots.Capacity() == 2 * old(slots.Capacity()) && |mem| == old(|GrownMemory(mem, slots)|)
      ensures old(InOrder()) ==> InOrder()
    {
      hide *;
      Unfold();
      IsInOrder();
      ghost var s, p := State(mem, slots, size, freeList), plan;
      ghost var t0 := Slots(mem, slots);
      GrownSlots(mem, slots);
      RehashReady(hashcode, t0, p.live, size);
      var l := GrownLayout(slots, |mem|);
      var m := Rehash(GrownMemory(mem, slots), l, false, t0);
      Grown(hashcode, s, p, m);
      plan := GrownPlan(p, slots);
      mem, slots := m, l;
      Fold();
      Unfold();
      IsInOrder();
    }

    /** `_hashtable_check_resize`. */
    method CheckResize()
      requires Valid() && Reserved() <= MEMORY_LIMIT
      modifies this
      ensures Valid() && Live() == old(Live()) && size == old(size) && |mem| == old(Reserved())
      ensures Free() == old(Free()) && Lengths() == old(Lengths()) && 2 * size + 2 <= slots.Capacity() == old(Room())
      ensures old(InOrder()) ==> InOrder()
    {
      hide *;
      Unfold();
      EvenCapacity(hashcode, State(mem, slots, size, freeList), plan, {});
      RoomIs();
      if size > (slots.Capacity() - 1) / 2 {
        Grow();
      }
    }

    lemma RoomIs()
      requires 0 < |slots.vectors|
      ensures MEMORY_LIMIT == 0x1_0000_0000
      ensures if size > (slots.Capacity() - 1) / 2
              then Reserved() == |GrownMemory(mem, slots)| && Room() == 2 * slots.Capacity()
              else Reserved() == |mem| && Room() == slots.Capacity()
    {
    }

    /** The probe of lookup, lookup_insert and remove: the bucket of the key, or the free bucket that
    ends its run. */
    method Find(key: Bytes) returns (found: bool, b: nat, ghost e: nat)
      requires Valid()
      ensures b < slots.Capacity() && e < slots.Capacity() && Slots(mem, slots)[e].Vacant?
      ensures found ==> Slots(mem, slots)[b].Entry? && var o := Slots(mem, slots)[b].rec;
                        o == RecAt(mem, slots, b) != 0 && o in Live() && Live()[o].key == key
      ensures !found ==> && Absent(Live(), key) && Slots(mem, slots)[b].Vacant?
                         && Probed(Slots(mem, slots), Ideal(hashcode(key), slots.Capacity()), b, e)
      ensures found && InOrder() ==> forall o | o in Live() && Live()[o].key == key :: Slots(mem, slots)[b].rec <= o
    {
      hide *;
      Unfold();
      IsInOrder();
      ghost var s, t := State(mem, slots, size, freeList), Slots(mem, slots);
      e := VacantSlot(hashcode, t, Live(), size);
      var hc := hashcode(key);
      b := Ideal(hc, slots.Capacity());
      ghost var j := b;
      ProbeStarts(t, j, e);
      NothingPassed(t, Live(), j, key);
      SlotsAt(mem, slots, b);
      while RecAt(mem, slots, b) != 0
        invariant b < |t| && Probed(t, j, b, e) && NotPassed(t, Live(), j, b, key)
        invariant t[b] == if RecAt(mem, slots, b) == 0 then Vacant
                  else Entry(HashAt(mem, slots, b), RecAt(mem, slots, b))
        decreases Distance(b, e, |t|)
      {
        SlotIsLive(hashcode, t, Live(), size, b);
        var ofs := RecAt(mem, slots, b);
        if hc == HashAt(mem, slots, b) {
          LiveIsStored(hashcode, s, plan, ofs);
          KeyMatchesStored(mem, ofs, plan.lens[ofs], plan.live[ofs], key);
          if KeyMatches(mem, ofs, key) {
            if InTurn(t) {
              FirstMatch(hashcode, t, Live(), size, key, b);
            }
            return true, b, e;
          }
        }
        PassOne(t, Live(), j, b, e, key);
        ProbeOn(t, j, b, e);
        b := Next(b, slots.Capacity());
        SlotsAt(mem, slots, b);
      }
      ProbeFails(hashcode, t, Live(), size, key, b, e);
      found := false;
    }

    /** `hashtable_lookup`: the offset of the record with this key, or 0. */
    method Lookup(key: Bytes) returns (ofs: nat)
      requires Valid()
      ensures ofs == 0 <==> Absent(Live(), key)
      ensures ofs != 0 ==> ofs in Live() && Live()[ofs].key == key
      ensures ofs != 0 && InOrder() ==> forall o | o in Live() && Live()[o].key == key :: ofs <= o
    {
      hide *;
      Unfold();
      var found, b, e := Find(key);
      if found {
        Present(Live(), RecAt(mem, slots, b));
        return RecAt(mem, slots, b);
      }
      return 0;
    }

    /** `_hashtable_alloc_from_freelist`: the first removed record of exactly `n` bytes is unlinked. */
    method AllocFromFreelist(n: nat) returns (ofs: nat)
      requires Valid()
      modifies this
      ensures slots == old(slots) && size == old(size) && |mem| == old(|mem|)
      ensures Lengths() == old(Lengths()) && plan.tags == old(plan.tags) && Live() == old(Live())
      ensures ofs == 0 ==> && mem == old(mem) && freeList == old(freeList) && plan == old(plan)
                           && FirstFit(old(Free()), plan.lens, n) == |old(Free())|
      ensures ofs != 0 ==> && Sound(hashcode, State(mem, slots, size, freeList), plan, {ofs})
                           && Slots(mem, slots) == old(Slots(mem, slots)) && 0 < ofs < MEMORY_LIMIT && ofs !in Live()
                           && ofs in Lengths() && Lengths()[ofs] == REC_HEADER + n
                           && Allotted(old(Free()), Lengths(), |mem|, n, ofs, Free(), |mem|)
    {
      hide *;
      Unfold();
      var s := State(mem, slots, size, freeList);
      ghost var free, k := Free(), 0;
      var prev := 0; // the record whose link led here, or 0 for the header
      ofs := freeList;
      FreeStart(hashcode, s, plan);
      while 0 < ofs
        invariant s == State(mem, slots, size, freeList) && plan == old(plan)
        invariant mem == old(mem) && freeList == old(freeList) && slots == old(slots) && size == old(size)
        invariant 0 <= k <= |free| && ofs == LinkTo(free, k)
        invariant prev == if k == 0 then 0 else free[k - 1]
        invariant FirstFit(free, plan.lens, n) >= k
        decreases |free| - k
      {
        FreeStep(hashcode, s, plan, k, n);
        if U32(mem, ofs + 4) == n {
          var next := U32(mem, ofs);
          Unlink(hashcode, s, plan, k);
          AllottedRecycled(free, plan.lens, |mem|, n, k);
          plan := plan.(free := Without(free, k));
          if prev == 0 {
            freeList := next;
          } else {
            mem := Put32(mem, prev, next);
          }
          return;
        }
        prev := ofs;
        ofs := U32(mem, ofs);
        k := k + 1;
      }
      FreeEnd(hashcode, s, plan, k);
    }

    /** `_hashtable_alloc_rec`: a region for `n` key and value bytes, not yet a record. */
    method AllocRec(n: nat) returns (ofs: nat)
      requires Valid() && HasSpace(|mem|, n)
      modifies this
      ensures slots == old(slots) && size == old(size) && 0 < ofs < MEMORY_LIMIT && Live() == old(Live())
      ensures Sound(hashcode, State(mem, slots, size, freeList), plan, {ofs})
      ensures ofs in Lengths() && Lengths()[ofs] == REC_HEADER + n && ofs !in Live()
      ensures Slots(mem, slots) == old(Slots(mem, slots))
      ensures Allotted(old(Free()), old(Lengths()), old(|mem|), n, ofs, Free(), |mem|)
    {
      hide *;
      Unfold();
      UnfoldSpace(|mem|, n);
      ofs := AllocFromFreelist(n);
      if ofs == 0 {
        ghost var s := State(mem, slots, size, freeList);
        AllocFresh(hashcode, s, plan, 8 + n);
        AllottedFresh(Free(), plan.lens, |mem|, n);
        ofs := |mem|;
        HoleIsRegion(hashcode, s.(mem := mem + Zeros(8 + n)), ExtendPlan(plan, 8 + n), ofs);
        TagsLength(hashcode, s, plan, {});
        plan := ExtendPlan(plan, 8 + n);
        mem := mem + Zeros(8 + n);
      }
    }

    /** The common end of the insertions: a record with the key, whose value is whatever the memory held,
    entered at the free bucket `b`. */
    method EnterKey(b: nat, ghost e: nat, key: Bytes, valLen: nat) returns (ofs: nat)
      requires Valid() && 2 * size + 2 <= slots.Capacity() && b < slots.Capacity()
      requires Probed(Slots(mem, slots), Ideal(hashcode(key), slots.Capacity()), b, e) && Slots(mem, slots)[b].Vacant?
      requires HasSpace(|mem|, |key| + valLen)
      modifies this
      ensures Valid() && size == old(size) + 1 && slots == old(slots)
      ensures 0 < ofs && ofs !in old(Live()) && ofs in Live() && Live() == old(Live())[ofs := Live()[ofs]]
      ensures Live()[ofs].key == key && |Live()[ofs].val| == valLen
      ensures Allotted(old(Free()), old(Lengths()), old(|mem|), |key| + valLen, ofs, Free(), |mem|)
      ensures old(InOrder()) && (forall o | o in old(Live()) :: o < ofs) ==> InOrder()
    {
      hide *;
      Unfold();
      IsInOrder();
      ghost var t := Slots(mem, slots);
      ofs := AllocRec(|key| + valLen);
      HoleFits(hashcode, State(mem, slots, size, freeList), plan, ofs);
      var m := Fill(mem, slots, b, hashcode(key), ofs);
      KeyEntered(hashcode, State(mem, slots, size, freeList), plan, ofs, b, e, key, valLen, m);
      plan := plan.(live := plan.live[ofs := Rec(key, Load(m, ofs + 8 + |key|, valLen))]);
      mem := WriteKey(m, ofs, key, valLen);
      size := size + 1;
      Fold();
      Unfold();
      IsInOrder();
      EntersLast(hashcode, t, old(Live()), old(size), key, ofs, b, e);
    }

    /** `hashtable_insert_alloc`: the key is not looked for; if it is there, it is there twice now. */
    method InsertAlloc(key: Bytes, valLen: nat) returns (ofs: nat)
      requires Valid() && HasSpace(Reserved(), |key| + valLen)
      modifies this
      ensures Valid() && size == old(size) + 1
      ensures 0 < ofs && ofs !in old(Live()) && ofs in Live() && Live() == old(Live())[ofs := Live()[ofs]]
      ensures Live()[ofs].key == key && |Live()[ofs].val| == valLen && slots.Capacity() == old(Room())
      ensures Allotted(old(Free()), old(Lengths()), old(Reserved()), |key| + valLen, ofs, Free(), |mem|)
      ensures old(Free()) == [] ==> forall o | o in old(Live()) :: o < ofs
      ensures old(InOrder()) && old(Free()) == [] ==> InOrder()
    {
      hide *;
      Unfold();
      LiveInside();
      UnfoldSpace(Reserved(), |key| + valLen);
      CheckResize();
      Unfold();
      FoldSpace(|mem|, |key| + valLen);
      ghost var e := VacantSlot(hashcode, Slots(mem, slots), Live(), size);
      var b := FirstVacant(mem, slots, Ideal(hashcode(key), slots.Capacity()), e);
      LiveInside();
      ghost var end := |mem|;
      ofs := EnterKey(b, e, key, valLen);
      AllottedLast(old(Free()), old(Lengths()), end, |key| + valLen, ofs, Free(), |mem|);
    }

    /** `hashtable_get_rec`. */
    method GetRec(ofs: nat) returns (rec: Rec)
      requires Valid() && ofs in Live()
      ensures rec == Live()[ofs]
    {
      hide *;
      Unfold();
      LiveIsStored(hashcode, State(mem, slots, size, freeList), plan, ofs);
      StoredReads(mem, ofs, plan.lens[ofs], plan.live[ofs]);
      var keySize, valSize := U32(mem, ofs), U32(mem, ofs + 4);
      rec := Rec(Load(mem, ofs + 8, keySize), Load(mem, ofs + 8 + keySize, valSize));
    }

    /** Writing a value, of the size it has, through the pointer to the value of a record. */
    method SetVal(ofs: nat, val: Bytes)
      requires Valid() && ofs in Live() && |Live()[ofs].val| == |val|
      modifies this
      ensures Valid() && Live() == old(Live())[ofs := Rec(old(Live())[ofs].key, val)]
      ensures size == old(size) && slots == old(slots) && Free() == old(Free()) && Lengths() == old(Lengths())
              && |mem| == old(|mem|)
      ensures old(InOrder()) ==> InOrder()
    {
      hide *;
      Unfold();
      IsInOrder();
      Overwritten(hashcode, State(mem, slots, size, freeList), plan, ofs, val);
      plan := plan.(live := plan.live[ofs := Rec(plan.live[ofs].key, val)]);
      mem := Store(mem, ofs + 8 + U32(mem, ofs), val);
      Fold();
      Unfold();
      IsInOrder();
    }

    /** `hashtable_insert`: the key is not looked for; if it is there, it is there twice now. */
    method Insert(key: Bytes, val: Bytes) returns (ofs: nat)
      requires Valid() && HasSpace(Reserved(), |key| + |val|)
      modifies this
      ensures Valid() && size == old(size) + 1
      ensures 0 < ofs && ofs !in old(Live()) && Live() == old(Live())[ofs := Rec(key, val)]
              && slots.Capacity() == old(Room())
      ensures Allotted(old(Free()), old(Lengths()), old(Reserved()), |key| + |val|, ofs, Free(), |mem|)
      ensures old(Free()) == [] ==> forall o | o in old(Live()) :: o < ofs
      ensures old(InOrder()) && old(Free()) == [] ==> InOrder()
    {
      hide *;
      ofs := InsertAlloc(key, |val|);
      SetVal(ofs, val);
    }

    /** `hashtable_lookup_insert`: the record of the key, entered with this value if there was none. */
    method LookupInsert(key: Bytes, val: Bytes) returns (ofs: nat)
      requires Valid() && (Absent(Live(), key) ==> HasSpace(Reserved(), |key| + |val|))
      modifies this
      ensures Valid() && ofs in Live() && Live()[ofs].key == key && 0 < ofs
      ensures if Absent(old(Live()), key)
              then ofs !in old(Live()) && size == old(size) + 1 && Live() == old(Live())[ofs := Rec(key, val)]
              else unchanged(this)
      ensures Absent(old(Live()), key) ==>
                Allotted(old(Free()), old(Lengths()), old(Reserved()), |key| + |val|, ofs, Free(), |mem|)
    {
      hide *;
      Unfold();
      var found, b, e := Find(key);
      if found {
        Present(Live(), RecAt(mem, slots, b));
        return RecAt(mem, slots, b);
      }
      ofs := Insert(key, val);
    }

    /** `hashtable_remove`: the record leaves the table and becomes the head of the free list. */
    method Remove(key: Bytes) returns (ofs: nat)
      requires Valid()
      modifies this
      ensures Valid() && slots == old(slots) && |mem| == old(|mem|) && Lengths() == old(Lengths())
      ensures ofs == 0 <==> Absent(old(Live()), key)
      ensures ofs == 0 ==> Live() == old(Live()) && size == old(size) && Free() == old(Free())
      ensures ofs != 0 ==> && ofs in old(Live()) && old(Live())[ofs].key == key
                           && Live() == old(Live()) - {ofs} && size == old(size) - 1 && Free() == [ofs] + old(Free())
    {
      hide *;
      Unfold();
      ghost var s, t := State(mem, slots, size, freeList), Slots(mem, slots);
      var found, b, e := Find(key);
      if !found {
        return 0;
      }
      ofs := RecAt(mem, slots, b);
      Present(Live(), ofs);
      Releasable(hashcode, s, plan, ofs);
      LinkWritten(hashcode, s, plan, ofs, freeList);
      var m := WriteLink(mem, ofs, freeList);
      ghost var z := RepairBegins(hashcode, s, plan, b, e);
      SetRecSlots(m, slots, b, 0);
      var m1 := SetRec(m, slots, b, 0);
      var m2, last := FixChainDown(m1, slots, Next(b, slots.Capacity()), t, b, z);
      WrittenTwice(m, m1, m2, slots);
      RemovedFrame(hashcode, s, plan, ofs, m, m2);
      Released(hashcode, s, plan, t, Slots(m2, slots), b, ofs, m2);
      mem, freeList, size := m2, ofs, size - 1;
      plan := plan.(free := [ofs] + plan.free, live := plan.live - {ofs});
      Fold();
    }

    /** `hashtable_foreach`: every record exactly once, unless the callback answers with a negative number. */
    method ForEach(func: nat -> int) returns (res: int, visited: seq<nat>)
      requires Valid()
      ensures forall i, j :: 0 <= i < j < |visited| ==> visited[i] != visited[j]
      ensures forall i :: 0 <= i < |visited| ==> visited[i] in Live()
      ensures res == 0 || res == -1
      ensures res == 0 ==> (forall o :: o in Live() ==> o in visited) && forall o :: o in visited ==> func(o) >= 0
      ensures res == -1 ==> && 0 < |visited| && func(visited[|visited| - 1]) < 0
                            && forall i :: 0 <= i < |visited| - 1 ==> func(visited[i]) >= 0
    {
      hide Sound, Slots, Listed;
      Unfold();
      ListedIsRecs(Slots(mem, slots));
      res, visited := BucketStore.ForEach(mem, slots, func);
      res := if res < 0 then -1 else 0;
    }

    /** Live and removed records and the bucket vectors are all apart in memory. */
    lemma RecordsApart(o: nat, o': nat)
      requires Valid() && o in Lengths() && o' in Lengths()
      ensures o + Lengths()[o] <= |mem| && (o != o' ==> o + Lengths()[o] <= o' || o' + Lengths()[o'] <= o)
      ensures forall x :: o <= x < o + Lengths()[o] ==> !slots.Holds(x)
    {
      hide Sound;
      HashRecords.RegionsApart(hashcode, State(mem, slots, size, freeList), plan, o, o');
    }

    /** Whether the free list has a record of exactly `n` key and value bytes. */
    method HasFit(n: nat) returns (fit: bool)
      requires Valid()
      ensures fit <==> FirstFit(Free(), Lengths(), n) < |Free()|
    {
      hide *;
      Unfold();
      ghost var s, k := State(mem, slots, size, freeList), 0;
      var ofs := freeList;
      FreeStart(hashcode, s, plan);
      while 0 < ofs
        invariant 0 <= k <= |Free()| && ofs == LinkTo(Free(), k) && FirstFit(Free(), Lengths(), n) >= k
        decreases |Free()| - k
      {
        FreeStep(hashcode, s, plan, k, n);
        if U32(mem, ofs + 4) == n {
          return true;
        }
        ofs := U32(mem, ofs);
        k := k + 1;
      }
      FreeEnd(hashcode, s, plan, k);
      fit := false;
    }

    /** Whether `hashtable_lookup_insert` stays within 32-bit offsets: the key is there, or a region can be had. */
    method CanLookupInsert(key: Bytes, n: nat) returns (ok: bool)
      requires Valid()
      ensures 0 < |slots.vectors| && (ok <==> (Absent(Live(), key) ==> HasSpace(Reserved(), n)))
    {
      hide *;
      Unfold();
      var found := Lookup(key);
      if found != 0 {
        return true;
      }
      var fit := HasFit(n);
      ok := Reserved() <= 0x1_0000_0000 && (fit || Reserved() + 8 + n <= 0x1_0000_0000);
      if Reserved() <= 0x1_0000_0000 {
        FoldSpace(Reserved(), n);
      } else {
        NoSpace(Reserved(), n);
      }
    }

    lemma NoSpace(end: nat, n: nat)
      requires 0x1_0000_0000 < end
      ensures !HasSpace(end, n)
    {
    }

    /** Over any run that does not remove its key, an offset keeps naming the same key and value:
    through growth, insertions and the removal of other keys.  Exactly the insertions that would take
    the table beyond 32-bit offsets are skipped. */
    method Run(ops: seq<Op>, ghost o: nat)
      requires Valid() && o in Live() && forall i | 0 <= i < |ops| :: ops[i].Removing? ==> ops[i].key != Live()[o].key
      modifies this
      ensures Valid() && o in Live() && Live()[o] == old(Live())[o]
    {
      hide *;
      for i := 0 to |ops|
        invariant Valid() && o in Live() && Live()[o] == old(Live())[o]
      {
        var _ := Perform(ops[i], o);
      }
    }

    /** One operation of a run. */
    method Perform(op: Op, ghost o: nat) returns (done: bool)
      requires Valid() && o in Live() && (op.Removing? ==> op.key != Live()[o].key)
      modifies this
      ensures Valid() && o in Live() && Live()[o] == old(Live())[o]
      ensures 0 < |old(slots).vectors|
      ensures done <==> (op.Inserting? && old(Absent(Live(), op.key))
              ==> old(HasSpace(Reserved(), |op.key| + |op.val|)))
      ensures if done then StepOf(op, old(Live()), Live()) else unchanged(this)
    {
      hide *;
      Unfold();
      match op {
        case Removing(key) =>
          var ofs := Remove(key);
          done := true;
          RemovedIs(old(Live()), key, ofs);
        case Inserting(key, val) =>
          done := CanLookupInsert(key, |key| + |val|);
          if done {
            var ofs := LookupInsert(key, val);
            InsertedIs(old(Live()), Live(), key, val, ofs);
          }
      }
    }
  }

  lemma EntersLast(hc: Hash, t: Table, live: map<nat, Rec>, size: nat, key: Bytes, o: nat, q: nat, e: nat)
    requires Index(hc, t, live, size) && 0 < |t| && Probed(t, Ideal(hc(key), |t|), q, e) && q < |t| && t[q].Vacant?
    ensures InTurn(t) && (forall x | x in live :: x < o) ==> InTurn(t[q := Entry(hc(key), o)])
  {
    hide InTurn, Ordered, Distinct, Hashed, Entries, Probed, Recs;
    if InTurn(t) && forall x | x in live :: x < o {
      InsertKeepsTurn(t, hc(key), o, q, e);
    }
  }

  lemma AllottedLast(free: seq<nat>, lens: map<nat, nat>, end: nat, n: nat, o: nat, free': seq<nat>, end': nat)
    requires Allotted(free, lens, end, n, o, free', end')
    ensures free == [] ==> o == end
  {
  }

  /** What an operation does to the records. */
  ghost predicate StepOf(op: Op, live: map<nat, Rec>, live': map<nat, Rec>)
  {
    match op
    case Inserting(key, val) =>
      if Absent(live, key) then exists o: nat :: o !in live && live' == live[o := Rec(key, val)] else live' == live
    case Removing(key) =>
      if Absent(live, key) then live' == live else exists o :: o in live && live[o].key == key && live' == live - {o}
  }

  lemma RemovedIs(live: map<nat, Rec>, key: Bytes, o: nat)
    requires o == 0 <==> Absent(live, key)
    requires o != 0 ==> o in live && live[o].key == key
    ensures StepOf(Removing(key), live, if o == 0 then live else live - {o})
  {
  }

  lemma InsertedIs(live: map<nat, Rec>, live': map<nat, Rec>, key: Bytes, val: Bytes, o: nat)
    requires if Absent(live, key) then o !in live && live' == live[o := Rec(key, val)] else live' == live
    ensures StepOf(Inserting(key, val), live, live')
  {
  }

  datatype Op = Inserting(key: Bytes, val: Bytes) | Removing(key: Bytes)
}
