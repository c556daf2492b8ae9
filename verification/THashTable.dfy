/** The hash table of src/thashtable.c: records allocated one by one, addressed by pointer.

The allocator is taken to give every record an address of its own; nothing is ever freed here, so a
record that has left the table can still be read. */
module THashTable {
  import opened Words
  import opened Probing
  import opened HashIndex
  import opened THashBuckets

  class THashTable {
    const hashcode: Hash
    var buckets: Vectors
    var size: nat
    /** All records ever allocated, by address, and the next address. */
    var heap: map<nat, Rec>
    var top: nat

    ghost var live: map<nat, Rec>

    ghost predicate Valid()
      reads this
    {
      && Shaped(buckets) && KeyIndex(hashcode, Slots(buckets), live, size)
      && Stored(live, heap, top)
    }

    ghost function Contents(): (r: map<Bytes, Bytes>)
      reads this
      ensures r == ByKey(live)
    {
      ByKey(live)
    }

    // With these two lemmas the methods below need no definition.

    lemma Unfold()
      requires Valid()
      ensures Shaped(buckets) && KeyIndex(hashcode, Slots(buckets), live, size) && Stored(live, heap, top)
    {
    }

    lemma Fold()
      requires Shaped(buckets) && KeyIndex(hashcode, Slots(buckets), live, size) && Stored(live, heap, top)
      ensures Valid()
    {
    }

    /** thashtable_create */
    constructor (hashcode: Hash)
      ensures Valid() && Contents() == map[] && size == 0 && this.hashcode == hashcode && Capacity(buckets) == 32
    {
      this.hashcode := hashcode;
      buckets := [Blank(Pow2(BITS))];
      size, heap, top, live := 0, map[], 1, map[];
      new;
      EmptyTable(hashcode, buckets);
      InitialCapacity(buckets);
    }

    /** The number of buckets once there is one more entry. */
    ghost function Room(): nat
      requires Valid()
      reads this
    {
      if size > (Capacity(buckets) - 1) / 2 then 2 * Capacity(buckets) else Capacity(buckets)
    }

    /** _thashtable_check_resize */
    method CheckResize()
      requires Valid() && size < 0x8000_0000
      modifies this`buckets
      ensures Valid() && 2 * size + 2 <= Capacity(buckets) == old(Room())
    {
      hide *;
      RoomIs();
      Unfold();
      Even(buckets, hashcode, live, size);
      if size > (Capacity(buckets) - 1) / 2 {
        ghost var t := Slots(buckets);
        RehashReady(hashcode, t, live, size);
        buckets := Grow(buckets);
        IndexRearranged(hashcode, t, Slots(buckets), live, size);
      }
      Fold();
    }

    lemma RoomIs()
      requires Valid()
      ensures Room() == if size > (Capacity(buckets) - 1) / 2 then 2 * Capacity(buckets) else Capacity(buckets)
    {
    }

    /** The probe of all operations: the bucket of the key, or the free bucket that ends its run. */
    method Find(key: Bytes) returns (found: bool, b: nat, ghost e: nat)
      requires Valid()
      ensures b < Capacity(buckets) && e < Capacity(buckets) && Slots(buckets)[e].Vacant?
      ensures found ==> Slots(buckets)[b] == Entry(hashcode(key), At(buckets, b).rec)
                        && At(buckets, b).rec in live && live[At(buckets, b).rec].key == key
      ensures !found ==> Absent(live, key) && Slots(buckets)[b].Vacant?
                         && Probed(Slots(buckets), Ideal(hashcode(key), Capacity(buckets)), b, e)
    {
      hide *;
      Unfold();
      ghost var t := Slots(buckets);
      e := VacantSlot(hashcode, t, live, size);
      var hc := hashcode(key);
      b := Ideal(hc, Capacity(buckets));
      ghost var j := b;
      ProbeStarts(t, j, e);
      NothingPassed(t, live, j, key);
      SlotRec(buckets, b);
      while At(buckets, b).rec != 0
        invariant b < |t| && Probed(t, j, b, e) && NotPassed(t, live, j, b, key)
        invariant t[b] == if At(buckets, b).rec == 0 then Vacant else Entry(At(buckets, b).hash, At(buckets, b).rec)
        decreases Distance(b, e, |t|)
      {
        SlotIsLive(hashcode, t, live, size, b);
        var x := At(buckets, b);
        if hc == x.hash {
          StoredIs(live, heap, top, x.rec);
          if heap[x.rec].key == key {
            return true, b, e;
          }
        }
        PassOne(t, live, j, b, e, key);
        ProbeOn(t, j, b, e);
        b := Next(b, Capacity(buckets));
        SlotRec(buckets, b);
      }
      ProbeFails(hashcode, t, live, size, key, b, e);
      found := false;
    }

    /** The size is the number of keys. */
    lemma SizeIsCount()
      requires Valid()
      ensures size == |Contents()| && UniqueKeys(live)
    {
      hide Slots, KeyIndex, Index;
      IndexByKey(hashcode, Slots(buckets), live, size);
    }

    /** A new record, entered at the free bucket `b`. */
    method Enter(b: nat, ghost e: nat, key: Bytes, val: Bytes) returns (rec: nat)
      requires Valid() && 2 * size + 2 <= Capacity(buckets) && b < Capacity(buckets) && Absent(live, key)
      requires Slots(buckets)[b].Vacant? && Probed(Slots(buckets), Ideal(hashcode(key), Capacity(buckets)), b, e)
      modifies this
      ensures Valid() && size == old(size) + 1 && Contents() == old(Contents())[key := val]
      ensures rec != 0 && Reads(heap, rec, key, val) && Keeps(old(heap), heap)
      ensures Capacity(buckets) == old(Capacity(buckets))
    {
      hide *;
      Unfold();
      SizeIsCount();
      rec := top;
      Allocated(live, heap, top, Rec(key, val));
      UniqueMore(live, rec, Rec(key, val));
      IndexEnter(hashcode, Slots(buckets), live, size, b, e, rec, Rec(key, val));
      ByKeyEnter(live, rec, Rec(key, val));
      buckets := Occupy(buckets, b, Bucket(hashcode(key), rec));
      heap, top := heap[rec := Rec(key, val)], top + 1;
      live, size := live[rec := Rec(key, val)], size + 1;
      Fold();
    }

    /** A new record in the place of the one at bucket `b`. */
    method Replace(b: nat, key: Bytes, val: Bytes) returns (rec: nat)
      requires Valid() && b < Capacity(buckets) && At(buckets, b).rec in live && live[At(buckets, b).rec].key == key
      requires Slots(buckets)[b] == Entry(hashcode(key), At(buckets, b).rec)
      modifies this
      ensures Valid() && size == old(size) && Contents() == old(Contents())[key := val]
      ensures rec != 0 && Reads(heap, rec, key, val) && Keeps(old(heap), heap)
      ensures Capacity(buckets) == old(Capacity(buckets))
    {
      hide *;
      Unfold();
      SizeIsCount();
      rec := top;
      ghost var o := At(buckets, b).rec;
      Allocated(live, heap, top, Rec(key, val));
      Reallocated(live, heap, top, o, Rec(key, val));
      UniqueLess(live, o);
      UniqueMore(live - {o}, rec, Rec(key, val));
      IndexReplace(hashcode, Slots(buckets), live, size, b, rec, val);
      buckets := Occupy(buckets, b, Bucket(hashcode(key), rec));
      heap, top := heap[rec := Rec(key, val)], top + 1;
      live := (live - {o})[rec := Rec(key, val)];
      Fold();
    }

    /** thashtable_lookup */
    method Lookup(key: Bytes) returns (rec: nat)
      requires Valid()
      ensures rec == 0 <==> key !in Contents()
      ensures rec != 0 ==> Reads(heap, rec, key, Contents()[key])
    {
      hide *;
      Unfold();
      SizeIsCount();
      ByKeyHas(live, key);
      var found, b, e := Find(key);
      if !found {
        return 0;
      }
      rec := At(buckets, b).rec;
      Found(live, heap, top, rec);
    }

    /** thashtable_insert: an existing record is left alone. */
    method Insert(key: Bytes, val: Bytes) returns (rec: nat, inserted: bool)
      requires Valid() && size < 0x8000_0000
      modifies this
      ensures Valid() && inserted == (key !in old(Contents())) && Keeps(old(heap), heap)
      ensures Contents() == if inserted then old(Contents())[key := val] else old(Contents())
      ensures rec != 0 && key in Contents() && Reads(heap, rec, key, Contents()[key])
      ensures Capacity(buckets) == old(Room()) && size == old(size) + (if inserted then 1 else 0)
      ensures !inserted ==> heap == old(heap) && live == old(live)
    {
      hide *;
      CheckResize();
      SizeIsCount();
      KeepsItself(heap);
      ByKeyHas(live, key);
      var found, b, e := Find(key);
      if found {
        Unfold();
        rec, inserted := At(buckets, b).rec, false;
        Found(live, heap, top, rec);
        return;
      }
      rec := Enter(b, e, key, val);
      inserted := true;
    }

    /** thashtable_put: an existing record is replaced. */
    method Put(key: Bytes, val: Bytes) returns (rec: nat)
      requires Valid() && size < 0x8000_0000
      modifies this
      ensures Valid() && Contents() == old(Contents())[key := val] && Capacity(buckets) == old(Room())
      ensures rec != 0 && Reads(heap, rec, key, val) && Keeps(old(heap), heap)
    {
      hide *;
      CheckResize();
      var found, b, e := Find(key);
      if found {
        rec := Replace(b, key, val);
      } else {
        rec := Enter(b, e, key, val);
      }
    }

    /** thashtable_insert_alloc: a new record has whatever value the allocator left there; an existing
    one is returned only if its value has the size asked for. */
    method InsertAlloc(key: Bytes, junk: Bytes) returns (rec: nat)
      requires Valid() && size < 0x8000_0000
      modifies this
      ensures Valid() && Keeps(old(heap), heap)
      ensures Contents() == if key in old(Contents()) then old(Contents()) else old(Contents())[key := junk]
      ensures rec == 0 <==> key in old(Contents()) && |old(Contents())[key]| != |junk|
      ensures rec != 0 ==> key in Contents() && Reads(heap, rec, key, Contents()[key])
      ensures Capacity(buckets) == old(Room()) && (key in old(Contents()) ==> heap == old(heap) && live == old(live))
    {
      hide *;
      CheckResize();
      SizeIsCount();
      KeepsItself(heap);
      ByKeyHas(live, key);
      var found, b, e := Find(key);
      if found {
        Unfold();
        rec := At(buckets, b).rec;
        Found(live, heap, top, rec);
        if |heap[rec].val| != |junk| {
          rec := 0;
        }
        return;
      }
      rec := Enter(b, e, key, junk);
    }

    /** thashtable_remove: the record leaves the table; it is returned, and can still be read. */
    method Remove(key: Bytes) returns (rec: nat)
      requires Valid()
      modifies this
      ensures Valid() && heap == old(heap) && Contents() == old(Contents()) - {key}
      ensures rec == 0 <==> key !in old(Contents())
      ensures size == old(size) - (if rec == 0 then 0 else 1)
      ensures rec != 0 ==> Reads(heap, rec, key, old(Contents())[key])
      ensures Capacity(buckets) == old(Capacity(buckets))
    {
      hide *;
      Unfold();
      SizeIsCount();
      ByKeyHas(live, key);
      var found, b, e := Find(key);
      if !found {
        assert Contents() - {key} == Contents();
        return 0;
      }
      rec := At(buckets, b).rec;
      Found(live, heap, top, rec);
      ByKeyLeave(live, rec);
      ghost var t := Slots(buckets);
      RehashReady(hashcode, t, live, size);
      ghost var z := RepairBegins(buckets, b, e);
      var v := Free(buckets, b);
      var w, last := FixChainDown(v, Next(b, Capacity(v)), t, b, z);
      UniqueLess(live, rec);
      IndexLeave(hashcode, t, Slots(w), live, size, b);
      StoredLess(live, heap, top, rec);
      buckets, size := w, size - 1;
      live := live - {rec};
      Fold();
    }

    /** Over every run, up to 2^31 keys, the table agrees with a plain map, its size is the number of keys,
    and every record that was ever there can still be read. */
    method Run(ops: seq<Op>) returns (count: nat)
      requires Valid()
      modifies this
      ensures Valid() && count <= |ops| && Contents() == AfterAll(ops[..count], old(Contents()))
      ensures size == |Contents()| && Keeps(old(heap), heap)
      ensures count < |ops| ==> 0x8000_0000 <= size
    {
      hide *;
      count := 0;
      NoOps(ops, Contents());
      KeepsItself(heap);
      SizeIsCount();
      while count < |ops|
        invariant Valid() && count <= |ops| && Contents() == AfterAll(ops[..count], old(Contents()))
        invariant size == |Contents()| && Keeps(old(heap), heap)
      {
        if 0x8000_0000 <= size {
          return;
        }
        ghost var before := heap;
        OneOp(ops, count, old(Contents()));
        match ops[count] {
          case PutOp(key, val) => var _ := Put(key, val);
          case InsertOp(key, val) => var _, _ := Insert(key, val);
          case RemoveOp(key) =>
            KeepsItself(heap);
            var _ := Remove(key);
        }
        SizeIsCount();
        KeepsTwice(old(heap), before, heap);
        count := count + 1;
      }
    }

    /** thashtable_foreach: every record exactly once, unless the callback answers with a negative number. */
    method ForEach(func: nat -> int) returns (res: int, visited: seq<nat>)
      requires Valid()
      ensures forall i, j :: 0 <= i < j < |visited| ==> visited[i] != visited[j]
      ensures forall i :: 0 <= i < |visited| ==> visited[i] in live
      ensures res == 0 || res == -1
      ensures res == 0 ==> (forall o :: o in live ==> o in visited) && forall o :: o in visited ==> func(o) >= 0
      ensures res == -1 ==> && 0 < |visited| && func(visited[|visited| - 1]) < 0
                            && forall i :: 0 <= i < |visited| - 1 ==> func(visited[i]) >= 0
    {
      hide Slots, Listed, Stored;
      Unfold();
      ListedIsRecs(Slots(buckets));
      res, visited := THashBuckets.ForEach(buckets, func);
      res := if res < 0 then -1 else 0;
    }
  }

  datatype Op = PutOp(key: Bytes, val: Bytes) | InsertOp(key: Bytes, val: Bytes) | RemoveOp(key: Bytes)

  /** What an operation makes of a plain map. */
  ghost function AfterOp(op: Op, c: map<Bytes, Bytes>): map<Bytes, Bytes>
  {
    match op
    case PutOp(key, val) => c[key := val]
    case InsertOp(key, val) => if key in c then c else c[key := val]
    case RemoveOp(key) => c - {key}
  }

  ghost function AfterAll(ops: seq<Op>, c: map<Bytes, Bytes>): map<Bytes, Bytes>
  {
    if ops == [] then c else AfterOp(ops[|ops| - 1], AfterAll(ops[..|ops| - 1], c))
  }

  lemma NoOps(ops: seq<Op>, c: map<Bytes, Bytes>)
    ensures AfterAll(ops[..0], c) == c
  {
  }

  lemma OneOp(ops: seq<Op>, n: nat, c: map<Bytes, Bytes>)
    requires n < |ops|
    ensures var before, after := AfterAll(ops[..n], c), AfterAll(ops[..n + 1], c);
            match ops[n]
            case PutOp(key, val) => after == before[key := val]
            case InsertOp(key, val) => after == if key in before then before else before[key := val]
            case RemoveOp(key) => after == before - {key}
  {
    assert ops[..n + 1][..n] == ops[..n];
  }

  lemma KeepsTwice(a: map<nat, Rec>, b: map<nat, Rec>, c: map<nat, Rec>)
    requires Keeps(a, b) && Keeps(b, c)
    ensures Keeps(a, c)
  {
  }

  /** The record at `rec` has this key and value. */
  ghost predicate Reads(heap: map<nat, Rec>, rec: nat, key: Bytes, val: Bytes)
  {
    rec in heap && heap[rec] == Rec(key, val)
  }

  /** Records once allocated keep key and value. */
  ghost predicate Keeps(heap: map<nat, Rec>, heap': map<nat, Rec>)
  {
    forall o | o in heap :: o in heap' && heap'[o] == heap[o]
  }

  lemma KeepsItself(heap: map<nat, Rec>)
    ensures Keeps(heap, heap)
  {
  }

  lemma Allocated(live: map<nat, Rec>, heap: map<nat, Rec>, top: nat, rec: Rec)
    requires Stored(live, heap, top)
    ensures top != 0 && top !in live && Stored(live[top := rec], heap[top := rec], top + 1)
    ensures Keeps(heap, heap[top := rec]) && Reads(heap[top := rec], top, rec.key, rec.val)
  {
  }

  lemma Reallocated(live: map<nat, Rec>, heap: map<nat, Rec>, top: nat, o: nat, rec: Rec)
    requires Stored(live, heap, top) && UniqueKeys(live) && o in live && live[o].key == rec.key
    ensures Stored((live - {o})[top := rec], heap[top := rec], top + 1)
    ensures ByKey((live - {o})[top := rec]) == ByKey(live)[rec.key := rec.val]
  {
    hide ByKey;
    var less := live - {o};
    ByKeyLeave(live, o);
    assert Absent(less, rec.key);
    ByKeyEnter(less, top, rec);
  }

  lemma Found(live: map<nat, Rec>, heap: map<nat, Rec>, top: nat, o: nat)
    requires Stored(live, heap, top) && UniqueKeys(live) && o in live
    ensures o != 0 && o in heap && live[o].key in ByKey(live) && heap[o] == live[o]
    ensures ByKey(live)[live[o].key] == live[o].val && Reads(heap, o, live[o].key, ByKey(live)[live[o].key])
    ensures !Absent(live, live[o].key)
  {
    hide ByKey;
    ByKeyAt(live, o);
  }

  lemma StoredLess(live: map<nat, Rec>, heap: map<nat, Rec>, top: nat, o: nat)
    requires Stored(live, heap, top)
    ensures Stored(live - {o}, heap, top)
  {
  }

  lemma RepairBegins(v: Vectors, d: nat, e: nat) returns (z: nat)
    requires Shaped(v) && d < Capacity(v) && e < Capacity(v) && Slots(v)[d].Entry? && Slots(v)[e].Vacant?
    requires Ordered(Slots(v)) && Distinct(Slots(v))
    ensures z < Capacity(v) && Repairing(Slots(v), Slots(v)[d := Vacant], d, z, Next(d, Capacity(v)))
  {
    hide Shaped, Capacity;
    var t := Slots(v);
    z := RunEndExists(t, d, e, d);
    RepairStarts(t, d, z);
  }

  ghost predicate Stored(live: map<nat, Rec>, heap: map<nat, Rec>, top: nat)
  {
    && 0 < top
    && (forall o | o in live :: 0 < o && o in heap && heap[o] == live[o])
    && (forall o | o in heap :: o < top)
  }

  lemma StoredIs(live: map<nat, Rec>, heap: map<nat, Rec>, top: nat, o: nat)
    requires Stored(live, heap, top) && o in live
    ensures 0 < o && o in heap && heap[o] == live[o]
  {
  }

  lemma EmptyTable(hc: Hash, v: Vectors)
    requires v == [Blank(Pow2(BITS))]
    ensures Shaped(v) && KeyIndex(hc, Slots(v), map[], 0) && Stored(map[], map[], 1) && ByKey(map[]) == map[]
  {
    assert Shaped(v);
    IndexEmpty(hc, Slots(v));
  }

  lemma InitialCapacity(v: Vectors)
    requires |v| == 1
    ensures Capacity(v) == 32
  {
    assert Pow2(2) == 4;
    assert Pow2(4) == 16;
  }

  lemma Even(v: Vectors, hc: Hash, live: map<nat, Rec>, size: nat)
    requires Shaped(v) && KeyIndex(hc, Slots(v), live, size)
    ensures Capacity(v) % 2 == 0 && 2 * size <= Capacity(v) && 2 <= Capacity(v)
  {
    Pow2Half(BITS + |v| - 1);
    hide Pow2;
  }
}
