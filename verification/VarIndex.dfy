/** The index over a variable-length column: include/var_index_gen.h, include/var_index_container.h.

The keys live in a hash table whose values say where the rows of the key are in the index file.  The
generator relies on record offsets staying put while the table grows. */
module VarIndex {
  import opened Options
  import opened Words
  import opened Segments
  import opened BucketStore
  import opened HashIndex
  import opened HashRecords
  import opened HashTable
  import opened Postings

  /** `struct index_entry`: the place in the index file, the number of rows, and padding. */
  function EntryBytes(at: uint64, n: uint32): (r: Bytes)
    ensures |r| == 16 && U64(r, 0) == at && U32(r, 8) == n
  {
    var r := Enc64(at) + Enc32(n) + Zeros(4);
    assert r[0] == Enc64(at)[0] && r[1] == Enc64(at)[1] && r[2] == Enc64(at)[2] && r[3] == Enc64(at)[3];
    assert r[4] == Enc64(at)[4] && r[5] == Enc64(at)[5] && r[6] == Enc64(at)[6] && r[7] == Enc64(at)[7];
    assert r[8] == Enc32(n)[0] && r[9] == Enc32(n)[1] && r[10] == Enc32(n)[2] && r[11] == Enc32(n)[3];
    r
  }

  // ---------- the key table ----------

  /** `offs[j]` is the record of row `j`, and there is no record but those of the rows, one for each key. */
  ghost predicate Located(live: map<nat, Rec>, rows: seq<Bytes>, offs: seq<nat>)
  {
    && |offs| == |rows|
    && (forall j | 0 <= j < |rows| :: offs[j] in live && live[offs[j]].key == rows[j])
    && (forall o | o in live :: o in offs && |live[o].val| == 16)
    && UniqueKeys(live)
  }

  lemma LocatedKnown(live: map<nat, Rec>, rows: seq<Bytes>, offs: seq<nat>, row: Bytes, o: nat)
    requires Located(live, rows, offs) && o in live && live[o].key == row
    ensures Located(live, rows + [row], offs + [o])
  {
  }

  lemma LocatedNew(live: map<nat, Rec>, rows: seq<Bytes>, offs: seq<nat>, row: Bytes, o: nat, val: Bytes)
    requires Located(live, rows, offs) && o !in live && Absent(live, row) && |val| == 16
    ensures Located(live[o := Rec(row, val)], rows + [row], offs + [o])
  {
    var live' := live[o := Rec(row, val)];
    UniqueMore(live, o, Rec(row, val));
    forall p | p in live'
      ensures p in offs + [o] && |live'[p].val| == 16
    {
    }
  }

  /** What the records of these rows take at most. */
  ghost function Weight(rows: seq<Bytes>): nat
  {
    if rows == [] then 0 else Weight(rows[..|rows| - 1]) + 24 + |rows[|rows| - 1]|
  }

  /** Small enough for a table of 32-bit offsets, whatever the keys hash to. */
  ghost predicate Small(rows: seq<Bytes>)
  {
    1200 + 96 * |rows| + Weight(rows) <= MEMORY_LIMIT
  }

  /** How far the memory can have grown. */
  ghost predicate Bounded(end: nat, capacity: nat, size: nat, rows: seq<Bytes>)
  {
    && 32 <= capacity && (capacity == 32 || capacity <= 4 * size) && size <= |rows|
    && end + 116 <= 16 * capacity + Weight(rows)
  }

  ghost predicate TableBounded(t: HashTable, rows: seq<Bytes>)
    requires t.Valid()
    reads t
  {
    Bounded(|t.mem|, t.slots.Capacity(), t.size, rows)
  }

  /** Whether a table without removed records can take one more for this key, with `v` value bytes. */
  predicate Fits(t: HashTable, row: Bytes, v: nat)
    requires t.Valid()
    reads t
  {
    t.Reserved() + 8 + |row| + v <= MEMORY_LIMIT
  }

  lemma RoomEnough(t: HashTable, rows: seq<Bytes>, i: nat, v: nat)
    requires t.Valid() && i < |rows| && Small(rows) && TableBounded(t, rows[..i]) && v <= 16
    ensures Fits(t, rows[i], v)
  {
    ReservedIs(t);
    hide Sound, Small, Bounded, HashTable.Reserved, Layout.Capacity;
    RoomBound(|t.mem|, t.slots.Capacity(), t.size, rows, i);
  }

  lemma RoomBound(end: nat, capacity: nat, size: nat, rows: seq<Bytes>, i: nat)
    requires i < |rows| && Small(rows) && Bounded(end, capacity, size, rows[..i])
    ensures end + 7 + 8 * capacity + 24 + |rows[i]| <= MEMORY_LIMIT
  {
    WeightGrows(rows, i + 1);
    assert rows[..i + 1][..i] == rows[..i];
  }

  lemma {:induction false} WeightGrows(rows: seq<Bytes>, i: nat)
    requires i <= |rows|
    ensures Weight(rows[..i]) <= Weight(rows)
  {
    if i < |rows| {
      var front := rows[..|rows| - 1];
      assert front[..i] == rows[..i];
      WeightGrows(front, i);
    } else {
      assert rows[..i] == rows;
    }
  }

  lemma BoundKnown(end: nat, capacity: nat, size: nat, rows: seq<Bytes>, i: nat)
    requires i < |rows| && Bounded(end, capacity, size, rows[..i])
    ensures Bounded(end, capacity, size, rows[..i + 1])
  {
    assert rows[..i + 1][..i] == rows[..i];
  }

  /** One more record, in a table without removed records. */
  lemma BoundNew(end: nat, capacity: nat, size: nat, rows: seq<Bytes>, i: nat, end': nat, capacity': nat)
    requires i < |rows| && Bounded(end, capacity, size, rows[..i]) && capacity % 2 == 0
    requires if size > (capacity - 1) / 2 then capacity' == 2 * capacity
             && end' <= end + 7 + 8 * capacity + 24 + |rows[i]|
             else capacity' == capacity && end' <= end + 24 + |rows[i]|
    ensures Bounded(end', capacity', size + 1, rows[..i + 1])
  {
    assert rows[..i + 1][..i] == rows[..i];
  }

  method AddKey(t: HashTable, rows: seq<Bytes>, i: nat, val: Bytes) returns (ofs: nat)
    requires t.Valid() && i < |rows| && t.Free() == [] && TableBounded(t, rows[..i])
    requires |val| <= 16 && Fits(t, rows[i], |val|)
    modifies t
    ensures t.Valid() && t.Free() == [] && TableBounded(t, rows[..i + 1])
    ensures ofs !in old(t.Live()) && t.Live() == old(t.Live())[ofs := Rec(rows[i], val)]
    ensures (forall o | o in old(t.Live()) :: o < ofs) && (old(t.InOrder()) ==> t.InOrder())
  {
    hide *;
    var end, capacity := AfterInsert(t, rows, i, |val|);
    t.FoldSpace(t.Reserved(), |rows[i]| + |val|);
    ofs := t.Insert(rows[i], val);
    AllottedAtEnd(old(t.Lengths()), end, |rows[i]| + |val|, ofs, t.Free(), |t.mem|);
    BoundedSince(t, rows[..i + 1], end + 8 + |rows[i]| + |val|, capacity);
  }

  /** Where the memory will end before the new record, and the capacity by then. */
  lemma AfterInsert(t: HashTable, rows: seq<Bytes>, i: nat, v: nat) returns (end: nat, capacity: nat)
    requires t.Valid() && i < |rows| && TableBounded(t, rows[..i]) && v <= 16 && Fits(t, rows[i], v)
    ensures 0 < |t.slots.vectors| && end == t.Reserved() <= MEMORY_LIMIT && capacity == t.Room()
    ensures t.Reserved() + REC_HEADER + |rows[i]| + v <= MEMORY_LIMIT
    ensures Bounded(end + 8 + |rows[i]| + v, capacity, t.size + 1, rows[..i + 1])
  {
    hide *;
    ReservedIs(t);
    BoundedIs(t, rows, i, v);
    end, capacity := t.Reserved(), t.Room();
    BoundNew(|t.mem|, t.slots.Capacity(), t.size, rows, i, end + 8 + |rows[i]| + v, capacity);
  }

  lemma ReservedIs(t: HashTable)
    requires t.Valid()
    ensures 0 < |t.slots.vectors| && t.slots.Capacity() % 2 == 0
    ensures if t.size > (t.slots.Capacity() - 1) / 2
            then t.Room() == 2 * t.slots.Capacity() && t.Reserved() <= |t.mem| + 7 + 8 * t.slots.Capacity()
            else t.Room() == t.slots.Capacity() && t.Reserved() == |t.mem|
  {
    hide Sound;
    t.Unfold();
    EvenCapacity(t.hashcode, State(t.mem, t.slots, t.size, t.freeList), t.plan, {});
  }

  lemma BoundedIs(t: HashTable, rows: seq<Bytes>, i: nat, v: nat)
    requires t.Valid() && i < |rows| && TableBounded(t, rows[..i]) && Fits(t, rows[i], v)
    ensures 0 < |t.slots.vectors| && Bounded(|t.mem|, t.slots.Capacity(), t.size, rows[..i])
    ensures REC_HEADER == 8 && t.Reserved() + 8 + |rows[i]| + v <= MEMORY_LIMIT
  {
    hide Sound, Bounded;
  }

  lemma AllottedAtEnd(lens: map<nat, nat>, end: nat, n: nat, o: nat, free': seq<nat>, end': nat)
    requires Allotted([], lens, end, n, o, free', end')
    ensures free' == [] && end' == end + 8 + n
  {
  }

  lemma BoundedSince(t: HashTable, rows: seq<Bytes>, end: nat, capacity: nat)
    requires t.Valid() && |t.mem| == end && t.slots.Capacity() == capacity && Bounded(end, capacity, t.size, rows)
    ensures TableBounded(t, rows)
  {
    hide Sound, Bounded;
  }

  /** The first pass: a record for every key, found again for every later row that holds it.  Only a
  table that outgrows 32-bit offsets stops it, which a small column cannot cause. */
  method KeyTable(rows: seq<Bytes>, hashcode: Hash) returns (ok: bool, t: HashTable, offs: seq<nat>)
    ensures fresh(t) && t.Valid()
    ensures ok ==> Located(t.Live(), rows, offs)
    ensures Small(rows) ==> ok
  {
    hide *;
    t := new HashTable(hashcode, 0);
    offs := [];
    NoRows(t, rows);
    while |offs| < |rows|
      invariant fresh(t) && t.Valid() && |offs| <= |rows| && t.Free() == []
      invariant Located(t.Live(), rows[..|offs|], offs)
      invariant TableBounded(t, rows[..|offs|])
    {
      var i := |offs|;
      assert rows[..i + 1] == rows[..i] + [rows[i]];
      var ofs := t.Lookup(rows[i]);
      if ofs == 0 {
        if !Fits(t, rows[i], 16) {
          TooLarge(t, rows, i, 16);
          return false, t, offs;
        }
        LocatedAll(t.Live(), rows[..i], offs, rows[i]);
        ofs := AddKey(t, rows, i, EntryBytes(0, 0));
      } else {
        BoundedKnown(t, rows, i);
        LocatedKnown(t.Live(), rows[..i], offs, rows[i], ofs);
      }
      offs := offs + [ofs];
    }
    assert rows[..|offs|] == rows;
    ok := true;
  }

  lemma NoRows(t: HashTable, rows: seq<Bytes>)
    requires t.Valid() && t.Live() == map[] && t.size == 0 && t.slots.Capacity() == 32
             && |t.mem| == HEADER_SIZE + 32 * BUCKET_SIZE
    ensures Located(t.Live(), rows[..0], []) && TableBounded(t, rows[..0])
  {
    hide Sound;
  }

  lemma TooLarge(t: HashTable, rows: seq<Bytes>, i: nat, v: nat)
    requires t.Valid() && i < |rows| && TableBounded(t, rows[..i]) && v <= 16 && !Fits(t, rows[i], v)
    ensures !Small(rows)
  {
    hide HashTable.Valid, TableBounded, Fits, Small;
    if Small(rows) {
      RoomEnough(t, rows, i, v);
    }
  }

  lemma BoundedKnown(t: HashTable, rows: seq<Bytes>, i: nat)
    requires t.Valid() && i < |rows| && TableBounded(t, rows[..i])
    ensures TableBounded(t, rows[..i + 1])
  {
    hide Sound, Bounded;
    BoundKnown(|t.mem|, t.slots.Capacity(), t.size, rows, i);
  }

  /** Wherever the new record comes to lie, it is the last one located. */
  lemma LocatedAll(live: map<nat, Rec>, rows: seq<Bytes>, offs: seq<nat>, row: Bytes)
    requires Located(live, rows, offs) && Absent(live, row)
    ensures forall o: nat {:trigger live[o := Rec(row, EntryBytes(0, 0))]} | o !in live ::
              Located(live[o := Rec(row, EntryBytes(0, 0))], rows + [row], offs + [o])
  {
    forall o: nat | o !in live
      ensures Located(live[o := Rec(row, EntryBytes(0, 0))], rows + [row], offs + [o])
    {
      LocatedNew(live, rows, offs, row, o, EntryBytes(0, 0));
    }
  }

  // ---------- the index ----------

  /** The value of a record leads to exactly the ascending rows that hold its key. */
  ghost predicate EntryOk(rows: seq<Bytes>, rec: Rec, vect: seq<nat>)
  {
    && |rec.val| == 16 && 0 < U32(rec.val, 8) && U64(rec.val, 0) + U32(rec.val, 8) <= |vect|
    && vect[U64(rec.val, 0)..U64(rec.val, 0) + U32(rec.val, 8)] == Rows(rows, rec.key)
  }

  ghost predicate IndexOf(rows: seq<Bytes>, live: map<nat, Rec>, vect: seq<nat>)
  {
    && (forall o | o in live :: EntryOk(rows, live[o], vect))
    && (forall i | 0 <= i < |rows| :: !Absent(live, rows[i]))
  }

  lemma {:induction false} SameRows<S, T>(a: seq<S>, b: seq<T>, x: S, y: T)
    requires |a| == |b| && forall i | 0 <= i < |a| :: a[i] == x <==> b[i] == y
    ensures Rows(a, x) == Rows(b, y)
  {
    if a != [] {
      SameRows(a[..|a| - 1], b[..|b| - 1], x, y);
    }
  }

  lemma RowsOfKey(live: map<nat, Rec>, rows: seq<Bytes>, offs: seq<nat>, o: nat)
    requires Located(live, rows, offs) && UniqueKeys(live) && o in live
    ensures Rows<int>(offs, o) == Rows(rows, live[o].key)
  {
    SameRows<int, Bytes>(offs, rows, o, live[o].key);
  }

  /** The records have kept offset and key, and the first `k` groups are entered. */
  ghost predicate Entered(live: map<nat, Rec>, live': map<nat, Rec>, keys: seq<KeyRec>, k: nat)
  {
    && k <= |keys|
    && (forall o | o in live :: o in live' && live'[o].key == live[o].key && |live'[o].val| == 16)
    && (forall o | o in live' :: o in live)
    && (forall i | 0 <= i < k ::
          && 0 <= keys[i].key && keys[i].key in live' && keys[i].size < 0x1_0000_0000 && keys[i].vect < 0x1_0000_0000
          && live'[keys[i].key].val == EntryBytes(keys[i].vect, keys[i].size))
  }

  lemma EnteredMore(live: map<nat, Rec>, live': map<nat, Rec>, keys: seq<KeyRec>, k: nat, o: nat)
    requires Entered(live, live', keys, k) && k < |keys| && KeysIncrease(keys) && keys[k].key == o && o in live'
    requires keys[k].size < 0x1_0000_0000 && keys[k].vect < 0x1_0000_0000
    ensures Entered(live, live'[o := Rec(live'[o].key, EntryBytes(keys[k].vect, keys[k].size))], keys, k + 1)
  {
    hide EntryBytes;
  }

  /** What the groups of the offset column need to be entered. */
  lemma GroupIsRecord(live: map<nat, Rec>, rows: seq<Bytes>, offs: seq<nat>, vect: seq<nat>, keys: seq<KeyRec>, k: nat)
    requires Located(live, rows, offs) && Grouped(offs, vect, keys) && k < |keys| && |vect| == |rows| < 0x1_0000_0000
    ensures 0 <= keys[k].key && keys[k].key in live && keys[k].size < 0x1_0000_0000 && keys[k].vect < 0x1_0000_0000
  {
    var at := Filed(vect, keys[k])[0];
    RowsMembers<int>(offs, keys[k].key, at);
  }

  lemma AllEntered(live: map<nat, Rec>, live': map<nat, Rec>, rows: seq<Bytes>, offs: seq<nat>, vect: seq<nat>,
                   keys: seq<KeyRec>)
    requires Located(live, rows, offs) && UniqueKeys(live) && Grouped(offs, vect, keys)
    requires Entered(live, live', keys, |keys|) && |vect| == |rows| < 0x1_0000_0000
    ensures IndexOf(rows, live', vect)
  {
    forall o | o in live'
      ensures EntryOk(rows, live'[o], vect)
    {
      RecordEntered(live, live', rows, offs, vect, keys, o);
    }
    forall i | 0 <= i < |rows|
      ensures !Absent(live', rows[i])
    {
      assert offs[i] in live' && live'[offs[i]].key == rows[i];
    }
  }

  lemma RecordEntered(live: map<nat, Rec>, live': map<nat, Rec>, rows: seq<Bytes>, offs: seq<nat>, vect: seq<nat>,
                      keys: seq<KeyRec>, o: nat)
    requires Located(live, rows, offs) && UniqueKeys(live) && Grouped(offs, vect, keys)
    requires Entered(live, live', keys, |keys|) && |vect| == |rows| < 0x1_0000_0000 && o in live'
    ensures EntryOk(rows, live'[o], vect)
  {
    hide Rows, EntryBytes, U64, U32, UniqueKeys;
    var j :| 0 <= j < |offs| && offs[j] == o;
    var k :| 0 <= k < |keys| && keys[k].key == offs[j];
    RowsOfKey(live, rows, offs, o);
    assert Filed(vect, keys[k]) == Rows<int>(offs, o);
    var val := EntryBytes(keys[k].vect, keys[k].size);
    assert live'[o].val == val;
  }

  /** `var_index_gen_generate_ds_file`: the rows are grouped by the offset of their key, and the
  place of each group is entered in the record of the key.  (Its check that the value has the size of
  an entry cannot fail: `Located`.) */
  method Generate(rows: seq<Bytes>, hashcode: Hash) returns (ok: bool, t: HashTable, vect: seq<nat>)
    requires |rows| < 0x1_0000_0000
    ensures fresh(t) && t.Valid()
    ensures ok ==> IndexOf(rows, t.Live(), vect)
    ensures Small(rows) ==> ok
  {
    hide *;
    var offs;
    vect := [];
    ok, t, offs := KeyTable(rows, hashcode);
    if !ok {
      return;
    }
    ghost var live := t.Live();
    var fw := SortedEntries(offs);
    var keys;
    vect, keys := Group(fw, offs);
    Lengths(live, rows, offs, fw, vect, keys);
    for k := 0 to |keys|
      invariant t.Valid() && Entered(live, t.Live(), keys, k)
    {
      GroupIsRecord(live, rows, offs, vect, keys, k);
      EnteredKeeps(live, t.Live(), keys, k, keys[k].key);
      EnteredMore(live, t.Live(), keys, k, keys[k].key);
      t.SetVal(keys[k].key, EntryBytes(keys[k].vect, keys[k].size));
    }
    AllEntered(live, t.Live(), rows, offs, vect, keys);
  }

  lemma Lengths(live: map<nat, Rec>, rows: seq<Bytes>, offs: seq<nat>, fw: seq<Entry>, vect: seq<nat>,
                keys: seq<KeyRec>)
    requires Located(live, rows, offs) && |fw| == |offs| && vect == RowsOf(fw) && Grouped(offs, vect, keys)
    ensures |vect| == |rows| && KeysIncrease(keys) && Entered(live, live, keys, 0) && UniqueKeys(live)
  {
    hide Rows;
  }

  lemma EnteredKeeps(live: map<nat, Rec>, live': map<nat, Rec>, keys: seq<KeyRec>, k: nat, o: nat)
    requires Entered(live, live', keys, k) && o in live
    ensures o in live' && |live'[o].val| == 16
  {
  }

  /** `var_index_container_o2m_lookup`: exactly the ascending rows that hold the key, or nothing when
  no row does. */
  method Lookup(t: HashTable, vect: seq<nat>, key: Bytes, ghost rows: seq<Bytes>) returns (found: Option<seq<nat>>)
    requires t.Valid() && IndexOf(rows, t.Live(), vect)
    ensures found == if Rows(rows, key) == [] then None else Some(Rows(rows, key))
  {
    hide *;
    var ofs := t.Lookup(key);
    if ofs == 0 {
      NotIndexed(rows, t.Live(), vect, key);
      return None;
    }
    var rec := t.GetRec(ofs);
    Indexed(rows, t.Live(), vect, ofs);
    var at, n := U64(rec.val, 0), U32(rec.val, 8);
    found := Some(vect[at..at + n]);
  }

  lemma Indexed(rows: seq<Bytes>, live: map<nat, Rec>, vect: seq<nat>, o: nat)
    requires IndexOf(rows, live, vect) && o in live
    ensures EntryOk(rows, live[o], vect) && Rows(rows, live[o].key) != []
    ensures |live[o].val| == 16 && U64(live[o].val, 0) + U32(live[o].val, 8) <= |vect|
    ensures vect[U64(live[o].val, 0)..U64(live[o].val, 0) + U32(live[o].val, 8)] == Rows(rows, live[o].key)
  {
    hide U64, U32, Rows;
  }

  lemma NotIndexed(rows: seq<Bytes>, live: map<nat, Rec>, vect: seq<nat>, key: Bytes)
    requires IndexOf(rows, live, vect) && Absent(live, key)
    ensures Rows(rows, key) == []
  {
    assert Rows(rows, key) != [] ==> Rows(rows, key)[0] in Rows(rows, key);
    forall x: nat
      ensures x !in Rows(rows, key)
    {
      RowsMembers(rows, key, x);
    }
  }

  // ---------- one row for each key ----------

  /** The record has the number of a row with its key. */
  ghost predicate RowOk(rows: seq<Bytes>, rec: Rec)
  {
    |rec.val| == 4 && U32(rec.val, 0) < |rows| && rows[U32(rec.val, 0)] == rec.key
  }

  ghost predicate HasRecord(live: map<nat, Rec>, i: nat)
  {
    exists o :: o in live && |live[o].val| == 4 && U32(live[o].val, 0) == i
  }

  /** Every record has the number of a row with its key, every row has a record, and the records stand in
  the order of their rows. */
  ghost predicate RowIndex(rows: seq<Bytes>, live: map<nat, Rec>)
  {
    && (forall o | o in live :: RowOk(rows, live[o]))
    && (forall i | 0 <= i < |rows| :: HasRecord(live, i))
    && (forall o, o' | o in live && o' in live && o < o' :: U32(live[o].val, 0) < U32(live[o'].val, 0))
  }

  lemma RowIndexMore(rows: seq<Bytes>, live: map<nat, Rec>, i: uint32, o: nat)
    requires i < |rows| && RowIndex(rows[..i], live) && o !in live && forall p | p in live :: p < o
    ensures RowIndex(rows[..i + 1], live[o := Rec(rows[i], Enc32(i))])
  {
    hide U32;
    var live' := live[o := Rec(rows[i], Enc32(i))];
    assert U32(Enc32(i), 0) == i;
    forall p | p in live'
      ensures RowOk(rows[..i + 1], live'[p])
    {
      if p != o {
        assert RowOk(rows[..i], live[p]);
        assert rows[..i][U32(live[p].val, 0)] == live[p].key;
      }
    }
    forall j | 0 <= j < i + 1
      ensures HasRecord(live', j)
    {
      if j < i {
        assert HasRecord(live, j);
        var p :| p in live && |live[p].val| == 4 && U32(live[p].val, 0) == j;
        assert live'[p] == live[p];
      } else {
        assert live'[o].val == Enc32(i);
      }
    }
    forall p, p' | p in live' && p' in live' && p < p'
      ensures U32(live'[p].val, 0) < U32(live'[p'].val, 0)
    {
      assert p in live && RowOk(rows[..i], live[p]);
    }
  }

  /** `var_index_gen_generate_ds_file_o2o`: a record for every row, also for a key that is there already. */
  method GenerateO2O(rows: seq<Bytes>, hashcode: Hash) returns (ok: bool, t: HashTable)
    requires |rows| < 0x1_0000_0000
    ensures fresh(t) && t.Valid()
    ensures ok ==> RowIndex(rows, t.Live()) && t.InOrder()
    ensures Small(rows) ==> ok
  {
    hide *;
    t := new HashTable(hashcode, 0);
    NoRows(t, rows);
    RowIndexNone(rows);
    t.EmptyIsInOrder();
    for i := 0 to |rows|
      invariant fresh(t) && t.Valid() && t.Free() == [] && RowIndex(rows[..i], t.Live()) && TableBounded(t, rows[..i])
      invariant t.InOrder()
    {
      if !Fits(t, rows[i], 4) {
        TooLarge(t, rows, i, 4);
        return false, t;
      }
      ghost var live := t.Live();
      var o := AddKey(t, rows, i, Enc32(i));
      RowIndexMore(rows, live, i, o);
    }
    assert rows[..|rows|] == rows;
    ok := true;
  }

  lemma RowIndexNone(rows: seq<Bytes>)
    ensures RowIndex(rows[..0], map[])
  {
  }

  /** `var_index_container_o2o_lookup`: the first row that holds the key, or nothing if and only if no row does. */
  method LookupO2O(t: HashTable, key: Bytes, ghost rows: seq<Bytes>) returns (row: Option<nat>)
    requires t.Valid() && RowIndex(rows, t.Live()) && t.InOrder()
    ensures row == if Rows(rows, key) == [] then None else Some(Rows(rows, key)[0])
  {
    hide *;
    var ofs := t.Lookup(key);
    if ofs == 0 {
      NoRowIndexed(rows, t.Live(), key);
      return None;
    }
    var rec := t.GetRec(ofs);
    RowIndexed(rows, t.Live(), key, ofs);
    row := Some(U32(rec.val, 0));
  }

  /** Generating and looking up: the first row of a full scan. */
  method FindO2O(rows: seq<Bytes>, hashcode: Hash, key: Bytes) returns (ok: bool, row: Option<nat>)
    requires |rows| < 0x1_0000_0000
    ensures ok ==> row == if Rows(rows, key) == [] then None else Some(Rows(rows, key)[0])
    ensures Small(rows) ==> ok
  {
    hide *;
    var t;
    ok, t := GenerateO2O(rows, hashcode);
    row := None;
    if ok {
      row := LookupO2O(t, key, rows);
    }
  }

  /** The first record of a key has its first row. */
  lemma RowIndexed(rows: seq<Bytes>, live: map<nat, Rec>, key: Bytes, o: nat)
    requires RowIndex(rows, live) && o in live && live[o].key == key
    requires forall p | p in live && live[p].key == key :: o <= p
    ensures |live[o].val| == 4 && Rows(rows, key) != [] && U32(live[o].val, 0) == Rows(rows, key)[0]
  {
    hide U32, Rows;
    assert RowOk(rows, live[o]);
    var i := U32(live[o].val, 0);
    RowsMembers(rows, key, i);
    var all := Rows(rows, key);
    assert all[0] in all;
    RowsMembers(rows, key, all[0]);
    assert HasRecord(live, all[0]);
    var p :| p in live && |live[p].val| == 4 && U32(live[p].val, 0) == all[0];
    assert RowOk(rows, live[p]);
    RowsIncrease(rows, key);
  }

  lemma NoRowIndexed(rows: seq<Bytes>, live: map<nat, Rec>, key: Bytes)
    requires RowIndex(rows, live) && Absent(live, key)
    ensures Rows(rows, key) == []
  {
    hide U32;
    assert Rows(rows, key) != [] ==> Rows(rows, key)[0] in Rows(rows, key);
    forall x: nat
      ensures x !in Rows(rows, key)
    {
      RowsMembers(rows, key, x);
      if x < |rows| && rows[x] == key {
        NoRecordOf(rows, live, x);
      }
    }
  }

  lemma NoRecordOf(rows: seq<Bytes>, live: map<nat, Rec>, i: nat)
    requires RowIndex(rows, live) && i < |rows|
    ensures !Absent(live, rows[i])
  {
    hide U32;
    assert HasRecord(live, i);
    var o :| o in live && |live[o].val| == 4 && U32(live[o].val, 0) == i;
    assert RowOk(rows, live[o]);
  }
}
