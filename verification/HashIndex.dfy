/** A table of buckets as an index of records by key.

`live` maps the reference stored in a bucket to the record it names.  What the three hash tables do
to their buckets is described here once; where the records are kept is their own affair. */
module HashIndex {
  import opened Words
  import opened Probing

  type Hash = Bytes -> uint32

  datatype Rec = Rec(key: Bytes, val: Bytes)

  ghost predicate UniqueKeys(live: map<nat, Rec>) {
    forall o, o' :: o in live && o' in live && live[o].key == live[o'].key ==> o == o'
  }

  ghost predicate Absent(live: map<nat, Rec>, key: Bytes) {
    forall o :: o in live ==> live[o].key != key
  }

  /** The buckets hold the hashcodes of the keys. */
  ghost predicate Hashed(hc: Hash, live: map<nat, Rec>, entries: set<Slot>) {
    forall s :: s in entries ==> s.Entry? && s.rec in live && s.hash == hc(live[s.rec].key)
  }

  /** `t` indexes exactly the records of `live`, at most half full. */
  ghost predicate Index(hc: Hash, t: Table, live: map<nat, Rec>, size: nat) {
    && Ordered(t) && Distinct(t)
    && Recs(t) == live.Keys && size == |live| && 2 * size <= |t|
    && Hashed(hc, live, Entries(t))
  }

  /** Besides, every key is there once. */
  ghost predicate KeyIndex(hc: Hash, t: Table, live: map<nat, Rec>, size: nat)
    ensures KeyIndex(hc, t, live, size) <==> Index(hc, t, live, size) && UniqueKeys(live)
  {
    Index(hc, t, live, size) && UniqueKeys(live)
  }

  // ---------- probing for a key ----------

  lemma VacantSlot(hc: Hash, t: Table, live: map<nat, Rec>, size: nat) returns (e: nat)
    requires Index(hc, t, live, size) && 0 < |t|
    ensures e < |t| && t[e].Vacant?
  {
    e := VacantExists(t);
  }

  lemma SlotIsLive(hc: Hash, t: Table, live: map<nat, Rec>, size: nat, q: nat)
    requires Index(hc, t, live, size) && q < |t| && t[q].Entry?
    ensures t[q].rec in live && t[q].hash == hc(live[t[q].rec].key)
  {
    assert t[q] in Entries(t);
  }

  lemma Present(live: map<nat, Rec>, o: nat)
    requires o in live
    ensures !Absent(live, live[o].key)
  {
  }

  /** No entry on the walk from `j` up to `q` names a record with this key. */
  ghost predicate NotPassed(t: Table, live: map<nat, Rec>, j: nat, q: nat, key: Bytes)
    requires q < |t|
  {
    forall x :: 0 <= x < |t| && Arc(j, q, x) && x != q && t[x].Entry? && t[x].rec in live ==> live[t[x].rec].key != key
  }

  lemma NothingPassed(t: Table, live: map<nat, Rec>, j: nat, key: Bytes)
    requires j < |t|
    ensures NotPassed(t, live, j, j, key)
  {
  }

  lemma PassOne(t: Table, live: map<nat, Rec>, j: nat, q: nat, e: nat, key: Bytes)
    requires Probed(t, j, q, e) && q < |t| && t[q].Entry? && e < |t| && t[e].Vacant? && NotPassed(t, live, j, q, key)
    requires t[q].rec in live ==> live[t[q].rec].key != key
    ensures NotPassed(t, live, j, Next(q, |t|), key)
  {
    forall x | 0 <= x < |t| && Arc(j, Next(q, |t|), x) && x != Next(q, |t|)
      ensures x == q || Arc(j, q, x)
    {
    }
  }

  /** Reaching a free bucket without a match proves that the key is not in the table. */
  /** Where the entries of a hash stand in the order of their records, the first match of a probe is the
  first record of the key. */
  lemma FirstMatch(hc: Hash, t: Table, live: map<nat, Rec>, size: nat, key: Bytes, b: nat)
    requires Index(hc, t, live, size) && InTurn(t) && b < |t| && t[b].Entry? && t[b].rec in live
    requires live[t[b].rec].key == key && NotPassed(t, live, Ideal(hc(key), |t|), b, key)
    ensures forall o | o in live && live[o].key == key :: t[b].rec <= o
  {
    forall o | o in live && live[o].key == key
      ensures t[b].rec <= o
    {
      var x :| 0 <= x < |t| && t[x].Entry? && t[x].rec == o;
      SlotIsLive(hc, t, live, size, x);
      SlotIsLive(hc, t, live, size, b);
      if x != b {
        FirstOfPending(t, b, x);
      }
    }
  }

  lemma EmptyInTurn(hc: Hash, t: Table, live: map<nat, Rec>, size: nat)
    requires Index(hc, t, live, size)
    ensures InTurn(t) || live != map[]
  {
    if !InTurn(t) {
      var x, y :| 0 <= x < |t| && 0 <= y < |t| && Ahead(t, y, x) && t[y].rec >= t[x].rec;
      assert t[x].rec in Recs(t);
    }
  }

  lemma ProbeFails(hc: Hash, t: Table, live: map<nat, Rec>, size: nat, key: Bytes, q: nat, e: nat)
    requires Index(hc, t, live, size) && q < |t| && t[q].Vacant?
    requires Probed(t, Ideal(hc(key), |t|), q, e) && NotPassed(t, live, Ideal(hc(key), |t|), q, key)
    ensures Absent(live, key)
  {
    forall o | o in live
      ensures live[o].key != key
    {
      var x :| 0 <= x < |t| && t[x].Entry? && t[x].rec == o;
      SlotIsLive(hc, t, live, size, x);
      if live[o].key == key {
        ProbeIsExhaustive(t, Ideal(hc(key), |t|), q, e, x);
      }
    }
  }

  // ---------- changes ----------

  lemma HashedSubset(hc: Hash, live: map<nat, Rec>, live': map<nat, Rec>, entries: set<Slot>, entries': set<Slot>)
    requires Hashed(hc, live, entries) && entries' <= entries
    requires forall s :: s in entries' ==> s.rec in live' && s.rec in live && live'[s.rec].key == live[s.rec].key
    ensures Hashed(hc, live', entries')
  {
  }

  lemma HashedMore(hc: Hash, live: map<nat, Rec>, entries: set<Slot>, o: nat, rec: Rec)
    requires Hashed(hc, live, entries) && (o in live ==> live[o].key == rec.key)
    ensures Hashed(hc, live[o := rec], entries + {Entry(hc(rec.key), o)})
  {
  }

  lemma UniqueMore(live: map<nat, Rec>, o: nat, rec: Rec)
    requires UniqueKeys(live) && (Absent(live, rec.key) || (o in live && live[o].key == rec.key))
    ensures UniqueKeys(live[o := rec])
  {
  }

  lemma UniqueLess(live: map<nat, Rec>, o: nat)
    requires UniqueKeys(live) && o in live
    ensures UniqueKeys(live - {o}) && Absent(live - {o}, live[o].key)
  {
  }

  lemma RecsOf(t: Table, s: Slot)
    requires s in Entries(t)
    ensures s.Entry? && s.rec in Recs(t)
  {
  }

  /** A new record is entered where the probe of its key met a free bucket. */
  lemma IndexEnter(hc: Hash, t: Table, live: map<nat, Rec>, size: nat, q: nat, e: nat, o: nat, rec: Rec)
    requires Index(hc, t, live, size) && 2 * size + 2 <= |t| && o !in live
    requires Probed(t, Ideal(hc(rec.key), |t|), q, e) && q < |t| && t[q].Vacant?
    ensures Index(hc, t[q := Entry(hc(rec.key), o)], live[o := rec], size + 1)
  {
    hide Ordered, Distinct, Recs, Entries, Probed, Hashed, Ideal;
    var t', live' := t[q := Entry(hc(rec.key), o)], live[o := rec];
    InsertKeepsOrder(t, hc(rec.key), o, q, e);
    InsertAddsEntry(t, hc(rec.key), o, q);
    assert live'.Keys == live.Keys + {o};
    HashedMore(hc, live, Entries(t), o, rec);
  }

  /** The entry of slot `d` is gone and the rest of the buckets has been put in order. */
  lemma IndexLeave(hc: Hash, t: Table, t': Table, live: map<nat, Rec>, size: nat, d: nat)
    requires Index(hc, t, live, size) && d < |t| == |t'| && t[d].Entry?
    requires Ordered(t') && Distinct(t') && Entries(t') == Entries(t) - {t[d]} && Recs(t') == Recs(t) - {t[d].rec}
    ensures t[d].rec in live && 0 < size && Index(hc, t', live - {t[d].rec}, size - 1)
  {
    SlotIsLive(hc, t, live, size, d);
    var live' := live - {t[d].rec};
    assert live'.Keys == live.Keys - {t[d].rec};
    forall s | s in Entries(t')
      ensures s.rec in live'
    {
      RecsOf(t', s);
    }
    HashedSubset(hc, live, live', Entries(t), Entries(t'));
  }

  /** Doubling the table, or any other rearrangement of the same entries. */
  lemma IndexRearranged(hc: Hash, t: Table, t': Table, live: map<nat, Rec>, size: nat)
    requires Index(hc, t, live, size) && |t| <= |t'|
    requires Ordered(t') && Distinct(t') && Entries(t') == Entries(t) && Recs(t') == Recs(t)
    ensures Index(hc, t', live, size)
  {
  }

  lemma RehashReady(hc: Hash, t: Table, live: map<nat, Rec>, size: nat)
    requires Index(hc, t, live, size) && 0 < |t|
    ensures Ordered(t) && Distinct(t) && |Recs(t)| < |t|
  {
  }

  /** The record of slot `d` is replaced by another record of the same key, possibly elsewhere. */
  lemma IndexReplace(hc: Hash, t: Table, live: map<nat, Rec>, size: nat, d: nat, o: nat, val: Bytes)
    requires Index(hc, t, live, size) && d < |t| && t[d].Entry? && t[d].rec in live
    requires o == t[d].rec || o !in live
    ensures Index(hc, t[d := Entry(t[d].hash, o)], (live - {t[d].rec})[o := Rec(live[t[d].rec].key, val)], size)
  {
    hide Ordered, Distinct, Recs, Entries, Probed, Hashed, Ideal;
    var x, key := t[d].rec, live[t[d].rec].key;
    var t1, live1 := t[d := Vacant], live - {x};
    var t', live' := t1[d := Entry(t[d].hash, o)], live1[o := Rec(key, val)];
    assert t[d := Entry(t[d].hash, o)] == t';
    SlotIsLive(hc, t, live, size, d);
    RemoveDropsEntry(t, d);
    InsertAddsEntry(t1, t[d].hash, o, d);
    ReplaceKeepsOrder(t, d, o);
    assert live'.Keys == live.Keys - {x} + {o};
    assert |live1| == |live| - 1;
    forall s | s in Entries(t1)
      ensures s.Entry? && s.rec in live1
    {
      RecsOf(t1, s);
    }
    HashedSubset(hc, live, live1, Entries(t), Entries(t1));
    HashedMore(hc, live1, Entries(t1), o, Rec(key, val));
  }

  lemma ReplaceKeepsOrder(t: Table, d: nat, o: nat)
    requires Ordered(t) && d < |t| && t[d].Entry?
    ensures Ordered(t[d := Entry(t[d].hash, o)])
  {
    var t' := t[d := Entry(t[d].hash, o)];
    forall x | 0 <= x < |t'| && t'[x].Entry?
      ensures Reaches(t', x, {})
    {
      assert Reaches(t, x, {});
    }
  }

  /** Writing a value in place. */
  lemma IndexOverwrite(hc: Hash, t: Table, live: map<nat, Rec>, size: nat, o: nat, val: Bytes)
    requires Index(hc, t, live, size) && o in live
    ensures Index(hc, t, live[o := Rec(live[o].key, val)], size)
  {
    hide Ordered, Distinct, Recs, Hashed;
    var rec := Rec(live[o].key, val);
    assert live[o := rec].Keys == live.Keys;
    HashedMore(hc, live, Entries(t), o, rec);
    HashedSubset(hc, live[o := rec], live[o := rec], Entries(t) + {Entry(hc(rec.key), o)}, Entries(t));
  }

  lemma IndexEmpty(hc: Hash, t: Table)
    requires forall i :: 0 <= i < |t| ==> t[i].Vacant?
    ensures Index(hc, t, map[], 0) && Entries(t) == {}
  {
  }

  /** An index of no records has no entries. */
  lemma EmptyIndexVacant(hc: Hash, t: Table, live: map<nat, Rec>)
    requires Index(hc, t, live, 0)
    ensures live == map[] && forall i :: 0 <= i < |t| ==> t[i].Vacant?
  {
    assert live.Keys == {};
  }

  // ---------- the map that a table represents ----------

  /** The values by key. */
  ghost function ByKey(live: map<nat, Rec>): (r: map<Bytes, Bytes>) {
    map key | key in KeysOf(live) :: live[Where(live, key)].val
  }

  ghost function KeysOf(live: map<nat, Rec>): (r: set<Bytes>) {
    set o | o in live :: live[o].key
  }

  ghost function Where(live: map<nat, Rec>, key: Bytes): (o: nat)
    requires key in KeysOf(live)
    ensures o in live && live[o].key == key
  {
    var o :| o in live && live[o].key == key; o
  }

  lemma ByKeyAt(live: map<nat, Rec>, o: nat)
    requires UniqueKeys(live) && o in live
    ensures live[o].key in ByKey(live) && ByKey(live)[live[o].key] == live[o].val
  {
    assert live[o].key in KeysOf(live);
  }

  lemma ByKeyFrom(live: map<nat, Rec>, key: Bytes) returns (o: nat)
    requires key in ByKey(live)
    ensures o in live && live[o].key == key
  {
    o := Where(live, key);
  }

  lemma ByKeyHas(live: map<nat, Rec>, key: Bytes)
    requires UniqueKeys(live)
    ensures key in ByKey(live) <==> !Absent(live, key)
  {
    if !Absent(live, key) {
      var o :| o in live && live[o].key == key;
      ByKeyAt(live, o);
    } else if key in ByKey(live) {
      var o := ByKeyFrom(live, key);
    }
  }

  lemma IndexByKey(hc: Hash, t: Table, live: map<nat, Rec>, size: nat)
    requires KeyIndex(hc, t, live, size)
    ensures UniqueKeys(live) && |ByKey(live)| == size
  {
    ByKeySize(live);
  }

  lemma {:induction false} ByKeySize(live: map<nat, Rec>)
    requires UniqueKeys(live)
    ensures |ByKey(live)| == |live|
    decreases |live|
  {
    if live != map[] {
      hide *;
      var o :| o in live;
      var rest, key := live - {o}, live[o].key;
      SizeWithout(live, o);
      ByKeyLeave(live, o);
      ByKeySize(rest);
      SizeWithout(ByKey(live), key);
    } else {
      assert ByKey(live) == map[];
    }
  }

  lemma SizeWithout<K, V>(m: map<K, V>, k: K)
    requires k in m
    ensures |m - {k}| == |m| - 1
  {
    assert m.Keys == (m - {k}).Keys + {k};
  }

  lemma ByKeyEnter(live: map<nat, Rec>, o: nat, rec: Rec)
    requires UniqueKeys(live) && (o !in live || live[o].key == rec.key)
    requires Absent(live, rec.key) || (o in live && live[o].key == rec.key)
    ensures UniqueKeys(live[o := rec]) && ByKey(live[o := rec]) == ByKey(live)[rec.key := rec.val]
  {
    hide *;
    UniqueMore(live, o, rec);
    var live' := live[o := rec];
    var want := ByKey(live)[rec.key := rec.val];
    ByKeyAt(live', o);
    forall key
      ensures key in ByKey(live') <==> key in want
      ensures key in want ==> ByKey(live')[key] == want[key]
    {
      if key in ByKey(live) && key != rec.key {
        var x := ByKeyFrom(live, key);
        ByKeyAt(live, x);
        ByKeyAt(live', x);
      }
      if key in ByKey(live') && key != rec.key {
        var x := ByKeyFrom(live', key);
        ByKeyAt(live, x);
      }
    }
  }

  lemma ByKeyLeave(live: map<nat, Rec>, o: nat)
    requires UniqueKeys(live) && o in live
    ensures UniqueKeys(live - {o}) && ByKey(live - {o}) == ByKey(live) - {live[o].key}
    ensures live[o].key in ByKey(live) && ByKey(live)[live[o].key] == live[o].val
  {
    UniqueLess(live, o);
    hide UniqueKeys, ByKey;
    var live', want := live - {o}, ByKey(live) - {live[o].key};
    ByKeyAt(live, o);
    forall key | key in want
      ensures key in ByKey(live') && ByKey(live')[key] == want[key]
    {
      var x := ByKeyFrom(live, key);
      ByKeyAt(live, x);
      ByKeyAt(live', x);
    }
    forall key | key in ByKey(live')
      ensures key in want
    {
      var x := ByKeyFrom(live', key);
      ByKeyAt(live, x);
      assert live'[x].key != live[o].key;
    }
  }
}
