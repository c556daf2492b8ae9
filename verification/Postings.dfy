/** Sorting (key, row) pairs and grouping the rows by key, as both kinds of column index do:
src/code_gen/ds_code_gen_index_gen.c and include/var_index_gen.h.

The sort itself is the C library's; insertion stands for it here. */
module Postings {
  import opened Words

  datatype Entry = Entry(key: int, row: nat)

  /** Where the rows of a key are in the vector. */
  datatype KeyRec = KeyRec(key: int, size: nat, vect: nat)

  /** The rows that hold `key`, ascending: what a full scan of the column finds. */
  ghost function Rows<T>(column: seq<T>, key: T): (r: seq<nat>)
  {
    if column == [] then []
    else Rows(column[..|column| - 1], key) + if column[|column| - 1] == key then [|column| - 1] else []
  }

  lemma {:induction false} RowsIncrease<T>(column: seq<T>, key: T)
    ensures Increasing(Rows(column, key))
    ensures forall i | 0 <= i < |Rows(column, key)| :: Rows(column, key)[i] < |column|
  {
    if column != [] {
      RowsIncrease(column[..|column| - 1], key);
    }
  }

  lemma {:induction false} RowsMembers<T>(column: seq<T>, key: T, i: nat)
    ensures i in Rows(column, key) <==> i < |column| && column[i] == key
  {
    if column != [] {
      RowsMembers(column[..|column| - 1], key, i);
    }
  }

  /** Increasing lists with the same members are the same. */
  lemma {:induction false} SameMembers(a: seq<nat>, b: seq<nat>)
    requires Increasing(a) && Increasing(b) && forall x :: x in a <==> x in b
    ensures a == b
  {
    assert (a != [] ==> a[0] in a) && (b != [] ==> b[0] in b);
    if a != [] && b != [] {
      var m, n := |a| - 1, |b| - 1;
      LastIsGreatest(a, b);
      LastIsGreatest(b, a);
      assert a[m] == b[n];
      forall x
        ensures x in a[..m] <==> x in b[..n]
      {
        WithoutLast(a, x);
        WithoutLast(b, x);
      }
      SameMembers(a[..m], b[..n]);
      assert a == a[..m] + [a[m]] && b == b[..n] + [b[n]];
    }
  }

  lemma LastIsGreatest(a: seq<nat>, b: seq<nat>)
    requires Increasing(a) && a != [] && b != [] && b[|b| - 1] in a
    ensures b[|b| - 1] <= a[|a| - 1]
  {
  }

  lemma WithoutLast(a: seq<nat>, x: nat)
    requires Increasing(a) && a != []
    ensures x in a[..|a| - 1] <==> x in a && x != a[|a| - 1]
  {
    assert a == a[..|a| - 1] + [a[|a| - 1]];
  }

  // ---------- the sort ----------

  /** The comparison: by key, then by row. */
  predicate Less(e: Entry, f: Entry)
  {
    e.key < f.key || (e.key == f.key && e.row < f.row)
  }

  ghost predicate Ascending(s: seq<Entry>)
  {
    forall i, j | 0 <= i < j < |s| :: Less(s[i], s[j])
  }

  function Insert(e: Entry, s: seq<Entry>): (r: seq<Entry>)
  {
    if s == [] || Less(e, s[0]) then [e] + s else [s[0]] + Insert(e, s[1..])
  }

  function Sort(s: seq<Entry>): (r: seq<Entry>)
  {
    if s == [] then [] else Insert(s[|s| - 1], Sort(s[..|s| - 1]))
  }

  lemma {:induction false} InsertMembers(e: Entry, s: seq<Entry>)
    ensures |Insert(e, s)| == |s| + 1 && forall x :: x in Insert(e, s) <==> x == e || x in s
  {
    if !(s == [] || Less(e, s[0])) {
      InsertMembers(e, s[1..]);
    }
  }

  lemma {:induction false} InsertAscends(e: Entry, s: seq<Entry>)
    requires Ascending(s) && e !in s
    ensures Ascending(Insert(e, s))
  {
    if s != [] && !Less(e, s[0]) {
      InsertAscends(e, s[1..]);
      InsertMembers(e, s[1..]);
      var r := Insert(e, s[1..]);
      forall i | 0 <= i < |r|
        ensures Less(s[0], r[i])
      {
        assert r[i] == e || r[i] in s[1..];
      }
    }
  }

  ghost predicate Distinct(s: seq<Entry>)
  {
    forall i, j | 0 <= i < j < |s| :: s[i] != s[j]
  }

  lemma {:induction false} SortMembers(s: seq<Entry>)
    ensures |Sort(s)| == |s| && forall x :: x in Sort(s) <==> x in s
  {
    if s != [] {
      SortMembers(s[..|s| - 1]);
      InsertMembers(s[|s| - 1], Sort(s[..|s| - 1]));
      assert s == s[..|s| - 1] + [s[|s| - 1]];
    }
  }

  lemma {:induction false} SortAscends(s: seq<Entry>)
    requires Distinct(s)
    ensures Ascending(Sort(s))
  {
    if s != [] {
      SortAscends(s[..|s| - 1]);
      SortMembers(s[..|s| - 1]);
      InsertAscends(s[|s| - 1], Sort(s[..|s| - 1]));
    }
  }

  // ---------- the grouping ----------

  ghost function RowsOf(s: seq<Entry>): (r: seq<nat>)
    ensures |r| == |s| && forall i | 0 <= i < |s| :: r[i] == s[i].row
  {
    seq(|s|, i requires 0 <= i < |s| => s[i].row)
  }

  /** The records cover the first `n` entries one after the other, each the entries of one key. */
  ghost predicate Tiled(s: seq<Entry>, keys: seq<KeyRec>, n: nat)
  {
    && n <= |s|
    && (forall k | 0 <= k < |keys| :: 0 < keys[k].size && keys[k].vect + keys[k].size <= n)
    && (forall k, j | 0 <= k < |keys| && keys[k].vect <= j < keys[k].vect + keys[k].size :: s[j].key == keys[k].key)
    && (forall k | 0 < k < |keys| :: keys[k].vect == keys[k - 1].vect + keys[k - 1].size)
    && (if keys == [] then n == 0 else keys[0].vect == 0 && keys[|keys| - 1].vect + keys[|keys| - 1].size == n)
  }

  lemma {:induction false} TileOf(s: seq<Entry>, keys: seq<KeyRec>, n: nat, j: nat) returns (k: nat)
    requires Tiled(s, keys, n) && j < n
    ensures k < |keys| && keys[k].vect <= j < keys[k].vect + keys[k].size
  {
    k := |keys| - 1;
    assert keys[0].vect == 0;
    while j < keys[k].vect
      invariant 0 <= k < |keys| && j < keys[k].vect + keys[k].size
    {
      k := k - 1;
    }
  }

  lemma TilesAreFew(s: seq<Entry>, keys: seq<KeyRec>, n: nat)
    requires Tiled(s, keys, n)
    ensures |keys| <= n
  {
    if keys != [] {
      var i := 0;
      while i < |keys| - 1
        invariant 0 <= i < |keys| && i <= keys[i].vect
      {
        i := i + 1;
      }
    }
  }

  ghost predicate KeysIncrease(keys: seq<KeyRec>)
  {
    forall k, l | 0 <= k < l < |keys| :: keys[k].key < keys[l].key
  }

  /** The rows filed under record `k`. */
  ghost function Filed(vect: seq<nat>, rec: KeyRec): (r: seq<nat>)
    requires rec.vect + rec.size <= |vect|
  {
    vect[rec.vect..rec.vect + rec.size]
  }

  /** What a grouping of the sorted entries of a column must be: a record for each key of the column,
  in order of the keys, with exactly the ascending rows of that key. */
  ghost predicate Grouped(column: seq<int>, vect: seq<nat>, keys: seq<KeyRec>)
  {
    && KeysIncrease(keys)
    && (forall k | 0 <= k < |keys| ::
          keys[k].vect + keys[k].size <= |vect| && 0 < keys[k].size
            && Filed(vect, keys[k]) == Rows(column, keys[k].key))
    && (forall i | 0 <= i < |column| :: exists k | 0 <= k < |keys| :: keys[k].key == column[i])
  }

  /** The sorted entries of a column. */
  ghost predicate EntriesOf(s: seq<Entry>, column: seq<int>)
  {
    && Ascending(s)
    && (forall e | e in s :: e.row < |column| && column[e.row] == e.key)
    && (forall i | 0 <= i < |column| :: Entry(column[i], i) in s)
  }

  lemma FiledIsRows(s: seq<Entry>, keys: seq<KeyRec>, column: seq<int>, k: nat)
    requires EntriesOf(s, column) && Tiled(s, keys, |s|) && KeysIncrease(keys) && k < |keys|
    ensures Filed(RowsOf(s), keys[k]) == Rows(column, keys[k].key)
  {
    var rec := keys[k];
    var filed := Filed(RowsOf(s), rec);
    assert Increasing(filed) by {
      forall i, j | 0 <= i < j < |filed|
        ensures filed[i] < filed[j]
      {
        assert Less(s[rec.vect + i], s[rec.vect + j]);
      }
    }
    RowsIncrease(column, rec.key);
    forall x: nat
      ensures x in filed <==> x in Rows(column, rec.key)
    {
      RowsMembers(column, rec.key, x);
      if x in filed {
        var i :| 0 <= i < |filed| && filed[i] == x;
        assert s[rec.vect + i] in s;
      }
      if x < |column| && column[x] == rec.key {
        FiledHas(s, keys, column, k, x);
      }
    }
    SameMembers(filed, Rows(column, rec.key));
  }

  lemma FiledHas(s: seq<Entry>, keys: seq<KeyRec>, column: seq<int>, k: nat, x: nat)
    requires EntriesOf(s, column) && Tiled(s, keys, |s|) && KeysIncrease(keys) && k < |keys|
    requires x < |column| && column[x] == keys[k].key
    ensures x in Filed(RowsOf(s), keys[k])
  {
    assert Entry(column[x], x) in s;
    var j :| 0 <= j < |s| && s[j] == Entry(column[x], x);
    var l := TileOf(s, keys, |s|, j);
    assert l == k;
    assert Filed(RowsOf(s), keys[k])[j - keys[k].vect] == x;
  }

  lemma TiledIsGrouped(s: seq<Entry>, keys: seq<KeyRec>, column: seq<int>)
    requires EntriesOf(s, column) && Tiled(s, keys, |s|) && KeysIncrease(keys)
    ensures Grouped(column, RowsOf(s), keys)
  {
    forall k | 0 <= k < |keys|
      ensures Filed(RowsOf(s), keys[k]) == Rows(column, keys[k].key)
    {
      FiledIsRows(s, keys, column, k);
    }
    forall i | 0 <= i < |column|
      ensures exists k | 0 <= k < |keys| :: keys[k].key == column[i]
    {
      assert Entry(column[i], i) in s;
      var j :| 0 <= j < |s| && s[j] == Entry(column[i], i);
      var k := TileOf(s, keys, |s|, j);
      assert keys[k].key == column[i];
    }
  }

  /** The grouping loop: the rows are written out, and a record for each key. */
  method Group(s: seq<Entry>, ghost column: seq<int>) returns (vect: seq<nat>, keys: seq<KeyRec>)
    requires EntriesOf(s, column)
    ensures Grouped(column, vect, keys) && vect == RowsOf(s) && |keys| <= |s|
    ensures forall k | 0 <= k < |keys| :: Entry(keys[k].key, vect[keys[k].vect]) in s
  {
    hide Rows, Grouped, EntriesOf, Tiled, KeysIncrease, RowsOf;
    vect, keys := [], [];
    var fw, at := 0, 0;
    TileNone(s);
    while fw < |s|
      invariant fw == at <= |s| && Tiled(s, keys, fw) && KeysIncrease(keys)
      invariant vect == RowsOf(s[..fw]) && (0 < fw < |s| ==> s[fw - 1].key != s[fw].key)
    {
      var key := s[fw].key;
      var size := 0;
      while fw < |s| && key == s[fw].key
        invariant fw == at + size <= |s| && vect == RowsOf(s[..fw]) && (size == 0 ==> fw < |s| && key == s[fw].key)
        invariant forall j | at <= j < fw :: s[j].key == key
      {
        RowsOfMore(s, fw);
        vect := vect + [s[fw].row];
        fw, size := fw + 1, size + 1;
      }
      TileMore(s, keys, at, fw, column);
      keys := keys + [KeyRec(key, size, at)];
      at := at + size;
    }
    assert s[..fw] == s;
    TiledIsGrouped(s, keys, column);
    FirstRows(s, keys);
    TilesAreFew(s, keys, |s|);
  }

  lemma TileNone(s: seq<Entry>)
    ensures Tiled(s, [], 0) && KeysIncrease([]) && RowsOf(s[..0]) == []
  {
  }

  lemma RowsOfMore(s: seq<Entry>, n: nat)
    requires n < |s|
    ensures RowsOf(s[..n + 1]) == RowsOf(s[..n]) + [s[n].row]
  {
  }

  lemma TileMore(s: seq<Entry>, keys: seq<KeyRec>, at: nat, end: nat, column: seq<int>)
    requires EntriesOf(s, column) && Tiled(s, keys, at) && KeysIncrease(keys) && at < end <= |s|
    requires forall j | at <= j < end :: s[j].key == s[at].key
    requires at == 0 || s[at - 1].key != s[at].key
    ensures var more := keys + [KeyRec(s[at].key, end - at, at)]; Tiled(s, more, end) && KeysIncrease(more)
  {
    assert keys != [] ==> keys[|keys| - 1].key == s[at - 1].key < s[at].key by {
      assert 0 < at ==> Less(s[at - 1], s[at]);
    }
    hide EntriesOf;
  }

  lemma FirstRows(s: seq<Entry>, keys: seq<KeyRec>)
    requires Tiled(s, keys, |s|)
    ensures forall k | 0 <= k < |keys| :: keys[k].vect < |s| && Entry(keys[k].key, RowsOf(s)[keys[k].vect]) in s
  {
    forall k | 0 <= k < |keys|
      ensures keys[k].vect < |s| && Entry(keys[k].key, RowsOf(s)[keys[k].vect]) in s
    {
      assert s[keys[k].vect] in s;
    }
  }

  /** The entries of a column, sorted. */
  method SortedEntries(column: seq<int>) returns (s: seq<Entry>)
    ensures EntriesOf(s, column) && |s| == |column|
  {
    var fw: seq<Entry> := [];
    for i := 0 to |column|
      invariant |fw| == i && forall j | 0 <= j < i :: fw[j] == Entry(column[j], j)
    {
      fw := fw + [Entry(column[i], i)];
    }
    SortAscends(fw);
    SortMembers(fw);
    s := Sort(fw);
    forall i | 0 <= i < |column|
      ensures Entry(column[i], i) in s
    {
      assert fw[i] in fw;
    }
  }
}
