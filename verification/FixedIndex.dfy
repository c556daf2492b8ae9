/** The generated indexes over columns of an ordered key type: src/code_gen/ds_code_gen_index_gen.c
and src/code_gen/ds_code_gen_index_container.c. */
module FixedIndex {
  import opened Options
  import opened Postings

  const WORD: nat := 0x1_0000_0000

  // ---------- the search ----------

  /** In the middle, as 32-bit arithmetic finds it. */
  function Middle(l: nat, h: nat): (m: nat)
  {
    (l + h) % WORD / 2
  }

  ghost predicate StrictlySorted(a: seq<int>)
  {
    forall i, j | 0 <= i < j < |a| :: a[i] < a[j]
  }

  /** No probe of the search for `key` between `l` and `h` wraps around. */
  ghost predicate ProbesFit(a: seq<int>, key: int, l: nat, h: nat)
    requires l <= h <= |a|
    decreases h - l
  {
    l < h ==>
      && l + h < WORD
      && if a[(l + h) / 2] < key then ProbesFit(a, key, (l + h) / 2 + 1, h) else ProbesFit(a, key, l, (l + h) / 2)
  }

  lemma {:induction false} SmallTablesFit(a: seq<int>, key: int, l: nat, h: nat)
    requires l <= h <= |a| <= 0x8000_0000
    ensures ProbesFit(a, key, l, h)
    decreases h - l
  {
    if l < h {
      var m := (l + h) / 2;
      if a[m] < key {
        SmallTablesFit(a, key, m + 1, h);
      } else {
        SmallTablesFit(a, key, l, m);
      }
    }
  }

  /** The bounds `l` and `h` of the search loop after `n` rounds, with the midpoints it really uses. */
  ghost function After(a: seq<int>, key: int, n: nat): (r: (nat, nat))
    requires |a| < WORD
    ensures r.0 <= |a| && r.1 <= |a|
  {
    if n == 0 then (0, |a|)
    else
      var (l, h) := After(a, key, n - 1);
      if h <= l then (l, h)
      else
        MiddleBelow(l, h);
        var m := Middle(l, h);
        if a[m] < key then (m + 1, h) else (l, m)
  }

  lemma MiddleBelow(l: nat, h: nat)
    requires l < h < WORD
    ensures Middle(l, h) < h && (l + h < WORD ==> Middle(l, h) == (l + h) / 2)
  {
  }

  lemma AfterRound(a: seq<int>, key: int, n: nat)
    requires |a| < WORD && After(a, key, n).0 < After(a, key, n).1
    ensures var (l, h) := After(a, key, n);
            && Middle(l, h) < |a|
            && After(a, key, n + 1) == if a[Middle(l, h)] < key then (Middle(l, h) + 1, h) else (l, Middle(l, h))
  {
    hide Middle;
    var (l, h) := After(a, key, n);
    MiddleBelow(l, h);
  }

  /** After some number of rounds the loop is over, at position `i`. */
  ghost predicate EndsAt(a: seq<int>, key: int, i: nat)
    requires |a| < WORD
  {
    exists n: nat :: After(a, key, n) == (i, i)
  }

  /** From bounds around the key, in a table whose positions add up without wrapping. */
  lemma {:induction false} RoundsLeft(a: seq<int>, i: nat, n: nat)
    requires StrictlySorted(a) && |a| <= 0x8000_0000 && i < |a|
    requires var (l, h) := After(a, a[i], n); l <= i <= h && (h == |a| || a[i] <= a[h])
    ensures EndsAt(a, a[i], i)
    decreases var (l, h) := After(a, a[i], n); h - l
  {
    var (l, h) := After(a, a[i], n);
    if l < h {
      MiddleBelow(l, h);
      var m := Middle(l, h);
      assert a[m] < a[i] ==> m < i;
      hide StrictlySorted, EndsAt, Middle;
      AfterRound(a, a[i], n);
      hide After;
      RoundsLeft(a, i, n + 1);
    }
  }

  /** In a larger table the search for the last key never ends: the midpoint wraps around to a lower key. */
  lemma {:induction false} LastKeyNeverEnds(a: seq<int>, n: nat)
    requires StrictlySorted(a) && 0x8000_0000 < |a| < WORD
    ensures var (l, h) := After(a, a[|a| - 1], n); l < h == |a|
  {
    if 0 < n {
      LastKeyNeverEnds(a, n - 1);
      var (l, h) := After(a, a[|a| - 1], n - 1);
      MiddleBelow(l, h);
      assert Middle(l, h) < |a| - 1;
    }
  }

  /** The search ends at the key, for every key of the table, if and only if there are at most 2^31 of them. */
  lemma SearchEndsWhen(a: seq<int>)
    requires StrictlySorted(a) && |a| < WORD
    ensures (forall i | 0 <= i < |a| :: EndsAt(a, a[i], i)) <==> |a| <= 0x8000_0000
  {
    if |a| <= 0x8000_0000 {
      forall i | 0 <= i < |a|
        ensures EndsAt(a, a[i], i)
      {
        RoundsLeft(a, i, 0);
      }
    } else {
      var last := |a| - 1;
      forall n: nat
        ensures After(a, a[last], n) != (last, last)
      {
        LastKeyNeverEnds(a, n);
      }
      assert !EndsAt(a, a[last], last);
    }
  }

  lemma ProbeStep(a: seq<int>, key: int, l: nat, h: nat)
    requires l < h <= |a| && ProbesFit(a, key, l, h)
    ensures var m := Middle(l, h);
            && l <= m < h
            && if a[m] < key then ProbesFit(a, key, m + 1, h) else ProbesFit(a, key, l, m)
  {
    assert Middle(l, h) == (l + h) / 2;
  }

  lemma SearchStarts(a: seq<int>, key: int)
    requires ProbesFit(a, key, 0, |a|)
    ensures |a| < WORD && After(a, key, 0) == (0, |a|)
  {
  }

  /** The `bsearch` of both containers; they differ in the record type only. */
  method Bsearch<R>(a: seq<R>, keyOf: R -> int, key: int, ghost keys: seq<int>) returns (loc: Option<nat>)
    requires |keys| == |a| && forall i | 0 <= i < |a| :: keys[i] == keyOf(a[i])
    requires StrictlySorted(keys) && ProbesFit(keys, key, 0, |a|)
    ensures match loc case Some(i) => i < |a| && keyOf(a[i]) == key case None => key !in keys
  {
    hide ProbesFit, Middle, After, WORD;
    SearchStarts(keys, key);
    var l, h := 0, |a|;
    ghost var rounds := 0;
    while l < h
      invariant After(keys, key, rounds) == (l, h)
      invariant 0 <= l <= h <= |a| && ProbesFit(keys, key, l, h)
      invariant forall i | 0 <= i < l :: keys[i] < key
      invariant forall i | h <= i < |a| :: key <= keys[i]
    {
      ProbeStep(keys, key, l, h);
      AfterRound(keys, key, rounds);
      var m := Middle(l, h);
      if keyOf(a[m]) < key {
        l := m + 1;
      } else {
        h := m;
      }
      rounds := rounds + 1;
    }
    if l < |a| && keyOf(a[l]) == key {
      return Some(l);
    }
    return None;
  }

  // ---------- one to many ----------

  /** The index file: the rows, and the key records. */
  datatype O2M = O2M(vect: seq<nat>, keys: seq<KeyRec>)

  ghost function KeysOf(keys: seq<KeyRec>): (a: seq<int>)
    ensures |a| == |keys| && forall k | 0 <= k < |a| :: a[k] == keys[k].key
  {
    seq(|keys|, k requires 0 <= k < |keys| => keys[k].key)
  }

  /** Generating an index over a column, whose rows are numbered with 32 bits. */
  method GenerateO2M(column: seq<int>) returns (index: O2M)
    requires |column| < WORD
    ensures Grouped(column, index.vect, index.keys) && |index.keys| <= |column|
  {
    var fw := SortedEntries(column);
    var vect, keys := Group(fw, column);
    index := O2M(vect, keys);
  }

  /** The lookup: exactly the rows that a full scan finds, or nothing when there are none. */
  method LookupO2M(index: O2M, key: int, ghost column: seq<int>) returns (rows: Option<seq<nat>>)
    requires Grouped(column, index.vect, index.keys) && ProbesFit(KeysOf(index.keys), key, 0, |index.keys|)
    ensures match rows case Some(r) => r == Rows(column, key) && r != [] case None => Rows(column, key) == []
  {
    hide Rows;
    var loc := Bsearch(index.keys, (r: KeyRec) => r.key, key, KeysOf(index.keys));
    if loc == None {
      NoRows(column, KeysOf(index.keys), key);
      return None;
    }
    var rec := index.keys[loc.value];
    rows := Some(index.vect[rec.vect..rec.vect + rec.size]);
  }

  lemma NoRows(column: seq<int>, keys: seq<int>, key: int)
    requires (forall i | 0 <= i < |column| :: column[i] in keys) && key !in keys
    ensures Rows(column, key) == []
  {
    assert Rows(column, key) != [] ==> Rows(column, key)[0] in Rows(column, key);
    forall x: nat
      ensures x !in Rows(column, key)
    {
      RowsMembers(column, key, x);
    }
  }

  // ---------- one to one ----------

  datatype RowRec = RowRec(key: int, row: nat)

  ghost function RowKeys(recs: seq<RowRec>): (a: seq<int>)
    ensures |a| == |recs| && forall k | 0 <= k < |a| :: a[k] == recs[k].key
  {
    seq(|recs|, k requires 0 <= k < |recs| => recs[k].key)
  }

  /** A record for each key, in order, with its first row. */
  ghost predicate FirstOfEach(column: seq<int>, recs: seq<RowRec>)
  {
    && StrictlySorted(RowKeys(recs))
    && (forall k | 0 <= k < |recs| :: Rows(column, recs[k].key) != [] && recs[k].row == Rows(column, recs[k].key)[0])
    && (forall i | 0 <= i < |column| :: column[i] in RowKeys(recs))
  }

  /** The records are those of a grouping, with the first of the rows. */
  ghost predicate Heads(s: seq<Entry>, keys: seq<KeyRec>, recs: seq<RowRec>)
  {
    && |recs| == |keys|
    && forall k | 0 <= k < |recs| :: keys[k].vect < |s| && recs[k] == RowRec(keys[k].key, s[keys[k].vect].row)
  }

  lemma HeadsAreFirst(column: seq<int>, s: seq<Entry>, keys: seq<KeyRec>, recs: seq<RowRec>)
    requires Grouped(column, RowsOf(s), keys) && Heads(s, keys, recs)
    ensures FirstOfEach(column, recs)
  {
    hide Rows;
    forall k | 0 <= k < |recs|
      ensures Rows(column, recs[k].key) != [] && recs[k].row == Rows(column, recs[k].key)[0]
    {
      assert Filed(RowsOf(s), keys[k])[0] == recs[k].row;
    }
    forall i | 0 <= i < |column|
      ensures column[i] in RowKeys(recs)
    {
      var k :| 0 <= k < |keys| && keys[k].key == column[i];
      assert RowKeys(recs)[k] == column[i];
    }
  }

  /** Generating: the first entry of each key is kept and the others are skipped. */
  method GenerateO2O(column: seq<int>) returns (recs: seq<RowRec>)
    requires |column| < WORD
    ensures FirstOfEach(column, recs) && |recs| <= |column|
  {
    hide FirstOfEach, EntriesOf, Tiled, KeysIncrease, Grouped;
    var s := SortedEntries(column);
    recs := [];
    ghost var keys: seq<KeyRec> := [];
    TileNone(s);
    var fw := 0;
    while fw < |s|
      invariant 0 <= fw <= |s| && Tiled(s, keys, fw) && KeysIncrease(keys) && Heads(s, keys, recs)
      invariant 0 < fw < |s| ==> s[fw - 1].key != s[fw].key
    {
      var rec := RowRec(s[fw].key, s[fw].row);
      var key := s[fw].key;
      ghost var at := fw;
      fw := fw + 1;
      while fw < |s| && key == s[fw].key
        invariant at < fw <= |s|
        invariant forall j | at <= j < fw :: s[j].key == key
      {
        fw := fw + 1;
      }
      recs := recs + [rec];
      TileMore(s, keys, at, fw, column);
      keys := keys + [KeyRec(key, fw - at, at)];
    }
    TiledIsGrouped(s, keys, column);
    HeadsAreFirst(column, s, keys, recs);
    TilesAreFew(s, keys, |s|);
  }

  /** The lookup: the smallest row that holds the key. */
  method LookupO2O(recs: seq<RowRec>, key: int, ghost column: seq<int>) returns (row: Option<nat>)
    requires FirstOfEach(column, recs) && ProbesFit(RowKeys(recs), key, 0, |recs|)
    ensures match row
            case Some(i) => i < |column| && column[i] == key && forall j | 0 <= j < i :: column[j] != key
            case None => forall j | 0 <= j < |column| :: column[j] != key
  {
    hide Rows;
    var loc := Bsearch(recs, (r: RowRec) => r.key, key, RowKeys(recs));
    if loc == None {
      return None;
    }
    row := Some(recs[loc.value].row);
    FirstRow(column, key);
  }

  lemma FirstRow(column: seq<int>, key: int)
    requires Rows(column, key) != []
    ensures var i := Rows(column, key)[0]; i < |column| && column[i] == key && forall j | 0 <= j < i :: column[j] != key
  {
    var rows := Rows(column, key);
    RowsMembers(column, key, rows[0]);
    RowsIncrease(column, key);
    forall j | 0 <= j < rows[0]
      ensures column[j] != key
    {
      RowsMembers(column, key, j);
    }
  }

  /** Generating an index and looking a key up finds what a full scan of the column finds. */
  method FindO2M(column: seq<int>, key: int) returns (rows: Option<seq<nat>>)
    requires |column| <= 0x8000_0000
    ensures rows == if Rows(column, key) == [] then None else Some(Rows(column, key))
  {
    hide Grouped, Rows;
    var index := GenerateO2M(column);
    SmallTablesFit(KeysOf(index.keys), key, 0, |index.keys|);
    rows := LookupO2M(index, key, column);
  }

  method FindO2O(column: seq<int>, key: int) returns (row: Option<nat>)
    requires |column| <= 0x8000_0000
    ensures row == if Rows(column, key) == [] then None else Some(Rows(column, key)[0])
  {
    hide FirstOfEach;
    var recs := GenerateO2O(column);
    SmallTablesFit(RowKeys(recs), key, 0, |recs|);
    row := LookupO2O(recs, key, column);
    FirstRowIs(column, key, row);
  }

  lemma FirstRowIs(column: seq<int>, key: int, row: Option<nat>)
    requires match row
             case Some(i) => i < |column| && column[i] == key && forall j | 0 <= j < i :: column[j] != key
             case None => forall j | 0 <= j < |column| :: column[j] != key
    ensures row == if Rows(column, key) == [] then None else Some(Rows(column, key)[0])
  {
    hide Rows;
    if row.Some? {
      RowsMembers(column, key, row.value);
      FirstRow(column, key);
      var first := Rows(column, key)[0];
      assert first == row.value;
    } else {
      NoRows(column, column, key);
    }
  }
}
