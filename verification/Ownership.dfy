/** Who owns which byte of a table's memory.

Every byte carries one tag, so that two structures never overlap as soon as each of them lies in
bytes tagged for it. */
module Ownership {
  import opened Words
  import opened Segments

  /** `Spare`: bytes of a data block that no record uses yet. */
  datatype Tag = Unowned | Buckets(table: nat) | Record(table: nat, base: nat) | Spare(table: nat)

  type Tags = seq<Tag>

  /** The `n` bytes at `a` carry the tag. */
  ghost predicate Owned(tags: Tags, a: nat, n: nat, tag: Tag) {
    && a + n <= |tags|
    && (forall i :: a <= i < a + n ==> tags[i] == tag)
  }

  /** The bytes of the vectors belong to the buckets of `table`, and no other bytes do. */
  ghost predicate VectorsOwned(tags: Tags, l: Layout, table: nat) {
    && l.Fits(0, |tags|)
    && (forall a :: 0 <= a < |tags| ==> (l.Holds(a) <==> tags[a] == Buckets(table)))
  }

  /** No byte of a record of this table differs, except those of the records `touched`. */
  ghost predicate KeptBut(m: Bytes, m': Bytes, tags: Tags, table: nat, touched: set<nat>) {
    && |tags| == |m| <= |m'|
    && (forall a ::
          0 <= a < |m| && tags[a].Record? && tags[a].table == table && tags[a].base !in touched ==> m'[a] == m[a])
  }

  lemma RegionKept(m: Bytes, m': Bytes, tags: Tags, table: nat, touched: set<nat>, o: nat, a: nat, n: nat)
    requires KeptBut(m, m', tags, table, touched) && Owned(tags, a, n, Record(table, o)) && o !in touched
    ensures Same(m, m', a, n)
  {
  }

  lemma OwnedBounds(tags: Tags, a: nat, n: nat, tag: Tag)
    requires Owned(tags, a, n, tag)
    ensures a + n <= |tags|
  {
  }

  /** Regions with different tags do not meet. */
  lemma OwnedApart(tags: Tags, a: nat, n: nat, tag: Tag, a': nat, n': nat, tag': Tag)
    requires Owned(tags, a, n, tag) && Owned(tags, a', n', tag') && tag != tag' && 0 < n && 0 < n'
    ensures a + n <= a' || a' + n' <= a
  {
    var x := if a <= a' then a' else a;
    assert x < |tags| && tags[x] == if a <= a' then tag' else tag;
  }

  function Repeat(tag: Tag, n: nat): (r: Tags)
    ensures |r| == n && forall i :: 0 <= i < n ==> r[i] == tag
  {
    seq(n, _ => tag)
  }

  lemma VectorsOwnedGrows(tags: Tags, more: Tags, l: Layout, table: nat)
    requires VectorsOwned(tags, l, table)
    requires Buckets(table) !in more
    ensures VectorsOwned(tags + more, l, table)
  {
    l.FitsMore(0, |tags|, |tags| + |more|);
    forall a | 0 <= a < |tags| + |more|
      ensures l.Holds(a) <==> (tags + more)[a] == Buckets(table)
    {
      if a >= |tags| {
        l.HoldsFits(a, 0, |tags|);
        assert (tags + more)[a] == more[a - |tags|];
      }
    }
  }

  /** Appending one vector of buckets. */
  lemma VectorsOwnedAppend(tags: Tags, pad: nat, l: Layout, table: nat)
    requires VectorsOwned(tags, l, table)
    ensures var a := |tags| + pad;
            var l' := Layout(l.bits, l.vectors + [a]);
            VectorsOwned(tags + Repeat(Unowned, pad) + Repeat(Buckets(table), BUCKET_SIZE * l.Capacity()), l', table)
  {
    var a := |tags| + pad;
    var n := BUCKET_SIZE * l.Capacity();
    var l' := Layout(l.bits, l.vectors + [a]);
    var tags' := tags + Repeat(Unowned, pad) + Repeat(Buckets(table), n);
    l.AppendFits(a, 0, |tags|, |tags'|);
    forall x | 0 <= x < |tags'|
      ensures l'.Holds(x) <==> tags'[x] == Buckets(table)
    {
      l.AppendHolds(a, x);
      if x >= |tags| {
        l.HoldsFits(x, 0, |tags|);
      }
    }
  }

  // ---------- several tables in one memory ----------

  predicate OwnedBy(tag: Tag, table: nat) {
    !tag.Unowned? && tag.table == table
  }

  /** Only what belongs to `table` was written, and new memory went to no other table. */
  ghost predicate OthersKept(m: Bytes, tags: Tags, m': Bytes, tags': Tags, table: nat) {
    && |tags| == |m| <= |m'| == |tags'|
    && (forall a :: 0 <= a < |m| && !OwnedBy(tags[a], table) ==> m'[a] == m[a] && tags'[a] == tags[a])
    && (forall a ::
          0 <= a < |m'| && (a < |m| ==> OwnedBy(tags[a], table)) ==> tags'[a].Unowned? || OwnedBy(tags'[a], table))
  }

  lemma OthersKeptSame(m: Bytes, tags: Tags, table: nat)
    requires |tags| == |m|
    ensures OthersKept(m, tags, m, tags, table)
  {
  }

  lemma OthersKeptTwice(m: Bytes, tags: Tags, m': Bytes, tags': Tags, m'': Bytes, tags'': Tags, table: nat)
    requires OthersKept(m, tags, m', tags', table) && OthersKept(m', tags', m'', tags'', table)
    ensures OthersKept(m, tags, m'', tags'', table)
  {
    forall a | 0 <= a < |m| && !OwnedBy(tags[a], table)
      ensures m''[a] == m[a] && tags''[a] == tags[a]
    {
      assert tags'[a] == tags[a];
    }
    forall a | 0 <= a < |m''| && (a < |m| ==> OwnedBy(tags[a], table))
      ensures tags''[a].Unowned? || OwnedBy(tags''[a], table)
    {
      assert a < |m'| ==> tags'[a].Unowned? || OwnedBy(tags'[a], table);
    }
  }
}
