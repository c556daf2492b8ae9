/** The chunk pool of src/mempool.c.

Anonymous mappings are taken to be placed one after the other, so that each is apart from all the
earlier ones; `brk` is the first address never mapped. */
module Mempool {
  import opened Options
  import opened Words

  const MIN_BITS: nat := 12
  const CLASSES: nat := 20
  const MIN_CHUNK: nat := 0x1000
  const MAX_CHUNK: nat := 0x8000_0000

  /** `_mempool_alloc_validate_size` */
  predicate ValidSize(s: nat)
    ensures ValidSize(s) ==> MIN_CHUNK <= s <= MAX_CHUNK
  {
    MIN_CHUNK <= s <= MAX_CHUNK && s == NextPow2(s)
  }

  /** The list that chunks of a size go to. */
  function Class(s: nat): (k: nat)
    requires ValidSize(s)
    ensures k < CLASSES && s == Pow2(MIN_BITS + k)
  {
    ValidSizeIsPower(s);
    Log2(s) - MIN_BITS
  }

  lemma PowersKnown()
    ensures Pow2(MIN_BITS) == MIN_CHUNK && Pow2(31) == MAX_CHUNK && Pow2(32) == 2 * MAX_CHUNK
  {
    assert Pow2(8) == 256;
    assert Pow2(16) == 65536;
    assert Pow2(24) == 0x100_0000;
    assert Pow2(31) == 0x8000_0000;
  }

  lemma ValidSizeIsPower(s: nat)
    requires ValidSize(s)
    ensures MIN_BITS <= Log2(s) <= 31 && s == Pow2(Log2(s))
  {
    hide Pow2, Log2, NextPow2;
    var m := NextPow2IsPower(s);
    Pow2Grows(m, m + 1);
    Log2Unique(s, m);
    PowersKnown();
    Pow2Reflects(MIN_BITS, m + 1);
    Pow2Reflects(m, 32);
  }

  lemma PowerIsValid(k: nat)
    requires MIN_BITS <= k <= 31
    ensures ValidSize(Pow2(k))
  {
    hide Pow2, Log2, NextPow2;
    PowersKnown();
    Pow2Monotone(MIN_BITS, k);
    Pow2Monotone(k, 31);
    NextPow2OfPower(k);
  }

  /** The sizes of chunks: the powers of two from 4 KB to 2 GB. */
  lemma ValidSizeIs(s: nat)
    ensures ValidSize(s) <==> exists k: nat :: 12 <= k <= 31 && s == Pow2(k)
  {
    hide Pow2, Log2, NextPow2, ValidSize;
    if ValidSize(s) {
      ValidSizeIsPower(s);
    } else if exists k: nat :: 12 <= k <= 31 && s == Pow2(k) {
      var k: nat :| 12 <= k <= 31 && s == Pow2(k);
      PowerIsValid(k);
    }
  }

  /** Twice a valid size is valid, up to the largest. */
  lemma DoubleIsValid(s: nat)
    requires ValidSize(s)
    ensures s < MAX_CHUNK <==> ValidSize(2 * s)
  {
    hide Pow2, Log2, NextPow2, ValidSize;
    ValidSizeIsPower(s);
    PowersKnown();
    var k := Log2(s);
    Pow2Half(k + 1);
    if s < MAX_CHUNK {
      Pow2Reflects(k, 31);
      PowerIsValid(k + 1);
    }
  }

  // ---------- the chunks ----------

  /** All chunks ever mapped, with their sizes: apart from each other and below `brk`. */
  ghost predicate Apart(chunks: map<nat, nat>, brk: nat)
  {
    && (forall a | a in chunks :: ValidSize(chunks[a]) && a + chunks[a] <= brk)
    && (forall a, b | a in chunks && b in chunks && a < b :: a + chunks[a] <= b)
  }

  ghost predicate Listed(chunks: map<nat, nat>, list: seq<nat>, size: nat)
  {
    && (forall i | 0 <= i < |list| :: list[i] in chunks && chunks[list[i]] == size)
    && (forall i, j | 0 <= i < j < |list| :: list[i] != list[j])
  }

  /** Every list holds chunks of its own size, each once. */
  ghost predicate Lists(chunks: map<nat, nat>, free: seq<seq<nat>>)
  {
    |free| == CLASSES && forall k | 0 <= k < CLASSES :: Listed(chunks, free[k], Pow2(MIN_BITS + k))
  }

  /** Every chunk is either handed out, or in the list of its size. */
  ghost predicate Partition(chunks: map<nat, nat>, free: seq<seq<nat>>, out: map<nat, nat>)
    requires |free| == CLASSES && forall a | a in chunks :: ValidSize(chunks[a])
  {
    && (forall a | a in out :: a in chunks && out[a] == chunks[a])
    && (forall a | a in chunks :: a in out <==> a !in free[Class(chunks[a])])
  }

  ghost function OfSize(chunks: map<nat, nat>, size: nat): set<nat>
  {
    set a | a in chunks && chunks[a] == size
  }

  ghost predicate Counts(chunks: map<nat, nat>, free: seq<seq<nat>>, numChunks: seq<nat>, numFree: seq<nat>)
  {
    && |free| == |numChunks| == |numFree| == CLASSES
    && forall k | 0 <= k < CLASSES :: numFree[k] == |free[k]| && numChunks[k] == |OfSize(chunks, Pow2(MIN_BITS + k))|
  }

  ghost predicate PoolOk(chunks: map<nat, nat>, brk: nat, free: seq<seq<nat>>, out: map<nat, nat>)
    ensures PoolOk(chunks, brk, free, out) ==> |free| == CLASSES
  {
    Apart(chunks, brk) && Lists(chunks, free) && Partition(chunks, free, out)
  }

  /** The chunks handed out do not overlap. */
  lemma OutApart(chunks: map<nat, nat>, brk: nat, free: seq<seq<nat>>, out: map<nat, nat>)
    requires PoolOk(chunks, brk, free, out)
    ensures Apart(out, brk)
  {
  }

  lemma ClassOf(k: nat)
    requires k < CLASSES
    ensures ValidSize(Pow2(MIN_BITS + k)) && Class(Pow2(MIN_BITS + k)) == k
  {
    hide Pow2, Log2;
    PowerIsValid(MIN_BITS + k);
    var c := Class(Pow2(MIN_BITS + k));
    if c < k {
      Pow2Grows(MIN_BITS + c, MIN_BITS + k);
    } else if k < c {
      Pow2Grows(MIN_BITS + k, MIN_BITS + c);
    }
  }

  lemma TakeFree(chunks: map<nat, nat>, brk: nat, free: seq<seq<nat>>, out: map<nat, nat>, s: nat)
    requires PoolOk(chunks, brk, free, out) && ValidSize(s) && free[Class(s)] != []
    ensures var k := Class(s);
            var a := free[k][0];
            a !in out && a in chunks && PoolOk(chunks, brk, free[k := free[k][1..]], out[a := s])
  {
    hide ValidSize, Pow2, Log2;
    var k := Class(s);
    var a := free[k][0];
    var free' := free[k := free[k][1..]];
    assert Listed(chunks, free[k], s);
    assert Listed(chunks, free[k][1..], s);
    assert a in free[k] && a !in free[k][1..];
    forall b | b in chunks
      ensures b in out[a := s] <==> b !in free'[Class(chunks[b])]
    {
      if Class(chunks[b]) == k && b != a {
        assert b in free[k] <==> b in free[k][1..];
      }
    }
  }

  lemma TakeFresh(chunks: map<nat, nat>, brk: nat, free: seq<seq<nat>>, out: map<nat, nat>, s: nat)
    requires PoolOk(chunks, brk, free, out) && ValidSize(s) && free[Class(s)] == []
    ensures brk !in out && brk !in chunks && PoolOk(chunks[brk := s], brk + s, free, out[brk := s])
  {
    hide Pow2, Log2;
    var chunks' := chunks[brk := s];
    assert forall a | a in chunks :: a < brk;
    forall k | 0 <= k < CLASSES
      ensures Listed(chunks', free[k], Pow2(MIN_BITS + k))
    {
      assert Listed(chunks, free[k], Pow2(MIN_BITS + k));
    }
  }

  lemma GiveBack(chunks: map<nat, nat>, brk: nat, free: seq<seq<nat>>, out: map<nat, nat>, a: nat, s: nat)
    requires PoolOk(chunks, brk, free, out) && ValidSize(s) && a in out && out[a] == s
    ensures var k := Class(s); PoolOk(chunks, brk, free[k := [a] + free[k]], out - {a})
  {
    hide ValidSize, Pow2, Log2;
    var k := Class(s);
    var free' := free[k := [a] + free[k]];
    assert Listed(chunks, free[k], s);
    assert Listed(chunks, [a] + free[k], s);
    forall b | b in chunks
      ensures b in out - {a} <==> b !in free'[Class(chunks[b])]
    {
      if Class(chunks[b]) == k && b != a {
        assert b in free[k] <==> b in [a] + free[k];
      }
    }
  }

  lemma CountOne(chunks: map<nat, nat>, a: nat, s: nat, size: nat)
    requires a !in chunks
    ensures |OfSize(chunks[a := s], size)| == |OfSize(chunks, size)| + if size == s then 1 else 0
  {
    assert OfSize(chunks[a := s], size) == if size == s then OfSize(chunks, size) + {a} else OfSize(chunks, size);
  }

  class Mempool {
    var brk: nat
    var free: seq<seq<nat>>
    var numChunks: seq<nat>
    var numFree: seq<nat>
    ghost var chunks: map<nat, nat>
    /** The chunks handed out and not given back, with their sizes. */
    ghost var out: map<nat, nat>

    ghost predicate Valid()
      reads this
    {
      PoolOk(chunks, brk, free, out) && Counts(chunks, free, numChunks, numFree)
    }

    constructor (start: nat)
      ensures Valid() && out == map[]
    {
      brk := start;
      free := seq(CLASSES, _ => []);
      numChunks, numFree := seq(CLASSES, _ => 0), seq(CLASSES, _ => 0);
      chunks, out := map[], map[];
      assert forall size :: OfSize(map[], size) == {};
    }

    /** mempool_alloc_chunk: refuses a size that is not a power of two in range. */
    method AllocChunk(s: nat) returns (r: Option<nat>)
      requires Valid()
      modifies this
      ensures Valid() && (r.Some? <==> ValidSize(s))
      ensures if r.Some? then r.value !in old(out) && out == old(out)[r.value := s] else unchanged(this)
      ensures |old(free)| == CLASSES
      ensures r.Some? ==> r == Some(Next(old(free), old(brk), s)) && free == After(old(free), s)
                          && brk == if old(free)[Class(s)] == [] then old(brk) + s else old(brk)
    {
      hide PoolOk, OfSize, Pow2, Log2, ValidSize, Class;
      if !ValidSize(s) {
        return None;
      }
      PoolShape(chunks, brk, free, out);
      var k := Class(s);
      if free[k] == [] {
        TakeFresh(chunks, brk, free, out, s);
        CountFresh(chunks, free, numChunks, numFree, brk, s);
        numChunks := numChunks[k := numChunks[k] + 1];
        r := Some(brk);
        chunks, out := chunks[brk := s], out[brk := s];
        brk := brk + s;
      } else {
        TakeFree(chunks, brk, free, out, s);
        r := Some(free[k][0]);
        out := out[free[k][0] := s];
        free := free[k := free[k][1..]];
        numFree := numFree[k := numFree[k] - 1];
      }
    }

    /** mempool_free_chunk: the chunk goes to the list of its size. */
    method FreeChunk(mem: nat, s: nat) returns (res: int)
      requires Valid() && (ValidSize(s) ==> mem in out && out[mem] == s)
      modifies this
      ensures Valid() && res == if ValidSize(s) then 0 else -1
      ensures out == if ValidSize(s) then old(out) - {mem} else old(out)
      ensures |old(free)| == CLASSES && brk == old(brk)
      ensures free == if ValidSize(s) then old(free)[Class(s) := [mem] + old(free)[Class(s)]] else old(free)
    {
      hide PoolOk, OfSize, Pow2, Log2, ValidSize, Class;
      PoolShape(chunks, brk, free, out);
      if !ValidSize(s) {
        return -1;
      }
      var k := Class(s);
      GiveBack(chunks, brk, free, out, mem, s);
      free := free[k := [mem] + free[k]];
      numFree := numFree[k := numFree[k] + 1];
      out := out - {mem};
      res := 0;
    }

    /** A chunk that is given back is the next one of its size to be handed out; no memory is mapped. */
    method GiveAndTake(mem: nat, s: nat)
      requires Valid() && ValidSize(s) && mem in out && out[mem] == s
      modifies this
      ensures Valid() && out == old(out) && free == old(free) && brk == old(brk)
    {
      hide PoolOk, OfSize, Counts, Pow2, Log2, ValidSize, Class;
      var res := FreeChunk(mem, s);
      var r := AllocChunk(s);
      assert [mem] + old(free)[Class(s)] != [] && ([mem] + old(free)[Class(s)])[1..] == old(free)[Class(s)];
    }
  }

  lemma PoolShape(chunks: map<nat, nat>, brk: nat, free: seq<seq<nat>>, out: map<nat, nat>)
    requires PoolOk(chunks, brk, free, out)
    ensures |free| == CLASSES
  {
  }

  /** The chunk that is handed out next: the head of the list of its size, or new memory. */
  function Next(free: seq<seq<nat>>, brk: nat, s: nat): nat
    requires |free| == CLASSES && ValidSize(s)
  {
    if free[Class(s)] == [] then brk else free[Class(s)][0]
  }

  /** The lists then. */
  function After(free: seq<seq<nat>>, s: nat): seq<seq<nat>>
    requires |free| == CLASSES && ValidSize(s)
  {
    if free[Class(s)] == [] then free else free[Class(s) := free[Class(s)][1..]]
  }

  lemma CountFresh(chunks: map<nat, nat>, free: seq<seq<nat>>, numChunks: seq<nat>, numFree: seq<nat>, a: nat, s: nat)
    requires Counts(chunks, free, numChunks, numFree) && a !in chunks && ValidSize(s)
    ensures Counts(chunks[a := s], free, numChunks[Class(s) := numChunks[Class(s)] + 1], numFree)
  {
    hide ValidSize, Pow2, Log2, OfSize;
    forall k | 0 <= k < CLASSES
      ensures |OfSize(chunks[a := s], Pow2(MIN_BITS + k))| == numChunks[k] + if k == Class(s) then 1 else 0
    {
      CountOne(chunks, a, s, Pow2(MIN_BITS + k));
      ClassOf(k);
    }
  }
}
