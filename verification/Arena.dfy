/** The arenas of src/memalloc.c and src/_memalloc.c, several of them over one chunk pool.

Address 0 stands for the null pointer. */
module Arena {
  import opened Options
  import opened Words
  import opened Mempool

  const BLOCK_HEADER: nat := 24
  const INITIAL_BLOCK: nat := 131072

  /** `struct memalloc_block`; `buf` is the type bit that raw blocks carry. */
  datatype Block = Block(addr: nat, size: nat, buf: bool)

  /** `struct memalloc`: what is left of the current block starts at `mem`. */
  datatype Arena = Arena(mem: nat, capacity: nat, avail: nat, blocks: seq<Block>)

  const EMPTY: Arena := Arena(0, 0, 0, [])

  /** Memory handed to a caller, and the chunk it lies in. */
  datatype Region = Region(chunk: nat, addr: nat, size: nat)

  ghost predicate BlocksOk(a: Arena, i: nat, out: map<nat, nat>, owner: map<nat, nat>)
  {
    && (forall k | 0 <= k < |a.blocks| ::
          var b := a.blocks[k]; b.addr in out && out[b.addr] == b.size && b.addr in owner && owner[b.addr] == i)
    && (forall k, l | 0 <= k < l < |a.blocks| :: a.blocks[k].addr != a.blocks[l].addr)
  }

  /** The chunk that the arena is cutting from. */
  ghost predicate CutsFrom(a: Arena, chunk: nat)
  {
    0 < a.capacity && a.mem + a.avail == chunk + a.capacity
  }

  ghost predicate CurrentOk(a: Arena)
    ensures CurrentOk(a) && a.capacity == 0 ==> a.avail == 0 && a.mem == 0
    ensures CurrentOk(a) && 0 < a.capacity ==> INITIAL_BLOCK <= a.capacity && BLOCK_HEADER <= a.mem
  {
    if a.capacity == 0 then a.avail == 0 && a.mem == 0
    else
      && INITIAL_BLOCK <= a.capacity && a.avail + BLOCK_HEADER <= a.capacity <= a.mem + a.avail
      && Block(a.mem + a.avail - a.capacity, a.capacity, false) in a.blocks
  }

  ghost predicate ArenaOk(a: Arena, i: nat, out: map<nat, nat>, owner: map<nat, nat>)
  {
    BlocksOk(a, i, out, owner) && CurrentOk(a)
  }

  /** A region lies in a chunk that is handed out, behind the header, and in front of what the arena
  has still to give. */
  ghost predicate RegionOk(r: Region, out: map<nat, nat>, arenas: seq<Arena>)
  {
    && r.chunk in out
    && r.chunk + BLOCK_HEADER <= r.addr && r.addr + r.size <= r.chunk + out[r.chunk]
    && forall i | 0 <= i < |arenas| && CutsFrom(arenas[i], r.chunk) :: r.addr + r.size <= arenas[i].mem
  }

  ghost predicate Disjoint(r: Region, s: Region)
  {
    r.addr + r.size <= s.addr || s.addr + s.size <= r.addr
  }

  ghost predicate RegionsOk(regions: set<Region>, out: map<nat, nat>, arenas: seq<Arena>)
  {
    && (forall r | r in regions :: RegionOk(r, out, arenas))
    && (forall r, s | r in regions && s in regions && r != s && r.chunk == s.chunk :: Disjoint(r, s))
  }

  ghost predicate ArenasOk(arenas: seq<Arena>, out: map<nat, nat>, owner: map<nat, nat>)
  {
    && (forall a | a in owner :: a in out)
    && forall i | 0 <= i < |arenas| :: ArenaOk(arenas[i], i, out, owner)
  }

  /** Regions handed out and not released do not overlap. */
  lemma RegionsDisjoint(regions: set<Region>, out: map<nat, nat>, arenas: seq<Arena>, brk: nat, r: Region, s: Region)
    requires RegionsOk(regions, out, arenas) && Apart(out, brk) && r in regions && s in regions && r != s
    ensures Disjoint(r, s)
  {
    assert RegionOk(r, out, arenas) && RegionOk(s, out, arenas);
  }

  // ---------- a new block ----------

  /** A block is added to arena `i`; it becomes the one the arena cuts from unless it is a raw one. */
  ghost function WithBlock(a: Arena, b: Block): Arena
    requires BLOCK_HEADER <= b.size
  {
    if b.buf then a.(blocks := a.blocks + [b])
    else Arena(b.addr + BLOCK_HEADER, b.size, b.size - BLOCK_HEADER, a.blocks + [b])
  }

  lemma AddBlock(arenas: seq<Arena>, out: map<nat, nat>, owner: map<nat, nat>, regions: set<Region>, i: nat, b: Block)
    requires ArenasOk(arenas, out, owner) && RegionsOk(regions, out, arenas) && i < |arenas|
    requires b.addr !in out && BLOCK_HEADER <= b.size && (!b.buf ==> INITIAL_BLOCK <= b.size)
    ensures var arenas' := arenas[i := WithBlock(arenas[i], b)];
            && ArenasOk(arenas', out[b.addr := b.size], owner[b.addr := i])
            && RegionsOk(regions, out[b.addr := b.size], arenas')
  {
    AddBlockArenas(arenas, out, owner, i, b);
    AddBlockRegions(arenas, out, owner, regions, i, b);
  }

  lemma AddBlockArenas(arenas: seq<Arena>, out: map<nat, nat>, owner: map<nat, nat>, i: nat, b: Block)
    requires ArenasOk(arenas, out, owner) && i < |arenas|
    requires b.addr !in out && BLOCK_HEADER <= b.size && (!b.buf ==> INITIAL_BLOCK <= b.size)
    ensures ArenasOk(arenas[i := WithBlock(arenas[i], b)], out[b.addr := b.size], owner[b.addr := i])
  {
    var arenas' := arenas[i := WithBlock(arenas[i], b)];
    forall j | 0 <= j < |arenas'|
      ensures ArenaOk(arenas'[j], j, out[b.addr := b.size], owner[b.addr := i])
    {
      assert ArenaOk(arenas[j], j, out, owner);
      if j == i {
        assert arenas'[i].blocks[|arenas[i].blocks|] == b;
      }
    }
  }

  lemma AddBlockRegions(arenas: seq<Arena>, out: map<nat, nat>, owner: map<nat, nat>, regions: set<Region>, i: nat,
                        b: Block)
    requires RegionsOk(regions, out, arenas) && i < |arenas|
    requires b.addr !in out && BLOCK_HEADER <= b.size
    ensures RegionsOk(regions, out[b.addr := b.size], arenas[i := WithBlock(arenas[i], b)])
  {
    var arenas' := arenas[i := WithBlock(arenas[i], b)];
    forall r | r in regions
      ensures RegionOk(r, out[b.addr := b.size], arenas')
    {
      assert RegionOk(r, out, arenas);
      if b.buf {
        assert CutsFrom(arenas'[i], r.chunk) <==> CutsFrom(arenas[i], r.chunk);
      } else {
        assert CutsFrom(arenas'[i], b.addr);
      }
    }
  }

  // ---------- cutting from the current block ----------

  lemma Cut(arenas: seq<Arena>, out: map<nat, nat>, owner: map<nat, nat>, regions: set<Region>, i: nat, size: nat)
    requires ArenasOk(arenas, out, owner) && RegionsOk(regions, out, arenas) && i < |arenas|
    requires 0 < arenas[i].capacity && size <= arenas[i].avail
    ensures var a := arenas[i];
            var chunk := a.mem + a.avail - a.capacity;
            var arenas' := arenas[i := a.(mem := a.mem + size, avail := a.avail - size)];
            && 0 <= chunk
            && ArenasOk(arenas', out, owner) && RegionsOk(regions + {Region(chunk, a.mem, size)}, out, arenas')
  {
    var a := arenas[i];
    assert ArenaOk(a, i, out, owner);
    var chunk := a.mem + a.avail - a.capacity;
    var a' := a.(mem := a.mem + size, avail := a.avail - size);
    var arenas' := arenas[i := a'];
    forall j | 0 <= j < |arenas'|
      ensures ArenaOk(arenas'[j], j, out, owner)
    {
      assert ArenaOk(arenas[j], j, out, owner);
    }
    CutRegions(arenas, out, owner, regions, i, size, chunk);
  }

  lemma OneArenaCuts(arenas: seq<Arena>, out: map<nat, nat>, owner: map<nat, nat>, i: nat, j: nat, chunk: nat)
    requires ArenasOk(arenas, out, owner) && i < |arenas| && j < |arenas|
    requires CutsFrom(arenas[i], chunk) && CutsFrom(arenas[j], chunk)
    ensures i == j && chunk in out && out[chunk] == arenas[i].capacity
  {
    assert ArenaOk(arenas[i], i, out, owner) && ArenaOk(arenas[j], j, out, owner);
  }

  lemma CutRegions(arenas: seq<Arena>, out: map<nat, nat>, owner: map<nat, nat>, regions: set<Region>, i: nat,
                   size: nat, chunk: nat)
    requires ArenasOk(arenas, out, owner) && RegionsOk(regions, out, arenas) && i < |arenas|
    requires CutsFrom(arenas[i], chunk) && size <= arenas[i].avail
    ensures var a := arenas[i];
            RegionsOk(regions + {Region(chunk, a.mem, size)}, out,
              arenas[i := a.(mem := a.mem + size, avail := a.avail - size)])
  {
    var a := arenas[i];
    var arenas' := arenas[i := a.(mem := a.mem + size, avail := a.avail - size)];
    var cut := Region(chunk, a.mem, size);
    assert ArenaOk(a, i, out, owner);
    OneArenaCuts(arenas, out, owner, i, i, chunk);
    forall r | r in regions + {cut}
      ensures RegionOk(r, out, arenas')
    {
      if r in regions {
        assert RegionOk(r, out, arenas);
      }
      forall j | 0 <= j < |arenas'| && CutsFrom(arenas'[j], r.chunk)
        ensures r.addr + r.size <= arenas'[j].mem
      {
        assert CutsFrom(arenas[j], r.chunk);
        if r == cut {
          OneArenaCuts(arenas, out, owner, i, j, chunk);
        }
      }
    }
  }

  lemma AddRaw(arenas: seq<Arena>, out: map<nat, nat>, owner: map<nat, nat>, regions: set<Region>, i: nat, b: Block)
    requires ArenasOk(arenas, out, owner) && RegionsOk(regions, out, arenas) && i < |arenas|
    requires b.addr !in out && BLOCK_HEADER <= b.size && b.buf
    ensures var arenas' := arenas[i := WithBlock(arenas[i], b)];
            && ArenasOk(arenas', out[b.addr := b.size], owner[b.addr := i])
            && RegionsOk(regions + {Region(b.addr, b.addr + BLOCK_HEADER, b.size - BLOCK_HEADER)},
               out[b.addr := b.size], arenas')
  {
    var arenas' := arenas[i := WithBlock(arenas[i], b)];
    var raw := Region(b.addr, b.addr + BLOCK_HEADER, b.size - BLOCK_HEADER);
    AddBlock(arenas, out, owner, regions, i, b);
    forall r | r in regions
      ensures r.chunk != b.addr
    {
      assert RegionOk(r, out, arenas);
    }
    forall j | 0 <= j < |arenas'| && CutsFrom(arenas'[j], b.addr)
      ensures false
    {
      assert CutsFrom(arenas[j], b.addr);
      OneArenaCuts(arenas, out, owner, j, j, b.addr);
    }
  }

  // ---------- giving chunks back ----------

  ghost function Kept(regions: set<Region>, freed: set<nat>): set<Region>
  {
    set r | r in regions && r.chunk !in freed
  }

  lemma KeptOk(regions: set<Region>, out: map<nat, nat>, arenas: seq<Arena>, arenas': seq<Arena>, freed: set<nat>)
    requires RegionsOk(regions, out, arenas) && |arenas| == |arenas'|
    requires forall j | 0 <= j < |arenas| ::
               arenas'[j].capacity == 0
               || (arenas'[j].mem == arenas[j].mem && arenas'[j].avail == arenas[j].avail
                   && arenas'[j].capacity == arenas[j].capacity)
    ensures RegionsOk(Kept(regions, freed), out - freed, arenas')
  {
    forall r | r in Kept(regions, freed)
      ensures RegionOk(r, out - freed, arenas')
    {
      assert RegionOk(r, out, arenas);
      forall j | 0 <= j < |arenas'| && CutsFrom(arenas'[j], r.chunk)
        ensures r.addr + r.size <= arenas'[j].mem
      {
        assert CutsFrom(arenas[j], r.chunk);
      }
    }
  }

  /** Removing raw block `k` of arena `i`. */
  lemma RemoveBlock(arenas: seq<Arena>, out: map<nat, nat>, owner: map<nat, nat>, i: nat, k: nat)
    requires ArenasOk(arenas, out, owner) && i < |arenas| && k < |arenas[i].blocks| && arenas[i].blocks[k].buf
    ensures var a := arenas[i];
            var gone := {a.blocks[k].addr};
            ArenasOk(arenas[i := a.(blocks := a.blocks[..k] + a.blocks[k + 1..])], out - gone, owner - gone)
  {
    var a := arenas[i];
    var b := a.blocks[k];
    var a' := a.(blocks := a.blocks[..k] + a.blocks[k + 1..]);
    assert ArenaOk(a, i, out, owner);
    var arenas' := arenas[i := a'];
    forall j | 0 <= j < |arenas'|
      ensures ArenaOk(arenas'[j], j, out - {b.addr}, owner - {b.addr})
    {
      assert ArenaOk(arenas[j], j, out, owner);
      if j == i {
        WithoutBlock(a, i, out, owner, k);
      }
    }
  }

  lemma WithoutBlock(a: Arena, i: nat, out: map<nat, nat>, owner: map<nat, nat>, k: nat)
    requires ArenaOk(a, i, out, owner) && k < |a.blocks| && a.blocks[k].buf
    ensures var gone := {a.blocks[k].addr};
            ArenaOk(a.(blocks := a.blocks[..k] + a.blocks[k + 1..]), i, out - gone, owner - gone)
  {
    var blocks := a.blocks[..k] + a.blocks[k + 1..];
    assert forall l | 0 <= l < |blocks| :: blocks[l] == if l < k then a.blocks[l] else a.blocks[l + 1];
    if 0 < a.capacity {
      var l :| 0 <= l < |a.blocks| && a.blocks[l] == Block(a.mem + a.avail - a.capacity, a.capacity, false);
      assert blocks[if l < k then l else l - 1] == a.blocks[l];
    }
  }

  ghost function Addrs(blocks: seq<Block>): set<nat>
  {
    set k | 0 <= k < |blocks| :: blocks[k].addr
  }

  /** The blocks that a reset gives back. */
  ghost function Freed(blocks: seq<Block>, onlyBuf: bool): set<nat>
  {
    set k | 0 <= k < |blocks| && (blocks[k].buf || !onlyBuf) :: blocks[k].addr
  }

  lemma Empty(arenas: seq<Arena>, out: map<nat, nat>, owner: map<nat, nat>, i: nat, freed: set<nat>)
    requires ArenasOk(arenas, out, owner) && i < |arenas| && freed <= Addrs(arenas[i].blocks)
    ensures ArenasOk(arenas[i := EMPTY], out - freed, owner - Addrs(arenas[i].blocks))
  {
    assert ArenaOk(arenas[i], i, out, owner);
    var gone := Addrs(arenas[i].blocks);
    forall a | a in gone
      ensures a in owner && owner[a] == i
    {
      var k :| 0 <= k < |arenas[i].blocks| && arenas[i].blocks[k].addr == a;
    }
    var arenas' := arenas[i := EMPTY];
    forall j | 0 <= j < |arenas'|
      ensures ArenaOk(arenas'[j], j, out - freed, owner - gone)
    {
      assert ArenaOk(arenas[j], j, out, owner);
    }
  }

  lemma InitialIsValid()
    ensures ValidSize(INITIAL_BLOCK)
  {
    assert Pow2(8) == 256;
    assert Pow2(16) == 65536;
    hide ValidSize, NextPow2, Log2;
    Pow2Half(17);
    PowerIsValid(17);
  }

  lemma CurrentChunk(arenas: seq<Arena>, out: map<nat, nat>, owner: map<nat, nat>, i: nat)
    requires ArenasOk(arenas, out, owner) && i < |arenas|
    ensures CurrentOk(arenas[i])
    ensures var a := arenas[i];
            var chunk := a.mem + a.avail - a.capacity;
            0 < a.capacity ==> 0 <= chunk && chunk in out && out[chunk] == a.capacity
  {
    assert ArenaOk(arenas[i], i, out, owner);
  }

  lemma OutIsValid(chunks: map<nat, nat>, brk: nat, free: seq<seq<nat>>, out: map<nat, nat>, a: nat)
    requires PoolOk(chunks, brk, free, out) && a in out
    ensures ValidSize(out[a])
  {
    hide ValidSize;
  }

  lemma NextSize(arenas: seq<Arena>, out: map<nat, nat>, owner: map<nat, nat>, i: nat, chunks: map<nat, nat>, brk: nat,
                 free: seq<seq<nat>>)
    requires ArenasOk(arenas, out, owner) && i < |arenas| && PoolOk(chunks, brk, free, out)
    ensures CurrentOk(arenas[i]) && arenas[i].capacity <= MAX_CHUNK && ValidSize(INITIAL_BLOCK)
    ensures 0 < arenas[i].capacity ==> (ValidSize(2 * arenas[i].capacity) <==> arenas[i].capacity < MAX_CHUNK)
  {
    hide *;
    var a := arenas[i];
    CurrentChunk(arenas, out, owner, i);
    InitialIsValid();
    if 0 < a.capacity {
      OutIsValid(chunks, brk, free, out, a.mem + a.avail - a.capacity);
      DoubleIsValid(a.capacity);
    }
  }

  // ---------- blocks taken for an allocation ----------

  /** The size of the next block. */
  function NextBlock(a: Arena): (size: nat)
    ensures 0 < size
  {
    if a.capacity != 0 then 2 * a.capacity else INITIAL_BLOCK
  }

  /** Blocks taken one after the other, each twice the size of the one before. */
  ghost predicate Doubling(a: Arena, added: seq<Block>)
  {
    && (added != [] ==> added[0].size == NextBlock(a))
    && (forall k | 0 < k < |added| :: added[k].size == 2 * added[k - 1].size)
    && (forall k | 0 <= k < |added| :: !added[k].buf)
  }

  /** The arena once it has taken these blocks: the whole of the last one is left. */
  ghost function WithBlocks(a: Arena, added: seq<Block>): (r: Arena)
    requires added != [] ==> BLOCK_HEADER <= added[|added| - 1].size
  {
    if added == [] then a
    else
      var b := added[|added| - 1];
      Arena(b.addr + BLOCK_HEADER, b.size, b.size - BLOCK_HEADER, a.blocks + added)
  }

  /** No block but the last one is large enough. */
  ghost predicate TooSmall(added: seq<Block>, size: nat)
  {
    forall k | 0 <= k < |added| - 1 :: added[k].size < size + BLOCK_HEADER
  }

  /** The chunks handed out once these blocks have been taken. */
  ghost function OutWith(out: map<nat, nat>, added: seq<Block>): (r: map<nat, nat>)
  {
    if added == [] then out
    else
      var n := |added| - 1;
      OutWith(out, added[..n])[added[n].addr := added[n].size]
  }

  /** None of the blocks was handed out before it was taken. */
  ghost predicate NewChunks(out: map<nat, nat>, added: seq<Block>)
  {
    forall k | 0 <= k < |added| :: added[k].addr !in OutWith(out, added[..k])
  }

  ghost predicate Grown(a: Arena, a': Arena, out: map<nat, nat>, out': map<nat, nat>, added: seq<Block>, size: nat)
    ensures Grown(a, a', out, out', added, size) ==> Doubling(a, added) && out' == OutWith(out, added)
    ensures Grown(a, a', out, out', added, size) ==> NewChunks(out, added) && TooSmall(added, size)
    ensures Grown(a, a', out, out', added, size) && added != [] ==> BLOCK_HEADER <= added[|added| - 1].size
    ensures Grown(a, a', out, out', added, size) ==> a' == WithBlocks(a, added)
  {
    && Doubling(a, added) && TooSmall(added, size) && out' == OutWith(out, added) && NewChunks(out, added)
    && (added != [] ==> BLOCK_HEADER <= added[|added| - 1].size) && a' == WithBlocks(a, added)
  }

  lemma GrownNot(a: Arena, out: map<nat, nat>, size: nat)
    ensures Grown(a, a, out, out, [], size)
  {
  }

  lemma OutWithMore(out: map<nat, nat>, added: seq<Block>, b: Block)
    requires NewChunks(out, added) && b.addr !in OutWith(out, added)
    ensures OutWith(out, added + [b]) == OutWith(out, added)[b.addr := b.size] && NewChunks(out, added + [b])
  {
    var all := added + [b];
    assert all[..|added|] == added;
    hide OutWith;
    forall k | 0 <= k < |all|
      ensures all[k].addr !in OutWith(out, all[..k])
    {
      assert k < |added| ==> all[..k] == added[..k];
    }
  }

  lemma DoublingMore(a: Arena, added: seq<Block>, b: Block, size: nat)
    requires Doubling(a, added) && TooSmall(added, size) && !b.buf
    requires b.size == if added == [] then NextBlock(a) else 2 * added[|added| - 1].size
    requires added != [] ==> added[|added| - 1].size < size + BLOCK_HEADER
    ensures Doubling(a, added + [b]) && TooSmall(added + [b], size)
  {
  }

  lemma GrownMore(a: Arena, a': Arena, out: map<nat, nat>, out': map<nat, nat>, added: seq<Block>, size: nat, b: Block)
    requires Grown(a, a', out, out', added, size) && a'.avail < size && b.addr !in out' && !b.buf
    requires b.size == NextBlock(a') && BLOCK_HEADER <= b.size
    ensures Grown(a, WithBlock(a', b), out, out'[b.addr := b.size], added + [b], size)
  {
    hide OutWith, NewChunks, Doubling, TooSmall, WithBlocks;
    OutWithMore(out, added, b);
    WithBlocksMore(a, added, b);
    DoublingMore(a, added, b, size);
  }

  lemma WithBlocksMore(a: Arena, added: seq<Block>, b: Block)
    requires (added != [] ==> BLOCK_HEADER <= added[|added| - 1].size) && BLOCK_HEADER <= b.size && !b.buf
    ensures WithBlocks(a, added + [b]) == WithBlock(WithBlocks(a, added), b)
    ensures NextBlock(WithBlocks(a, added)) == if added == [] then NextBlock(a) else 2 * added[|added| - 1].size
    ensures added != [] ==> WithBlocks(a, added).avail == added[|added| - 1].size - BLOCK_HEADER
  {
    assert a.blocks + added + [b] == a.blocks + (added + [b]);
  }

  // ---------- the arenas ----------

  class Arenas {
    const pool: Mempool
    var arenas: seq<Arena>
    /** The arena that each block belongs to. */
    ghost var owner: map<nat, nat>
    /** What has been handed out and not been released. */
    ghost var regions: set<Region>

    ghost predicate Valid()
      reads this, pool
    {
      pool.Valid() && ArenasOk(arenas, pool.out, owner) && RegionsOk(regions, pool.out, arenas)
    }

    constructor (n: nat, start: nat)
      ensures Valid() && fresh(pool) && |arenas| == n && regions == {}
    {
      pool := new Mempool(start);
      arenas := seq(n, _ => EMPTY);
      owner, regions := map[], {};
    }

    /** memalloc_new_block: twice the size of the last one, or the initial size. */
    method NewBlock(i: nat) returns (ok: bool, ghost b: Block)
      requires Valid() && i < |arenas|
      modifies this`arenas, this`owner, pool
      ensures Valid()
      ensures ok <==> old(arenas[i].capacity) < MAX_CHUNK
      ensures !ok ==> arenas == old(arenas) && owner == old(owner) && unchanged(pool)
      ensures ok ==> b.size == NextBlock(old(arenas[i])) && !b.buf && b.addr !in old(pool.out)
      ensures ok ==> BLOCK_HEADER <= b.size && arenas == old(arenas)[i := WithBlock(old(arenas[i]), b)]
      ensures ok ==> pool.out == old(pool.out)[b.addr := b.size]
      ensures ok ==> ValidSize(b.size) && |old(pool.free)| == CLASSES
                     && b.addr == Next(old(pool.free), old(pool.brk), b.size)
                     && pool.free == After(old(pool.free), b.size)
    {
      hide ArenasOk, RegionsOk, PoolOk, Counts, ValidSize, BlocksOk, CurrentOk, Next, After, Class;
      b := Block(0, 0, false);
      NextSize(arenas, pool.out, owner, i, pool.chunks, pool.brk, pool.free);
      var a := arenas[i];
      var size := if a.capacity != 0 then 2 * a.capacity else INITIAL_BLOCK;
      var mem := pool.AllocChunk(size);
      if mem == None {
        return false, b;
      }
      b := Block(mem.value, size, false);
      AddBlock(arenas, old(pool.out), owner, regions, i, b);
      arenas := arenas[i := Arena(mem.value + BLOCK_HEADER, size, size - BLOCK_HEADER,
                                  a.blocks + [Block(mem.value, size, false)])];
      owner := owner[mem.value := i];
      ok := true;
    }

    /** The loop of memalloc_resize_if_less: blocks of doubled sizes until one is large enough, or there
    are no larger ones. */
    method ResizeIfLess(i: nat, size: nat) returns (ok: bool, ghost added: seq<Block>)
      requires Valid() && i < |arenas|
      modifies this`arenas, this`owner, pool
      ensures Valid() && |arenas| == |old(arenas)| && arenas == old(arenas)[i := arenas[i]]
      ensures Grown(old(arenas[i]), arenas[i], old(pool.out), pool.out, added, size)
      ensures if ok then size <= arenas[i].avail else arenas[i].avail < size && arenas[i].capacity == MAX_CHUNK
      ensures added == [] ==> arenas == old(arenas) && owner == old(owner) && unchanged(pool)
      ensures size <= old(arenas[i]).avail ==> ok && added == []
      ensures ok <==> (var a := old(arenas[i]);
                       size <= a.avail || (a.capacity < MAX_CHUNK && size <= MAX_CHUNK - BLOCK_HEADER))
    {
      hide ArenasOk, RegionsOk, PoolOk, Counts, ValidSize, BlocksOk, Grown, Next, After, Class;
      NextSize(arenas, pool.out, owner, i, pool.chunks, pool.brk, pool.free);
      added := [];
      GrownNot(arenas[i], pool.out, size);
      while arenas[i].avail < size
        invariant Valid() && |arenas| == |old(arenas)| && arenas == old(arenas)[i := arenas[i]]
        invariant CurrentOk(arenas[i]) && arenas[i].capacity <= MAX_CHUNK
        invariant Grown(old(arenas[i]), arenas[i], old(pool.out), pool.out, added, size)
        invariant if added == [] then arenas == old(arenas) && owner == old(owner) && unchanged(pool)
                  else && old(arenas[i]).avail < size && old(arenas[i]).capacity < arenas[i].capacity
                       && arenas[i].avail == arenas[i].capacity - BLOCK_HEADER
        decreases MAX_CHUNK - arenas[i].capacity
      {
        ghost var b;
        ghost var a, out := arenas[i], pool.out;
        ok, b := NewBlock(i);
        NextSize(arenas, pool.out, owner, i, pool.chunks, pool.brk, pool.free);
        if !ok {
          return;
        }
        GrownMore(old(arenas[i]), a, old(pool.out), out, added, size, b);
        added := added + [b];
      }
      ok := true;
    }

    /** memalloc_alloc: what is asked for is cut from the front of what is left of the current block, after
    larger blocks have been taken if that is too little.  It fails, with a null pointer, when not even the
    largest block would do. */
    method Alloc(i: nat, size: nat) returns (mem: nat, ghost chunk: nat, ghost added: seq<Block>)
      requires Valid() && i < |arenas|
      modifies this, pool
      ensures Valid()
      ensures var a := old(arenas[i]);
              mem == 0 <==> (a.capacity == 0 && size == 0)
                            || (a.avail < size && (MAX_CHUNK <= a.capacity || MAX_CHUNK - BLOCK_HEADER < size))
      ensures regions == if mem == 0 then old(regions) else old(regions) + {Region(chunk, mem, size)}
      ensures size <= old(arenas[i]).avail ==> added == []
      ensures if added == [] then unchanged(pool) else BLOCK_HEADER <= added[|added| - 1].size
      ensures var a := WithBlocks(old(arenas[i]), added);
              && Grown(old(arenas[i]), a, old(pool.out), pool.out, added, size)
              && (if size <= a.avail then
                    mem == a.mem && arenas == old(arenas)[i := a.(mem := a.mem + size, avail := a.avail - size)]
                  else mem == 0 && arenas == old(arenas)[i := a] && a.capacity == MAX_CHUNK)
    {
      hide ArenasOk, RegionsOk, PoolOk, Counts, ValidSize, BlocksOk, Grown;
      mem, chunk := 0, 0;
      var ok;
      ok, added := ResizeIfLess(i, size);
      NextSize(arenas, pool.out, owner, i, pool.chunks, pool.brk, pool.free);
      if !ok {
        return;
      }
      var a := arenas[i];
      mem := a.mem;
      if a.capacity != 0 {
        Cut(arenas, pool.out, owner, regions, i, size);
        chunk := a.mem + a.avail - a.capacity;
        regions := regions + {Region(chunk, mem, size)};
      } else {
        assert arenas[i := a.(mem := a.mem + size, avail := a.avail - size)] == arenas;
      }
      arenas := arenas[i := a.(mem := a.mem + size, avail := a.avail - size)];
    }

    /** Any allocations that add up to no more than is left of the current block lie one behind the other,
    and take no chunk. */
    method AllocEach(i: nat, sizes: seq<nat>) returns (mems: seq<nat>)
      requires Valid() && i < |arenas| && 0 < arenas[i].capacity && Sum(sizes) <= arenas[i].avail
      modifies this, pool
      ensures Valid() && unchanged(pool) && |mems| == |sizes|
      ensures forall k | 0 <= k < |sizes| :: mems[k] == old(arenas[i]).mem + Sum(sizes[..k])
      ensures var a := old(arenas[i]);
              arenas == old(arenas)[i := a.(mem := a.mem + Sum(sizes), avail := a.avail - Sum(sizes))]
    {
      hide ArenasOk, RegionsOk, PoolOk, Counts, Grown, Sum;
      mems := [];
      SumNone(sizes);
      for n := 0 to |sizes|
        invariant Valid() && unchanged(pool) && |mems| == n && Sum(sizes[..n]) <= Sum(sizes)
        invariant forall k | 0 <= k < n :: mems[k] == old(arenas[i]).mem + Sum(sizes[..k])
        invariant var a := old(arenas[i]);
                  arenas == old(arenas)[i := a.(mem := a.mem + Sum(sizes[..n]), avail := a.avail - Sum(sizes[..n]))]
      {
        SumMore(sizes, n);
        var mem, _, added := Alloc(i, sizes[n]);
        assert WithBlocks(old(arenas[i]), []) == old(arenas[i]);
        mems := mems + [mem];
      }
      assert sizes[..|sizes|] == sizes;
    }

    /** memalloc_alloc_raw: a whole chunk, which is found for sizes above a page or so only. */
    method AllocRaw(i: nat, size: nat) returns (given: nat, mem: nat)
      requires Valid() && i < |arenas|
      modifies this, pool
      ensures Valid() && |arenas| == |old(arenas)|
      ensures 0 < given <==> 2048 < size + BLOCK_HEADER <= MAX_CHUNK
      ensures given == 0 ==> unchanged(this) && unchanged(pool)
      ensures 0 < given ==> size <= given && LeastPower(size + BLOCK_HEADER, given + BLOCK_HEADER)
      ensures 0 < given ==>
                && BLOCK_HEADER <= mem && mem - BLOCK_HEADER !in old(pool.out)
                && regions == old(regions) + {Region(mem - BLOCK_HEADER, mem, given)}
                && pool.out == old(pool.out)[mem - BLOCK_HEADER := given + BLOCK_HEADER]
                && (var b := Block(mem - BLOCK_HEADER, given + BLOCK_HEADER, true);
                    arenas == old(arenas)[i := old(arenas[i]).(blocks := old(arenas[i]).blocks + [b])])
    {
      hide ArenasOk, RegionsOk, PoolOk, Counts, ValidSize, BlocksOk, CurrentOk, LeastPower, Next, After, Class;
      RawSize(size + BLOCK_HEADER);
      NextIsLeast(size + BLOCK_HEADER);
      given, mem := 0, 0;
      var s := NextPow2(size + BLOCK_HEADER);
      var chunk := pool.AllocChunk(s);
      if chunk == None {
        return;
      }
      var b := Block(chunk.value, s, true);
      AddRaw(arenas, old(pool.out), owner, regions, i, b);
      arenas := arenas[i := arenas[i].(blocks := arenas[i].blocks + [b])];
      owner := owner[chunk.value := i];
      given, mem := s - BLOCK_HEADER, chunk.value + BLOCK_HEADER;
      regions := regions + {Region(chunk.value, mem, given)};
    }

    /** memalloc_free_raw, of raw block `k` of arena `i`: its chunk goes back, and what was handed out in it is gone. */
    method FreeRaw(i: nat, k: nat)
      requires Valid() && i < |arenas| && k < |arenas[i].blocks| && arenas[i].blocks[k].buf
      modifies this, pool
      ensures Valid()
      ensures var a := old(arenas[i]);
              arenas == old(arenas)[i := a.(blocks := a.blocks[..k] + a.blocks[k + 1..])]
      ensures regions == Kept(old(regions), {old(arenas[i].blocks[k].addr)})
      ensures pool.out == old(pool.out) - {old(arenas[i].blocks[k].addr)}
    {
      hide ArenasOk, RegionsOk, PoolOk, Counts, ValidSize, BlocksOk, CurrentOk, Kept;
      var a := arenas[i];
      var b := a.blocks[k];
      BlockIsOut(arenas, pool.out, owner, i, k, pool.chunks, pool.brk, pool.free);
      RemoveBlock(arenas, pool.out, owner, i, k);
      ghost var before := arenas;
      arenas := arenas[i := a.(blocks := a.blocks[..k] + a.blocks[k + 1..])];
      KeptOk(regions, pool.out, before, arenas, {b.addr});
      var _ := pool.FreeChunk(b.addr, b.size);
      owner := owner - {b.addr};
      regions := Kept(regions, {b.addr});
    }

    /** memalloc_reset2: gives back every block, or only the raw ones and forgets the others. */
    method Reset(i: nat, onlyBuf: bool)
      requires Valid() && i < |arenas|
      modifies this, pool
      ensures Valid() && arenas == old(arenas)[i := EMPTY]
      ensures pool.out == old(pool.out) - Freed(old(arenas[i].blocks), onlyBuf)
      ensures regions == Kept(old(regions), Freed(old(arenas[i].blocks), onlyBuf))
    {
      hide ArenasOk, RegionsOk, PoolOk, Counts, ValidSize, BlocksOk, CurrentOk, Kept, Freed, Addrs;
      var blocks := arenas[i].blocks;
      ghost var out := pool.out;
      FreedNone(blocks, onlyBuf);
      BlocksAreOut(arenas, pool.out, owner, i, pool.chunks, pool.brk, pool.free);
      for k := 0 to |blocks|
        invariant pool.Valid() && pool.out == out - Freed(blocks[..k], onlyBuf)
        invariant arenas == old(arenas) && owner == old(owner) && regions == old(regions)
      {
        FreedMore(blocks, k, onlyBuf);
        if blocks[k].buf || !onlyBuf {
          var _ := pool.FreeChunk(blocks[k].addr, blocks[k].size);
        }
      }
      assert blocks[..|blocks|] == blocks;
      FreedWithin(blocks, onlyBuf);
      Empty(arenas, out, owner, i, Freed(blocks, onlyBuf));
      KeptOk(regions, out, arenas, arenas[i := EMPTY], Freed(blocks, onlyBuf));
      owner := owner - Addrs(blocks);
      regions := Kept(regions, Freed(blocks, onlyBuf));
      arenas := arenas[i := EMPTY];
    }

    /** No two regions that are handed out overlap, whichever arenas they come from. */
    lemma HandedOutDisjoint()
      requires Valid()
      ensures forall r, s | r in regions && s in regions && r != s :: Disjoint(r, s)
    {
      OutApart(pool.chunks, pool.brk, pool.free, pool.out);
      forall r, s | r in regions && s in regions && r != s
        ensures Disjoint(r, s)
      {
        RegionsDisjoint(regions, pool.out, arenas, pool.brk, r, s);
      }
    }

    /** No block is in two arenas, and none is twice in one. */
    lemma BlocksOnce(i: nat, k: nat, j: nat, l: nat)
      requires Valid() && i < |arenas| && j < |arenas| && k < |arenas[i].blocks| && l < |arenas[j].blocks|
      requires arenas[i].blocks[k].addr == arenas[j].blocks[l].addr
      ensures i == j && k == l && arenas[i].blocks[k].addr in pool.out
    {
      assert ArenaOk(arenas[i], i, pool.out, owner) && ArenaOk(arenas[j], j, pool.out, owner);
    }

    /** Any run of the operations, over any of the arenas; those that a caller may not make are skipped. */
    method Run(ops: seq<Op>)
      requires Valid()
      modifies this, pool
      ensures Valid() && forall r, s | r in regions && s in regions && r != s :: Disjoint(r, s)
    {
      for n := 0 to |ops|
        invariant Valid()
      {
        hide ArenasOk, RegionsOk, PoolOk, Counts;
        var i := ops[n].arena;
        if i < |arenas| {
          match ops[n] {
            case Cutting(_, size) => var _, _, _ := Alloc(i, size);
            case Taking(_, size) => var _, _ := AllocRaw(i, size);
            case Returning(_, k) =>
              if k < |arenas[i].blocks| && arenas[i].blocks[k].buf {
                FreeRaw(i, k);
              }
            case Resetting(_, onlyBuf) => Reset(i, onlyBuf);
          }
        }
      }
      HandedOutDisjoint();
    }
  }

  datatype Op =
    | Cutting(arena: nat, size: nat)
    | Taking(arena: nat, size: nat)
    | Returning(arena: nat, block: nat)
    | Resetting(arena: nat, onlyBuf: bool)

  lemma BlockIsOut(arenas: seq<Arena>, out: map<nat, nat>, owner: map<nat, nat>, i: nat, k: nat, chunks: map<nat, nat>,
                   brk: nat, free: seq<seq<nat>>)
    requires ArenasOk(arenas, out, owner) && i < |arenas| && PoolOk(chunks, brk, free, out) && k < |arenas[i].blocks|
    ensures var b := arenas[i].blocks[k]; b.addr in out && out[b.addr] == b.size && ValidSize(b.size)
  {
    hide ValidSize, CurrentOk;
    assert ArenaOk(arenas[i], i, out, owner);
    OutIsValid(chunks, brk, free, out, arenas[i].blocks[k].addr);
  }

  /** The blocks of an arena are chunks handed out, no two the same. */
  ghost predicate AllOut(blocks: seq<Block>, out: map<nat, nat>)
  {
    && (forall k | 0 <= k < |blocks| ::
          blocks[k].addr in out && out[blocks[k].addr] == blocks[k].size && ValidSize(blocks[k].size))
    && (forall k, l | 0 <= k < l < |blocks| :: blocks[k].addr != blocks[l].addr)
  }

  lemma BlocksAreOut(arenas: seq<Arena>, out: map<nat, nat>, owner: map<nat, nat>, i: nat, chunks: map<nat, nat>,
                     brk: nat, free: seq<seq<nat>>)
    requires ArenasOk(arenas, out, owner) && i < |arenas| && PoolOk(chunks, brk, free, out)
    ensures AllOut(arenas[i].blocks, out)
  {
    assert ArenaOk(arenas[i], i, out, owner);
    hide ValidSize, PoolOk, CurrentOk;
    forall k | 0 <= k < |arenas[i].blocks|
      ensures ValidSize(arenas[i].blocks[k].size)
    {
      OutIsValid(chunks, brk, free, out, arenas[i].blocks[k].addr);
    }
  }

  lemma FreedNone(blocks: seq<Block>, onlyBuf: bool)
    ensures Freed(blocks[..0], onlyBuf) == {}
  {
  }

  lemma FreedMore(blocks: seq<Block>, k: nat, onlyBuf: bool)
    requires k < |blocks|
    ensures Freed(blocks[..k + 1], onlyBuf)
         == Freed(blocks[..k], onlyBuf) + if blocks[k].buf || !onlyBuf then {blocks[k].addr} else {}
    ensures (forall l | 0 <= l < k :: blocks[l].addr != blocks[k].addr)
            ==> blocks[k].addr !in Freed(blocks[..k], onlyBuf)
  {
    var more, less := Freed(blocks[..k + 1], onlyBuf), Freed(blocks[..k], onlyBuf);
    assert blocks[..k + 1][..k] == blocks[..k] && blocks[..k + 1][k] == blocks[k];
    forall a | a in less
      ensures a in more
    {
      var l :| 0 <= l < k && (blocks[..k][l].buf || !onlyBuf) && blocks[..k][l].addr == a;
      assert blocks[..k + 1][l] == blocks[..k][l];
    }
    forall a | a in more
      ensures a in less || ((blocks[k].buf || !onlyBuf) && a == blocks[k].addr)
    {
      var l :| 0 <= l < k + 1 && (blocks[..k + 1][l].buf || !onlyBuf) && blocks[..k + 1][l].addr == a;
      if l < k {
        assert blocks[..k + 1][l] == blocks[..k][l];
      }
    }
  }

  lemma FreedWithin(blocks: seq<Block>, onlyBuf: bool)
    ensures Freed(blocks, onlyBuf) <= Addrs(blocks)
  {
  }

  function Sum(sizes: seq<nat>): nat
  {
    if sizes == [] then 0 else Sum(sizes[..|sizes| - 1]) + sizes[|sizes| - 1]
  }

  lemma SumNone(sizes: seq<nat>)
    ensures Sum(sizes[..0]) == 0 <= Sum(sizes)
  {
  }

  lemma {:induction false} SumMore(sizes: seq<nat>, n: nat)
    requires n < |sizes|
    ensures Sum(sizes[..n + 1]) == Sum(sizes[..n]) + sizes[n] && Sum(sizes[..n + 1]) <= Sum(sizes)
    decreases |sizes|
  {
    assert sizes[..n + 1][..n] == sizes[..n];
    var front := sizes[..|sizes| - 1];
    if n < |front| {
      SumMore(front, n);
      assert front[..n + 1] == sizes[..n + 1];
    } else {
      assert sizes[..n + 1] == sizes;
    }
  }

  /** `p` is a power of two, and the least that is not below `x`. */
  ghost predicate LeastPower(x: nat, p: nat)
  {
    x <= p && (exists k: nat :: p == Pow2(k)) && forall k: nat :: x <= Pow2(k) ==> p <= Pow2(k)
  }

  lemma NextIsLeast(x: nat)
    requires 2 <= x
    ensures LeastPower(x, NextPow2(x))
  {
    hide Pow2, NextPow2;
    var m := NextPow2IsPower(x);
    forall k: nat | x <= Pow2(k)
      ensures Pow2(m) <= Pow2(k)
    {
      if k < m {
        Pow2Grows(k, m);
      } else {
        Pow2Monotone(m, k);
      }
    }
  }

  lemma RawSize(x: nat)
    requires BLOCK_HEADER <= x
    ensures ValidSize(NextPow2(x)) <==> 2048 < x <= MAX_CHUNK
  {
    assert Pow2(8) == 256 && Pow2(11) == 2048;
    PowersKnown();
    hide Pow2, Log2;
    var k := NextPow2IsPower(x);
    if 2048 < x {
      Pow2Reflects(11, k);
      if x <= MAX_CHUNK {
        Pow2Reflects(k, 32);
        PowerIsValid(k);
      }
    } else {
      Pow2Reflects(k, 12);
      Pow2Monotone(k, 11);
    }
  }
}
