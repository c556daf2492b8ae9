/** The bit vectors of include/bitvect.h: blocks of 64 bits, bit `i` being bit `i % 64` of block `i / 64`. */
module BitVect {
  import opened Words

  const BLOCK: nat := 64

  // ---------- bits of one word ----------

  predicate Bit(x: nat, k: nat)
  {
    if k == 0 then x % 2 == 1 else Bit(x / 2, k - 1)
  }

  /** Bitwise or, and, and complement within `width` bits. */
  function Or(x: nat, y: nat): (r: nat)
  {
    if x == 0 then y else 2 * Or(x / 2, y / 2) + if x % 2 == 1 || y % 2 == 1 then 1 else 0
  }

  function And(x: nat, y: nat): (r: nat)
  {
    if x == 0 then 0 else 2 * And(x / 2, y / 2) + if x % 2 == 1 && y % 2 == 1 then 1 else 0
  }

  function Not(x: nat, width: nat): (r: nat)
  {
    if width == 0 then 0 else 2 * Not(x / 2, width - 1) + if x % 2 == 1 then 0 else 1
  }

  function PopCount(x: nat): (n: nat)
  {
    if x == 0 then 0 else PopCount(x / 2) + x % 2
  }

  lemma {:induction false} ZeroBits(k: nat)
    ensures !Bit(0, k)
  {
    if 0 < k {
      ZeroBits(k - 1);
    }
  }

  lemma {:induction false} OrBits(x: nat, y: nat, k: nat)
    ensures Bit(Or(x, y), k) <==> Bit(x, k) || Bit(y, k)
  {
    if x == 0 {
      ZeroBits(k);
    } else if 0 < k {
      OrBits(x / 2, y / 2, k - 1);
    }
  }

  lemma {:induction false} AndBits(x: nat, y: nat, k: nat)
    ensures Bit(And(x, y), k) <==> Bit(x, k) && Bit(y, k)
  {
    if x == 0 {
      ZeroBits(k);
    } else if 0 < k {
      AndBits(x / 2, y / 2, k - 1);
    }
  }

  lemma {:induction false} NotBits(x: nat, width: nat, k: nat)
    ensures Bit(Not(x, width), k) <==> k < width && !Bit(x, k)
  {
    if width == 0 {
      ZeroBits(k);
    } else if 0 < k {
      NotBits(x / 2, width - 1, k - 1);
    }
  }

  lemma {:induction false} OneBit(j: nat, k: nat)
    ensures Bit(Pow2(j), k) <==> j == k
  {
    if j == 0 {
      if 0 < k {
        ZeroBits(k - 1);
      }
    } else if 0 < k {
      OneBit(j - 1, k - 1);
    }
  }

  /** A word is determined by its bits. */
  lemma {:induction false} BitsDetermine(x: nat, y: nat)
    requires forall k: nat :: Bit(x, k) <==> Bit(y, k)
    ensures x == y
  {
    if x != 0 || y != 0 {
      assert Bit(x, 0) <==> Bit(y, 0);
      forall k: nat
        ensures Bit(x / 2, k) <==> Bit(y / 2, k)
      {
        assert Bit(x, k + 1) <==> Bit(y, k + 1);
      }
      BitsDetermine(x / 2, y / 2);
    }
  }

  lemma {:induction false} HighBits(x: nat, width: nat, k: nat)
    requires x < Pow2(width) && width <= k
    ensures !Bit(x, k)
  {
    if 0 < width {
      HighBits(x / 2, width - 1, k - 1);
    } else {
      ZeroBits(k);
    }
  }

  lemma {:induction false} OrFits(x: nat, y: nat, width: nat)
    requires x < Pow2(width) && y < Pow2(width)
    ensures Or(x, y) < Pow2(width)
  {
    if x != 0 {
      OrFits(x / 2, y / 2, width - 1);
    }
  }

  lemma {:induction false} AndFits(x: nat, y: nat)
    ensures And(x, y) <= x
  {
    if x != 0 {
      AndFits(x / 2, y / 2);
    }
  }

  lemma OrAssociative(x: nat, y: nat, z: nat)
    ensures Or(Or(x, y), z) == Or(x, Or(y, z))
  {
    forall k: nat
      ensures Bit(Or(Or(x, y), z), k) <==> Bit(Or(x, Or(y, z)), k)
    {
      OrBits(Or(x, y), z, k);
      OrBits(x, y, k);
      OrBits(x, Or(y, z), k);
      OrBits(y, z, k);
    }
    BitsDetermine(Or(Or(x, y), z), Or(x, Or(y, z)));
  }

  // ---------- vectors ----------

  type Blocks = seq<nat>

  ghost predicate Fits(d: Blocks)
  {
    forall b | 0 <= b < |d| :: d[b] < Pow2(BLOCK)
  }

  ghost predicate IsSet(d: Blocks, i: nat)
  {
    i / BLOCK < |d| && Bit(d[i / BLOCK], i % BLOCK)
  }

  lemma PositionUnique(b: nat, k: nat)
    requires k < BLOCK
    ensures (BLOCK * b + k) / BLOCK == b && (BLOCK * b + k) % BLOCK == k
  {
  }

  /** Vectors with the same bits are the same blocks. */
  lemma VectorsDetermine(d: Blocks, e: Blocks)
    requires |d| == |e| && Fits(d) && Fits(e)
    requires forall i: nat :: IsSet(d, i) <==> IsSet(e, i)
    ensures d == e
  {
    forall b | 0 <= b < |d|
      ensures d[b] == e[b]
    {
      forall k: nat
        ensures Bit(d[b], k) <==> Bit(e[b], k)
      {
        if k < BLOCK {
          PositionUnique(b, k);
          assert IsSet(d, BLOCK * b + k) <==> IsSet(e, BLOCK * b + k);
        } else {
          HighBits(d[b], BLOCK, k);
          HighBits(e[b], BLOCK, k);
        }
      }
      BitsDetermine(d[b], e[b]);
    }
  }

  function MarkBit(d: Blocks, i: nat): (r: Blocks)
    requires i / BLOCK < |d|
  {
    d[i / BLOCK := Or(d[i / BLOCK], Pow2(i % BLOCK))]
  }

  predicate Within(d: Blocks, index: seq<nat>)
  {
    forall k | 0 <= k < |index| :: index[k] / BLOCK < |d|
  }

  /** Setting the bits one at a time, in the order of the index. */
  function MarkEach(d: Blocks, index: seq<nat>): (r: Blocks)
    requires Within(d, index)
    ensures |r| == |d|
  {
    if index == [] then d else MarkBit(MarkEach(d, index[..|index| - 1]), index[|index| - 1])
  }

  lemma MarkBitSets(d: Blocks, i: nat, j: nat)
    requires i / BLOCK < |d|
    ensures IsSet(MarkBit(d, i), j) <==> IsSet(d, j) || i == j
  {
    OrBits(d[i / BLOCK], Pow2(i % BLOCK), j % BLOCK);
    OneBit(i % BLOCK, j % BLOCK);
  }

  lemma {:induction false} MarkEachSets(d: Blocks, index: seq<nat>, j: nat)
    requires Within(d, index)
    ensures IsSet(MarkEach(d, index), j) <==> IsSet(d, j) || j in index
  {
    if index != [] {
      var front, last := index[..|index| - 1], index[|index| - 1];
      assert index == front + [last];
      MarkEachSets(d, front, j);
      MarkBitSets(MarkEach(d, front), last, j);
    }
  }

  lemma {:induction false} MarkEachFits(d: Blocks, index: seq<nat>)
    requires Within(d, index) && Fits(d)
    ensures Fits(MarkEach(d, index))
  {
    if index != [] {
      var front, last := index[..|index| - 1], index[|index| - 1];
      MarkEachFits(d, front);
      var e := MarkEach(d, front);
      Pow2Grows(last % BLOCK, BLOCK);
      OrFits(e[last / BLOCK], Pow2(last % BLOCK), BLOCK);
    }
  }

  /** Order and repetitions in the index do not matter. */
  lemma MarkEachUnordered(d: Blocks, index: seq<nat>, index': seq<nat>)
    requires Within(d, index) && Within(d, index') && Fits(d)
    requires forall i :: i in index <==> i in index'
    ensures MarkEach(d, index) == MarkEach(d, index')
  {
    forall j: nat
      ensures IsSet(MarkEach(d, index), j) <==> IsSet(MarkEach(d, index'), j)
    {
      MarkEachSets(d, index, j);
      MarkEachSets(d, index', j);
    }
    MarkEachFits(d, index);
    MarkEachFits(d, index');
    VectorsDetermine(MarkEach(d, index), MarkEach(d, index'));
  }

  /** A batch: the bits collected for one block are written into it at once. */
  ghost function Flushed(d: Blocks, current: nat, a: nat): (r: Blocks)
    requires current < |d|
  {
    d[current := Or(d[current], a)]
  }

  lemma BatchStarts(d: Blocks, current: nat)
    requires current < |d|
    ensures Flushed(d, current, 0) == d
  {
    OrZero(d[current]);
  }

  lemma {:induction false} OrZero(x: nat)
    ensures Or(x, 0) == x
  {
    if x != 0 {
      OrZero(x / 2);
    }
  }

  lemma BatchStep(d: Blocks, current: nat, a: nat, i: nat)
    requires current < |d| && i / BLOCK == current
    ensures MarkBit(Flushed(d, current, a), i) == Flushed(d, current, Or(a, Pow2(i % BLOCK)))
  {
    OrAssociative(d[current], a, Pow2(i % BLOCK));
  }

  // ---------- the set bits in order ----------

  /** The positions of the bits of `v`, the lowest being position `at`. */
  ghost function BitList(v: nat, at: nat): (r: seq<nat>)
  {
    if v == 0 then [] else (if v % 2 == 1 then [at] else []) + BitList(v / 2, at + 1)
  }

  ghost function Listing(d: Blocks): (r: seq<nat>)
  {
    if d == [] then [] else Listing(d[..|d| - 1]) + BitList(d[|d| - 1], BLOCK * (|d| - 1))
  }

  ghost predicate Between(s: seq<nat>, lo: nat, hi: nat)
  {
    forall i | 0 <= i < |s| :: lo <= s[i] < hi
  }

  lemma IncreasingJoin(a: seq<nat>, b: seq<nat>, lo: nat, mid: nat, hi: nat)
    requires Increasing(a) && Increasing(b) && Between(a, lo, mid) && Between(b, mid, hi) && lo <= mid <= hi
    ensures Increasing(a + b) && Between(a + b, lo, hi)
  {
  }

  lemma {:induction false} BitListOrder(v: nat, at: nat, width: nat)
    requires v < Pow2(width)
    ensures Increasing(BitList(v, at)) && Between(BitList(v, at), at, at + width)
    decreases width
  {
    if v != 0 {
      BitListOrder(v / 2, at + 1, width - 1);
      IncreasingJoin(if v % 2 == 1 then [at] else [], BitList(v / 2, at + 1), at, at + 1, at + width);
    }
  }

  lemma {:induction false} BitListMembers(v: nat, at: nat, x: nat)
    ensures x in BitList(v, at) <==> at <= x && Bit(v, x - at)
    decreases v
  {
    if v == 0 {
      if at <= x {
        ZeroBits(x - at);
      }
    } else {
      BitListMembers(v / 2, at + 1, x);
    }
  }

  lemma {:induction false} BitListSize(v: nat, at: nat)
    ensures |BitList(v, at)| == PopCount(v)
    decreases v
  {
    if v != 0 {
      BitListSize(v / 2, at + 1);
    }
  }

  lemma {:induction false} ListingOrder(d: Blocks)
    requires Fits(d)
    ensures Increasing(Listing(d)) && Between(Listing(d), 0, BLOCK * |d|)
  {
    if d != [] {
      ListingOrder(d[..|d| - 1]);
      var last := |d| - 1;
      BitListOrder(d[last], BLOCK * last, BLOCK);
      IncreasingJoin(Listing(d[..last]), BitList(d[last], BLOCK * last), 0, BLOCK * last, BLOCK * |d|);
    }
  }

  lemma BlockMembers(v: nat, b: nat, x: nat)
    requires v < Pow2(BLOCK)
    ensures x in BitList(v, BLOCK * b) <==> x / BLOCK == b && Bit(v, x % BLOCK)
  {
    hide BitList, Bit, Pow2;
    BitListMembers(v, BLOCK * b, x);
    if BLOCK * b <= x {
      if x < BLOCK * b + BLOCK {
        PositionUnique(b, x - BLOCK * b);
      } else {
        HighBits(v, BLOCK, x - BLOCK * b);
      }
    }
  }

  /** The listing holds exactly the set bits. */
  lemma {:induction false} ListingMembers(d: Blocks, x: nat)
    requires Fits(d)
    ensures x in Listing(d) <==> IsSet(d, x)
  {
    hide BitList, Bit;
    if d != [] {
      var last := |d| - 1;
      ListingMembers(d[..last], x);
      BlockMembers(d[last], last, x);
    }
  }

  ghost predicate IsUnion(r: Blocks, d: Blocks, e: Blocks)
  {
    forall i: nat :: IsSet(r, i) <==> IsSet(d, i) || IsSet(e, i)
  }

  ghost predicate IsMeet(r: Blocks, d: Blocks, e: Blocks)
  {
    forall i: nat :: IsSet(r, i) <==> IsSet(d, i) && IsSet(e, i)
  }

  lemma OrVectors(d: Blocks, e: Blocks, r: Blocks)
    requires |d| == |e| == |r| && forall b | 0 <= b < |r| :: r[b] == Or(d[b], e[b])
    ensures IsUnion(r, d, e)
    ensures Fits(d) && Fits(e) ==> Fits(r)
  {
    forall i: nat
      ensures IsSet(r, i) <==> IsSet(d, i) || IsSet(e, i)
    {
      if i / BLOCK < |r| {
        OrBits(d[i / BLOCK], e[i / BLOCK], i % BLOCK);
      }
    }
    if Fits(d) && Fits(e) {
      forall b | 0 <= b < |r|
        ensures r[b] < Pow2(BLOCK)
      {
        OrFits(d[b], e[b], BLOCK);
      }
    }
  }

  lemma AndVectors(d: Blocks, e: Blocks, r: Blocks)
    requires |d| == |e| == |r| && Fits(d) && forall b | 0 <= b < |r| :: r[b] == And(d[b], e[b])
    ensures IsMeet(r, d, e) && Fits(r)
  {
    forall i: nat
      ensures IsSet(r, i) <==> IsSet(d, i) && IsSet(e, i)
    {
      if i / BLOCK < |r| {
        AndBits(d[i / BLOCK], e[i / BLOCK], i % BLOCK);
      }
    }
    forall b | 0 <= b < |r|
      ensures r[b] < Pow2(BLOCK)
    {
      AndFits(d[b], e[b]);
    }
  }

  ghost function Truncated(s: seq<nat>): (r: seq<nat>)
    ensures |r| == |s|
  {
    if s == [] then [] else Truncated(s[..|s| - 1]) + [s[|s| - 1] % 0x1_0000_0000]
  }

  lemma TruncatedMore(s: seq<nat>, x: nat)
    ensures Truncated(s + [x]) == Truncated(s) + [x % 0x1_0000_0000]
  {
    assert (s + [x])[..|s|] == s;
  }

  lemma {:induction false} TruncatedJoin(s: seq<nat>, t: seq<nat>)
    ensures Truncated(s + t) == Truncated(s) + Truncated(t)
  {
    if t == [] {
      assert s + t == s;
    } else {
      var front, last := t[..|t| - 1], t[|t| - 1];
      assert s + t == (s + front) + [last] && t == front + [last];
      TruncatedJoin(s, front);
      TruncatedMore(s + front, last);
      TruncatedMore(front, last);
    }
  }

  lemma ListingNone(d: Blocks)
    ensures Listing(d[..0]) == [] && Truncated([]) == []
  {
  }

  lemma ListingMore(d: Blocks, b: nat)
    requires b < |d|
    ensures Listing(d[..b + 1]) == Listing(d[..b]) + BitList(d[b], BLOCK * b)
  {
    assert d[..b + 1][..b] == d[..b];
  }

  lemma {:induction false} TruncatedSame(s: seq<nat>)
    ensures Truncated(s) == s <==> Between(s, 0, 0x1_0000_0000)
  {
    if s != [] {
      var front, last := s[..|s| - 1], s[|s| - 1];
      TruncatedSame(front);
      assert s == front + [last];
      assert Truncated(s)[..|front|] == Truncated(front) && Truncated(s)[|front|] == last % 0x1_0000_0000;
      assert Between(s, 0, 0x1_0000_0000) <==> Between(front, 0, 0x1_0000_0000) && last < 0x1_0000_0000;
    }
  }

  /** The output is the list of set bits if and only if no bit from 2^32 on is set. */
  lemma ListedWhen(d: Blocks)
    requires Fits(d)
    ensures Truncated(Listing(d)) == Listing(d) <==> forall i: nat :: IsSet(d, i) ==> i < 0x1_0000_0000
  {
    hide Truncated, Listing, IsSet, Fits;
    var all := Listing(d);
    TruncatedSame(all);
    forall i: nat
      ensures i in all <==> IsSet(d, i)
    {
      ListingMembers(d, i);
    }
    assert forall k | 0 <= k < |all| :: all[k] in all;
  }

  lemma {:induction false} ListingZeros(n: nat)
    ensures Listing(seq(n, _ => 0)) == []
  {
    if 0 < n {
      ListingZeros(n - 1);
      assert seq(n, _ => 0)[..n - 1] == seq(n - 1, _ => 0);
    }
  }

  /** A vector in which only bit 2^32 is set: it is listed as bit 0. */
  lemma ListedWrongly()
    ensures var d := seq(0x400_0000, _ => 0) + [1]; Listing(d) == [0x1_0000_0000] && Truncated(Listing(d)) == [0]
  {
    var zeros: Blocks := seq(0x400_0000, _ => 0);
    var d := zeros + [1];
    ListingZeros(0x400_0000);
    assert d[..|d| - 1] == zeros;
    assert BitList(1, 0x1_0000_0000) == [0x1_0000_0000];
    assert Listing(d) == Listing(zeros) + BitList(1, 0x1_0000_0000);
    TruncatedMore([], 0x1_0000_0000);
    assert [] + [0x1_0000_0000] == [0x1_0000_0000];
  }

  ghost function Members(s: seq<nat>): set<nat>
  {
    set x | x in s
  }

  lemma MembersMore(s: seq<nat>, x: nat)
    ensures Members(s + [x]) == Members(s) + {x}
  {
  }

  lemma {:induction false} IncreasingCount(s: seq<nat>)
    requires Increasing(s)
    ensures |Members(s)| == |s|
  {
    if s != [] {
      var front, last := s[..|s| - 1], s[|s| - 1];
      assert last !in Members(front);
      hide Members;
      assert Increasing(front);
      IncreasingCount(front);
      assert s == front + [last];
      MembersMore(front, last);
    } else {
      assert Members(s) == {};
    }
  }

  /** One block of bitvect_to_index. */
  method ListBlock(block: nat, count: nat, output: seq<nat>) returns (more: seq<nat>)
    ensures more == output + Truncated(BitList(block, count))
  {
    var v, bit := block, 0;
    more := output;
    ghost var listed: seq<nat> := [];
    while v != 0
      invariant listed + BitList(v, count + bit) == BitList(block, count)
      invariant more == output + Truncated(listed)
      decreases v
    {
      hide Truncated;
      if v % 2 == 1 {
        TruncatedMore(listed, count + bit);
        more := more + [(count + bit) % 0x1_0000_0000];
        listed := listed + [count + bit];
      }
      v := v / 2;
      bit := bit + 1;
    }
    assert listed == listed + BitList(v, count + bit);
  }

  class BitVect {
    const data: array<nat>

    ghost predicate Valid()
      reads this, data
    {
      Fits(data[..])
    }

    /** bitvect_init */
    constructor (size: nat)
      ensures Valid() && fresh(data) && data.Length == (size + BLOCK - 1) / BLOCK
      ensures forall i: nat :: !IsSet(data[..], i)
    {
      data := new nat[(size + BLOCK - 1) / BLOCK](_ => 0);
      new;
      forall i: nat
        ensures !IsSet(data[..], i)
      {
        ZeroBits(i % BLOCK);
      }
    }

    method Set(i: nat)
      requires Valid() && i / BLOCK < data.Length
      modifies data
      ensures Valid() && data[..] == MarkBit(old(data[..]), i)
      ensures forall j: nat :: IsSet(data[..], j) <==> IsSet(old(data[..]), j) || j == i
    {
      Pow2Grows(i % BLOCK, BLOCK);
      OrFits(data[i / BLOCK], Pow2(i % BLOCK), BLOCK);
      forall j: nat
        ensures IsSet(MarkBit(data[..], i), j) <==> IsSet(data[..], j) || j == i
      {
        MarkBitSets(data[..], i, j);
      }
      data[i / BLOCK] := Or(data[i / BLOCK], Pow2(i % BLOCK));
    }

    method Reset(i: nat)
      requires Valid() && i / BLOCK < data.Length
      modifies data
      ensures Valid() && forall j: nat :: IsSet(data[..], j) <==> IsSet(old(data[..]), j) && j != i
    {
      var mask := Not(Pow2(i % BLOCK), BLOCK);
      AndFits(data[i / BLOCK], mask);
      data[i / BLOCK] := And(data[i / BLOCK], mask);
      forall j: nat
        ensures IsSet(data[..], j) <==> IsSet(old(data[..]), j) && j != i
      {
        AndBits(old(data[i / BLOCK]), mask, j % BLOCK);
        NotBits(Pow2(i % BLOCK), BLOCK, j % BLOCK);
        OneBit(i % BLOCK, j % BLOCK);
      }
    }

    /** bitvect_isset_safe */
    method Isset(i: nat) returns (b: bool)
      requires Valid()
      ensures b <==> IsSet(data[..], i)
    {
      if BLOCK * data.Length > i {
        var masked := And(data[i / BLOCK], Pow2(i % BLOCK));
        MaskedBit(data[i / BLOCK], i % BLOCK);
        b := masked != 0;
      } else {
        b := false;
      }
    }

    /** The plain loop: one bit at a time. */
    method FromIndexPlain(index: seq<nat>)
      requires Valid() && Within(data[..], index)
      modifies data
      ensures Valid() && data[..] == MarkEach(old(data[..]), index)
    {
      var i := 0;
      while i < |index|
        invariant 0 <= i <= |index| && Valid()
        invariant Within(old(data[..]), index[..i]) && data[..] == MarkEach(old(data[..]), index[..i])
      {
        MarkNext(old(data[..]), index, i);
        Set(index[i]);
        i := i + 1;
      }
      assert index[..i] == index;
    }

    /** bitvect_from_index: one write for each run of indices in the same block.  The vector ends up
    as the plain loop leaves it; an empty index is refused. */
    method FromIndex(index: seq<nat>) returns (res: int)
      requires Valid() && Within(data[..], index)
      modifies data
      ensures Valid() && data[..] == MarkEach(old(data[..]), index)
      ensures res == if index == [] then -1 else 0
    {
      if |index| == 0 {
        return -1;
      }
      hide Fits, MarkBit, MarkEach, Flushed;
      var current := index[0] / BLOCK;
      var a, i := 0, 0;
      ghost var start := data[..];
      BatchStarts(start, current);
      MarkNone(start, index);
      while true
        invariant 0 <= i < |index| && current == index[i] / BLOCK && data.Length == |start| && Within(start, index)
        invariant Within(start, index[..i])
        invariant Flushed(data[..], current, a) == MarkEach(start, index[..i])
        decreases |index| - i
      {
        BatchStep(data[..], current, a, index[i]);
        MarkNext(start, index, i);
        a := Or(a, Pow2(index[i] % BLOCK));
        i := i + 1;
        if i == |index| {
          break;
        }
        var loc := index[i] / BLOCK;
        if current != loc {
          Flush(current, a);
          a := 0;
          current := loc;
          BatchStarts(data[..], current);
        }
      }
      Flush(current, a);
      assert index[..i] == index;
      MarkEachFits(start, index);
      res := 0;
    }

    method Flush(current: nat, a: nat)
      requires current < data.Length
      modifies data
      ensures data[..] == Flushed(old(data[..]), current, a)
    {
      data[current] := Or(data[current], a);
    }

    /** bitvect_combine_or: vectors of different sizes are refused. */
    method CombineOr(other: BitVect) returns (res: int)
      requires Valid() && other.Valid()
      modifies data
      ensures res == if data.Length == other.data.Length then 0 else -1
      ensures Valid() && if res == 0 then IsUnion(data[..], old(data[..]), old(other.data[..]))
              else data[..] == old(data[..])
    {
      if data.Length != other.data.Length {
        return -1;
      }
      ghost var d, e := data[..], other.data[..];
      for i := 0 to data.Length
        invariant forall b | 0 <= b < i :: data[b] == Or(d[b], e[b])
        invariant forall b | i <= b < data.Length :: data[b] == d[b] && other.data[b] == e[b]
      {
        OrFits(d[i], e[i], BLOCK);
        data[i] := Or(data[i], other.data[i]);
      }
      OrVectors(d, e, data[..]);
      res := 0;
    }

    /** bitvect_combine_and */
    method CombineAnd(other: BitVect) returns (res: int)
      requires Valid() && other.Valid()
      modifies data
      ensures res == if data.Length == other.data.Length then 0 else -1
      ensures Valid() && if res == 0 then IsMeet(data[..], old(data[..]), old(other.data[..]))
              else data[..] == old(data[..])
    {
      if data.Length != other.data.Length {
        return -1;
      }
      ghost var d, e := data[..], other.data[..];
      for i := 0 to data.Length
        invariant forall b | 0 <= b < i :: data[b] == And(d[b], e[b])
        invariant forall b | i <= b < data.Length :: data[b] == d[b] && other.data[b] == e[b]
      {
        data[i] := And(data[i], other.data[i]);
      }
      AndVectors(d, e, data[..]);
      res := 0;
    }

    /** bitvect_to_index: the set bits in increasing order, as 32-bit words. */
    method ToIndex() returns (output: seq<nat>)
      requires Valid()
      ensures output == Truncated(Listing(data[..]))
      ensures output == Listing(data[..]) <==> forall i: nat :: IsSet(data[..], i) ==> i < 0x1_0000_0000
    {
      hide Truncated, Listing, BitList, Fits, Pow2;
      output := [];
      ListingNone(data[..]);
      var b, count := 0, 0;
      while b < data.Length
        invariant 0 <= b <= data.Length && count == BLOCK * b
        invariant output == Truncated(Listing(data[..b]))
      {
        TruncatedJoin(Listing(data[..b]), BitList(data[b], count));
        output := ListBlock(data[b], count, output);
        ListingMore(data[..], b);
        b := b + 1;
        count := count + BLOCK;
      }
      assert data[..b] == data[..];
      ListedWhen(data[..]);
    }

    /** bitvect_count: as many as bitvect_to_index lists. */
    method Count() returns (count: nat)
      requires Valid()
      ensures count == |Listing(data[..])| == |Members(Listing(data[..]))|
    {
      hide Listing, BitList, PopCount, Fits;
      count := 0;
      ListingNone(data[..]);
      for b := 0 to data.Length
        invariant count == |Listing(data[..b])|
      {
        BitListSize(data[b], BLOCK * b);
        ListingMore(data[..], b);
        count := count + PopCount(data[b]);
      }
      assert data[..data.Length] == data[..];
      ListingOrder(data[..]);
      IncreasingCount(Listing(data[..]));
    }
  }

  lemma MaskedBit(x: nat, k: nat)
    ensures And(x, Pow2(k)) != 0 <==> Bit(x, k)
  {
    AndBits(x, Pow2(k), k);
    OneBit(k, k);
    ZeroBits(k);
    if !Bit(x, k) {
      forall j: nat
        ensures Bit(And(x, Pow2(k)), j) <==> Bit(0, j)
      {
        AndBits(x, Pow2(k), j);
        OneBit(k, j);
        ZeroBits(j);
      }
      BitsDetermine(And(x, Pow2(k)), 0);
    }
  }

  lemma MarkNone(d: Blocks, index: seq<nat>)
    ensures Within(d, index[..0]) && MarkEach(d, index[..0]) == d
  {
  }

  lemma MarkNext(d: Blocks, index: seq<nat>, i: nat)
    requires Within(d, index) && i < |index| && Within(d, index[..i])
    ensures Within(d, index[..i + 1]) && MarkEach(d, index[..i + 1]) == MarkBit(MarkEach(d, index[..i]), index[i])
  {
    assert index[..i + 1][..i] == index[..i];
  }
}
