/** Segmented bucket vectors.

A table never copies its buckets: each doubling appends one vector as large as all the earlier ones
together.  Bucket numbers are mapped to a vector and an offset inside it by the position of their
highest bit. */
module Segments {
  import opened Words

  /** Bytes of one bucket: a 32-bit hashcode followed by a 32-bit record reference. */
  const BUCKET_SIZE := 8

  /** Number of buckets in vector `s` when the first one has `2^bits`. */
  function VectorSize(bits: nat, s: nat): (n: nat) {
    if s == 0 then Pow2(bits) else Pow2(bits + s - 1)
  }

  /** Number of the first bucket of vector `s`. */
  function VectorStart(bits: nat, s: nat): (b: nat) {
    if s == 0 then 0 else Pow2(bits + s - 1)
  }

  /** The vector that holds bucket `b`. */
  function VectorOf(bits: nat, b: nat): (s: nat) {
    if b < Pow2(bits) then 0 else
    HighBit(bits, b);
    Log2(b) - bits + 1
  }

  lemma HighBit(bits: nat, b: nat)
    requires Pow2(bits) <= b
    ensures bits <= Log2(b)
  {
    Pow2Reflects(bits, Log2(b) + 1);
  }

  /** Its offset there: the bucket number with the highest bit cleared. */
  function OffsetOf(bits: nat, b: nat): (o: nat) {
    if b < Pow2(bits) then b else b - Pow2(Log2(b))
  }

  /** Every bucket number is the start of its vector plus its offset, and the offset is inside the vector. */
  lemma LocateIsOnto(bits: nat, b: nat)
    ensures b == VectorStart(bits, VectorOf(bits, b)) + OffsetOf(bits, b)
    ensures OffsetOf(bits, b) < VectorSize(bits, VectorOf(bits, b))
  {
    if b >= Pow2(bits) {
      HighBit(bits, b);
    }
  }

  /** Every place inside a vector is the place of exactly the bucket numbered so. */
  lemma LocateIsOneToOne(bits: nat, s: nat, o: nat)
    requires o < VectorSize(bits, s)
    ensures VectorOf(bits, VectorStart(bits, s) + o) == s
    ensures OffsetOf(bits, VectorStart(bits, s) + o) == o
  {
    var b := VectorStart(bits, s) + o;
    if s > 0 {
      Log2Unique(b, bits + s - 1);
      Pow2Monotone(bits, bits + s - 1);
    }
  }

  /** Where the vectors of one table are in memory, in the order in which they were added. */
  datatype Layout = Layout(bits: nat, vectors: seq<nat>) {

    function Capacity(): (n: nat)
      requires 0 < |vectors|
      ensures 0 < n
    {
      Pow2(bits + |vectors| - 1)
    }

    /** End of vector `s`. */
    function End(s: nat): (a: nat)
      requires s < |vectors|
    {
      vectors[s] + BUCKET_SIZE * VectorSize(bits, s)
    }

    /** The vectors follow each other, without overlap, in `[lo, hi)`. */
    ghost predicate Fits(lo: nat, hi: nat)
      ensures Fits(lo, hi) ==> 0 < |vectors|
    {
      && 0 < |vectors|
      && (forall s :: 0 <= s < |vectors| ==> lo <= vectors[s] && End(s) <= hi)
      && (forall s, s' :: 0 <= s < s' < |vectors| ==> End(s) <= vectors[s'])
    }

    /** The address belongs to one of the vectors. */
    ghost predicate Holds(a: nat) {
      exists s :: 0 <= s < |vectors| && vectors[s] <= a < End(s)
    }

    function Addr(b: nat): (a: nat)
      requires 0 < |vectors| && b < Capacity()
    {
      Located(bits, b, |vectors|);
      vectors[VectorOf(bits, b)] + BUCKET_SIZE * OffsetOf(bits, b)
    }

    lemma AddrIsHeld(b: nat)
      requires 0 < |vectors| && b < Capacity()
      ensures VectorOf(bits, b) < |vectors|
      ensures vectors[VectorOf(bits, b)] <= Addr(b) && Addr(b) + BUCKET_SIZE <= End(VectorOf(bits, b))
      ensures forall a :: Addr(b) <= a < Addr(b) + BUCKET_SIZE ==> Holds(a)
    {
      Located(bits, b, |vectors|);
      LocateIsOnto(bits, b);
      var s := VectorOf(bits, b);
      forall a | Addr(b) <= a < Addr(b) + BUCKET_SIZE
        ensures Holds(a)
      {
        assert vectors[s] <= a < End(s);
      }
    }

    /** The `o`-th bucket of vector `s`. */
    lemma AddrInVector(s: nat, o: nat)
      requires s < |vectors| && o < VectorSize(bits, s)
      ensures VectorStart(bits, s) + o < Capacity()
      ensures Addr(VectorStart(bits, s) + o) == vectors[s] + 8 * o
    {
      LocateIsOneToOne(bits, s, o);
      if s == 0 {
        Pow2Monotone(bits, bits + |vectors| - 1);
      } else {
        Pow2Monotone(bits + s, bits + |vectors| - 1);
      }
    }

    lemma VectorCount()
      requires 0 < |vectors|
      ensures 0 < Capacity() && Log2(Capacity()) == bits + |vectors| - 1
    {
      Log2Unique(Capacity(), bits + |vectors| - 1);
    }

    lemma AddrFits(b: nat, lo: nat, hi: nat)
      requires Fits(lo, hi) && b < Capacity()
      ensures lo <= Addr(b) && Addr(b) + BUCKET_SIZE <= hi
    {
      AddrIsHeld(b);
    }

    /** Buckets are stored in the order of their numbers; in particular no two of them overlap. */
    lemma AddrIncreases(b: nat, b': nat, lo: nat, hi: nat)
      requires Fits(lo, hi) && b < b' < Capacity()
      ensures Addr(b) + BUCKET_SIZE <= Addr(b')
    {
      AddrIsHeld(b);
      AddrIsHeld(b');
      LocateIsOnto(bits, b);
      LocateIsOnto(bits, b');
      var s, s' := VectorOf(bits, b), VectorOf(bits, b');
      if s == s' {
      } else if s < s' {
        assert End(s) <= vectors[s'];
      } else {
        Pow2Monotone(bits + s', bits + s - 1);
      }
    }

    /** Appending the vector that doubles the capacity keeps the address of every earlier bucket. */
    lemma AppendKeepsAddr(a: nat, b: nat)
      requires 0 < |vectors|
      ensures Layout(bits, vectors + [a]).Capacity() == 2 * Capacity()
      ensures b < Capacity() ==> Layout(bits, vectors + [a]).Addr(b) == Addr(b)
      ensures Capacity() <= b < 2 * Capacity()
              ==> Layout(bits, vectors + [a]).Addr(b) == a + BUCKET_SIZE * (b - Capacity())
    {
      if b < Capacity() {
        Located(bits, b, |vectors|);
      } else if b < 2 * Capacity() {
        LocateIsOneToOne(bits, |vectors|, b - Capacity());
      }
    }

    lemma FitsMore(lo: nat, hi: nat, hi': nat)
      requires Fits(lo, hi) && hi <= hi'
      ensures Fits(lo, hi')
    {
    }

    lemma HoldsFits(a: nat, lo: nat, hi: nat)
      requires Fits(lo, hi)
      ensures Holds(a) ==> lo <= a < hi
    {
    }

    lemma AppendHolds(a: nat, x: nat)
      requires 0 < |vectors|
      ensures Layout(bits, vectors + [a]).Holds(x) <==> Holds(x) || a <= x < a + BUCKET_SIZE * Capacity()
    {
      var l := Layout(bits, vectors + [a]);
      assert forall s :: 0 <= s < |vectors| ==> l.vectors[s] == vectors[s] && l.End(s) == End(s);
      var n := |vectors|;
      assert l.vectors[n] == a && l.End(n) == a + BUCKET_SIZE * Capacity();
    }

    lemma AppendFits(a: nat, lo: nat, hi: nat, hi': nat)
      requires Fits(lo, hi) && hi <= a && a + BUCKET_SIZE * Capacity() <= hi'
      ensures Layout(bits, vectors + [a]).Fits(lo, hi')
    {
      var l := Layout(bits, vectors + [a]);
      assert forall s :: 0 <= s < |vectors| ==> l.vectors[s] == vectors[s] && l.End(s) == End(s);
      assert lo <= vectors[0] && End(0) <= hi;
    }
  }

  lemma Located(bits: nat, b: nat, n: nat)
    requires 0 < n && b < Pow2(bits + n - 1)
    ensures VectorOf(bits, b) < n
  {
    if b >= Pow2(bits) {
      HighBit(bits, b);
      Pow2Reflects(Log2(b), bits + n - 1);
    }
  }
}
