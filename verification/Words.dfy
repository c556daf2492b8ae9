/** Machine words and byte memory.

Memory is a sequence of bytes; 16-, 32- and 64-bit words are stored little-endian.  Shifts and masks
by powers of two are written as division and remainder. */
module Words {

  type byte = x: int | 0 <= x < 0x100
  type uint16 = x: int | 0 <= x < 0x1_0000
  type uint32 = x: int | 0 <= x < 0x1_0000_0000
  type uint64 = x: int | 0 <= x < 0x1_0000_0000_0000_0000

  type Bytes = seq<byte>

  function Pow2(k: nat): (p: nat)
    ensures 1 <= p
  {
    if k == 0 then 1 else 2 * Pow2(k - 1)
  }

  lemma {:induction false} Pow2Grows(j: nat, k: nat)
    requires j < k
    ensures 2 * Pow2(j) <= Pow2(k)
    decreases k
  {
    if j < k - 1 {
      Pow2Grows(j, k - 1);
    }
  }

  lemma Pow2Monotone(j: nat, k: nat)
    requires j <= k
    ensures Pow2(j) <= Pow2(k)
  {
    if j < k {
      Pow2Grows(j, k);
    }
  }

  lemma Pow2Reflects(j: nat, k: nat)
    ensures Pow2(j) < Pow2(k) ==> j < k
  {
    if k <= j {
      Pow2Monotone(k, j);
    }
  }

  /** Position of the highest set bit (the `bsr` instruction). */
  function Log2(x: nat): (k: nat)
    requires 0 < x
    ensures Pow2(k) <= x < Pow2(k + 1)
  {
    if x == 1 then 0 else 1 + Log2(x / 2)
  }

  lemma Log2Unique(x: nat, k: nat)
    requires Pow2(k) <= x < Pow2(k + 1)
    ensures Log2(x) == k
  {
    Pow2Reflects(k, Log2(x) + 1);
    Pow2Reflects(Log2(x), k + 1);
  }

  /** The least power of two that is not below `x`. */
  function NextPow2(x: nat): (p: nat)
    requires 2 <= x
    ensures x <= p < 2 * x
  {
    2 * Pow2(Log2(x - 1))
  }

  lemma NextPow2IsPower(x: nat) returns (k: nat)
    requires 2 <= x
    ensures 0 < k && NextPow2(x) == Pow2(k)
  {
    k := Log2(x - 1) + 1;
  }

  lemma Pow2Half(k: nat)
    requires 0 < k
    ensures 2 <= Pow2(k) == 2 * Pow2(k - 1)
  {
  }

  lemma NextPow2Is(x: nat)
    requires 2 <= x
    ensures NextPow2(x) == 2 * Pow2(Log2(x - 1))
  {
  }

  lemma NextPow2OfPower(k: nat)
    requires 0 < k
    ensures 2 <= Pow2(k) && NextPow2(Pow2(k)) == Pow2(k)
  {
    hide *;
    Pow2Half(k);
    Log2Unique(Pow2(k) - 1, k - 1);
    NextPow2Is(Pow2(k));
  }

  /** `x` rounded up to a multiple of 8. */
  function Align8(x: nat): (r: nat)
    ensures x <= r < x + 8 && r % 8 == 0
  {
    (x + 7) / 8 * 8
  }

  // ---------- reading and writing memory ----------

  function Zeros(n: nat): (r: Bytes)
    ensures |r| == n && forall i :: 0 <= i < n ==> r[i] == 0
  {
    seq(n, _ => 0)
  }

  function Load(mem: Bytes, a: nat, n: nat): (r: Bytes)
    requires a + n <= |mem|
    ensures |r| == n
  {
    mem[a..a + n]
  }

  function Store(mem: Bytes, a: nat, bs: Bytes): (r: Bytes)
    requires a + |bs| <= |mem|
    ensures |r| == |mem|
    ensures forall i :: 0 <= i < |mem| ==> r[i] == if a <= i < a + |bs| then bs[i - a] else mem[i]
  {
    mem[..a] + bs + mem[a + |bs|..]
  }

  /** The `n` bytes at `a` are the same in both memories. */
  ghost predicate Same(m: Bytes, m': Bytes, a: nat, n: nat) {
    && a + n <= |m| && a + n <= |m'|
    && (forall i :: a <= i < a + n ==> m[i] == m'[i])
  }

  lemma SameLoad(m: Bytes, m': Bytes, a: nat, n: nat)
    requires Same(m, m', a, n)
    ensures Load(m, a, n) == Load(m', a, n)
  {
  }

  lemma LoadStored(mem: Bytes, a: nat, bs: Bytes)
    requires a + |bs| <= |mem|
    ensures Load(Store(mem, a, bs), a, |bs|) == bs
  {
  }

  function U16(mem: Bytes, a: nat): (x: uint16)
    requires a + 2 <= |mem|
  {
    (mem[a] as int) + 0x100 * (mem[a + 1] as int)
  }

  function U32(mem: Bytes, a: nat): (x: uint32)
    requires a + 4 <= |mem|
  {
    (U16(mem, a) as int) + 0x1_0000 * (U16(mem, a + 2) as int)
  }

  function U64(mem: Bytes, a: nat): (x: uint64)
    requires a + 8 <= |mem|
  {
    (U32(mem, a) as int) + 0x1_0000_0000 * (U32(mem, a + 4) as int)
  }

  function Enc16(x: uint16): (r: Bytes)
    ensures |r| == 2 && U16(r, 0) == x
  {
    [x % 0x100, x / 0x100]
  }

  function Enc32(x: uint32): (r: Bytes)
    ensures |r| == 4 && U32(r, 0) == x
  {
    Enc16(x % 0x1_0000) + Enc16(x / 0x1_0000)
  }

  function Enc64(x: uint64): (r: Bytes)
    ensures |r| == 8 && U64(r, 0) == x
  {
    Enc32(x % 0x1_0000_0000) + Enc32(x / 0x1_0000_0000)
  }

  function Put16(mem: Bytes, a: nat, x: uint16): (r: Bytes)
    requires a + 2 <= |mem|
    ensures |r| == |mem| && U16(r, a) == x
    ensures forall i :: 0 <= i < |mem| && !(a <= i < a + 2) ==> r[i] == mem[i]
  {
    Store(mem, a, Enc16(x))
  }

  function Put32(mem: Bytes, a: nat, x: uint32): (r: Bytes)
    requires a + 4 <= |mem|
    ensures |r| == |mem| && U32(r, a) == x
    ensures forall i :: 0 <= i < |mem| && !(a <= i < a + 4) ==> r[i] == mem[i]
  {
    Store(mem, a, Enc32(x))
  }

  /** Byte strings one after the other. */
  ghost function Flat(parts: seq<Bytes>): (r: Bytes)
  {
    if parts == [] then [] else Flat(parts[..|parts| - 1]) + parts[|parts| - 1]
  }

  ghost predicate Increasing(s: seq<nat>)
  {
    forall i, j | 0 <= i < j < |s| :: s[i] < s[j]
  }
}
