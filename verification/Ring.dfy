/** The mirrored ring of src/_ringbuf.c, src/_ringfile.c and src/ringfile.c.

The same `capacity` bytes are mapped twice, one after the other, so that `capacity` bytes from any
location below `capacity` can be accessed without wrapping; `Wrap` undoes the mirror. */
module Ring {
  import opened Words

  function Wrap(x: nat, capacity: nat): (r: nat)
    requires x < 2 * capacity
    ensures r < capacity
  {
    if x < capacity then x else x - capacity
  }

  /** The `n` bytes at location `at`, read through the mirror. */
  ghost function Window(m: Bytes, at: nat, n: nat): (w: Bytes)
    requires at < |m| && n <= |m|
    ensures |w| == n
    ensures forall k | 0 <= k < n :: w[k] == m[Wrap(at + k, |m|)]
  {
    seq(n, k requires 0 <= k < n => m[Wrap(at + k, |m|)])
  }

  lemma WindowSplit(m: Bytes, at: nat, n: nat, j: nat)
    requires at < |m| && j <= n <= |m|
    ensures Window(m, at, n)[..j] == Window(m, at, j)
    ensures Window(m, at, n)[j..] == Window(m, Wrap(at + j, |m|), n - j)
  {
    var w, rest := Window(m, at, n), Window(m, Wrap(at + j, |m|), n - j);
    forall k | 0 <= k < n - j
      ensures w[j..][k] == rest[k]
    {
      assert w[j..][k] == w[j + k];
    }
  }

  lemma WrapPlus(at: nat, n: nat, k: nat, capacity: nat, loc: nat)
    requires at < capacity && n + k <= capacity && loc < capacity && Wrap(at + n, capacity) == loc
    ensures Wrap(at + (n + k), capacity) == Wrap(loc + k, capacity)
  {
  }

  lemma WrapFurther(x: nat, k: nat, capacity: nat)
    requires x + k < 2 * capacity && k < capacity
    ensures Wrap(x + k, capacity) == Wrap(Wrap(x, capacity) + k, capacity)
  {
  }

  /** A byte written just behind a window extends it and disturbs nothing in it. */
  lemma WindowWrite(m: Bytes, at: nat, n: nat, x: byte)
    requires at < |m| && n < |m|
    ensures Window(m[Wrap(at + n, |m|) := x], at, n + 1) == Window(m, at, n) + [x]
  {
    var w := Window(m[Wrap(at + n, |m|) := x], at, n + 1);
    forall k | 0 <= k < n
      ensures w[k] == Window(m, at, n)[k]
    {
    }
    assert w == w[..n] + [w[n]];
  }

  /** One more operation in a run: `was` becomes `now`. */
  lemma Chained(start: Bytes, popped: Bytes, pushed: Bytes, was: Bytes, out: Bytes, into: Bytes, now: Bytes)
    requires popped + was == start + pushed && out + now == was + into
    ensures popped + out + now == start + (pushed + into)
  {
    assert popped + out + now == popped + (out + now);
    assert popped + (was + into) == popped + was + into;
    assert start + (pushed + into) == start + pushed + into;
  }

  class Ring {
    const capacity: nat
    const mem: array<byte>
    var readLoc: nat
    var writeLoc: nat

    ghost predicate Valid()
      reads this
    {
      0 < capacity == mem.Length && readLoc < capacity && readLoc <= writeLoc <= readLoc + capacity
    }

    /** The bytes that have been pushed and not yet popped. */
    ghost function Contents(): (r: Bytes)
      requires Valid()
      reads this, mem
      ensures |r| == Size()
    {
      Window(mem[..], readLoc, Size())
    }

    function Size(): (n: nat)
      requires Valid()
      reads this
    {
      writeLoc - readLoc
    }

    function Avail(): (n: nat)
      requires Valid()
      reads this
    {
      capacity - Size()
    }

    /** The location `n` bytes before the read location. */
    ghost function Back(n: nat): (at: nat)
      requires Valid() && n <= capacity
      reads this
      ensures at < capacity && Wrap(at + n, capacity) == readLoc
    {
      if n <= readLoc then readLoc - n else readLoc + capacity - n
    }

    /** The last `n` bytes dropped and the contents: they are there as long as there is room for them. */
    ghost function Since(n: nat): (r: Bytes)
      requires Valid() && n <= Avail()
      reads this, mem
      ensures |r| == n + Size()
    {
      Window(mem[..], Back(n), n + Size())
    }

    /** The last `n` bytes dropped. */
    ghost function Dropped(n: nat): (r: Bytes)
      requires Valid() && n <= Avail()
      reads this, mem
      ensures |r| == n
    {
      Since(n)[..n]
    }

    lemma SinceSplit(n: nat, k: nat)
      requires Valid() && k <= n <= Avail()
      ensures Since(n)[n..] == Contents() && Since(n)[n - k..] == Since(k) && Dropped(k) == Since(n)[n - k..n]
    {
      hide Window;
      WindowSplit(mem[..], Back(n), n + Size(), n);
      WindowSplit(mem[..], Back(n), n + Size(), n - k);
      assert Since(k)[..k] == Since(n)[n - k..n];
    }

    constructor (capacity: nat)
      requires 0 < capacity
      ensures Valid() && fresh(mem) && this.capacity == capacity && Contents() == []
    {
      this.capacity := capacity;
      mem := new byte[capacity](_ => 0);
      readLoc, writeLoc := 0, 0;
    }

    /** Copying to the write location, through the mirror: the window of `n` bytes at `at`, which ends
    there, becomes longer and keeps its bytes. */
    method Fill(data: Bytes, ghost at: nat, ghost n: nat)
      requires Valid() && |data| <= Avail() && at < capacity && n + |data| <= capacity
      requires Wrap(at + n, capacity) == Wrap(writeLoc, capacity)
      modifies mem
      ensures Window(mem[..], at, n + |data|) == old(Window(mem[..], at, n)) + data
    {
      hide Window, Wrap;
      for i := 0 to |data|
        invariant Window(mem[..], at, n + i) == old(Window(mem[..], at, n)) + data[..i]
      {
        ghost var m := mem[..];
        WindowWrite(m, at, n + i, data[i]);
        WrapPlus(at, n, i, capacity, Wrap(writeLoc, capacity));
        WrapFurther(writeLoc, i, capacity);
        var to := Wrap(writeLoc + i, capacity);
        assert to == Wrap(at + (n + i), capacity);
        mem[to] := data[i];
        assert mem[..] == m[to := data[i]];
      }
    }

    /** `ringbuf_push`: the bytes are copied to the write location, and the write location is moved past
    them.  Dropped bytes for which there is still room stay. */
    method Push(data: Bytes)
      requires Valid() && |data| <= Avail()
      modifies this`writeLoc, mem
      ensures Valid() && Contents() == old(Contents()) + data
      ensures readLoc == old(readLoc) && Avail() == old(Avail()) - |data|
      ensures forall k | 0 <= k <= Avail() :: Dropped(k) == old(Dropped(k))
    {
      hide Window, Wrap, Dropped;
      ghost var n := Avail() - |data|;
      ghost var all := Since(n);
      DroppedAll(n);
      WrapPlus(Back(n), n, Size(), capacity, readLoc);
      Fill(data, Back(n), n + Size());
      writeLoc := writeLoc + |data|;
      assert Since(n) == all + data;
      DroppedAll(n);
    }

    lemma DroppedAll(n: nat)
      requires Valid() && n <= Avail()
      ensures Contents() == Since(n)[n..]
      ensures forall k | 0 <= k <= n :: Dropped(k) == Since(n)[n - k..n]
    {
      hide Window;
      SinceSplit(n, n);
      forall k | 0 <= k <= n
        ensures Dropped(k) == Since(n)[n - k..n]
      {
        SinceSplit(n, k);
      }
    }

    /** `ringbuf_rseek`: drops the oldest `n` bytes; both locations go back by the capacity when the
    read location reaches it. */
    method Rseek(n: nat)
      requires Valid() && n <= Size()
      modifies this`readLoc, this`writeLoc
      ensures Valid() && Contents() == old(Contents())[n..] && Avail() == old(Avail()) + n
      ensures readLoc == Wrap(old(readLoc) + n, capacity) && Dropped(n) == old(Contents())[..n]
    {
      hide Window;
      WindowSplit(mem[..], readLoc, Size(), n);
      ghost var all, from := Contents(), readLoc;
      readLoc := readLoc + n;
      if readLoc >= capacity {
        readLoc := readLoc - capacity;
        writeLoc := writeLoc - capacity;
      }
      assert Back(n) == from && Since(n) == all;
    }

    /** Copying from the read location, through the mirror. */
    method Read(n: nat) returns (data: Bytes)
      requires Valid() && n <= Size()
      ensures data == Contents()[..n]
    {
      data := [];
      for i := 0 to n
        invariant data == Contents()[..i]
      {
        data := data + [mem[Wrap(readLoc + i, capacity)]];
      }
    }

    /** `ringbuf_pop`: the bytes at the read location, in the order in which they were pushed. */
    method Pop(n: nat) returns (data: Bytes)
      requires Valid() && n <= Size()
      modifies this`readLoc, this`writeLoc
      ensures Valid() && data == old(Contents())[..n] && Contents() == old(Contents())[n..]
              && Avail() == old(Avail()) + n
      ensures readLoc == Wrap(old(readLoc) + n, capacity) && Dropped(n) == data
    {
      data := Read(n);
      Rseek(n);
    }

    /** `ringfile_rseek_reverse`: puts the last `n` bytes dropped back in front; they have not been
    overwritten as long as there is room for them. */
    method RseekReverse(n: nat)
      requires Valid() && n <= Avail()
      modifies this`readLoc, this`writeLoc
      ensures Valid() && Contents() == old(Dropped(n)) + old(Contents())
      ensures Wrap(readLoc + n, capacity) == old(readLoc)
    {
      SinceSplit(n, n);
      if readLoc < n {
        readLoc := readLoc + capacity;
        writeLoc := writeLoc + capacity;
      }
      readLoc := readLoc - n;
    }

    /** Over any run of pushes and pops the bytes come out in the order in which they went in, none lost
    and none twice.  A push that does not fit and a pop of more than there is are not made. */
    method Run(ops: seq<Op>) returns (popped: Bytes, ghost pushed: Bytes)
      requires Valid()
      modifies this`readLoc, this`writeLoc, mem
      ensures Valid() && popped + Contents() == old(Contents()) + pushed
    {
      popped, pushed := [], [];
      for i := 0 to |ops|
        invariant Valid() && popped + Contents() == old(Contents()) + pushed
      {
        hide Window, Dropped;
        ghost var was := Contents();
        var out;
        ghost var into;
        out, into := Perform(ops[i]);
        Chained(old(Contents()), popped, pushed, was, out, into, Contents());
        popped, pushed := popped + out, pushed + into;
      }
    }

    /** One operation of a run. */
    method Perform(op: Op) returns (out: Bytes, ghost into: Bytes)
      requires Valid()
      modifies this`readLoc, this`writeLoc, mem
      ensures Valid() && out + Contents() == old(Contents()) + into
      ensures into == (if op.Pushing? && |op.data| <= old(Avail()) then op.data else [])
      ensures |out| == if op.Popping? && op.n <= old(Size()) then op.n else 0
    {
      hide Window, Dropped;
      out, into := [], [];
      match op {
        case Pushing(data) =>
          if |data| <= Avail() {
            Push(data);
            into := data;
          }
        case Popping(n) =>
          if n <= Size() {
            out := Pop(n);
          }
      }
    }

    /** A reverse seek undoes a pop: both locations and the contents are as they were. */
    method PopAndTakeBack(n: nat) returns (data: Bytes)
      requires Valid() && n <= Size()
      modifies this`readLoc, this`writeLoc
      ensures Valid() && data == old(Contents())[..n] && Contents() == old(Contents())
      ensures readLoc == old(readLoc) && writeLoc == old(writeLoc)
    {
      data := Pop(n);
      RseekReverse(n);
    }

    /** A reverse seek gives back what was popped also after pushes, as long as they leave room for it. */
    method PopPushTakeBack(n: nat, more: Bytes) returns (data: Bytes)
      requires Valid() && n <= Size() && |more| <= Avail()
      modifies this`readLoc, this`writeLoc, mem
      ensures Valid() && data == old(Contents())[..n] && Contents() == old(Contents()) + more
    {
      hide Window, Wrap, Dropped, Contents;
      data := Pop(n);
      Push(more);
      RseekReverse(n);
      assert data + (old(Contents())[n..] + more) == old(Contents()) + more;
    }

    /** `ringbuf_rolling_push`: drops as many bytes as are to be pushed, until there is room.  The
    condition is exactly the one under which the ring stays in order: see `RollingIsSafe`. */
    method RollingPush(data: Bytes)
      requires Valid() && (|data| <= Avail() || |data| <= Size())
      modifies this`readLoc, this`writeLoc, mem
      ensures Valid()
      ensures Contents() == (if |data| <= old(Avail()) then old(Contents()) else old(Contents())[|data|..]) + data
    {
      while Avail() < |data|
        invariant Valid() && (|data| <= Avail() || |data| <= Size())
        invariant Contents() == if |data| <= old(Avail()) || Avail() < |data| then old(Contents())
                                else old(Contents())[|data|..]
        decreases Size()
      {
        Rseek(|data|);
      }
      Push(data);
    }

    /** Rolling pushes of records of one size: the ring holds the newest ones that fit, whole. */
    method PushRecords(records: seq<Bytes>, n: nat, ghost held: seq<Bytes>)
      requires Valid() && 0 < n <= capacity
      requires Sized(held, n) && Sized(records, n)
      requires Contents() == Kept(held, n, capacity)
      modifies this`readLoc, this`writeLoc, mem
      ensures Valid() && Contents() == Kept(held + records, n, capacity)
    {
      hide Kept, Sized;
      var i := 0;
      assert held + records[..0] == held;
      while i < |records|
        invariant 0 <= i <= |records| && Valid()
        invariant Contents() == Kept(held + records[..i], n, capacity)
      {
        ghost var all := held + records[..i];
        RollingSized(held, records, i, n);
        RollingRecord(all, records[i], n, capacity);
        RollingPush(records[i]);
        assert held + records[..i + 1] == all + [records[i]];
        i := i + 1;
      }
      assert records[..i] == records;
    }

    /** `_ringfile_resize` without an evictor: a ring of the new capacity, rounded up to whole pages,
    with the newest bytes that fit. */
    method Resize(newCapacity: nat) returns (r: Ring)
      requires Valid() && 0 < newCapacity
      modifies this`readLoc, this`writeLoc
      ensures (r == this || fresh(r)) && r.Valid() && r.capacity == PageAlign(newCapacity)
      ensures r.Contents() == Newest(old(Contents()), PageAlign(newCapacity))
    {
      hide Window, Dropped, Contents, PageAlign;
      var aligned := PageAlign(newCapacity);
      if aligned == capacity {
        return this;
      }
      if Size() > aligned {
        Rseek(Size() - aligned);
      }
      r := new Ring(aligned);
      var data := Read(Size());
      r.Push(data);
    }
  }

  datatype Op = Pushing(data: Bytes) | Popping(n: nat)

  const PAGE_SIZE := 4096

  function PageAlign(x: nat): (r: nat)
    ensures x <= r < x + PAGE_SIZE && r % PAGE_SIZE == 0
  {
    (x + PAGE_SIZE - 1) / PAGE_SIZE * PAGE_SIZE
  }

  // ---------- records of one size ----------

  ghost function Newest<T>(s: seq<T>, k: nat): (r: seq<T>)
    ensures |r| <= k && |r| <= |s| && r == s[|s| - |r|..] && (|r| < k ==> r == s)
  {
    if |s| <= k then s else s[|s| - k..]
  }

  ghost predicate Sized(records: seq<Bytes>, n: nat)
  {
    forall r | r in records :: |r| == n
  }

  /** The newest records that fit, one after the other. */
  ghost function Kept(records: seq<Bytes>, n: nat, capacity: nat): (r: Bytes)
    requires 0 < n
  {
    Flat(Newest(records, capacity / n))
  }

  lemma OneMore(count: nat, n: nat)
    ensures count * n + n == (count + 1) * n
  {
  }

  lemma {:induction false} FlatSize(records: seq<Bytes>, n: nat)
    requires Sized(records, n)
    ensures |Flat(records)| == |records| * n
  {
    if records != [] {
      var front := records[..|records| - 1];
      FlatSize(front, n);
      assert |Flat(records)| == |Flat(front)| + n;
      OneMore(|front|, n);
    }
  }

  lemma {:induction false} FlatPrepend(first: Bytes, rest: seq<Bytes>)
    ensures Flat([first] + rest) == first + Flat(rest)
  {
    var all := [first] + rest;
    if rest == [] {
      assert all == [first] && all[..0] == [];
      assert Flat(all) == Flat(all[..0]) + first;
    } else {
      var front, last := rest[..|rest| - 1], rest[|rest| - 1];
      assert all[..|all| - 1] == [first] + front && all[|all| - 1] == last;
      FlatPrepend(first, front);
      assert Flat(all) == (first + Flat(front)) + last == first + (Flat(front) + last);
    }
  }

  lemma FlatDropsFirst(records: seq<Bytes>, n: nat)
    requires records != [] && Sized(records, n)
    ensures n <= |Flat(records)| && Flat(records)[n..] == Flat(records[1..])
  {
    assert records == [records[0]] + records[1..];
    FlatPrepend(records[0], records[1..]);
  }

  lemma CountFits(count: nat, n: nat, capacity: nat)
    requires 0 < n
    ensures count * n + n <= capacity <==> count + 1 <= capacity / n
    ensures count <= capacity / n ==> count * n <= capacity
  {
    var q := capacity / n;
    assert q * n <= capacity < q * n + n;
    if count + 1 <= q {
      assert (count + 1) * n <= q * n;
    } else {
      assert q * n <= count * n;
    }
    if count <= q {
      assert count * n <= q * n;
    }
  }

  lemma RollingSized(held: seq<Bytes>, records: seq<Bytes>, i: nat, n: nat)
    requires Sized(held, n) && Sized(records, n) && i < |records|
    ensures Sized(held + records[..i], n) && |records[i]| == n
  {
  }

  /** One rolling push into a ring that holds the newest records `all` of size `n`. */
  lemma RollingRecord(all: seq<Bytes>, r: Bytes, n: nat, capacity: nat)
    requires 0 < n <= capacity && Sized(all, n) && |r| == n
    ensures var kept := Kept(all, n, capacity);
            && |kept| <= capacity
            && (n <= capacity - |kept| || n <= |kept|)
            && Kept(all + [r], n, capacity) == (if n <= capacity - |kept| then kept else kept[n..]) + r
  {
    var k := capacity / n;
    var held := Newest(all, k);
    assert Sized(held, n);
    FlatSize(held, n);
    CountFits(|held|, n, capacity);
    CountFits(0, n, capacity);
    var now := Newest(all + [r], k);
    if |held| < k {
      assert now == held + [r];
      assert now[..|now| - 1] == held;
    } else {
      FlatDropsFirst(held, n);
      assert now == held[1..] + [r];
      assert now[..|now| - 1] == held[1..];
    }
  }

  // ---------- when rolling pushes are legal ----------

  /** The two locations, as the loop of `ringbuf_rolling_push` moves them whatever they are. */
  datatype Locs = Locs(read: int, write: int) {
    function Size(): int { write - read }

    predicate Legal(capacity: nat) {
      0 <= read < capacity && read <= write <= read + capacity
    }
  }

  function Seek(l: Locs, n: nat, capacity: nat): Locs
  {
    if l.read + n >= capacity then Locs(l.read + n - capacity, l.write - capacity) else Locs(l.read + n, l.write)
  }

  function Rolled(l: Locs, n: nat, capacity: nat): (r: Locs)
    ensures n == 0 || n <= capacity - r.Size()
    decreases if l.Size() + n > capacity then l.Size() + n - capacity else 0
  {
    if n == 0 || capacity - l.Size() >= n then l else Rolled(Seek(l, n, capacity), n, capacity)
  }

  /** Rolling keeps a ring in order if and only if there is room already, or at least `n` bytes can be
  dropped. */
  lemma RollingIsSafe(l: Locs, n: nat, capacity: nat)
    requires l.Legal(capacity)
    ensures Rolled(l, n, capacity).Legal(capacity) <==> n <= capacity - l.Size() || n <= l.Size()
  {
    var m := Seek(l, n, capacity);
    if n != 0 && capacity - l.Size() < n {
      assert Rolled(l, n, capacity) == Rolled(m, n, capacity) == m;
    }
  }

  /** A record of 3000 bytes in a ring of 4096 that holds 2000: the write location falls below the ring. */
  lemma RollingMixedSizes()
    ensures Locs(2000, 4000).Legal(4096) && Rolled(Locs(2000, 4000), 3000, 4096).write < 0
  {
    assert Seek(Locs(2000, 4000), 3000, 4096) == Locs(904, -96);
    assert Rolled(Locs(904, -96), 3000, 4096) == Locs(904, -96);
  }
}
