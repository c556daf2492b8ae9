/** The windowed file writer of src/_file_writer.c.

The file is written through a mapped window of `bufferSize` bytes, from `baseLoc` to `nextLoc`;
`capacity` is the length the file has been extended to. */
module FileWriter {
  import opened Words

  // ---------- the window ----------

  datatype Window = Window(size: nat, base: nat, next: nat, write: nat, capacity: nat)

  /** A power of two from 4096 up. */
  ghost predicate WindowSize(size: nat)
    ensures WindowSize(size) ==> 0 < size
  {
    exists k: nat :: 12 <= k && size == Pow2(k)
  }

  function Times(i: nat, size: nat): nat
  {
    i * size
  }

  ghost predicate Multiple(x: nat, size: nat)
  {
    exists i: nat :: x == Times(i, size)
  }

  /** What holds between calls, whatever they were.  After a seek to the very end of a file of whole
  windows, the window lies behind the end of the file. */
  ghost predicate Reachable(w: Window)
  {
    && WindowSize(w.size)
    && Multiple(w.base, w.size) && Multiple(w.capacity, w.size)
    && w.base <= w.write < w.next == w.base + w.size
    && (w.next <= w.capacity || w.write == w.base == w.capacity)
  }

  /** The window is the last of the file: so it is for a file written from front to back. */
  ghost predicate AtEnd(w: Window)
  {
    Reachable(w) && w.capacity == w.next
  }

  /** A new file is one window of zeros. */
  function Initial(size: nat): (w: Window)
  {
    Window(size, 0, size, 0, size)
  }

  /** `file_writer_wseek` */
  function Advanced(w: Window, n: nat): (r: Window)
  {
    var write := w.write + n;
    if write == w.next then
      Window(w.size, write, write + w.size, write, if write == w.capacity then w.capacity + w.size else w.capacity)
    else
      w.(write := write)
  }

  /** The start of the window that holds location `x`. */
  function Floor(x: nat, size: nat): (f: nat)
    requires 0 < size
    ensures f <= x < f + size
  {
    x - x % size
  }

  /** `file_writer_lseek` to an absolute location */
  function Sought(w: Window, offset: nat): (r: Window)
    requires 0 < w.size
  {
    var base := Floor(offset, w.size);
    var capacity := if offset > w.capacity then Floor(offset + w.size - 1, w.size) else w.capacity;
    Window(w.size, base, base + w.size, offset, capacity)
  }

  /** The third argument of `file_writer_lseek`. */
  datatype Whence = SeekSet | SeekCur | SeekEnd | SeekOther

  /** The location that a seek asks for; without a known direction it is the one where the writer is. */
  function Target(w: Window, offset: int, whence: Whence): (x: int)
  {
    match whence
    case SeekSet => offset
    case SeekCur => w.write + offset
    case _ => w.write
  }

  lemma TimesGrows(i: nat, j: nat, size: nat)
    requires i < j
    ensures Times(i, size) + size == Times(i + 1, size) <= Times(j, size)
  {
    assert (i + 1) * size <= j * size;
  }

  lemma TimesReflects(i: nat, j: nat, size: nat)
    ensures Times(i, size) < Times(j, size) ==> i < j
  {
    if j < i {
      TimesGrows(j, i, size);
    }
  }

  lemma MultipleStep(a: nat, b: nat, size: nat)
    requires Multiple(a, size) && Multiple(b, size) && a < b
    ensures a + size <= b
  {
    var i: nat :| a == Times(i, size);
    var j: nat :| b == Times(j, size);
    TimesReflects(i, j, size);
    TimesGrows(i, j, size);
  }

  lemma MultipleNext(a: nat, size: nat)
    requires Multiple(a, size)
    ensures Multiple(a + size, size)
  {
    var i: nat :| a == Times(i, size);
    TimesGrows(i, i + 1, size);
  }

  lemma MultipleZero(size: nat)
    ensures Multiple(0, size) && Multiple(size, size)
  {
    assert Times(0, size) == 0 && Times(1, size) == size;
  }

  lemma FloorFacts(x: nat, size: nat)
    requires 0 < size
    ensures Multiple(Floor(x, size), size)
  {
    assert Floor(x, size) == Times(x / size, size);
  }

  lemma {:induction false} EightDivides(k: nat)
    requires 3 <= k
    ensures Pow2(k) == 8 * Pow2(k - 3)
  {
    assert Pow2(k) == 2 * Pow2(k - 1) && Pow2(k - 1) == 2 * Pow2(k - 2) && Pow2(k - 2) == 2 * Pow2(k - 3);
  }

  lemma MultipleOfEight(a: nat, size: nat)
    requires WindowSize(size) && Multiple(a, size)
    ensures a % 8 == 0
  {
    var k: nat :| 12 <= k && size == Pow2(k);
    EightDivides(k);
    var i: nat :| a == Times(i, size);
    Regroup(i, Pow2(k - 3));
  }

  lemma Regroup(i: nat, j: nat)
    ensures i * (8 * j) == 8 * (i * j)
  {
  }

  /** The next multiple of 8 is never beyond the end of the window, and a window behind the file begins
  with one. */
  lemma AlignsInside(w: Window)
    requires Reachable(w)
    ensures Align8(w.write) <= w.next && (w.next <= w.capacity || Align8(w.write) == w.write)
  {
    hide Multiple, WindowSize;
    MultipleNext(w.base, w.size);
    MultipleOfEight(w.base, w.size);
    MultipleOfEight(w.next, w.size);
  }

  /** Moving by no more than is left of the window. */
  lemma AdvanceReaches(w: Window, n: nat)
    requires Reachable(w) && w.write + n <= w.next && (w.next <= w.capacity || n == 0)
    ensures Reachable(Advanced(w, n)) && Advanced(w, n).write == w.write + n <= Advanced(w, n).capacity
    ensures w.capacity <= Advanced(w, n).capacity
    ensures AtEnd(w) ==> AtEnd(Advanced(w, n))
  {
    if w.write + n == w.next {
      MultipleNext(w.base, w.size);
      if w.next == w.capacity {
        MultipleNext(w.capacity, w.size);
      } else {
        MultipleStep(w.next, w.capacity, w.size);
      }
    }
  }

  /** Seeking keeps the window in order; the window lies inside the file unless the seek goes to the
  end of whole windows. */
  lemma SeekReaches(w: Window, offset: nat)
    requires Reachable(w)
    ensures var r := Sought(w, offset);
            && Reachable(r) && r.write == offset
            && w.capacity <= r.capacity
            && (offset < w.capacity ==> r.capacity == w.capacity)
            && (r.next <= r.capacity <==> offset < w.capacity || (w.capacity < offset && !Multiple(offset, w.size)))
  {
    hide Floor, Multiple;
    FloorFacts(offset, w.size);
    var r := Sought(w, offset);
    if offset < w.capacity {
      MultipleStep(r.base, w.capacity, w.size);
    } else if w.capacity < offset {
      FloorFacts(offset + w.size - 1, w.size);
      if Multiple(offset, w.size) {
        FloorOfMultiple(offset, offset, w.size);
        FloorOfMultiple(offset + w.size - 1, offset, w.size);
      } else {
        MultipleStep(r.base, r.capacity, w.size);
      }
    } else {
      FloorOfMultiple(offset, offset, w.size);
    }
  }

  lemma FloorOfMultiple(x: nat, m: nat, size: nat)
    requires 0 < size && Multiple(m, size) && m <= x < m + size
    ensures Floor(x, size) == m
  {
    hide Floor, Multiple;
    FloorFacts(x, size);
    var f := Floor(x, size);
    if f < m {
      MultipleStep(f, m, size);
    } else if m < f {
      MultipleStep(m, f, size);
    }
  }

  // ---------- when a write stays inside the window ----------

  /** The size of the next copy: bounded by the end of the file, not by the end of the window. */
  function CopySize(w: Window, size: nat): (n: nat)
    requires w.write <= w.capacity
  {
    if w.capacity - w.write >= size then size else w.capacity - w.write
  }

  /** Every copy of a write of `size` bytes stays inside window and file, and the write comes to an end. */
  ghost predicate WriteIsInside(w: Window, size: nat)
    decreases size
  {
    && w.write <= w.capacity
    && var n := CopySize(w, size);
       && w.write + n <= w.next
       && (n == size || (0 < n && WriteIsInside(Advanced(w, n), size - n)))
  }

  /** Exactly when: the window is the last one of the file, or the write does not cross its end; and
  no write gets anywhere from a window behind the file. */
  lemma {:induction false} WriteIsInsideWhen(w: Window, size: nat)
    requires Reachable(w)
    ensures WriteIsInside(w, size) <==>
              size == 0 || (w.write < w.capacity && (w.capacity == w.next || w.write + size <= w.next))
    decreases size
  {
    var n := CopySize(w, size);
    if 0 < n < size && w.capacity == w.next {
      AdvanceReaches(w, n);
      WriteIsInsideWhen(Advanced(w, n), size - n);
    }
  }

  /** The window after a write of `size` bytes. */
  ghost function Written(w: Window, size: nat): (r: Window)
    requires WriteIsInside(w, size)
    decreases size
  {
    var n := CopySize(w, size);
    if n == size then Advanced(w, n) else Written(Advanced(w, n), size - n)
  }

  lemma InitialIsReachable(size: nat)
    requires WindowSize(size)
    ensures AtEnd(Initial(size))
  {
    MultipleZero(size);
  }

  /** A new file, one window written, a seek to its start, and a write that goes one byte across the
  end of the first window. */
  lemma WriteCrossesWindow(size: nat)
    requires WindowSize(size)
    ensures AtEnd(Initial(size)) && WriteIsInside(Initial(size), size)
    ensures var w := Sought(Written(Initial(size), size), 0); Reachable(w) && !WriteIsInside(w, size + 1)
  {
    InitialIsReachable(size);
    AtEndInside(Initial(size), size);
    InsideStep(Initial(size), size);
    AdvanceReaches(Initial(size), size);
    hide WriteIsInside, Reachable, Written;
    var w := Advanced(Initial(size), size);
    SeekReaches(w, 0);
    FloorOfMultiple(0, 0, size);
    WriteIsInsideWhen(Sought(w, 0), size + 1);
  }

  lemma InsideStep(w: Window, size: nat)
    requires Reachable(w) && WriteIsInside(w, size)
    ensures var n := CopySize(w, size);
            && w.write + n <= w.next && w.write + n <= w.capacity && (w.next <= w.capacity || n == 0)
            && (n == size || (0 < n && WriteIsInside(Advanced(w, n), size - n)))
            && Written(w, size) == if n == size then Advanced(w, n) else Written(Advanced(w, n), size - n)
  {
  }

  lemma StoreNothing(file: Bytes, at: nat, buf: Bytes, w: Window)
    requires Reachable(w) && w.write == at && w.capacity == |file|
    ensures at <= |file| && file + Zeros(0) == file && Store(file + Zeros(0), at, buf[..0]) == file
  {
  }

  /** Writing the next stretch of `buf`, and extending the file by `h` bytes behind it. */
  lemma CopyStep(file: Bytes, g: nat, at: nat, buf: Bytes, done: nat, n: nat, h: nat)
    requires done + n <= |buf| && at + done + n <= |file| + g
    ensures Store(Store(file + Zeros(g), at, buf[..done]), at + done, buf[done..done + n]) + Zeros(h)
         == Store(file + Zeros(g + h), at, buf[..done + n])
  {
    hide *;
    var x := Store(Store(file + Zeros(g), at, buf[..done]), at + done, buf[done..done + n]) + Zeros(h);
    var y := Store(file + Zeros(g + h), at, buf[..done + n]);
    forall i | 0 <= i < |x|
      ensures x[i] == y[i]
    {
    }
  }

  // ---------- the writer ----------

  class FileWriter {
    const bufferSize: nat
    var file: Bytes
    var baseLoc: nat
    var nextLoc: nat
    var writeLoc: nat
    var capacity: nat

    ghost function View(): Window
      reads this
    {
      Window(bufferSize, baseLoc, nextLoc, writeLoc, capacity)
    }

    ghost predicate Valid()
      reads this
      ensures Valid() ==> writeLoc <= capacity == |file|
    {
      Reachable(View()) && |file| == capacity
    }

    /** file_writer_init: at least 4096, else the next power of two. */
    constructor (initialSize: nat)
      ensures View() == Initial(if initialSize < 4096 then 4096 else NextPow2(initialSize))
      ensures Valid() && AtEnd(View()) && file == Zeros(bufferSize)
    {
      var size := if initialSize < 4096 then 4096 else NextPow2(initialSize);
      bufferSize := size;
      baseLoc, writeLoc := 0, 0;
      capacity, nextLoc := size, size;
      file := Zeros(size);
      NextPow2IsWindow(initialSize);
      InitialIsReachable(size);
    }

    /** file_writer_wseek, by no more than is left of the window. */
    method Wseek(n: nat)
      requires Valid() && writeLoc + n <= nextLoc && (nextLoc <= capacity || n == 0)
      modifies this
      ensures Valid() && View() == Advanced(old(View()), n)
      ensures file == old(file) + Zeros(capacity - old(capacity))
    {
      hide Multiple, WindowSize, Zeros;
      AdvanceReaches(View(), n);
      writeLoc := writeLoc + n;
      if writeLoc == nextLoc {
        baseLoc := writeLoc;
        nextLoc := baseLoc + bufferSize;
        if writeLoc == capacity {
          capacity := capacity + bufferSize;
          file := file + Zeros(bufferSize);
        }
      }
    }

    /** file_writer_lseek: seeking from the end is refused. */
    method Lseek(offset: int, whence: Whence) returns (res: int)
      requires Valid() && 0 <= Target(View(), offset, whence)
      modifies this
      ensures Valid() && old(capacity) <= capacity && file == old(file) + Zeros(capacity - old(capacity))
      ensures res == if whence.SeekEnd? then -1 else 0
      ensures View() == if whence.SeekEnd? then old(View()) else old(Sought(View(), Target(View(), offset, whence)))
    {
      hide Multiple, WindowSize, Floor, Zeros;
      SeekReaches(View(), Target(View(), offset, whence));
      match whence {
        case SeekSet => writeLoc := offset;
        case SeekCur => writeLoc := writeLoc + offset;
        case SeekEnd => return -1;
        case SeekOther =>
      }
      if writeLoc > capacity {
        var newCapacity := Floor(writeLoc + bufferSize - 1, bufferSize);
        file := file + Zeros(newCapacity - capacity);
        capacity := newCapacity;
      }
      baseLoc := Floor(writeLoc, bufferSize);
      nextLoc := baseLoc + bufferSize;
      res := 0;
    }

    /** file_writer_write: nothing but the bytes at the write location changes. */
    method Write(buf: Bytes)
      requires Valid() && WriteIsInside(View(), |buf|)
      modifies this
      ensures Valid() && writeLoc == old(writeLoc) + |buf| && old(capacity) <= capacity
      ensures old(writeLoc) + |buf| <= capacity
      ensures file == Store(old(file) + Zeros(capacity - old(capacity)), old(writeLoc), buf)
      ensures View() == Written(old(View()), |buf|) && (old(AtEnd(View())) ==> AtEnd(View()))
    {
      hide Store, Zeros, WriteIsInside, Written, Reachable, Advanced, WindowSize, Multiple;
      var done := 0;
      StoreNothing(file, writeLoc, buf, View());
      while true
        invariant 0 <= done <= |buf| && Valid() && WriteIsInside(View(), |buf| - done)
        invariant writeLoc == old(writeLoc) + done <= capacity && old(capacity) <= capacity
        invariant file == Store(old(file) + Zeros(capacity - old(capacity)), old(writeLoc), buf[..done])
        invariant old(AtEnd(View())) ==> AtEnd(View())
        invariant Written(View(), |buf| - done) == Written(old(View()), |buf|)
        decreases |buf| - done
      {
        ghost var w := View();
        InsideStep(w, |buf| - done);
        var wav := capacity - writeLoc;
        var size := |buf| - done;
        var n := if wav >= size then size else wav;
        AdvanceReaches(View(), n);
        ghost var grown := capacity - old(capacity);
        file := Store(file, writeLoc, buf[done..done + n]);
        Wseek(n);
        assert View() == Advanced(w, n);
        CopyStep(old(file), grown, old(writeLoc), buf, done, n, capacity - old(capacity) - grown);
        done := done + n;
        if done == |buf| {
          break;
        }
      }
      assert buf[..done] == buf;
    }

    /** file_writer_align */
    method Align()
      requires Valid()
      modifies this
      ensures Valid() && writeLoc == Align8(old(writeLoc)) && old(capacity) <= capacity
      ensures View() == Advanced(old(View()), Align8(old(writeLoc)) - old(writeLoc))
      ensures file == old(file) + Zeros(capacity - old(capacity))
      ensures old(AtEnd(View())) ==> AtEnd(View())
    {
      AlignsInside(View());
      AdvanceReaches(View(), Align8(writeLoc) - writeLoc);
      Wseek(Align8(writeLoc) - writeLoc);
    }

    /** A caller's write through the window, which leaves the location where it is. */
    method Poke(bytes: Bytes)
      requires Valid() && writeLoc + |bytes| <= nextLoc <= capacity
      modifies this`file
      ensures Valid() && file == Store(old(file), writeLoc, bytes)
    {
      file := Store(file, writeLoc, bytes);
    }

    /** file_writer_close: the file that is left. */
    method Close() returns (contents: Bytes)
      requires Valid()
      ensures writeLoc <= |file| && contents == file[..writeLoc]
    {
      contents := file[..writeLoc];
    }
  }

  /** Seeking to the start and back again: the window returns to where it was. */
  lemma SeekAndReturn(w: Window)
    requires AtEnd(w)
    ensures var r := Sought(w, 0);
            && Reachable(r) && r.write == 0 && r.capacity == w.capacity && 4096 <= r.next <= r.capacity
            && Sought(r, w.write) == w
  {
    SeekReaches(w, 0);
    WindowAtLeast(w.size);
    hide WindowSize, Multiple, Floor;
    FloorOfMultiple(w.write, w.base, w.size);
  }

  lemma WindowAtLeast(size: nat)
    requires WindowSize(size)
    ensures 4096 <= size
  {
    var k: nat :| 12 <= k && size == Pow2(k);
    assert Pow2(12) == 4096;
    Pow2Monotone(12, k);
  }

  /** In the last window of the file every write is safe. */
  lemma AtEndInside(w: Window, size: nat)
    requires AtEnd(w)
    ensures WriteIsInside(w, size)
  {
    WriteIsInsideWhen(w, size);
  }

  // ---------- a file written from front to back ----------

  /** The file holds `contents`, and zeros up to its end. */
  ghost predicate Padded(file: Bytes, contents: Bytes)
  {
    |contents| <= |file| && file == contents + Zeros(|file| - |contents|)
  }

  lemma PaddedNothing(n: nat)
    ensures Padded(Zeros(n), [])
  {
  }

  lemma PaddedWrite(file: Bytes, contents: Bytes, g: nat, buf: Bytes)
    requires Padded(file, contents) && |contents| + |buf| <= |file| + g
    ensures Padded(Store(file + Zeros(g), |contents|, buf), contents + buf)
  {
    var x := Store(file + Zeros(g), |contents|, buf);
    var y := contents + buf + Zeros(|x| - |contents + buf|);
    hide Store, Zeros;
    assert forall i | 0 <= i < |x| :: x[i] == y[i];
  }

  lemma PaddedSkip(file: Bytes, contents: Bytes, g: nat, n: nat)
    requires Padded(file, contents) && |contents| + n <= |file| + g
    ensures Padded(file + Zeros(g), contents + Zeros(n))
  {
  }

  lemma PaddedFront(file: Bytes, contents: Bytes, n: nat)
    requires Padded(file, contents) && n <= |contents|
    ensures n <= |file| && file[..n] == contents[..n]
  {
  }

  lemma PaddedPatch(file: Bytes, contents: Bytes, head: Bytes)
    requires Padded(file, contents) && |head| <= |contents|
    ensures Store(file, 0, head)[..|contents|] == head + contents[|head|..]
  {
  }

  lemma NextPow2IsWindow(x: nat)
    ensures WindowSize(4096) && (4096 <= x ==> WindowSize(NextPow2(x)))
  {
    assert Pow2(12) == 4096;
    if 4096 <= x {
      assert Pow2(11) == 2048;
      hide Pow2, NextPow2;
      var k := NextPow2IsPower(x);
      Pow2Reflects(11, k);
    }
  }
}
