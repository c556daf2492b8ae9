/** Linear probing over a table of slots, independently of where the slots are stored.

The three hash tables of the library keep one invariant: every entry sits on an unbroken run of
occupied slots that starts at its ideal slot.  Doubling a table and repairing a chain after a
deletion both relocate entries one at a time, and in both the table is only partly in order
meanwhile.  `Settled(t, pending)` is the invariant they share: the entries outside `pending` are in
order, and no run that leads to one of them passes through `pending`. */
module Probing {

  datatype Slot = Vacant | Entry(hash: nat, rec: nat)

  type Table = seq<Slot>

  /** `hashcode & mask`, for a table of `n == mask + 1` slots, `n` a power of two. */
  function Ideal(hash: nat, n: nat): (i: nat)
    requires 0 < n
    ensures i < n
  {
    hash % n
  }

  /** The slot after `i`, wrapping at the end of the table. */
  function Next(i: nat, n: nat): (j: nat)
    requires i < n
    ensures j < n
  {
    if i + 1 == n then 0 else i + 1
  }

  /** `y` lies on the cyclic walk that starts at `a` and ends at `b`. */
  predicate Arc(a: nat, b: nat, y: nat) {
    if a <= b then a <= y <= b else a <= y || y <= b
  }

  /** Number of steps from `a` to `b`. */
  function Distance(a: nat, b: nat, n: nat): (d: nat)
    requires a < n && b < n
    ensures d < n
  {
    if a <= b then b - a else n - a + b
  }

  /** All slots from the ideal one of `t[x]` up to `x` are occupied, and none of them is pending. */
  ghost predicate Reaches(t: Table, x: nat, pending: set<nat>)
    requires x < |t| && t[x].Entry?
  {
    forall y :: 0 <= y < |t| && Arc(Ideal(t[x].hash, |t|), x, y) ==> t[y].Entry? && y !in pending
  }

  ghost predicate Settled(t: Table, pending: set<nat>) {
    forall x :: 0 <= x < |t| && x !in pending && t[x].Entry? ==> Reaches(t, x, pending)
  }

  /** Every entry can be found by probing. */
  ghost predicate Ordered(t: Table) {
    Settled(t, {})
  }

  /** No record is entered twice. */
  ghost predicate Distinct(t: Table) {
    forall i, j :: 0 <= i < |t| && 0 <= j < |t| && t[i].Entry? && t[j].Entry? && t[i].rec == t[j].rec ==> i == j
  }

  ghost function Entries(t: Table): set<Slot> {
    set i | 0 <= i < |t| && t[i].Entry? :: t[i]
  }

  ghost function Recs(t: Table): set<nat> {
    set i | 0 <= i < |t| && t[i].Entry? :: t[i].rec
  }

  /** The records in the order of their slots. */
  function Listed(t: Table): (r: seq<nat>) {
    if t == [] then [] else
    var s := t[|t| - 1];
    Listed(t[..|t| - 1]) + if s.Entry? then [s.rec] else []
  }

  lemma {:induction false} ListedIsRecs(t: Table)
    ensures forall o :: o in Listed(t) <==> o in Recs(t)
    ensures Distinct(t) ==> forall i, j :: 0 <= i < j < |Listed(t)| ==> Listed(t)[i] != Listed(t)[j]
  {
    if t != [] {
      var n := |t| - 1;
      var u := t[..n];
      ListedIsRecs(u);
      forall o
        ensures o in Recs(t) <==> o in Recs(u) || (t[n].Entry? && o == t[n].rec)
      {
        if o in Recs(u) {
          var i :| 0 <= i < |u| && u[i].Entry? && u[i].rec == o;
          assert t[i].rec == o;
        }
      }
      if Distinct(t) {
        assert Distinct(u) && (t[n].Entry? ==> t[n].rec !in Recs(u));
      }
    }
  }

  lemma ListedStep(t: Table, b: nat)
    requires b < |t|
    ensures Listed(t[..b + 1]) == Listed(t[..b]) + if t[b].Entry? then [t[b].rec] else []
  {
    assert t[..b + 1][..b] == t[..b];
  }

  /** The slots from `j` up to, but not including, `q` are occupied and `q` lies between `j` and `e`. */
  ghost predicate Probed(t: Table, j: nat, q: nat, e: nat) {
    && j < |t| && q < |t| && e < |t|
    && Arc(j, e, q)
    && (forall y :: 0 <= y < |t| && Arc(j, q, y) && y != q ==> t[y].Entry?)
  }

  lemma ProbeStarts(t: Table, j: nat, e: nat)
    requires j < |t| && e < |t|
    ensures Probed(t, j, j, e)
  {
  }

  /** One more probe: an occupied slot is passed and the walk gets closer to the vacant slot `e`. */
  lemma ProbeOn(t: Table, j: nat, q: nat, e: nat)
    requires Probed(t, j, q, e) && t[q].Entry? && t[e].Vacant?
    ensures Probed(t, j, Next(q, |t|), e)
    ensures Distance(Next(q, |t|), e, |t|) < Distance(q, e, |t|)
  {
    var r := Next(q, |t|);
    forall y | 0 <= y < |t| && Arc(j, r, y) && y != r
      ensures t[y].Entry?
    {
      assert y == q || Arc(j, q, y);
    }
  }

  /** The slot-level effect of relocating the entry of slot `p` to slot `q`. */
  function Moved(t: Table, p: nat, q: nat): (r: Table)
    requires p < |t| && q < |t|
    ensures |r| == |t|
  {
    t[p := Vacant][q := t[p]]
  }

  /** Relocating one pending entry to the first vacant slot of its run settles it.  The slot `e`
  bounds the walk; what makes the step sound is that the walk up to `e` meets no other pending slot. */
  lemma MoveStep(t: Table, pending: set<nat>, p: nat, q: nat, e: nat)
    requires Settled(t, pending)
    requires p < |t| && p in pending && t[p].Entry?
    requires Probed(t[p := Vacant], Ideal(t[p].hash, |t|), q, e)
    requires t[p := Vacant][q].Vacant?
    requires forall y :: 0 <= y < |t| && Arc(Ideal(t[p].hash, |t|), e, y) ==> y == p || y !in pending
    ensures Settled(Moved(t, p, q), pending - {p})
    ensures q == p || q !in pending
  {
    var j := Ideal(t[p].hash, |t|);
    var t1, t2, rest := t[p := Vacant], Moved(t, p, q), pending - {p};
    forall x | 0 <= x < |t2| && x !in rest && t2[x].Entry?
      ensures Reaches(t2, x, rest)
    {
      if x == q {
        forall y | 0 <= y < |t2| && Arc(j, q, y)
          ensures t2[y].Entry? && y !in rest
        {
          assert Arc(j, e, y);
          if y != q {
            assert t1[y].Entry?;
          }
        }
      } else {
        assert t1[x] == t[x] == t2[x] && x !in pending;
        assert Reaches(t, x, pending);
        forall y | 0 <= y < |t2| && Arc(Ideal(t2[x].hash, |t2|), x, y)
          ensures t2[y].Entry? && y !in rest
        {
          assert t[y].Entry? && y !in pending;
        }
      }
    }
  }

  /** Relocation neither loses nor duplicates an entry. */
  lemma MoveKeepsEntries(t: Table, p: nat, q: nat)
    requires p < |t| && q < |t| && t[p].Entry? && t[p := Vacant][q].Vacant?
    ensures Entries(Moved(t, p, q)) == Entries(t)
    ensures Recs(Moved(t, p, q)) == Recs(t)
    ensures Distinct(t) ==> Distinct(Moved(t, p, q))
  {
    var t2 := Moved(t, p, q);
    forall s | s in Entries(t)
      ensures s in Entries(t2)
    {
      var i :| 0 <= i < |t| && t[i].Entry? && t[i] == s;
      assert t2[if i == p then q else i] == s;
    }
    forall s | s in Entries(t2)
      ensures s in Entries(t)
    {
      var i :| 0 <= i < |t2| && t2[i].Entry? && t2[i] == s;
      assert t[if i == q then p else i] == s;
    }
    RecsOfEntries(t);
    RecsOfEntries(t2);
  }

  lemma RecsOfEntries(t: Table)
    ensures Recs(t) == set s | s in Entries(t) :: s.rec
  {
    forall r | r in Recs(t)
      ensures r in set s | s in Entries(t) :: s.rec
    {
      var i :| 0 <= i < |t| && t[i].Entry? && t[i].rec == r;
      assert t[i] in Entries(t);
    }
  }

  /** A vacant slot needs no settling. */
  lemma SkipVacant(t: Table, pending: set<nat>, p: nat)
    requires Settled(t, pending)
    requires p < |t| && t[p].Vacant?
    ensures Settled(t, pending - {p})
  {
    forall x | 0 <= x < |t| && x !in pending - {p} && t[x].Entry?
      ensures Reaches(t, x, pending - {p})
    {
      assert Reaches(t, x, pending);
    }
  }

  /** A table that holds fewer records than slots has a vacant slot, so every probe ends. */
  lemma VacantExists(t: Table) returns (e: nat)
    requires Distinct(t) && |Recs(t)| < |t|
    ensures e < |t| && t[e].Vacant?
  {
    if forall i :: 0 <= i < |t| ==> t[i].Entry? {
      FullTable(t);
    }
    e :| e < |t| && t[e].Vacant?;
  }

  lemma {:induction false} FullTable(t: Table)
    requires Distinct(t) && forall i :: 0 <= i < |t| ==> t[i].Entry?
    ensures |Recs(t)| == |t|
  {
    if t != [] {
      var n := |t| - 1;
      var u := t[..n];
      FullTable(u);
      assert Recs(t) == Recs(u) + {t[n].rec} by {
        forall r | r in Recs(t)
          ensures r in Recs(u) + {t[n].rec}
        {
          var i :| 0 <= i < |t| && t[i].Entry? && t[i].rec == r;
          if i < n { assert u[i].rec == r; }
        }
        forall r | r in Recs(u)
          ensures r in Recs(t)
        {
          var i :| 0 <= i < |u| && u[i].Entry? && u[i].rec == r;
          assert t[i].rec == r;
        }
        assert t[n].rec in Recs(t);
      }
      assert t[n].rec !in Recs(u);
    }
  }

  // ---------- lookup, insertion, removal ----------

  /** A probe that ends at a vacant slot has passed every entry with that ideal slot. */
  lemma ProbeIsExhaustive(t: Table, j: nat, q: nat, e: nat, x: nat)
    requires Ordered(t) && Probed(t, j, q, e) && t[q].Vacant?
    requires x < |t| && t[x].Entry? && Ideal(t[x].hash, |t|) == j
    ensures x != q && Arc(j, q, x)
  {
    assert Reaches(t, x, {});
  }

  lemma InsertKeepsOrder(t: Table, hash: nat, rec: nat, q: nat, e: nat)
    requires Ordered(t) && 0 < |t| && Probed(t, Ideal(hash, |t|), q, e) && t[q].Vacant?
    ensures Ordered(t[q := Entry(hash, rec)])
  {
    var u := t[q := Entry(hash, rec)];
    forall x | 0 <= x < |u| && u[x].Entry?
      ensures Reaches(u, x, {})
    {
      if x != q {
        assert Reaches(t, x, {});
      }
    }
  }

  lemma InsertAddsEntry(t: Table, hash: nat, rec: nat, q: nat)
    requires q < |t| && t[q].Vacant?
    ensures Entries(t[q := Entry(hash, rec)]) == Entries(t) + {Entry(hash, rec)}
    ensures Recs(t[q := Entry(hash, rec)]) == Recs(t) + {rec}
    ensures Distinct(t) && rec !in Recs(t) ==> Distinct(t[q := Entry(hash, rec)])
  {
    var u := t[q := Entry(hash, rec)];
    forall s | s in Entries(t)
      ensures s in Entries(u)
    {
      var i :| 0 <= i < |t| && t[i].Entry? && t[i] == s;
      assert u[i] == s;
    }
    assert u[q] in Entries(u);
    RecsOfEntries(t);
    RecsOfEntries(u);
  }

  /** Taking out the only entry of a record. */
  lemma RemoveDropsEntry(t: Table, d: nat)
    requires d < |t| && t[d].Entry? && Distinct(t)
    ensures Entries(t[d := Vacant]) == Entries(t) - {t[d]}
    ensures Recs(t[d := Vacant]) == Recs(t) - {t[d].rec}
    ensures Distinct(t[d := Vacant])
  {
    var u := t[d := Vacant];
    forall s | s in Entries(t) && s != t[d]
      ensures s in Entries(u)
    {
      var i :| 0 <= i < |t| && t[i].Entry? && t[i] == s;
      assert u[i] == s;
    }
    forall s | s in Entries(u)
      ensures s in Entries(t) && s != t[d]
    {
      var i :| 0 <= i < |u| && u[i].Entry? && u[i] == s;
      assert t[i] == s;
    }
    forall r | r in Recs(t) && r != t[d].rec
      ensures r in Recs(u)
    {
      var i :| 0 <= i < |t| && t[i].Entry? && t[i].rec == r;
      assert u[i].rec == r;
    }
  }

  // ---------- doubling a table ----------

  lemma IdealDoubles(hash: nat, n: nat)
    requires 0 < n
    ensures Ideal(hash, 2 * n) == Ideal(hash, n) || Ideal(hash, 2 * n) == Ideal(hash, n) + n
  {
    var q := hash / n;
    SplitTwice(hash, n, q / 2, q % 2, hash % n);
  }

  lemma SplitTwice(x: nat, n: nat, a: nat, c: nat, r: nat)
    requires r < n && c < 2 && x == n * (2 * a + c) + r
    ensures x % (2 * n) == if c == 0 then r else r + n
  {
    assert n * (2 * a + c) == 2 * n * a + n * c;
    ModUnique(x, 2 * n, a, if c == 0 then r else r + n);
  }

  lemma ModUnique(x: nat, n: nat, k: nat, r: nat)
    requires r < n && x == n * k + r
    ensures x % n == r
  {
    var d := x / n - k;
    assert n * d == r - x % n;
    Scale(n, d);
  }

  lemma Scale(n: nat, d: int)
    ensures d >= 1 ==> n * d >= n
    ensures d <= -1 ==> n * d + n <= 0
  {
  }

  predicate Between(lo: nat, hi: nat, i: nat) {
    lo <= i < hi
  }

  /** Slots not yet rehashed when the first pass, which starts at the vacant slot `b`, is at `p`. */
  function FirstPending(n: nat, b: nat, p: nat): set<nat> {
    set i | 0 <= i < n && !Between(b, p, i)
  }

  /** Slots not yet rehashed when the second pass, over the prefix before `b`, is at `p`. */
  function SecondPending(b: nat, p: nat): set<nat> {
    set i | 0 <= i < b && Between(p, b, i)
  }

  /** The probe for the entry of slot `x` passes the one of slot `y`, which has the same hash. */
  ghost predicate Ahead(t: Table, y: nat, x: nat)
    requires x < |t| && y < |t|
  {
    && x != y && t[x].Entry? && t[y].Entry? && t[y].hash == t[x].hash
    && Arc(Ideal(t[x].hash, |t|), x, y)
  }

  /** Entries of the same hash stand in the order of their records. */
  ghost predicate InTurn(t: Table) {
    forall x, y :: 0 <= x < |t| && 0 <= y < |t| && Ahead(t, y, x) ==> t[y].rec < t[x].rec
  }

  /** So they do outside `pending`, and the pending ones come last. */
  ghost predicate TurnsKept(t: Table, pending: set<nat>) {
    && (forall x, y :: 0 <= x < |t| && 0 <= y < |t| && x !in pending && Ahead(t, y, x) ==> t[y].rec < t[x].rec)
    && (forall p, y :: 0 <= p < |t| && 0 <= y < |t| && p in pending && y !in pending && SameHash(t, p, y)
                       ==> t[y].rec < t[p].rec)
  }

  ghost predicate SameHash(t: Table, x: nat, y: nat)
    requires x < |t| && y < |t|
  {
    t[x].Entry? && t[y].Entry? && t[x].hash == t[y].hash
  }

  lemma ArcTotal(i: nat, x: nat, y: nat)
    ensures Arc(i, x, y) || Arc(i, y, x)
  {
  }

  /** An entry with no pending slot on its way goes before the pending ones of its hash. */
  lemma FirstOfPending(t0: Table, p: nat, p': nat)
    requires Ordered(t0) && InTurn(t0) && p < |t0| && p' < |t0| && p != p' && SameHash(t0, p, p')
    requires !Arc(Ideal(t0[p].hash, |t0|), p, p')
    ensures t0[p].rec < t0[p'].rec
  {
    ArcTotal(Ideal(t0[p].hash, |t0|), p, p');
    assert Ahead(t0, p, p');
  }

  /** Settling the first of the pending entries of its hash keeps the turns. */
  lemma TurnStep(t: Table, pending: set<nat>, p: nat, q: nat, e: nat)
    requires Settled(t, pending) && TurnsKept(t, pending)
    requires p < |t| && p in pending && t[p].Entry?
    requires Probed(t[p := Vacant], Ideal(t[p].hash, |t|), q, e) && t[p := Vacant][q].Vacant?
    requires forall y :: 0 <= y < |t| && Arc(Ideal(t[p].hash, |t|), e, y) ==> y == p || y !in pending
    requires forall p' :: 0 <= p' < |t| && p' in pending && p' != p && SameHash(t, p, p') ==> t[p].rec < t[p'].rec
    ensures TurnsKept(Moved(t, p, q), pending - {p})
  {
    var j := Ideal(t[p].hash, |t|);
    var t2, rest := Moved(t, p, q), pending - {p};
    assert q == p || q !in pending by {
      assert Arc(j, e, q);
    }
    forall x, y | 0 <= x < |t2| && 0 <= y < |t2| && x !in rest && Ahead(t2, y, x)
      ensures t2[y].rec < t2[x].rec
    {
      if x == q {
        assert Arc(j, e, y) && y != p && y !in pending;
        assert SameHash(t, p, y);
      } else {
        assert Reaches(t, x, pending);
        assert y != q && Ahead(t, y, x);
      }
    }
    forall p', y | 0 <= p' < |t2| && 0 <= y < |t2| && p' in rest && y !in rest && SameHash(t2, p', y)
      ensures t2[y].rec < t2[p'].rec
    {
      if y == q {
        assert SameHash(t, p, p');
      } else {
        assert SameHash(t, p', y);
      }
    }
  }

  /** A new entry, of a record behind all the others, comes last. */
  lemma InsertKeepsTurn(t: Table, hash: nat, rec: nat, q: nat, e: nat)
    requires Ordered(t) && InTurn(t) && 0 < |t| && Probed(t, Ideal(hash, |t|), q, e) && t[q].Vacant?
    requires forall o :: o in Recs(t) ==> o < rec
    ensures InTurn(t[q := Entry(hash, rec)])
  {
    var u := t[q := Entry(hash, rec)];
    forall x, y | 0 <= x < |u| && 0 <= y < |u| && Ahead(u, y, x)
      ensures u[y].rec < u[x].rec
    {
      if x == q {
        assert t[y].rec in Recs(t);
      } else {
        assert Reaches(t, x, {});
        assert y != q && Ahead(t, y, x);
      }
    }
  }

  lemma TurnSkip(t: Table, pending: set<nat>, p: nat)
    requires TurnsKept(t, pending) && p < |t| && t[p].Vacant?
    ensures TurnsKept(t, pending - {p})
  {
  }

  /** What relates the half-rehashed table `t` to the table `t0` it was before it doubled. */
  ghost predicate Rehashing(t0: Table, t: Table, pending: set<nat>) {
    && |t| == 2 * |t0|
    && Ordered(t0)
    && Settled(t, pending)
    && Entries(t) == Entries(t0) && Recs(t) == Recs(t0) && Distinct(t)
    && (forall i :: i in pending ==> i < |t0| && t[i] == t0[i])
    && (InTurn(t0) ==> TurnsKept(t, pending))
  }

  ghost predicate FirstPass(t0: Table, t: Table, b: nat, p: nat) {
    && b < |t0| && t0[b].Vacant? && b <= p <= |t0|
    && Rehashing(t0, t, FirstPending(|t0|, b, p))
    && (forall i :: p + |t0| <= i < |t| ==> t[i].Vacant?)
  }

  ghost predicate SecondPass(t0: Table, t: Table, b: nat, p: nat) {
    && b < |t0| && t0[b].Vacant? && p <= b
    && Rehashing(t0, t, SecondPending(b, p))
  }

  // The two passes do the same to a slot; only the reason why the walk stays clear of pending slots differs.

  ghost predicate Pass(first: bool, t0: Table, t: Table, b: nat, p: nat) {
    if first then FirstPass(t0, t, b, p) else SecondPass(t0, t, b, p)
  }

  ghost predicate Relocated(t: Table, t': Table, p: nat, q: nat, e: nat) {
    && p < |t| == |t'|
    && if t[p].Vacant? then t' == t
       else if Ideal(t[p].hash, |t|) == p then t' == t
       else Probed(t[p := Vacant], Ideal(t[p].hash, |t|), q, e) && t[p := Vacant][q].Vacant? && t' == Moved(t, p, q)
  }

  lemma FirstPassStarts(t0: Table, t: Table, b: nat)
    requires Ordered(t0) && Distinct(t0) && b < |t0| && t0[b].Vacant?
    requires |t| == 2 * |t0| && t[..|t0|] == t0
    requires forall i :: |t0| <= i < |t| ==> t[i].Vacant?
    ensures Pass(true, t0, t, b, b)
  {
    assert forall i :: 0 <= i < |t0| ==> t[i] == t0[i];
    forall s | s in Entries(t0)
      ensures s in Entries(t)
    {
      var i :| 0 <= i < |t0| && t0[i].Entry? && t0[i] == s;
      assert t[i] == s;
    }
    RecsOfEntries(t0);
    RecsOfEntries(t);
  }

  lemma SecondPassStarts(t0: Table, t: Table, b: nat)
    requires Pass(true, t0, t, b, |t0|)
    ensures Pass(false, t0, t, b, 0)
  {
    assert FirstPending(|t0|, b, |t0|) == SecondPending(b, 0);
  }

  lemma SecondPassEnds(t0: Table, t: Table, b: nat)
    requires Pass(false, t0, t, b, b)
    ensures Ordered(t) && Distinct(t) && Entries(t) == Entries(t0) && Recs(t) == Recs(t0)
    ensures InTurn(t0) ==> InTurn(t)
  {
    assert SecondPending(b, b) == {};
  }

  /** Where the walk of the entry at `p` must end at the latest. */
  function FirstBound(t0: Table, t: Table, p: nat): nat
    requires p < |t| && t[p].Entry? && 0 < |t0|
  {
    if Ideal(t[p].hash, |t|) < |t0| then p else p + |t0|
  }

  /** In the first pass an entry stays in its half of the table, at or before the slot it came from. */
  lemma FirstPassBound(t0: Table, t: Table, b: nat, p: nat)
    requires FirstPass(t0, t, b, p) && p < |t0| && t[p].Entry?
    ensures var e := FirstBound(t0, t, p);
            var j := Ideal(t[p].hash, |t|);
            && e < |t| && t[p := Vacant][e].Vacant? && j <= e
            && (forall y :: 0 <= y < |t| && Arc(j, e, y) ==> y == p || y !in FirstPending(|t0|, b, p))
  {
    assert p in FirstPending(|t0|, b, p);
    assert Reaches(t0, p, {});
    IdealDoubles(t[p].hash, |t0|);
    var i := Ideal(t[p].hash, |t0|);
    assert !Arc(i, p, b);
    assert b < i <= p;
  }

  lemma FirstPassTurn(t0: Table, t: Table, b: nat, p: nat)
    requires FirstPass(t0, t, b, p) && p < |t0| && t[p].Entry? && InTurn(t0)
    ensures forall p' :: 0 <= p' < |t| && p' in FirstPending(|t0|, b, p) && p' != p && SameHash(t, p, p')
                         ==> t[p].rec < t[p'].rec
  {
    assert p in FirstPending(|t0|, b, p);
    forall p' | 0 <= p' < |t| && p' in FirstPending(|t0|, b, p) && p' != p && SameHash(t, p, p')
      ensures t[p].rec < t[p'].rec
    {
      var i := Ideal(t0[p].hash, |t0|);
      assert Reaches(t0, p, {});
      assert !Arc(i, p, b);
      assert b < i <= p;
      FirstOfPending(t0, p, p');
    }
  }

  lemma SecondPassTurn(t0: Table, t: Table, b: nat, p: nat)
    requires SecondPass(t0, t, b, p) && p < b && t[p].Entry? && InTurn(t0)
    ensures forall p' :: 0 <= p' < |t| && p' in SecondPending(b, p) && p' != p && SameHash(t, p, p')
                         ==> t[p].rec < t[p'].rec
  {
    assert p in SecondPending(b, p);
    forall p' | 0 <= p' < |t| && p' in SecondPending(b, p) && p' != p && SameHash(t, p, p')
      ensures t[p].rec < t[p'].rec
    {
      var i := Ideal(t0[p].hash, |t0|);
      assert Reaches(t0, p, {});
      assert !Arc(i, p, b);
      FirstOfPending(t0, p, p');
    }
  }

  lemma FirstPassMove(t0: Table, t: Table, b: nat, p: nat, q: nat)
    requires FirstPass(t0, t, b, p) && p < |t0| && t[p].Entry?
    requires Probed(t[p := Vacant], Ideal(t[p].hash, |t|), q, FirstBound(t0, t, p)) && t[p := Vacant][q].Vacant?
    ensures FirstPass(t0, Moved(t, p, q), b, p + 1)
  {
    var pending, rest := FirstPending(|t0|, b, p), FirstPending(|t0|, b, p + 1);
    FirstPassBound(t0, t, b, p);
    MoveStep(t, pending, p, q, FirstBound(t0, t, p));
    MoveKeepsEntries(t, p, q);
    if InTurn(t0) {
      FirstPassTurn(t0, t, b, p);
      TurnStep(t, pending, p, q, FirstBound(t0, t, p));
    }
    assert b < p by { assert p in pending; }
    assert rest == pending - {p};
  }

  lemma FirstPassSkip(t0: Table, t: Table, b: nat, p: nat)
    requires FirstPass(t0, t, b, p) && p < |t0| && t[p].Vacant?
    ensures FirstPass(t0, t, b, p + 1)
  {
    var pending, rest := FirstPending(|t0|, b, p), FirstPending(|t0|, b, p + 1);
    SkipVacant(t, pending, p);
    if InTurn(t0) {
      TurnSkip(t, pending, p);
    }
    assert rest == pending - {p};
  }

  /** In the second pass an entry ends up at or before its own slot, cyclically. */
  lemma SecondPassBound(t0: Table, t: Table, b: nat, p: nat)
    requires SecondPass(t0, t, b, p) && p < b && t[p].Entry?
    ensures forall y :: 0 <= y < |t| && Arc(Ideal(t[p].hash, |t|), p, y) ==> y == p || y !in SecondPending(b, p)
  {
    assert p in SecondPending(b, p);
    assert Reaches(t0, p, {});
    IdealDoubles(t[p].hash, |t0|);
    assert !Arc(Ideal(t[p].hash, |t0|), p, b);
  }

  lemma SecondPassMove(t0: Table, t: Table, b: nat, p: nat, q: nat)
    requires SecondPass(t0, t, b, p) && p < b && t[p].Entry?
    requires Probed(t[p := Vacant], Ideal(t[p].hash, |t|), q, p) && t[p := Vacant][q].Vacant?
    ensures SecondPass(t0, Moved(t, p, q), b, p + 1)
  {
    var pending, rest := SecondPending(b, p), SecondPending(b, p + 1);
    SecondPassBound(t0, t, b, p);
    MoveStep(t, pending, p, q, p);
    MoveKeepsEntries(t, p, q);
    if InTurn(t0) {
      SecondPassTurn(t0, t, b, p);
      TurnStep(t, pending, p, q, p);
    }
    assert rest == pending - {p};
  }

  lemma SecondPassSkip(t0: Table, t: Table, b: nat, p: nat)
    requires SecondPass(t0, t, b, p) && p < b && t[p].Vacant?
    ensures SecondPass(t0, t, b, p + 1)
  {
    var pending, rest := SecondPending(b, p), SecondPending(b, p + 1);
    SkipVacant(t, pending, p);
    if InTurn(t0) {
      TurnSkip(t, pending, p);
    }
    assert rest == pending - {p};
  }

  lemma RelocatedInPlace(t: Table, p: nat, e: nat)
    requires p < |t| && (t[p].Entry? ==> Ideal(t[p].hash, |t|) == p)
    ensures Relocated(t, t, p, p, e)
  {
  }

  lemma RelocatedByProbe(t: Table, t': Table, p: nat, q: nat, e: nat, hash: nat, rec: nat)
    requires p < |t| && t[p] == (if rec == 0 then Vacant else Entry(hash, rec)) && Ideal(hash, |t|) != p
    requires Probed(t[p := Vacant], Ideal(hash, |t|), q, e) && q < |t| && t[p := Vacant][q].Vacant?
    requires t' == t[p := Vacant][q := t[p]]
    ensures Relocated(t, t', p, q, e)
  {
    if rec == 0 {
      assert t' == t;
    }
  }

  ghost function PassBound(first: bool, t0: Table, t: Table, b: nat, p: nat): (e: nat)
    requires Pass(first, t0, t, b, p) && p < if first then |t0| else b
    ensures e < |t| && t[p := Vacant][e].Vacant?
    ensures t[p].Entry? ==> e == if first then FirstBound(t0, t, p) else p
  {
    if first && t[p].Entry? then FirstPassBound(t0, t, b, p); FirstBound(t0, t, p) else p
  }

  lemma PassStep(first: bool, t0: Table, t: Table, t': Table, b: nat, p: nat, q: nat, e: nat)
    requires Pass(first, t0, t, b, p) && p < if first then |t0| else b
    requires e == PassBound(first, t0, t, b, p) && Relocated(t, t', p, q, e)
    ensures Pass(first, t0, t', b, p + 1)
  {
    if t[p].Vacant? {
      if first {
        FirstPassSkip(t0, t, b, p);
      } else {
        SecondPassSkip(t0, t, b, p);
      }
    } else {
      var stays := Ideal(t[p].hash, |t|) == p;
      var q' := if stays then p else q;
      assert Moved(t, p, p) == t;
      if first {
        FirstPassBound(t0, t, b, p);
        FirstPassMove(t0, t, b, p, q');
      } else {
        SecondPassMove(t0, t, b, p, q');
      }
    }
  }

  // ---------- repairing a chain after a deletion ----------

  /** The rest of the run from `p` up to the vacant slot `z`. */
  function RunPending(n: nat, z: nat, p: nat): set<nat> {
    set i | 0 <= i < n && i != z && Arc(p, z, i)
  }

  /** `z` is the first slot after `d` that was vacant before the deletion. */
  ghost predicate EndsRun(t0: Table, d: nat, z: nat) {
    && d < |t0| && z < |t0| && z != d && t0[z].Vacant?
    && (forall y :: 0 <= y < |t0| && Arc(d, z, y) && y != z ==> t0[y].Entry?)
  }

  /** `t` is the table during the repair of the run behind `d`, at slot `p`. */
  ghost predicate Repairing(t0: Table, t: Table, d: nat, z: nat, p: nat) {
    && |t| == |t0| && EndsRun(t0, d, z) && t0[d].Entry? && p < |t| && p != d && Arc(d, z, p)
    && Ordered(t0) && Distinct(t)
    && t[z].Vacant?
    && Settled(t, RunPending(|t|, z, p))
    && Entries(t) == Entries(t0) - {t0[d]} && Recs(t) == Recs(t0) - {t0[d].rec}
    && (forall i :: i in RunPending(|t|, z, p) ==> t[i] == t0[i])
  }

  lemma RunEndExists(t0: Table, d: nat, e: nat, k: nat) returns (z: nat)
    requires d < |t0| && t0[d].Entry? && e < |t0| && t0[e].Vacant?
    requires k < |t0| && Arc(d, e, k)
    requires forall y :: 0 <= y < |t0| && Arc(d, k, y) && y != k ==> t0[y].Entry?
    ensures EndsRun(t0, d, z)
    decreases Distance(k, e, |t0|)
  {
    if t0[k].Vacant? {
      z := k;
    } else {
      assert Probed(t0, d, k, e);
      ProbeOn(t0, d, k, e);
      z := RunEndExists(t0, d, e, Next(k, |t0|));
    }
  }

  lemma RepairStarts(t0: Table, d: nat, z: nat)
    requires Ordered(t0) && Distinct(t0) && EndsRun(t0, d, z) && t0[d].Entry?
    ensures Repairing(t0, t0[d := Vacant], d, z, Next(d, |t0|))
  {
    var t, p := t0[d := Vacant], Next(d, |t0|);
    var pending := RunPending(|t0|, z, p);
    RemoveDropsEntry(t0, d);
    assert d !in pending;
    forall x | 0 <= x < |t| && x !in pending && t[x].Entry?
      ensures Reaches(t, x, pending)
    {
      var i := Ideal(t0[x].hash, |t0|);
      assert Reaches(t0, x, {});
      assert !Arc(i, x, z);
      assert !Arc(p, z, x);
    }
  }

  /** The walk of the entry at `p` back to its own slot meets no other unrepaired slot. */
  lemma RepairBound(t0: Table, t: Table, d: nat, z: nat, p: nat)
    requires Repairing(t0, t, d, z, p) && p != z
    ensures t[p].Entry?
    ensures forall y :: 0 <= y < |t| && Arc(Ideal(t[p].hash, |t|), p, y)
                        ==> y != z && (y == p || y !in RunPending(|t|, z, p))
  {
    assert p in RunPending(|t|, z, p);
    assert Reaches(t0, p, {});
    assert !Arc(Ideal(t[p].hash, |t|), p, z);
  }

  lemma RepairMove(t0: Table, t: Table, d: nat, z: nat, p: nat, q: nat)
    requires Repairing(t0, t, d, z, p) && p != z && t[p].Entry?
    requires Probed(t[p := Vacant], Ideal(t[p].hash, |t|), q, p) && t[p := Vacant][q].Vacant?
    ensures Repairing(t0, Moved(t, p, q), d, z, Next(p, |t|))
  {
    var pending, rest := RunPending(|t|, z, p), RunPending(|t|, z, Next(p, |t|));
    RepairBound(t0, t, d, z, p);
    MoveStep(t, pending, p, q, p);
    MoveKeepsEntries(t, p, q);
    assert rest == pending - {p};
  }

  lemma MovedEitherWay(t: Table, t': Table, p: nat, q: nat)
    requires p < |t| && q < |t| && t' == if p == q then t else t[q := t[p]][p := Vacant]
    ensures t' == Moved(t, p, q)
  {
  }

  lemma RepairGoesOn(t0: Table, t: Table, d: nat, z: nat, p: nat)
    requires Repairing(t0, t, d, z, p) && p < |t| && t[p].Entry?
    ensures p != z && z < |t| && Distance(Next(p, |t|), z, |t|) < Distance(p, z, |t|)
  {
  }

  lemma RepairEnds(t0: Table, t: Table, d: nat, z: nat, p: nat)
    requires Repairing(t0, t, d, z, p) && p < |t| && t[p].Vacant?
    ensures p == z && Ordered(t) && Distinct(t)
    ensures d < |t0| && t0[d].Entry? && Entries(t) == Entries(t0) - {t0[d]} && Recs(t) == Recs(t0) - {t0[d].rec}
  {
    if p != z {
      RepairBound(t0, t, d, z, p);
    }
    assert RunPending(|t|, z, z) == {};
  }
}
