/** The timeout chain of src/timeout_handler.c: entries are appended with the current time and a single
timer is kept armed for the oldest of them.

Times are microseconds of one clock that never goes back.  An entry that has been shut down stays in
the chain, with timestamp 0, until its owner removes it. */
module TimeoutChain {

  datatype Entry = Entry(fd: nat, timestamp: nat)

  datatype Timer = Disarmed | Armed(deadline: nat)

  /** A connection that was shut down: when, and when it had been added. */
  datatype Shutdown = Shutdown(fd: nat, added: nat, at: nat)

  ghost predicate Distinct(chain: seq<Entry>) {
    forall i, j :: 0 <= i < j < |chain| ==> chain[i].fd != chain[j].fd
  }

  /** Entries that are not marked are in the order of their timestamps. */
  ghost predicate Sorted(chain: seq<Entry>) {
    forall i, j :: 0 <= i < j < |chain| && chain[i].timestamp != 0 && chain[j].timestamp != 0
                   ==> chain[i].timestamp <= chain[j].timestamp
  }

  ghost predicate NotAfter(chain: seq<Entry>, now: nat) {
    forall i :: 0 <= i < |chain| ==> chain[i].timestamp <= now
  }

  /** The timer goes off no later than the first moment at which an unmarked entry is due. */
  ghost predicate TimerOk(chain: seq<Entry>, timer: Timer, timeout: nat, now: nat) {
    chain != [] ==>
      && timer.Armed? && timer.deadline <= now + timeout
      && forall i :: 0 <= i < |chain| && chain[i].timestamp != 0 ==> timer.deadline <= chain[i].timestamp + timeout
  }

  ghost predicate AllMarked(chain: seq<Entry>) {
    forall i :: 0 <= i < |chain| ==> chain[i].timestamp == 0
  }

  /** The moment is the timeout of an unmarked entry. */
  ghost predicate TimeoutOfOne(chain: seq<Entry>, moment: nat, timeout: nat) {
    exists i :: 0 <= i < |chain| && chain[i].timestamp != 0 && chain[i].timestamp + timeout == moment
  }

  /** What a pass at `now` arms the timer for: the least timeout of an unmarked entry that is left, or a
  whole timeout if there is none. */
  ghost predicate ArmedFor(chain: seq<Entry>, deadline: nat, timeout: nat, now: nat) {
    if AllMarked(chain) then deadline == now + timeout
    else && TimeoutOfOne(chain, deadline, timeout)
         && forall i :: 0 <= i < |chain| && chain[i].timestamp != 0 ==> deadline <= chain[i].timestamp + timeout
  }

  /** Every unmarked entry was added at that moment or later. */
  ghost predicate AddedSince(chain: seq<Entry>, moment: nat) {
    forall i :: 0 <= i < |chain| && chain[i].timestamp != 0 ==> moment <= chain[i].timestamp
  }

  /** What the timer is armed for as long as nothing is removed: for an unmarked entry, or for a whole
  timeout since a pass that left only marked ones. */
  ghost predicate Purposeful(chain: seq<Entry>, timer: Timer, timeout: nat, lastPass: nat) {
    if chain == [] then timer == Disarmed
    else && timer.Armed?
         && (TimeoutOfOne(chain, timer.deadline, timeout)
             || (timer.deadline == lastPass + timeout && AddedSince(chain, lastPass)))
  }

  /** An unmarked entry that has been there for the whole timeout. */
  predicate Due(e: Entry, timeout: nat, now: nat) {
    e.timestamp != 0 && e.timestamp + timeout <= now
  }

  /** What an expiry pass makes of an entry. */
  function Expired(e: Entry, timeout: nat, now: nat): (r: Entry) {
    if Due(e, timeout, now) then e.(timestamp := 0) else e
  }

  /** The connections that a pass shuts down, in the order of the chain. */
  function ShutBy(chain: seq<Entry>, timeout: nat, now: nat): (r: seq<Shutdown>) {
    if chain == [] then [] else
    var n := |chain| - 1;
    ShutBy(chain[..n], timeout, now)
    + if Due(chain[n], timeout, now) then [Shutdown(chain[n].fd, chain[n].timestamp, now)] else []
  }

  lemma ShutStep(chain: seq<Entry>, i: nat, timeout: nat, now: nat)
    requires i < |chain|
    ensures ShutBy(chain[..i + 1], timeout, now)
         == ShutBy(chain[..i], timeout, now)
          + if Due(chain[i], timeout, now) then [Shutdown(chain[i].fd, chain[i].timestamp, now)] else []
  {
    assert chain[..i + 1][..i] == chain[..i];
  }

  lemma {:induction false} ShutRest(chain: seq<Entry>, i: nat, timeout: nat, now: nat)
    requires i <= |chain| && forall k :: i <= k < |chain| ==> !Due(chain[k], timeout, now)
    ensures ShutBy(chain[..i], timeout, now) == ShutBy(chain, timeout, now)
    decreases |chain| - i
  {
    if i < |chain| {
      ShutStep(chain, i, timeout, now);
      ShutRest(chain, i + 1, timeout, now);
    } else {
      assert chain[..i] == chain;
    }
  }

  /** Exactly the due entries are shut down, each of them once. */
  lemma {:induction false} ShutByIsDue(chain: seq<Entry>, timeout: nat, now: nat)
    ensures forall s :: s in ShutBy(chain, timeout, now)
                        <==> s.at == now && Due(Entry(s.fd, s.added), timeout, now) && Entry(s.fd, s.added) in chain
    ensures Distinct(chain) ==>
              forall i, j :: 0 <= i < j < |ShutBy(chain, timeout, now)| ==>
                ShutBy(chain, timeout, now)[i].fd != ShutBy(chain, timeout, now)[j].fd
  {
    if chain != [] {
      var n := |chain| - 1;
      ShutByIsDue(chain[..n], timeout, now);
      assert chain == chain[..n] + [chain[n]];
      if Distinct(chain) {
        assert forall e :: e in chain[..n] ==> e.fd != chain[n].fd;
        assert forall s :: s in ShutBy(chain[..n], timeout, now) ==> Entry(s.fd, s.added) in chain[..n];
      }
    }
  }

  ghost predicate SomeDue(chain: seq<Entry>, timeout: nat, now: nat) {
    exists i :: 0 <= i < |chain| && Due(chain[i], timeout, now)
  }

  /** A pass made at its deadline over unmarked entries finds none of them due if and only if the pass
  before it left none, and all of them were added later. */
  lemma InVainWhen(chain: seq<Entry>, timer: Timer, timeout: nat, lastPass: nat, now: nat)
    requires Purposeful(chain, timer, timeout, lastPass) && TimerOk(chain, timer, timeout, now) && timer.Armed?
    ensures !SomeDue(chain, timeout, timer.deadline)
       <==> timer.deadline == lastPass + timeout && AddedSince(chain, lastPass + 1)
  {
    if TimeoutOfOne(chain, timer.deadline, timeout) {
      var i :| 0 <= i < |chain| && chain[i].timestamp != 0 && chain[i].timestamp + timeout == timer.deadline;
      assert Due(chain[i], timeout, timer.deadline);
    } else if !SomeDue(chain, timeout, timer.deadline) {
      forall i | 0 <= i < |chain| && chain[i].timestamp != 0
        ensures lastPass + 1 <= chain[i].timestamp
      {
        assert !Due(chain[i], timeout, timer.deadline);
      }
    }
  }

  /** A pass that finds nothing due comes a whole timeout after the one before it. */
  lemma IdlePass(chain: seq<Entry>, timer: Timer, timeout: nat, lastPass: nat, now: nat)
    requires Purposeful(chain, timer, timeout, lastPass) && timer.Armed? && timer.deadline <= now
    ensures SomeDue(chain, timeout, now) || lastPass + timeout <= now
  {
    if TimeoutOfOne(chain, timer.deadline, timeout) {
      var i :| 0 <= i < |chain| && chain[i].timestamp != 0 && chain[i].timestamp + timeout == timer.deadline;
      assert Due(chain[i], timeout, now);
    }
  }

  class TimeoutHandler {
    const timeout: nat

    var chain: seq<Entry>
    var timer: Timer

    /** The latest reading of the clock. */
    var now: nat
    ghost var shutdowns: seq<Shutdown>
    /** The clock at the latest pass over entries. */
    ghost var lastPass: nat

    ghost predicate Valid()
      reads this
    {
      && 0 < timeout
      && Distinct(chain) && Sorted(chain) && NotAfter(chain, now)
      && TimerOk(chain, timer, timeout, now) && lastPass <= now
      && (forall i :: 0 <= i < |shutdowns| ==>
            0 < shutdowns[i].added && shutdowns[i].added + timeout <= shutdowns[i].at <= now)
    }

    constructor (timeout: nat, now: nat)
      requires 0 < timeout
      ensures Valid() && this.timeout == timeout && chain == [] && shutdowns == [] && this.now == now
              && timer == Disarmed
    {
      this.timeout := timeout;
      chain, timer, this.now, shutdowns, lastPass := [], Disarmed, now, [], 0;
    }

    /** `timeout_handler_add_fd_data`: the clock reads `clock`. */
    method Add(fd: nat, clock: nat)
      requires Valid() && now <= clock && 0 < clock
      requires forall e :: e in chain ==> e.fd != fd
      modifies this
      ensures Valid() && now == clock && shutdowns == old(shutdowns)
      ensures chain == old(chain) + [Entry(fd, clock)]
      ensures timer == (if old(chain) == [] then Armed(clock + timeout) else old(timer)) && lastPass == old(lastPass)
      ensures old(Purposeful(chain, timer, timeout, lastPass)) ==> Purposeful(chain, timer, timeout, lastPass)
    {
      if chain == [] {
        timer := Armed(clock + timeout);
      }
      chain := chain + [Entry(fd, clock)];
      now := clock;
      MoreEntries(old(chain), Entry(fd, clock), timer, timeout, lastPass);
    }

    /** `TIMEOUT_HANDLER_REMOVE_FD_DATA`, for the `k`-th entry of the chain. */
    method Remove(k: nat)
      requires Valid() && k < |chain|
      modifies this
      ensures Valid() && now == old(now) && shutdowns == old(shutdowns) && timer == old(timer)
      ensures chain == old(chain)[..k] + old(chain)[k + 1..]
    {
      chain := chain[..k] + chain[k + 1..];
    }

    /** `expiration_handler`, woken by the timer, which goes off once: shuts down the entries that are due,
    stops at the first young one and arms the timer again.  With an empty chain the timer stays off. */
    method Expire(clock: nat)
      requires Valid() && now <= clock && timer.Armed? && timer.deadline <= clock
      modifies this
      ensures Valid() && now == clock
      ensures |chain| == |old(chain)|
      ensures forall i :: 0 <= i < |chain| ==> chain[i] == Expired(old(chain)[i], timeout, clock)
      ensures forall i :: 0 <= i < |chain| ==> !Due(chain[i], timeout, clock)
      ensures shutdowns == old(shutdowns) + ShutBy(old(chain), timeout, clock)
      ensures if chain == [] then timer == Disarmed
              else timer.Armed? && clock < timer.deadline && ArmedFor(chain, timer.deadline, timeout, clock)
      ensures lastPass == if chain == [] then old(lastPass) else clock
      ensures Purposeful(chain, timer, timeout, lastPass)
    {
      timer := Disarmed;
      now := clock;
      if chain == [] {
        return;
      }
      ghost var log;
      chain, timer, log := Sweep(chain, timeout, clock);
      shutdowns := shutdowns + log;
      lastPass := clock;
      ArmedWithPurpose(chain, timer, timeout, clock);
    }

    /** Any run of events, in the order of the clock; events that cannot happen are skipped. */
    method Run(events: seq<Event>)
      requires Valid()
      modifies this
      ensures Valid() && old(now) <= now && old(shutdowns) <= shutdowns
    {
      for n := 0 to |events|
        invariant Valid() && old(now) <= now && old(shutdowns) <= shutdowns
      {
        Perform(events[n], 0, |shutdowns|);
      }
    }

    /** Any run without removals: a pass that finds nothing due comes a whole timeout after the one before
    it, so the handler is not woken more often than that for nothing. */
    method RunUndisturbed(events: seq<Event>) returns (ghost passes: seq<Pass>)
      requires Valid() && Purposeful(chain, timer, timeout, lastPass)
      requires forall i :: 0 <= i < |events| ==> !events[i].RemoveEvent?
      modifies this
      ensures Valid() && Purposeful(chain, timer, timeout, lastPass)
      ensures Spaced(passes, timeout, old(lastPass)) && lastPass == Latest(passes, old(lastPass))
      ensures |shutdowns| == |old(shutdowns)| <==> AllIdle(passes)
    {
      hide *;
      passes := [];
      NoPasses(timeout, lastPass);
      for n := 0 to |events|
        invariant Valid() && Purposeful(chain, timer, timeout, lastPass) && |old(shutdowns)| <= |shutdowns|
        invariant Spaced(passes, timeout, old(lastPass)) && lastPass == Latest(passes, old(lastPass))
        invariant |shutdowns| == |old(shutdowns)| <==> AllIdle(passes)
      {
        ghost var more := Undisturbed(events[n]);
        if more != [] {
          OnePass(passes, timeout, old(lastPass), more[0]);
          passes := passes + [more[0]];
        }
      }
    }

    /** One event of such a run, with the pass it makes, if any. */
    method Undisturbed(event: Event) returns (ghost passes: seq<Pass>)
      requires Valid() && Purposeful(chain, timer, timeout, lastPass) && !event.RemoveEvent?
      modifies this
      ensures Valid() && Purposeful(chain, timer, timeout, lastPass) && |passes| <= 1
      ensures passes != [] <==> event.ExpireEvent? && old(CanHappen(event))
      ensures passes == [] ==> shutdowns == old(shutdowns) && lastPass == old(lastPass)
      ensures passes != [] ==>
                && event.ExpireEvent? && lastPass == passes[0].at == event.clock
                && |old(shutdowns)| <= |shutdowns| && (|shutdowns| == |old(shutdowns)| <==> passes[0].idle)
                && (passes[0].idle <==> !old(SomeDue(chain, timeout, event.clock)))
                && (passes[0].idle ==> old(lastPass) + timeout <= passes[0].at)
    {
      hide Purposeful, TimerOk, Sorted, Distinct, NotAfter, ShutBy, Due, SomeDue;
      passes := [];
      if CanHappen(event) {
        match event {
          case AddEvent(fd, clock) => Add(fd, clock);
          case ExpireEvent(clock) =>
            IdlePass(chain, timer, timeout, lastPass, clock);
            NoneShut(chain, timeout, clock);
            SomethingThere(chain, timer, timeout, lastPass);
            passes := [Pass(clock, !SomeDue(chain, timeout, clock))];
            Expire(clock);
        }
      }
    }

    /** The clock does not go back, a connection is added once, and the timer goes off at its deadline or later. */
    predicate CanHappen(event: Event)
      reads this
    {
      match event
      case AddEvent(fd, clock) => now <= clock && 0 < clock && forall e :: e in chain ==> e.fd != fd
      case RemoveEvent(k) => k < |chain|
      case ExpireEvent(clock) => now <= clock && timer.Armed? && timer.deadline <= clock
    }

    /** One event, unless it cannot happen.  If it comes promptly, nothing gets late. */
    method Perform(event: Event, ghost latency: nat, ghost first: nat)
      requires Valid() && first <= |shutdowns|
      modifies this
      ensures Valid() && old(now) <= now && old(shutdowns) <= shutdowns
      ensures !old(CanHappen(event)) ==> unchanged(this)
      ensures old(CanHappen(event)) ==>
                match event
                case AddEvent(fd, clock) => chain == old(chain) + [Entry(fd, clock)] && shutdowns == old(shutdowns)
                case RemoveEvent(k) => chain == old(chain)[..k] + old(chain)[k + 1..] && shutdowns == old(shutdowns)
                case ExpireEvent(clock) =>
                  && shutdowns == old(shutdowns) + ShutBy(old(chain), timeout, clock) && |chain| == |old(chain)|
                  && forall i :: 0 <= i < |chain| ==> chain[i] == Expired(old(chain)[i], timeout, clock)
      ensures old(Prompt(latency, now) && NothingLate(latency, first)
              && (event.RemoveEvent? || Prompt(latency, event.clock)))
              ==> Prompt(latency, now) && NothingLate(latency, first)
    {
      if !CanHappen(event) {
        return;
      }
      match event {
        case AddEvent(fd, clock) => Add(fd, clock);
        case RemoveEvent(k) => Remove(k);
        case ExpireEvent(clock) =>
          ShutByIsDue(chain, timeout, clock);
          Expire(clock);
      }
    }

    /** The clock has not passed the deadline of the timer by more than `latency`. */
    predicate Prompt(latency: nat, clock: nat)
      reads this
    {
      chain != [] ==> timer.Armed? && clock <= timer.deadline + latency
    }

    /** Nothing is late: neither an entry that is still there nor a shutdown from number `first` on. */
    ghost predicate NothingLate(latency: nat, first: nat)
      reads this
    {
      && (forall i :: 0 <= i < |chain| && chain[i].timestamp != 0 ==> now <= chain[i].timestamp + timeout + latency)
      && (forall i :: first <= i < |shutdowns| ==> shutdowns[i].at <= shutdowns[i].added + timeout + latency)
    }

    /** A run in which the handler always gets to run within `latency` of the timer going off, up to the
    first event that comes too late for that: every connection that is not removed is shut down within
    `latency` of its timeout. */
    method RunPromptly(events: seq<Event>, latency: nat) returns (count: nat)
      requires Valid() && Prompt(latency, now)
      modifies this
      ensures Valid() && Prompt(latency, now) && NothingLate(latency, |old(shutdowns)|) && old(shutdowns) <= shutdowns
      ensures count <= |events|
      ensures count < |events| ==> !events[count].RemoveEvent? && !Prompt(latency, events[count].clock)
    {
      count := 0;
      while count < |events|
        invariant count <= |events| && Valid() && Prompt(latency, now) && NothingLate(latency, |old(shutdowns)|)
        invariant old(shutdowns) <= shutdowns
      {
        var event := events[count];
        if !event.RemoveEvent? && !Prompt(latency, event.clock) {
          return;
        }
        Perform(event, latency, |old(shutdowns)|);
        count := count + 1;
      }
    }
  }

  datatype Event = AddEvent(fd: nat, clock: nat) | RemoveEvent(k: nat) | ExpireEvent(clock: nat)

  /** A pass of the handler: when it was, and whether it found no entry due. */
  datatype Pass = Pass(at: nat, idle: bool)

  ghost function Latest(passes: seq<Pass>, before: nat): (at: nat) {
    if passes == [] then before else passes[|passes| - 1].at
  }

  /** Every idle pass is a whole timeout behind the one before it. */
  ghost predicate Spaced(passes: seq<Pass>, timeout: nat, before: nat) {
    forall k :: 0 <= k < |passes| && passes[k].idle ==> Latest(passes[..k], before) + timeout <= passes[k].at
  }

  ghost predicate AllIdle(passes: seq<Pass>) {
    forall k :: 0 <= k < |passes| ==> passes[k].idle
  }

  lemma NoPasses(timeout: nat, before: nat)
    ensures Spaced([], timeout, before) && Latest([], before) == before && AllIdle([])
  {
  }

  lemma OnePass(passes: seq<Pass>, timeout: nat, before: nat, pass: Pass)
    requires Spaced(passes, timeout, before) && (pass.idle ==> Latest(passes, before) + timeout <= pass.at)
    ensures Spaced(passes + [pass], timeout, before) && Latest(passes + [pass], before) == pass.at
    ensures AllIdle(passes + [pass]) <==> AllIdle(passes) && pass.idle
  {
    var all := passes + [pass];
    assert forall k :: 0 <= k <= |passes| ==> all[..k] == passes[..k];
    assert passes[..|passes|] == passes;
    if AllIdle(all) {
      assert forall k :: 0 <= k < |passes| ==> passes[k] == all[k];
      assert all[|passes|] == pass;
    }
  }

  lemma {:induction false} NoneShut(chain: seq<Entry>, timeout: nat, now: nat)
    ensures |ShutBy(chain, timeout, now)| == 0 <==> !SomeDue(chain, timeout, now)
  {
    if chain != [] {
      var n := |chain| - 1;
      NoneShut(chain[..n], timeout, now);
      assert SomeDue(chain, timeout, now) <==> SomeDue(chain[..n], timeout, now) || Due(chain[n], timeout, now) by {
        if SomeDue(chain[..n], timeout, now) {
          var i :| 0 <= i < n && Due(chain[..n][i], timeout, now);
          assert Due(chain[i], timeout, now);
        }
        if SomeDue(chain, timeout, now) {
          var i :| 0 <= i < |chain| && Due(chain[i], timeout, now);
          assert i < n ==> Due(chain[..n][i], timeout, now);
        }
      }
    }
  }

  lemma SomethingThere(chain: seq<Entry>, timer: Timer, timeout: nat, lastPass: nat)
    requires Purposeful(chain, timer, timeout, lastPass) && timer.Armed?
    ensures chain != []
  {
  }

  /** A run in which the handler is woken while an entry is there and finds it too young: the only other
  entry had been shut down by the pass before. */
  method WokenInVain() returns (h: TimeoutHandler)
    ensures fresh(h) && h.Valid() && h.chain == [Entry(3, 0), Entry(4, 1500)]
    ensures h.now == 2100 && h.shutdowns == [Shutdown(3, 100, 1100)] && h.timer == Armed(2500)
  {
    hide Distinct, Sorted, NotAfter, TimerOk, Purposeful, ArmedFor, ShutBy;
    h := new TimeoutHandler(1000, 0);
    h.Add(3, 100);
    assert h.chain == [Entry(3, 100)];
    ShutByOne(Entry(3, 100), 1000, 1100);
    h.Expire(1100);
    assert h.chain == [Entry(3, 0)];
    ArmedForNone(Entry(3, 0), h.timer.deadline, 1000, 1100);
    h.Add(4, 1500);
    assert h.chain == [Entry(3, 0), Entry(4, 1500)];
    ShutByNone(Entry(3, 0), Entry(4, 1500), 1000, 2100);
    h.Expire(2100);
    assert h.chain == [Entry(3, 0), Entry(4, 1500)];
    ArmedForSecond(Entry(3, 0), Entry(4, 1500), h.timer.deadline, 1000, 2100);
  }

  lemma ArmedForNone(e: Entry, deadline: nat, timeout: nat, now: nat)
    requires ArmedFor([e], deadline, timeout, now) && e.timestamp == 0
    ensures deadline == now + timeout
  {
    assert AllMarked([e]);
  }

  lemma ArmedForSecond(e: Entry, f: Entry, deadline: nat, timeout: nat, now: nat)
    requires ArmedFor([e, f], deadline, timeout, now) && e.timestamp == 0 && f.timestamp != 0
    ensures deadline == f.timestamp + timeout
  {
    assert [e, f][1] == f;
  }

  lemma ShutByNone(e: Entry, f: Entry, timeout: nat, now: nat)
    requires !Due(e, timeout, now) && !Due(f, timeout, now)
    ensures ShutBy([e, f], timeout, now) == []
  {
    NoneShut([e, f], timeout, now);
  }

  lemma ShutByOne(e: Entry, timeout: nat, now: nat)
    requires Due(e, timeout, now)
    ensures ShutBy([e], timeout, now) == [Shutdown(e.fd, e.timestamp, now)]
  {
    assert [e][..0] == [];
  }

  /** One pass of the handler over a chain that is not empty: the chain after it, the timer it arms and the
  connections it shuts down. */
  method Sweep(before: seq<Entry>, timeout: nat, clock: nat)
    returns (chain: seq<Entry>, timer: Timer, ghost log: seq<Shutdown>)
    requires 0 < timeout && Distinct(before) && Sorted(before) && NotAfter(before, clock)
    ensures |chain| == |before| && forall i :: 0 <= i < |chain| ==> chain[i] == Expired(before[i], timeout, clock)
    ensures forall i :: 0 <= i < |chain| ==> !Due(chain[i], timeout, clock)
    ensures log == ShutBy(before, timeout, clock)
    ensures forall s :: s in log ==> 0 < s.added && s.added + timeout <= s.at == clock
    ensures Distinct(chain) && Sorted(chain) && NotAfter(chain, clock) && TimerOk(chain, timer, timeout, clock)
    ensures timer.Armed? && clock < timer.deadline <= clock + timeout
    ensures ArmedFor(chain, timer.deadline, timeout, clock)
  {
    hide *;
    chain, timer, log := before, Disarmed, [];
    var i, armed := 0, false;
    SweptNone(before, timeout, clock);
    while i < |chain| && !armed
      invariant 0 <= i <= |chain| == |before| && Swept(before, chain, log, i, timeout, clock)
      invariant armed ==> && i < |chain| && 0 < before[i].timestamp && clock < before[i].timestamp + timeout
                          && timer == Armed(before[i].timestamp + timeout)
      decreases |chain| - i, !armed
    {
      SweptStep(before, chain, log, i, timeout, clock);
      if chain[i].timestamp != 0 && chain[i].timestamp + timeout > clock {
        timer := Armed(chain[i].timestamp + timeout);
        armed := true;
      } else {
        if chain[i].timestamp != 0 {
          log := log + [Shutdown(chain[i].fd, chain[i].timestamp, clock)];
          chain := chain[i := chain[i].(timestamp := 0)];
        }
        i := i + 1;
      }
    }
    if !armed {
      timer := Armed(clock + timeout);
    }
    SweptAll(before, chain, log, i, timer, timeout, clock);
  }

  /** The first `i` entries have been dealt with, and none of them was young. */
  ghost predicate Swept(before: seq<Entry>, chain: seq<Entry>, log: seq<Shutdown>, i: nat, timeout: nat, now: nat)
  {
    && i <= |chain| == |before| && log == ShutBy(before[..i], timeout, now)
    && (forall k :: 0 <= k < i ==> chain[k] == Expired(before[k], timeout, now))
    && (forall k :: i <= k < |chain| ==> chain[k] == before[k])
    && (forall k :: 0 <= k < i ==> before[k].timestamp == 0 || Due(before[k], timeout, now))
  }

  lemma SweptNone(chain: seq<Entry>, timeout: nat, now: nat)
    ensures Swept(chain, chain, [], 0, timeout, now)
  {
  }

  lemma SweptStep(before: seq<Entry>, chain: seq<Entry>, log: seq<Shutdown>, i: nat, timeout: nat, now: nat)
    requires Swept(before, chain, log, i, timeout, now) && i < |before| == |chain|
    ensures chain[i] == before[i]
    ensures chain[i].timestamp == 0 ==> Swept(before, chain, log, i + 1, timeout, now)
    ensures chain[i].timestamp != 0 && chain[i].timestamp + timeout <= now ==>
              Swept(before, chain[i := chain[i].(timestamp := 0)],
                    log + [Shutdown(chain[i].fd, chain[i].timestamp, now)], i + 1, timeout, now)
  {
    ShutStep(before, i, timeout, now);
    hide ShutBy;
  }

  lemma SweptAll(before: seq<Entry>, chain: seq<Entry>, log: seq<Shutdown>, i: nat, timer: Timer, timeout: nat,
                 now: nat)
    requires 0 < timeout && Distinct(before) && Sorted(before) && NotAfter(before, now)
    requires Swept(before, chain, log, i, timeout, now) && i <= |chain| == |before|
    requires i < |before| ==> 0 < before[i].timestamp && now < before[i].timestamp + timeout
    requires timer == Armed(if i < |before| then before[i].timestamp + timeout else now + timeout)
    ensures forall k :: 0 <= k < |chain| ==>
              chain[k] == Expired(before[k], timeout, now) && !Due(chain[k], timeout, now)
    ensures log == ShutBy(before, timeout, now)
    ensures forall s :: s in log ==> 0 < s.added && s.added + timeout <= s.at == now
    ensures Distinct(chain) && Sorted(chain) && NotAfter(chain, now) && TimerOk(chain, timer, timeout, now)
    ensures now < timer.deadline <= now + timeout && ArmedFor(chain, timer.deadline, timeout, now)
  {
    YoungRest(before, i, timeout, now);
    ShutRest(before, i, timeout, now);
    ShutByIsDue(before, timeout, now);
    assert forall k :: 0 <= k < |chain| ==> chain[k] == Expired(before[k], timeout, now);
    hide ShutBy, Distinct, Sorted, NotAfter, TimerOk, ArmedFor;
    PassIsValid(before, chain, i, timer, timeout, now);
    PassArms(before, chain, i, timeout, now);
  }

  /** After a pass at `now` the chain is in order and the timer is set for the oldest entry that is left. */
  lemma PassIsValid(before: seq<Entry>, after: seq<Entry>, i: nat, timer: Timer, timeout: nat, now: nat)
    requires Distinct(before) && Sorted(before) && NotAfter(before, now) && |after| == |before|
    requires forall k :: 0 <= k < |after| ==> after[k] == Expired(before[k], timeout, now)
    requires i <= |before| && forall k :: 0 <= k < i ==> before[k].timestamp == 0 || Due(before[k], timeout, now)
    requires i < |before| ==> before[i].timestamp != 0
    requires timer == Armed(if i < |before| then before[i].timestamp + timeout else now + timeout)
    ensures Distinct(after) && Sorted(after) && NotAfter(after, now) && TimerOk(after, timer, timeout, now)
    ensures timer.deadline <= now + timeout
  {
  }

  lemma PassArms(before: seq<Entry>, after: seq<Entry>, i: nat, timeout: nat, now: nat)
    requires Sorted(before) && |after| == |before|
    requires forall k :: 0 <= k < |after| ==> after[k] == Expired(before[k], timeout, now)
    requires i <= |before| && forall k :: 0 <= k < i ==> before[k].timestamp == 0 || Due(before[k], timeout, now)
    requires i < |before| ==> 0 < before[i].timestamp && now < before[i].timestamp + timeout
    ensures ArmedFor(after, if i < |before| then before[i].timestamp + timeout else now + timeout, timeout, now)
  {
    if i < |before| {
      assert after[i] == before[i];
      assert TimeoutOfOne(after, before[i].timestamp + timeout, timeout);
    }
  }

  lemma ArmedWithPurpose(chain: seq<Entry>, timer: Timer, timeout: nat, now: nat)
    requires chain != [] && timer.Armed? && ArmedFor(chain, timer.deadline, timeout, now)
    ensures Purposeful(chain, timer, timeout, now)
  {
  }

  lemma MoreEntries(chain: seq<Entry>, e: Entry, timer: Timer, timeout: nat, lastPass: nat)
    requires timer.Armed? && lastPass <= e.timestamp
    requires chain == [] ==> e.timestamp != 0 && timer.deadline == e.timestamp + timeout
    ensures chain == [] || Purposeful(chain, timer, timeout, lastPass) ==>
              Purposeful(chain + [e], timer, timeout, lastPass)
  {
    if chain == [] {
      assert (chain + [e])[0] == e;
    } else if TimeoutOfOne(chain, timer.deadline, timeout) {
      var i :| 0 <= i < |chain| && chain[i].timestamp != 0 && chain[i].timestamp + timeout == timer.deadline;
      assert (chain + [e])[i] == chain[i];
    }
  }

  /** Behind the first young entry no entry is due. */
  lemma YoungRest(chain: seq<Entry>, i: nat, timeout: nat, now: nat)
    requires Sorted(chain) && i <= |chain|
    requires i < |chain| ==> 0 < chain[i].timestamp && now < chain[i].timestamp + timeout
    ensures forall k :: i <= k < |chain| ==> !Due(chain[k], timeout, now) && Expired(chain[k], timeout, now) == chain[k]
  {
  }
}
