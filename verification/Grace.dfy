/**
 The Windows grace terminator: after an interrupt request it waits for the worker to begin its
 cleanup, then for the cleanup to end, and terminates a worker that does neither in time.

 Time is in seconds. The machine's clock is an input: looks take time, sleeps end late, and what a
 look reports is true of some moment while it lasts. `slack` bounds how late a round of a wait, and
 each step between the waits, may be; with a slack of nothing the bounds are the code's constants
 and one poll interval for each wait.
 */
module Grace {
  import opened Text

  const POLL: real := 0.5
  const DELIVERY: real := 300.0
  const CLEANUP: real := 120.0

  // ---------------------------------------------------------------- one wait

  /**
   The clock around one wait: the reading that fixes the deadline, when each look begins, and the
   reading after it.
   */
  datatype Pace = Pace(start: real, look: nat -> real, read: nat -> real)

  /** Readings never go back, and a sleep lasts at least its interval. */
  ghost predicate Steps(p: Pace) {
    && p.start <= p.look(0)
    && forall i: nat :: Sleeps(p, i)
  }

  /** Round `i`: a look, a reading, and the sleep before the next look. */
  ghost predicate Sleeps(p: Pace, i: nat) {
    p.look(i) <= p.read(i) && p.read(i) + POLL <= p.look(i + 1)
  }

  ghost predicate InTime(p: Pace, slack: real, i: nat) {
    p.read(i + 1) <= p.look(i) + POLL + slack
  }

  /** No round of the wait is later than `slack`. */
  ghost predicate Paced(p: Pace, slack: real) {
    && Steps(p) && slack >= 0.0 && p.read(0) <= p.start + slack
    && forall i: nat :: InTime(p, slack, i)
  }

  predicate By(moment: Option<real>, t: real) {
    moment.Some? && moment.value <= t
  }

  /** What each look reports of something that happens at `at` and stays: true of some moment while the look lasts. */
  ghost predicate Honest(sees: nat -> bool, at: Option<real>, p: Pace) {
    forall i: nat :: HonestAt(sees, at, p, i)
  }

  ghost predicate HonestAt(sees: nat -> bool, at: Option<real>, p: Pace, i: nat) {
    (By(at, p.look(i)) ==> sees(i)) && (sees(i) ==> By(at, p.read(i)))
  }

  /** How a wait ended: whether it saw what it waited for, and at which look. */
  datatype Waited = Waited(ok: bool, last: nat)

  /** The wait from look `i` on. */
  ghost function WaitFrom(sees: nat -> bool, p: Pace, timeout: real, i: nat): Waited
    requires Steps(p)
    decreases 2.0 * (p.start + timeout - p.read(i))
  {
    if sees(i) then Waited(true, i)
    else if p.read(i) >= p.start + timeout then Waited(false, i)
    else
      assert Sleeps(p, i) && Sleeps(p, i + 1);
      WaitFrom(sees, p, timeout, i + 1)
  }

  /** `_wait_until`: look, give up at the first reading at or past the deadline, sleep. */
  method WaitUntil(sees: nat -> bool, p: Pace, timeout: real) returns (w: Waited)
    requires Steps(p)
    ensures w == WaitFrom(sees, p, timeout, 0)
    ensures w.ok == sees(w.last)
    ensures !w.ok ==> p.read(w.last) >= p.start + timeout
    ensures forall k: nat :: k < w.last ==> !sees(k) && p.read(k) < p.start + timeout
  {
    var i: nat := 0;
    while !sees(i)
      invariant WaitFrom(sees, p, timeout, 0) == WaitFrom(sees, p, timeout, i)
      invariant forall k: nat :: k < i ==> !sees(k) && p.read(k) < p.start + timeout
      decreases 2.0 * (p.start + timeout - p.read(i))
    {
      if p.read(i) >= p.start + timeout {
        return Waited(false, i);
      }
      assert Sleeps(p, i) && Sleeps(p, i + 1);
      i := i + 1;
    }
    return Waited(true, i);
  }

  lemma {:induction false} WaitEnds(sees: nat -> bool, p: Pace, timeout: real, i: nat)
    requires Steps(p)
    requires forall k: nat :: k < i ==> !sees(k) && p.read(k) < p.start + timeout
    ensures var w := WaitFrom(sees, p, timeout, i);
      && i <= w.last && w.ok == sees(w.last)
      && (!w.ok ==> p.read(w.last) >= p.start + timeout)
      && forall k: nat :: k < w.last ==> !sees(k) && p.read(k) < p.start + timeout
    decreases 2.0 * (p.start + timeout - p.read(i))
  {
    if !sees(i) && p.read(i) < p.start + timeout {
      assert Sleeps(p, i) && Sleeps(p, i + 1);
      WaitEnds(sees, p, timeout, i + 1);
    }
  }

  /**
   What a wait from `start` decides about something that happens at `at`. Whatever happens by a
   slack before the deadline is seen, and what is seen has happened; the wait ends one poll interval
   and one slack past the deadline at the latest, and as much past what it sees; and it never gives
   up before the deadline.
   */
  ghost predicate Decides(ok: bool, end: real, at: Option<real>, start: real, timeout: real, slack: real) {
    && (By(at, start + timeout - slack) ==> ok)
    && (ok ==> By(at, end) && (end <= start + slack || end < at.value + POLL + slack))
    && start <= end <= start + timeout + POLL + slack
    && (!ok ==> end >= start + timeout && !By(at, end - slack))
  }

  lemma WaitDecided(sees: nat -> bool, at: Option<real>, p: Pace, timeout: real, slack: real)
    requires Paced(p, slack) && Honest(sees, at, p) && timeout >= 0.0
    ensures var w := WaitFrom(sees, p, timeout, 0);
      Decides(w.ok, p.read(w.last), at, p.start, timeout, slack)
  {
    WaitEnds(sees, p, timeout, 0);
    var w := WaitFrom(sees, p, timeout, 0);
    DecidedAt(sees, at, p, timeout, slack, w.ok, w.last);
  }

  lemma DecidedAt(sees: nat -> bool, at: Option<real>, p: Pace, timeout: real, slack: real, ok: bool, n: nat)
    requires Paced(p, slack) && Honest(sees, at, p) && timeout >= 0.0
    requires ok == sees(n) && (!ok ==> p.read(n) >= p.start + timeout)
    requires n > 0 ==> !sees(n - 1) && p.read(n - 1) < p.start + timeout
    ensures Decides(ok, p.read(n), at, p.start, timeout, slack)
  {
    RoundIsShort(p, slack, n);
    if n > 0 {
      RoundIsShort(p, slack, n - 1);
      RoundFollows(p, slack, n - 1);
      assert HonestAt(sees, at, p, n - 1);
    }
    assert HonestAt(sees, at, p, n);
  }

  lemma RoundFollows(p: Pace, slack: real, n: nat)
    requires Paced(p, slack)
    ensures p.read(n) + POLL <= p.look(n + 1) <= p.read(n + 1) <= p.look(n) + POLL + slack
  {
    assert Sleeps(p, n) && Sleeps(p, n + 1) && InTime(p, slack, n);
  }

  lemma RoundIsShort(p: Pace, slack: real, n: nat)
    requires Paced(p, slack)
    ensures p.start <= p.look(n) <= p.read(n) <= p.look(n) + slack
  {
    ReadsLater(p, n);
    if n > 0 {
      RoundFollows(p, slack, n - 1);
      ReadsLater(p, n - 1);
    }
  }

  lemma {:induction false} ReadsLater(p: Pace, n: nat)
    requires Steps(p)
    ensures p.start <= p.look(n) <= p.read(n)
  {
    if n > 0 {
      ReadsLater(p, n - 1);
      assert Sleeps(p, n - 1);
    }
    assert Sleeps(p, n);
  }

  /** A machine that is never late: such clocks exist for every start. */
  lemma OnTime(start: real) returns (p: Pace)
    ensures p.start == start && Paced(p, 0.0) && forall i: nat :: p.look(i) == p.read(i)
  {
    p := Pace(start, (i: nat) => start + POLL * i as real, (i: nat) => start + POLL * i as real);
  }

  // ---------------------------------------------------------------- the terminator

  /** When the worker's cleanup marker appears, and when it exits unless it is terminated first. */
  datatype Worker = Worker(marker: Option<real>, exit: Option<real>)

  /** The earlier of the marker and the exit. */
  function BeginsAt(w: Worker): Option<real> {
    if w.marker.None? then w.exit
    else if w.exit.None? || w.marker.value <= w.exit.value then w.marker
    else w.exit
  }

  /** The cleanup has begun, or the worker is gone, from that moment on and not before. */
  lemma BeginsMeans(w: Worker, t: real)
    ensures By(BeginsAt(w), t) <==> By(w.marker, t) || By(w.exit, t)
  {
  }

  /**
   One terminator on one machine: the two waits with what their looks report, the look between
   them, the moment of a termination, and whether the record is active when it is marked.
   */
  datatype Course = Course(
    first: Pace, begun: nat -> bool,
    goneBetween: bool,
    second: Pace, gone: nat -> bool,
    kill: real, active: bool)

  /** The course is one of this worker's, asked to stop at `request`, on a machine no later than `slack` at any step. */
  ghost predicate IsCourse(c: Course, w: Worker, request: real, slack: real) {
    && Paced(c.first, slack) && Paced(c.second, slack)
    && request <= c.first.start <= request + slack
    && Honest(c.begun, BeginsAt(w), c.first) && Honest(c.gone, w.exit, c.second)
    && var begun := WaitFrom(c.begun, c.first, DELIVERY, 0);
       var seen := c.first.read(begun.last);
       if begun.ok then
         && seen <= c.second.start <= seen + slack
         && (By(w.exit, seen) ==> c.goneBetween) && (c.goneBetween ==> By(w.exit, c.second.start))
         && var end := c.second.read(WaitFrom(c.gone, c.second, CLEANUP, 0).last);
            end <= c.kill <= end + slack
       else
         seen <= c.kill <= seen + slack
  }

  /** Every worker, asked to stop at any moment, has a course on a machine that is never late. */
  lemma CourseOf(w: Worker, request: real) returns (c: Course)
    ensures IsCourse(c, w, request, 0.0)
  {
    var first := OnTime(request);
    var begun := (i: nat) => By(BeginsAt(w), first.look(i));
    var wait := WaitFrom(begun, first, DELIVERY, 0);
    var seen := first.read(wait.last);
    var second := OnTime(seen);
    var gone := (i: nat) => By(w.exit, second.look(i));
    var end := second.read(WaitFrom(gone, second, CLEANUP, 0).last);
    assert forall i: nat :: HonestAt(begun, BeginsAt(w), first, i) && HonestAt(gone, w.exit, second, i);
    c := Course(first, begun, By(w.exit, seen), second, gone, if wait.ok then end else seen, true);
  }

  /** What becomes of the worker: when it is terminated, if it is, and whether the record was marked. */
  datatype Verdict = Verdict(killed: Option<real>, marked: bool)

  ghost function Decided(c: Course): Verdict
    requires Steps(c.first) && Steps(c.second)
  {
    if !WaitFrom(c.begun, c.first, DELIVERY, 0).ok then Verdict(Some(c.kill), c.active)
    else if c.goneBetween || WaitFrom(c.gone, c.second, CLEANUP, 0).ok then Verdict(None, false)
    else Verdict(Some(c.kill), false)
  }

  /** `_terminate_after_grace`. */
  method TerminateAfterGrace(c: Course) returns (v: Verdict)
    requires Steps(c.first) && Steps(c.second)
    ensures v == Decided(c)
  {
    var begun := WaitUntil(c.begun, c.first, DELIVERY);
    if begun.ok {
      if c.goneBetween {
        return Verdict(None, false);
      }
      var gone := WaitUntil(c.gone, c.second, CLEANUP);
      if gone.ok {
        return Verdict(None, false);
      }
      return Verdict(Some(c.kill), false);
    }
    return Verdict(Some(c.kill), c.active);
  }

  /** The worker is gone, by itself or terminated, by the time `t`. */
  predicate GoneBy(w: Worker, v: Verdict, t: real) {
    By(w.exit, t) || By(v.killed, t)
  }

  /**
   The bound. Every worker is gone by both allowances and a poll interval for each wait, and the
   machine's slack: one for each wait and one for each of the three steps around them. One whose
   cleanup begins a slack before the delivery time ends, and ends a slack before its allowance does,
   is never terminated. Whoever is terminated had what it was promised: the delivery time without a
   begun cleanup, or the cleanup allowance since it began. Only the first of these marks the record,
   and only over an active state; and whoever is terminated without a begun cleanup is marked if its
   record is active.
   */
  lemma GraceBound(c: Course, w: Worker, request: real, slack: real)
    requires IsCourse(c, w, request, slack)
    ensures var v := Decided(c);
      && GoneBy(w, v, request + 300.0 + 120.0 + 2.0 * (0.5 + slack) + 3.0 * slack)
      && (By(BeginsAt(w), request + 300.0 - slack) && By(w.exit, BeginsAt(w).value + 120.0 - slack) ==> v.killed.None?)
      && (v.killed.Some? ==>
            || (!By(BeginsAt(w), request + 300.0 - slack) && v.killed.value >= request + 300.0)
            || (BeginsAt(w).Some? && v.killed.value >= BeginsAt(w).value + 120.0 && !v.marked))
      && (v.marked ==> v.killed.Some? && c.active && !By(BeginsAt(w), request + 300.0 - slack))
      && (v.killed.Some? && !By(BeginsAt(w), v.killed.value) ==> v.marked == c.active)
  {
    var begun, gone := WaitFrom(c.begun, c.first, DELIVERY, 0), WaitFrom(c.gone, c.second, CLEANUP, 0);
    WaitDecided(c.begun, BeginsAt(w), c.first, DELIVERY, slack);
    WaitDecided(c.gone, w.exit, c.second, CLEANUP, slack);
    if !begun.ok {
      NeverBegan(w, request, slack, c.first.start, c.first.read(begun.last), c.kill);
    } else {
      CleanupSeen(w, request, slack, c.first.start, c.first.read(begun.last),
                  c.goneBetween, c.second.start, gone.ok, c.second.read(gone.last), c.kill);
    }
  }

  lemma NeverBegan(w: Worker, request: real, slack: real, start: real, end: real, kill: real)
    requires slack >= 0.0 && request <= start <= request + slack && end <= kill <= end + slack
    requires Decides(false, end, BeginsAt(w), start, DELIVERY, slack)
    ensures request + DELIVERY <= kill <= request + DELIVERY + POLL + 3.0 * slack
    ensures !By(BeginsAt(w), request + DELIVERY - slack)
  {
  }

  lemma CleanupSeen(w: Worker, request: real, slack: real, start: real, seen: real,
                    goneBetween: bool, again: real, gone: bool, end: real, kill: real)
    requires slack >= 0.0 && request <= start <= request + slack && seen <= again <= seen + slack
    requires end <= kill <= end + slack
    requires Decides(true, seen, BeginsAt(w), start, DELIVERY, slack)
    requires (By(w.exit, seen) ==> goneBetween) && (goneBetween ==> By(w.exit, again))
    requires Decides(gone, end, w.exit, again, CLEANUP, slack)
    ensures BeginsAt(w).Some? && BeginsAt(w).value <= seen
    ensures goneBetween || gone ==> By(w.exit, request + DELIVERY + CLEANUP + 2.0 * (POLL + slack) + 3.0 * slack)
    ensures !goneBetween && !gone ==>
      && !By(w.exit, BeginsAt(w).value + CLEANUP - slack)
      && BeginsAt(w).value + CLEANUP <= kill <= request + DELIVERY + CLEANUP + 2.0 * (POLL + slack) + 3.0 * slack
  {
  }

  /** On a machine that is never late, the slack is gone from the bound. */
  lemma GraceBoundOnTime(c: Course, w: Worker, request: real)
    requires IsCourse(c, w, request, 0.0)
    ensures GoneBy(w, Decided(c), request + 300.0 + 120.0 + 2.0 * 0.5)
    ensures By(BeginsAt(w), request + 300.0) && By(w.exit, BeginsAt(w).value + 120.0) ==> Decided(c).killed.None?
  {
    GraceBound(c, w, request, 0.0);
  }

  /**
   The allowances alone are no bound: on a machine that sleeps through them, a worker that never
   stirs outlives both.
   */
  lemma LateMachineOverruns() returns (c: Course, w: Worker)
    ensures IsCourse(c, w, 0.0, 421.0) && !GoneBy(w, Decided(c), DELIVERY + CLEANUP)
  {
    w := Worker(None, None);
    var first := Pace(0.0, (i: nat) => if i == 0 then 0.0 else 421.0 + POLL * i as real, (i: nat) => 421.0
      + POLL * i as real);
    var never := (i: nat) => false;
    assert forall i: nat :: Sleeps(first, i) && InTime(first, 421.0, i);
    assert forall i: nat :: HonestAt(never, None, first, i);
    assert WaitFrom(never, first, DELIVERY, 0) == Waited(false, 0);
    c := Course(first, never, false, first, never, 421.0, true);
  }
}
