/**
 The recorder's threads, with a flush taken apart: the worker's main thread records and flushes,
 and every trailing timer flushes from a thread of its own. A flush clears the pending timer, reads
 the number of events, and merges that number into `state.json`; only the merge is locked. A timer
 that has fired can still be in its flush when the next one is armed and fires.
 */
module RecorderThreads {

  /** How far a thread is in a flush. */
  datatype Flush = Out | Clearing | Reading | Merging(count: nat)

  /** The recorder's `_pending`: nothing, a timer still to fire, or one whose thread has started. */
  datatype Pending = Nothing | Armed | Fired

  /** The main thread and the timers that have fired and not finished. */
  datatype Recorder = Recorder(number: nat, eventCount: nat, pending: Pending, main: Flush, timers: map<nat, Flush>)

  datatype Thread = Main | Timer(id: nat)

  datatype Step =
    | Record(flush: bool)             // an event: a lifecycle one, or one after the interval, flushes
    | Fire(id: nat)                   // the armed timer's thread starts
    | Clear(thread: Thread)
    | Read(thread: Thread)
    | Merge(thread: Thread)

  function FlushOf(r: Recorder, thread: Thread): Flush {
    match thread
    case Main => r.main
    case Timer(id) => if id in r.timers then r.timers[id] else Out
  }

  function With(r: Recorder, thread: Thread, f: Flush): Recorder {
    match thread
    case Main => r.(main := f)
    case Timer(id) => r.(timers := if f.Out? then r.timers - {id} else r.timers[id := f])
  }

  predicate Enabled(r: Recorder, step: Step) {
    match step
    case Record(_) => r.main.Out?
    case Fire(id) => r.pending.Armed? && id !in r.timers
    case Clear(thread) => FlushOf(r, thread).Clearing?
    case Read(thread) => FlushOf(r, thread).Reading?
    case Merge(thread) => FlushOf(r, thread).Merging?
  }

  function After(r: Recorder, step: Step): Recorder
    requires Enabled(r, step)
  {
    match step
    case Record(flush) =>
      var r' := r.(number := r.number + 1);
      if flush then r'.(main := Clearing) else if r.pending.Nothing? then r'.(pending := Armed) else r'
    case Fire(id) => r.(timers := r.timers[id := Clearing], pending := Fired)
    case Clear(thread) => With(r, thread, Reading).(pending := Nothing)
    case Read(thread) => With(r, thread, Merging(r.number))
    case Merge(thread) => With(r, thread, Out).(eventCount := FlushOf(r, thread).count)
  }

  const Fresh: Recorder := Recorder(0, 0, Nothing, Out, map[])

  ghost predicate Run(states: seq<Recorder>, steps: seq<Step>) {
    && |states| == |steps| + 1
    && states[0] == Fresh
    && forall i :: 0 <= i < |steps| ==> Enabled(states[i], steps[i]) && states[i + 1] == After(states[i], steps[i])
  }

  predicate AtRest(r: Recorder) {
    r.main.Out? && r.timers == map[]
  }

  /** Nothing is forgotten: whatever is uncounted has a timer coming. */
  predicate Caught(r: Recorder) {
    r.eventCount < r.number ==> r.pending.Armed?
  }

  // ---------------------------------------------------------------- flushes one at a time

  /** Two threads are inside a flush. */
  predicate Overlap(r: Recorder) {
    (!r.main.Out? && r.timers != map[]) || exists a, b :: a in r.timers && b in r.timers && a != b
  }

  /** What a flush alone has yet to do for everything recorded to be caught. */
  predicate FlushInv(r: Recorder, f: Flush) {
    f.Merging? ==> f.count <= r.number && (f.count < r.number ==> r.pending.Armed?)
  }

  predicate Inv(r: Recorder) {
    && r.eventCount <= r.number
    && (AtRest(r) ==> Caught(r) && !r.pending.Fired?)
    && (r.pending.Fired? ==> exists t :: t in r.timers && r.timers[t].Clearing?)
    && FlushInv(r, r.main) && forall t :: t in r.timers ==> FlushInv(r, r.timers[t])
  }

  /** One step from a state with one flush at most to another. */
  lemma StepKeepsInv(r: Recorder, step: Step)
    requires Inv(r) && !Overlap(r) && Enabled(r, step) && !Overlap(After(r, step))
    ensures Inv(After(r, step))
  {
    if step.Fire? {
      assert step.id in After(r, step).timers;
    }
  }

  /** As long as no two flushes overlap, every moment outside a flush has everything counted or a timer pending. */
  lemma {:induction false} CaughtWithoutOverlap(states: seq<Recorder>, steps: seq<Step>, n: nat)
    requires Run(states, steps) && n < |states|
    requires forall i :: 0 <= i <= n ==> !Overlap(states[i])
    ensures Inv(states[n])
  {
    if n > 0 {
      CaughtWithoutOverlap(states, steps, n - 1);
      assert !Overlap(states[n]) && !Overlap(states[n - 1]);
      StepKeepsInv(states[n - 1], steps[n - 1]);
    }
  }

  // ---------------------------------------------------------------- exactly which overlaps lose a count

  predicate Counts(r: Recorder, f: Flush) {
    f.Clearing? || f.Reading? || f == Merging(r.number)
  }

  /** Someone is still going to count everything recorded, or has. */
  predicate Covered(r: Recorder) {
    || r.pending.Armed? || r.eventCount == r.number
    || Counts(r, r.main) || exists t :: t in r.timers && Counts(r, r.timers[t])
  }

  /**
   A timer's merge puts an older count over a newer one while the main thread is out of its flush,
   no timer is armed, and every other timer in its flush holds an older count too.
   */
  predicate Overwrites(r: Recorder, step: Step) {
    && step.Merge? && step.thread.Timer?
    && FlushOf(r, step.thread).Merging? && FlushOf(r, step.thread).count < r.eventCount
    && r.main.Out? && !r.pending.Armed?
    && forall t :: t in r.timers && t != step.thread.id ==> !Counts(r, r.timers[t])
  }

  predicate Sound(r: Recorder) {
    && r.eventCount <= r.number
    && (r.main.Merging? ==> r.main.count == r.number)
    && (forall t :: t in r.timers ==> !r.timers[t].Out? && (r.timers[t].Merging? ==> r.timers[t].count <= r.number))
    && (r.pending.Fired? ==> exists t :: t in r.timers && r.timers[t].Clearing?)
  }

  lemma StepKeepsSound(r: Recorder, step: Step)
    requires Sound(r) && Enabled(r, step)
    ensures Sound(After(r, step))
  {
    var r' := After(r, step);
    if r'.pending.Fired? {
      if step.Fire? {
        assert step.id in r'.timers && r'.timers[step.id].Clearing?;
      } else {
        var t :| t in r.timers && r.timers[t].Clearing?;
        assert t in r'.timers && r'.timers[t].Clearing?;
      }
    }
  }

  lemma {:induction false} RunSound(states: seq<Recorder>, steps: seq<Step>, n: nat)
    requires Run(states, steps) && n < |states|
    ensures Sound(states[n])
  {
    if n > 0 {
      RunSound(states, steps, n - 1);
      StepKeepsSound(states[n - 1], steps[n - 1]);
    }
  }

  /** What is covered stays covered, but for an overwriting merge. */
  lemma CoverLost(r: Recorder, step: Step)
    requires Sound(r) && Enabled(r, step) && Covered(r)
    ensures Covered(After(r, step)) <==> !Overwrites(r, step)
  {
    var r' := After(r, step);
    match step
    case Record(_) =>
    case Fire(id) => assert id in r'.timers && Counts(r', r'.timers[id]);
    case Clear(thread) => StillCounts(r, step);
    case Read(thread) => StillCounts(r, step);
    case Merge(thread) =>
      if t :| t in r.timers && Counts(r, r.timers[t]) && thread != Timer(t) {
        assert t in r'.timers && Counts(r', r'.timers[t]);
      }
  }

  lemma StillCounts(r: Recorder, step: Step)
    requires Enabled(r, step) && (step.Clear? || step.Read?)
    ensures Covered(After(r, step)) && !Overwrites(r, step)
  {
    var r' := After(r, step);
    if step.thread.Timer? {
      assert step.thread.id in r'.timers && Counts(r', r'.timers[step.thread.id]);
    }
  }

  /** What is not covered is covered by the next event, and until then only old counts are merged. */
  lemma UncoveredSteps(r: Recorder, step: Step)
    requires Sound(r) && Enabled(r, step) && !Covered(r)
    ensures !Covered(After(r, step)) <==> step.Merge?
  {
    var r' := After(r, step);
    if step.Merge? {
      assert r.main.Out?;
      assert forall t :: t in r'.timers ==> t in r.timers && r'.timers[t] == r.timers[t];
    } else {
      assert step.Record?;
    }
  }

  /** The merge that uncovered a state, with nothing but merges since. */
  lemma {:induction false} UncoveredSince(states: seq<Recorder>, steps: seq<Step>, n: nat) returns (i: nat)
    requires Run(states, steps) && n < |states| && !Covered(states[n])
    ensures i < n && Overwrites(states[i], steps[i]) && forall k :: i < k < n ==> steps[k].Merge?
  {
    RunSound(states, steps, n - 1);
    if Covered(states[n - 1]) {
      CoverLost(states[n - 1], steps[n - 1]);
      i := n - 1;
    } else {
      UncoveredSteps(states[n - 1], steps[n - 1]);
      i := UncoveredSince(states, steps, n - 1);
    }
  }

  lemma {:induction false} StaysUncovered(states: seq<Recorder>, steps: seq<Step>, i: nat, n: nat)
    requires Run(states, steps) && i < n < |states| && Overwrites(states[i], steps[i])
    requires forall k :: i < k < n ==> steps[k].Merge?
    ensures !Covered(states[n])
  {
    RunSound(states, steps, n - 1);
    if n == i + 1 {
      OverwriteUncovers(states[i], steps[i]);
    } else {
      StaysUncovered(states, steps, i, n - 1);
      UncoveredSteps(states[n - 1], steps[n - 1]);
    }
  }

  lemma OverwriteUncovers(r: Recorder, step: Step)
    requires Sound(r) && Enabled(r, step) && Overwrites(r, step)
    ensures !Covered(After(r, step))
  {
    var r' := After(r, step);
    assert forall t :: t in r'.timers ==> t in r.timers && t != step.thread.id && r'.timers[t] == r.timers[t];
  }

  /** From step `i` an old count stands over a newer one, and the run comes to rest at `n` before the next event. */
  ghost predicate ForgetsAt(states: seq<Recorder>, steps: seq<Step>, i: nat, n: nat)
    requires |states| == |steps| + 1
  {
    && i < n < |states| && Overwrites(states[i], steps[i]) && AtRest(states[n])
    && forall k :: i < k < n ==> steps[k].Merge?
  }

  /**
   A run comes to rest with something uncounted and no timer armed exactly when a timer's merge
   overwrites a newer count and the run comes to rest with merges alone from there.
   */
  lemma CaughtExactly(states: seq<Recorder>, steps: seq<Step>)
    requires Run(states, steps)
    ensures (exists n :: 0 <= n < |states| && AtRest(states[n]) && !Caught(states[n])) <==>
      (exists i, n :: ForgetsAt(states, steps, i, n))
  {
    if n :| 0 <= n < |states| && AtRest(states[n]) && !Caught(states[n]) {
      var i := UncoveredSince(states, steps, n);
      assert ForgetsAt(states, steps, i, n);
    }
    if i: nat, n: nat :| ForgetsAt(states, steps, i, n) {
      StaysUncovered(states, steps, i, n);
      RunSound(states, steps, n);
      assert AtRest(states[n]) && !Caught(states[n]);
    }
  }

  lemma Extend(states: seq<Recorder>, steps: seq<Step>, step: Step) returns (states': seq<Recorder>, steps': seq<Step>)
    requires Run(states, steps) && Enabled(states[|steps|], step)
    ensures Run(states', steps') && steps' == steps + [step] && states'[..|states|] == states
    ensures states'[|steps'|] == After(states[|steps|], step)
  {
    states' := states + [After(states[|steps|], step)];
    steps' := steps + [step];
  }

  /**
   It happens: a timer's older count is merged over a lifecycle event's newer one, and no timer is
   left to correct it.
   */
  lemma OverlapForgets() returns (states: seq<Recorder>, steps: seq<Step>)
    ensures Run(states, steps) && AtRest(states[|steps|]) && !Caught(states[|steps|])
  {
    states, steps := [Fresh], [];
    states, steps := Extend(states, steps, Record(false));
    states, steps := Extend(states, steps, Fire(0));
    states, steps := Extend(states, steps, Clear(Timer(0)));
    states, steps := Extend(states, steps, Read(Timer(0)));
    states, steps := Extend(states, steps, Record(true));
    states, steps := Extend(states, steps, Clear(Main));
    states, steps := Extend(states, steps, Read(Main));
    states, steps := Extend(states, steps, Merge(Main));
    states, steps := Extend(states, steps, Merge(Timer(0)));
    assert states[|steps|] == Recorder(2, 1, Nothing, Out, map[]);
  }
}
