/**
 `state.json` under concurrent writers and lock-free readers.

 Every read-modify-write takes the kernel lock, reads the file, writes a temporary file piece by
 piece, renames it over `state.json`, and lets the lock go. The daemon's threads, the worker's
 main thread and its recorder's timer do this in any interleaving, any of them may die at any
 point (the kernel then drops its lock), and readers open and read without the lock. The main
 result: this refines a single record that completed updates change atomically, in lock order.
 */
module StateFile {
  import opened Text
  import opened Json

  type Record = map<string, Json>

  /** A locked update: what it makes of the record it reads; None when it leaves the file alone. */
  type Update = Record -> Option<Record>

  /** The code's `_merge_state`. */
  function Merge(changes: Record, now: Json): Update {
    (r: Record) => Some(r + changes + map["updated_at" := now])
  }

  // ---------------------------------------------------------------- the system

  /** What one inode holds: a file being written, or a complete record. */
  datatype Content = Partial | Whole(record: Record)

  datatype Thread =
    | Idle
    | Waiting(u: Update)
    | Holding(u: Update)
    | Prepared(u: Update, next: Record)
    | Writing(u: Update, next: Record, temp: nat)
    | Written(u: Update, next: Record, temp: nat)
    | Leaving
    | Dead

  datatype System = System(
    entry: nat,                      // the inode `state.json` names
    inodes: map<nat, Content>,
    lock: Option<nat>,               // the thread the kernel lock excludes the others for
    threads: map<nat, Thread>,
    readers: map<nat, nat>,          // the inode each open reader holds
    log: seq<Update>,                // the completed updates, in the order of their renames
    versions: seq<Record>)           // the records `state.json` has held

  function ThreadOf(s: System, t: nat): Thread {
    if t in s.threads then s.threads[t] else Idle
  }

  function WithThread(s: System, t: nat, pc: Thread): System {
    s.(threads := s.threads[t := pc])
  }

  datatype Step =
    | Ask(t: nat, u: Update)
    | Acquire(t: nat)
    | Read(t: nat)
    | OpenTemp(t: nat, inode: nat)
    | FillTemp(t: nat)
    | Rename(t: nat)
    | Release(t: nat)
    | Die(t: nat)
    | Open(reader: nat)

  predicate HoldsLock(pc: Thread) {
    !pc.Idle? && !pc.Waiting? && !pc.Dead?
  }

  ghost predicate Enabled(s: System, step: Step) {
    match step
    case Ask(t, _) => ThreadOf(s, t).Idle?
    case Acquire(t) => ThreadOf(s, t).Waiting? && s.lock == None
    case Read(t) => ThreadOf(s, t).Holding? && s.entry in s.inodes && s.inodes[s.entry].Whole?
    case OpenTemp(t, inode) => ThreadOf(s, t).Prepared? && inode !in s.inodes
    case FillTemp(t) => ThreadOf(s, t).Writing?
    case Rename(t) => ThreadOf(s, t).Written?
    case Release(t) => ThreadOf(s, t).Leaving?
    case Die(t) => !ThreadOf(s, t).Dead?
    case Open(_) => true
  }

  ghost function After(s: System, step: Step): System
    requires Enabled(s, step)
  {
    match step
    case Ask(t, u) => WithThread(s, t, Waiting(u))
    case Acquire(t) => WithThread(s, t, Holding(ThreadOf(s, t).u)).(lock := Some(t))
    case Read(t) =>
      var u := ThreadOf(s, t).u;
      (match u(s.inodes[s.entry].record)
       case None => WithThread(s, t, Leaving)
       case Some(next) => WithThread(s, t, Prepared(u, next)))
    case OpenTemp(t, inode) =>
      var pc := ThreadOf(s, t);
      WithThread(s, t, Writing(pc.u, pc.next, inode)).(inodes := s.inodes[inode := Partial])
    case FillTemp(t) =>
      var pc := ThreadOf(s, t);
      WithThread(s, t, Written(pc.u, pc.next, pc.temp)).(inodes := s.inodes[pc.temp := Whole(pc.next)])
    case Rename(t) =>
      var pc := ThreadOf(s, t);
      WithThread(s, t, Leaving).(entry := pc.temp, log := s.log + [pc.u], versions := s.versions + [pc.next])
    case Release(t) => WithThread(s, t, Idle).(lock := None)
    case Die(t) => WithThread(s, t, Dead).(lock := if s.lock == Some(t) then None else s.lock)
    case Open(reader) => s.(readers := s.readers[reader := s.entry])
  }

  /** A freshly written record, before anyone else touches it. */
  ghost predicate Initial(s: System, init: Record) {
    && s.entry in s.inodes && s.inodes[s.entry] == Whole(init)
    && s.lock == None && s.threads == map[] && s.readers == map[]
    && s.log == [] && s.versions == [init]
  }

  /** A run: any interleaving of enabled steps from a fresh record. */
  ghost predicate Run(init: Record, states: seq<System>, steps: seq<Step>) {
    && |states| == |steps| + 1
    && Initial(states[0], init)
    && forall i :: 0 <= i < |steps| ==> Enabled(states[i], steps[i]) && states[i + 1] == After(states[i], steps[i])
  }

  // ---------------------------------------------------------------- the invariant

  /** `versions` is the initial record with the completed updates folded in, one after the other. */
  ghost predicate Folds(init: Record, log: seq<Update>, versions: seq<Record>) {
    && |versions| == |log| + 1
    && versions[0] == init
    && forall i :: 0 <= i < |log| ==> log[i](versions[i]) == Some(versions[i + 1])
  }

  /** What the thread that holds the lock knows about the file. */
  ghost predicate ThreadInv(s: System, current: Record, pc: Thread) {
    && (pc.Prepared? || pc.Writing? || pc.Written? ==> pc.u(current) == Some(pc.next))
    && (pc.Writing? || pc.Written? ==>
          pc.temp in s.inodes && pc.temp != s.entry && forall q :: q in s.readers ==> s.readers[q] != pc.temp)
    && (pc.Written? ==> s.inodes[pc.temp] == Whole(pc.next))
  }

  ghost predicate Inv(init: Record, s: System) {
    && Folds(init, s.log, s.versions)
    && s.entry in s.inodes && s.inodes[s.entry] == Whole(s.versions[|s.log|])
    && (forall t: nat :: HoldsLock(ThreadOf(s, t)) <==> s.lock == Some(t))
    && (s.lock.Some? ==> ThreadInv(s, s.versions[|s.log|], ThreadOf(s, s.lock.value)))
    && (forall q :: q in s.readers ==>
          && s.readers[q] in s.inodes
          && s.inodes[s.readers[q]].Whole?
          && s.inodes[s.readers[q]].record in s.versions)
  }

  lemma FoldsMore(init: Record, log: seq<Update>, versions: seq<Record>, u: Update, next: Record)
    requires Folds(init, log, versions) && u(versions[|log|]) == Some(next)
    ensures Folds(init, log + [u], versions + [next])
  {
  }

  lemma LockStep(s: System, t: nat, pc: Thread, lock: Option<nat>)
    requires forall x: nat :: HoldsLock(ThreadOf(s, x)) <==> s.lock == Some(x)
    requires forall x: nat :: x != t ==> (s.lock == Some(x) <==> lock == Some(x))
    requires HoldsLock(pc) <==> lock == Some(t)
    ensures forall x: nat :: HoldsLock(ThreadOf(WithThread(s, t, pc), x)) <==> lock == Some(x)
  {
  }

  lemma StepKeepsInv(init: Record, s: System, step: Step)
    requires Inv(init, s) && Enabled(s, step)
    ensures Inv(init, After(s, step))
  {
    var s' := After(s, step);
    if !step.Open? {
      var t := step.t;
      var pc := ThreadOf(s, t);
      assert HoldsLock(pc) <==> s.lock == Some(t);
      LockStep(s, t, ThreadOf(s', t), s'.lock);
      if step.Rename? {
        FoldsMore(init, s.log, s.versions, pc.u, pc.next);
      }
    }
  }

  lemma {:induction false} RunInv(init: Record, states: seq<System>, steps: seq<Step>, n: nat)
    requires Run(init, states, steps) && n < |states|
    ensures Inv(init, states[n])
  {
    if n > 0 {
      RunInv(init, states, steps, n - 1);
      StepKeepsInv(init, states[n - 1], steps[n - 1]);
    }
  }

  // ---------------------------------------------------------------- what it means

  /** The record a reader that opens the file now will see. */
  ghost function Current(s: System): Content {
    if s.entry in s.inodes then s.inodes[s.entry] else Partial
  }

  /**
   No update is lost. In every interleaving the file is the initial record with the completed
   updates folded in, in lock order; and whatever inode a lock-free reader holds, however long
   ago it opened it, is a whole record the file has held.
   */
  lemma NoLostUpdate(init: Record, states: seq<System>, steps: seq<Step>, n: nat)
    requires Run(init, states, steps) && n < |states|
    ensures var s := states[n];
      && Folds(init, s.log, s.versions) && Current(s) == Whole(s.versions[|s.log|])
      && forall q :: q in s.readers ==>
           && s.readers[q] in s.inodes
           && exists i :: 0 <= i < |s.versions| && s.inodes[s.readers[q]] == Whole(s.versions[i])
  {
    RunInv(init, states, steps, n);
    var s := states[n];
    forall q | q in s.readers
      ensures exists i :: 0 <= i < |s.versions| && s.inodes[s.readers[q]] == Whole(s.versions[i])
    {
      var i :| 0 <= i < |s.versions| && s.versions[i] == s.inodes[s.readers[q]].record;
    }
  }

  /**
   Refinement: on the current record, a rename is its update applied atomically, and every other
   step, a death included, does nothing.
   */
  lemma StepIsAtomicUpdate(init: Record, states: seq<System>, steps: seq<Step>, n: nat)
    requires Run(init, states, steps) && n < |steps|
    ensures var s, s' := states[n], states[n + 1];
      && Current(s).Whole?
      && if steps[n].Rename? then
           var applied := ThreadOf(s, steps[n].t).u(Current(s).record);
           applied.Some? && Current(s') == Whole(applied.value)
         else Current(s') == Current(s)
  {
    RunInv(init, states, steps, n);
    var s, step := states[n], steps[n];
    if step.Rename? || step.FillTemp? {
      assert HoldsLock(ThreadOf(s, step.t));
    }
  }

  // ---------------------------------------------------------------- an update gets through

  lemma Extend(init: Record, states: seq<System>, steps: seq<Step>, step: Step)
    returns (states': seq<System>, steps': seq<Step>)
    requires Run(init, states, steps) && Enabled(states[|steps|], step)
    ensures Run(init, states', steps') && states <= states' && steps' == steps + [step]
    ensures states'[|steps'|] == After(states[|steps|], step)
  {
    states' := states + [After(states[|steps|], step)];
    steps' := steps + [step];
  }

  lemma {:induction false} FreshInode(used: set<nat>) returns (inode: nat)
    ensures forall u :: u in used ==> u < inode
    decreases used
  {
    inode := 0;
    if used != {} {
      var u :| u in used;
      var other := FreshInode(used - {u});
      inode := if other <= u then u + 1 else other;
      assert forall v :: v in used ==> v == u || v in used - {u};
    }
  }

  /** Asked for, given the lock, and read: what the update will do is decided. */
  lemma Prepares(init: Record, states: seq<System>, steps: seq<Step>, t: nat, u: Update)
    returns (states': seq<System>, steps': seq<Step>)
    requires Run(init, states, steps) && states[|steps|].lock == None && ThreadOf(states[|steps|], t).Idle?
    ensures Run(init, states', steps') && states <= states' && steps <= steps'
    ensures var s, s' := states[|steps|], states'[|steps'|];
      && Current(s).Whole? && Current(s') == Current(s) && s'.log == s.log && s'.lock == Some(t)
      && s'.entry == s.entry && s'.inodes == s.inodes
      && match u(Current(s).record)
         case None => ThreadOf(s', t) == Leaving
         case Some(next) => ThreadOf(s', t) == Prepared(u, next)
  {
    RunInv(init, states, steps, |steps|);
    states', steps' := Extend(init, states, steps, Ask(t, u));
    states', steps' := Extend(init, states', steps', Acquire(t));
    states', steps' := Extend(init, states', steps', Read(t));
  }

  /** From its decision to its rename. */
  lemma Commits(init: Record, states: seq<System>, steps: seq<Step>, t: nat, u: Update, next: Record)
    returns (states': seq<System>, steps': seq<Step>)
    requires Run(init, states, steps) && ThreadOf(states[|steps|], t) == Prepared(u, next)
    ensures Run(init, states', steps') && states <= states' && steps <= steps'
    ensures var s, s' := states[|steps|], states'[|steps'|];
      Current(s') == Whole(next) && s'.log == s.log + [u] && ThreadOf(s', t) == Leaving && s'.lock == s.lock
  {
    var inode := FreshInode(states[|steps|].inodes.Keys);
    states', steps' := Extend(init, states, steps, OpenTemp(t, inode));
    states', steps' := Extend(init, states', steps', FillTemp(t));
    states', steps' := Extend(init, states', steps', Rename(t));
  }

  /**
   In every reachable state, an idle thread that finds the lock free can carry out any update to its
   end: the file is then the update of what it was, or as it was when the update leaves it alone, and
   the lock is free again.
   */
  lemma UpdateGetsThrough(init: Record, states: seq<System>, steps: seq<Step>, t: nat, u: Update)
    returns (states': seq<System>, steps': seq<Step>)
    requires Run(init, states, steps) && states[|steps|].lock == None && ThreadOf(states[|steps|], t).Idle?
    ensures Run(init, states', steps') && states <= states' && steps <= steps'
    ensures var s, s' := states[|steps|], states'[|steps'|];
      && Current(s).Whole? && s'.lock == None && ThreadOf(s', t).Idle?
      && match u(Current(s).record)
         case None => Current(s') == Current(s) && s'.log == s.log
         case Some(next) => Current(s') == Whole(next) && s'.log == s.log + [u]
  {
    states', steps' := Prepares(init, states, steps, t, u);
    if ThreadOf(states'[|steps'|], t).Prepared? {
      states', steps' := Commits(init, states', steps', t, u, ThreadOf(states'[|steps'|], t).next);
    }
    states', steps' := Extend(init, states', steps', Release(t));
  }

  // ---------------------------------------------------------------- merges

  /** What a merge makes of a record: the changes over what was there, and the time of the change over everything. */
  lemma MergeMeans(changes: Record, now: Json, r: Record, key: string)
    ensures Merge(changes, now)(r).Some?
    ensures var m := Merge(changes, now)(r).value;
      && m.Keys == r.Keys + changes.Keys + {"updated_at"} && m["updated_at"] == now
      && (key in changes && key != "updated_at" ==> m[key] == changes[key])
      && (key in r && key !in changes && key != "updated_at" ==> m[key] == r[key])
  {
  }

  /** An update that cannot change `key`. */
  ghost predicate Spares(u: Update, key: string) {
    forall r: Record :: u(r).Some? ==> (key in u(r).value <==> key in r) && (key in r ==> u(r).value[key] == r[key])
  }

  /** A merge that does not mention a key leaves it alone, unlike the key `updated_at`. */
  lemma MergeSpares(changes: Record, now: Json, key: string)
    requires key !in changes && key != "updated_at"
    ensures Spares(Merge(changes, now), key)
  {
  }

  /** What a completed merge wrote stays in the file until a later completed update writes the same key. */
  lemma {:induction false} MergedValueStays(init: Record, s: System, i: nat, j: nat, changes: Record, now: Json,
      key: string)
    requires Folds(init, s.log, s.versions)
    requires i < j <= |s.log| && s.log[i] == Merge(changes, now) && key in changes && key != "updated_at"
    requires forall k :: i < k < j ==> Spares(s.log[k], key)
    ensures key in s.versions[j] && s.versions[j][key] == changes[key]
    decreases j
  {
    if j == i + 1 {
      assert s.log[i](s.versions[i]) == Some(s.versions[j]);
    } else {
      MergedValueStays(init, s, i, j - 1, changes, now, key);
      assert Spares(s.log[j - 1], key) && s.log[j - 1](s.versions[j - 1]) == Some(s.versions[j]);
    }
  }
}
