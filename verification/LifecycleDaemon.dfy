/**
 The daemon's changes to the job directory, each made in place under the record's lock. Each is its
 step of the system, on any machine. What the invariants add is what a caller is told beyond the
 write itself: which records it can meet, and what is then known of the worker.
 */
module LifecycleDaemon {
  import opened Lifecycle

  class Daemon {
    var w: World

    constructor (prompt: bool, readable: bool)
      ensures Initial(w) && Sound(w) && w.prompt == prompt && w.readable == readable
      ensures prompt && readable ==> Inv(w)
    {
      w := Empty(prompt, readable);
    }

    /** A created job's first record: in time and readable, it is from then on the one active job of its key. */
    method WriteRecord(j: nat)
      requires Sound(w) && Enabled(w, Step.WriteRecord(j))
      modifies this
      ensures w == After(old(w), Step.WriteRecord(j)) && Sound(w) && (old(Inv(w)) ==> Inv(w))
      ensures w == old(w).(jobs := old(w).jobs[j := Job(old(w).creator.key, Queued, NoPid, old(w).now)],
        keys := old(w).keys[j := old(w).creator.key], workers := old(w).workers[j := NotSpawned],
        creator := Recorded(j))
      ensures old(Inv(w)) ==>
        forall k :: k in w.jobs && k != j && w.jobs[k].key == w.jobs[j].key ==> !Active(w.jobs[k].state)
    {
      Kept(w, Step.WriteRecord(j));
      var key := w.creator.key;
      w := Put(w, j, Job(key, Queued, NoPid, w.now));
      w := w.(workers := w.workers[j := NotSpawned], creator := Recorded(j), keys := w.keys[j := key]);
    }

    /**
     `_refresh_unknown`, once it has the lock. When the record has a pid and a start time and the
     start time can be read, it marks an active record exactly when its worker is dead; in time and
     readable, so it does whatever was recorded. On any machine it marks what it cannot identify.
     */
    method RefreshUnknown(q: nat, legible: bool)
      requires Sound(w) && Enabled(w, RefreshWrite(q, legible))
      modifies this
      ensures w == After(old(w), RefreshWrite(q, legible)) && Sound(w) && (old(Inv(w)) ==> Inv(w))
      ensures var j := old(w).refreshes[q].j;
        (old(w).jobs[j].ident == Known && legible) || old(Inv(w)) ==>
          w.jobs[j] == if Active(old(w).jobs[j].state) && PhaseOf(old(w), j).Gone?
                       then old(w).jobs[j].(state := Unknown) else old(w).jobs[j]
      ensures var j := old(w).refreshes[q].j; var was := old(w).jobs[j];
        && w.jobs == old(w).jobs[j :=
             if was.state in {Queued, Running, Interrupting} && !(was.ident == Known && legible && Alive(old(w), j))
             then was.(state := Unknown) else was]
        && w == old(w).(jobs := w.jobs, refreshes := old(w).refreshes - {q})
    {
      Kept(w, RefreshWrite(q, legible));
      var j := w.refreshes[q].j;
      var job := w.jobs[j];
      MarksTheDead(w, q, legible);
      assert w.jobs[j := job] == w.jobs;
      if Active(job.state) && !IsJob(job.ident, legible && Alive(w, j)) {
        w := Put(w, j, job.(state := Unknown));
      }
      w := Drop(w, q);
    }

    /** `interrupt_job`, once it has the lock: the signal it arms can only reach a worker that is still at work. */
    method Interrupt(j: nat, legible: bool) returns (armed: bool)
      requires Sound(w) && j in w.jobs && (legible || !w.readable)
      modifies this
      ensures Sound(w) && (old(Inv(w)) ==> Inv(w))
      ensures var was := old(w).jobs[j];
        armed <==> was.state in {Queued, Running} && was.ident == Known && Alive(w, j) && legible
      ensures armed ==> Enabled(old(w), Step.Interrupt(j)) && w == After(old(w), Step.Interrupt(j))
      ensures armed ==> w.jobs == old(w).jobs[j := old(w).jobs[j].(state := Interrupting)]
      ensures w == if armed then old(w).(jobs := w.jobs, armed := old(w).armed + {j}) else old(w)
      ensures armed ==> AtWork(old(w), j) && w.jobs[j].state.Interrupting?
    {
      var job := w.jobs[j];
      assert JobSound(w, j);
      armed := (job.state.Queued? || job.state.Running?) && IsJob(job.ident, legible && Alive(w, j));
      if armed {
        Kept(w, Step.Interrupt(j));
        w := Put(w, j, job.(state := Interrupting)).(armed := w.armed + {j});
      }
    }

    /** `_terminate_after_grace`, once it has terminated the worker and has the lock. */
    method GiveUp(j: nat)
      requires Sound(w) && Enabled(w, GraceWrite(j))
      modifies this
      ensures w == After(old(w), GraceWrite(j)) && Sound(w) && (old(Inv(w)) ==> Inv(w))
      ensures PhaseOf(w, j).Gone? && !Active(w.jobs[j].state)
      ensures w.jobs == old(w).jobs[j :=
        if old(w).jobs[j].state in {Queued, Running, Interrupting} then old(w).jobs[j].(state := Unknown)
        else old(w).jobs[j]]
      ensures w == old(w).(jobs := w.jobs, killed := old(w).killed - {j})
    {
      Kept(w, GraceWrite(j));
      var job := w.jobs[j];
      assert w.jobs[j := job] == w.jobs;
      if Active(job.state) {
        w := Put(w, j, job.(state := Unknown));
      }
      w := w.(killed := w.killed - {j});
    }

    /** The late merge of pid and start time: whatever the worker and a refresh wrote meanwhile stays. */
    method MergePid(ident: Ident)
      requires Sound(w) && Enabled(w, Step.MergePid(ident))
      modifies this
      ensures w == After(old(w), Step.MergePid(ident)) && Sound(w) && (old(Inv(w)) ==> Inv(w))
      ensures var j := old(w).creator.j;
        w == old(w).(jobs := old(w).jobs[j := old(w).jobs[j].(ident := ident)], creator := Free)
      ensures old(Inv(w)) && AtWork(w, old(w).creator.j) ==> ident == Known
    {
      Kept(w, Step.MergePid(ident));
      var j := w.creator.j;
      assert Inv(w) ==> JobInv(After(w, Step.MergePid(ident)), j);
      w := Put(w, j, w.jobs[j].(ident := ident)).(creator := Free);
    }

    /** `continue_job`'s last write: a record whose worker was gone when continue read it still waits. */
    method Answer(j: nat, gone: bool)
      requires Sound(w) && Enabled(w, ContinueWrite(j, gone))
      modifies this
      ensures w == After(old(w), ContinueWrite(j, gone)) && Sound(w) && (old(Inv(w)) ==> Inv(w))
      ensures w == old(w).(jobs := old(w).jobs[j := old(w).jobs[j].(state := Answered)],
        continuing := old(w).continuing - {(j, gone)})
      ensures !Active(old(w).jobs[j].state)
      ensures gone ==> old(w).jobs[j].state.NeedsChoice? || old(w).jobs[j].state.Answered?
    {
      Kept(w, ContinueWrite(j, gone));
      assert ContinueInv(w, (j, gone).0, (j, gone).1);
      w := Put(w, j, w.jobs[j].(state := Answered)).(continuing := w.continuing - {(j, gone)});
    }

    /**
     One deletion of `_prune`, by a listing older than the directory: in time and readable, the
     job is still a finished one.
     */
    method PruneOne(j: nat)
      requires Sound(w) && Enabled(w, Step.PruneOne(j))
      modifies this
      ensures w == After(old(w), Step.PruneOne(j)) && Sound(w) && (old(Inv(w)) ==> Inv(w))
      ensures w == old(w).(jobs := old(w).jobs - {j})
      ensures j !in w.jobs && (old(Inv(w)) ==> !Active(old(w).jobs[j].state) && !AtWork(w, j))
    {
      Kept(w, Step.PruneOne(j));
      assert Inv(w) ==> JobInv(w, j);
      w := w.(jobs := w.jobs - {j});
    }
  }

  lemma Kept(w: World, step: Step)
    requires Sound(w) && Enabled(w, step)
    ensures Sound(After(w, step)) && (Inv(w) ==> Inv(After(w, step)))
  {
    StepKeepsSound(w, step);
    if Inv(w) {
      StepKeepsInv(w, step);
    }
  }

  lemma MarksTheDead(w: World, q: nat, legible: bool)
    requires Sound(w) && Enabled(w, RefreshWrite(q, legible))
    ensures var j := w.refreshes[q].j; var job := w.jobs[j];
      (job.ident == Known && legible) || Inv(w) ==>
        (Active(job.state) && !IsJob(job.ident, legible && Alive(w, j)) <==> Active(job.state) && PhaseOf(w, j).Gone?)
  {
    assert JobSound(w, w.refreshes[q].j);
    if Inv(w) {
      assert JobInv(w, w.refreshes[q].j) && RefreshInv(w, w.refreshes[q]);
    }
  }
}
