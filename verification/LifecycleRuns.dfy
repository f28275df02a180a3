/**
 Runs of the job system: what can happen and what it does, the runs that show what does not hold,
 and the exact conditions under which it does.
 */
module LifecycleRuns {
  import opened Lifecycle

  // ---------------------------------------------------------------- what does not hold

  lemma Extend(states: seq<World>, steps: seq<Step>, step: Step) returns (states': seq<World>, steps': seq<Step>)
    requires Run(states, steps) && Enabled(states[|steps|], step)
    ensures Run(states', steps') && |steps'| == |steps| + 1 && states'[0] == states[0]
    ensures states'[|steps'|] == After(states[|steps|], step)
    ensures steps' == steps + [step] && states'[..|states|] == states
  {
    states' := states + [After(states[|steps|], step)];
    steps' := steps + [step];
  }

  /** Create job `j` under `key`, up to its worker's start, when every other record of that key is inactive. */
  lemma {:induction false} Admit(states: seq<World>, steps: seq<Step>, key: string, j: nat)
    returns (states': seq<World>, steps': seq<Step>)
    requires Run(states, steps) && states[|steps|].creator == Free
    requires j !in states[|steps|].jobs && j !in states[|steps|].workers
    requires forall k :: k in states[|steps|].jobs && states[|steps|].jobs[k].key == key ==>
      !Active(states[|steps|].jobs[k].state)
    ensures Run(states', steps') && states'[0] == states[0]
    ensures var w, w' := states[|steps|], states'[|steps'|];
      w' == Move(Put(w, j, Job(key, Queued, NoPid, w.now)), j, Starting).(creator := Spawned(j),
        keys := w.keys[j := key])
  {
    var w := states[|steps|];
    states', steps' := Extend(states, steps, BeginCreate(key));
    states', steps' := ListAll(states', steps', w);
    states', steps' := Extend(states', steps', Decide);
    states', steps' := Extend(states', steps', WriteRecord(j));
    states', steps' := Extend(states', steps', Spawn);
    assert w.workers[j := NotSpawned][j := Starting] == w.workers[j := Starting];
  }

  lemma {:induction false} ListAll(states: seq<World>, steps: seq<Step>, w: World)
    returns (states': seq<World>, steps': seq<Step>)
    requires Run(states, steps) && states[|steps|].creator.Listing? && !states[|steps|].creator.busy
    requires states[|steps|] == w.(creator := states[|steps|].creator)
    requires states[|steps|].creator.todo <= w.jobs.Keys
    requires forall k :: k in w.jobs && w.jobs[k].key == states[|steps|].creator.key ==> !Active(w.jobs[k].state)
    ensures Run(states', steps') && states'[0] == states[0]
    ensures states'[|steps'|].creator.Listing? && states'[|steps'|] == w.(creator := states'[|steps'|].creator)
    ensures states'[|steps'|].creator.todo == {} && !states'[|steps'|].creator.busy
    ensures states'[|steps'|].creator.key == states[|steps|].creator.key
    ensures forall k :: k in w.jobs && !Active(w.jobs[k].state) && k in states[|steps|].creator.todo ==>
      k in states'[|steps'|].creator.finished
    ensures states[|steps|].creator.finished <= states'[|steps'|].creator.finished
    decreases states[|steps|].creator.todo
  {
    states', steps' := states, steps;
    if states[|steps|].creator.todo != {} {
      var k :| k in states[|steps|].creator.todo;
      states', steps' := Extend(states, steps, ListOne(k));
      states', steps' := ListAll(states', steps', w);
    }
  }

  /** Admit a job and record its worker's pid. */
  lemma AdmitAndMerge(states: seq<World>, steps: seq<Step>, key: string, j: nat, ident: Ident)
    returns (states': seq<World>, steps': seq<Step>)
    requires Run(states, steps) && states[|steps|].creator == Free
    requires j !in states[|steps|].jobs && j !in states[|steps|].workers
    requires ident == Known || (ident == PidOnly && !states[|steps|].readable)
    requires forall k :: k in states[|steps|].jobs && states[|steps|].jobs[k].key == key ==>
      !Active(states[|steps|].jobs[k].state)
    ensures Run(states', steps') && states'[0] == states[0]
    ensures var w, w' := states[|steps|], states'[|steps'|];
      w' == Move(Put(w, j, Job(key, Queued, ident, w.now)), j, Starting).(keys := w.keys[j := key])
  {
    var w := states[|steps|];
    states', steps' := Admit(states, steps, key, j);
    states', steps' := Extend(states', steps', CheckState);
    states', steps' := Extend(states', steps', MergePid(ident));
    assert w.jobs[j := Job(key, Queued, NoPid, w.now)][j := Job(key, Queued, ident, w.now)]
        == w.jobs[j := Job(key, Queued, ident, w.now)];
  }

  /** A job whose worker has reported in. */
  lemma RunningJob(readable: bool) returns (states: seq<World>, steps: seq<Step>)
    ensures Run(states, steps) && states[0].prompt && states[0].readable == readable
    ensures states[|steps|] == World(true, readable, 0, map[0 := Job("p", Running, Known, 0)], map[0 := "p"],
                                     map[0 := Working], Free, map[], {}, {}, {})
  {
    states, steps := [Empty(true, readable)], [];
    states, steps := AdmitAndMerge(states, steps, "p", 0, Known);
    assert states[|steps|].jobs == map[0 := Job("p", Queued, Known, 0)];
    states, steps := Extend(states, steps, WorkerRuns(0, Known));
    assert states[|steps|].jobs == map[0 := Job("p", Running, Known, 0)];
    assert states[|steps|].workers == map[0 := Working];
  }

  /** A job that has ended while its worker is still in its tail. */
  lemma EndedInTail(state: State) returns (states: seq<World>, steps: seq<Step>)
    requires state.Succeeded? || state.NeedsChoice?
    ensures Run(states, steps) && states[0].prompt && states[0].readable
    ensures states[|steps|] == World(true, true, 0, map[0 := Job("p", state, Known, 0)], map[0 := "p"],
                                     map[0 := Tail], Free, map[], {}, {}, {})
  {
    states, steps := RunningJob(true);
    states, steps := Extend(states, steps, WorkerEnds(0, state));
    assert states[|steps|].jobs == map[0 := Job("p", state, Known, 0)];
    assert states[|steps|].workers == map[0 := Tail];
  }

  /** Two live worker processes of one key are possible: a finished job's worker outlives its terminal record. */
  lemma TwoLiveWorkersOfOneKey() returns (states: seq<World>, steps: seq<Step>)
    ensures Run(states, steps) && states[0].prompt && states[0].readable
    ensures var w := states[|steps|];
      0 in w.jobs && 1 in w.jobs && w.jobs[0].key == w.jobs[1].key && Alive(w, 0) && Alive(w, 1)
  {
    states, steps := EndedInTail(Succeeded);
    states, steps := AdmitAndMerge(states, steps, "p", 1, Known);
  }

  // ---------------------------------------------------------------- what can happen, and what it does

  /** The words used of states and workers. */
  lemma TermsMean(w: World, j: nat, s: State)
    ensures Active(s) <==> s in {Queued, Running, Interrupting}
    ensures Terminal(s) <==> s in {Succeeded, Failed, Interrupted, Unknown, NeedsChoice}
    ensures Ended(s) <==> s in {Succeeded, Failed, Interrupted, NeedsChoice, Answered}
    ensures Alive(w, j) <==> j in w.workers && w.workers[j] in {Starting, Working, Tail}
    ensures AtWork(w, j) <==> j in w.workers && w.workers[j] in {Starting, Working}
    ensures Reported(w, j) <==> j in w.workers && w.workers[j] in {Working, Tail, Gone}
  {
  }

  /**
   The worker's course, whatever the daemon has written meanwhile: its first record makes the job
   `running`, from `interrupting` too; it ends with one outcome; a signal in its tail makes that
   `interrupted`; and it may die at any moment, leaving the record as it is.
   */
  lemma WorkerMeans(w: World, j: nat, s: State)
    requires j in w.jobs
    ensures PhaseOf(w, j).Starting? ==>
      && Enabled(w, WorkerRuns(j, Known))
      && After(w, WorkerRuns(j, Known)) ==
           w.(jobs := w.jobs[j := w.jobs[j].(state := Running, ident := Known)], workers := w.workers[j := Working])
    ensures PhaseOf(w, j).Working? && s in {Succeeded, Failed, NeedsChoice, Interrupted} ==>
      && Enabled(w, WorkerEnds(j, s))
      && After(w, WorkerEnds(j, s)) ==
           w.(jobs := w.jobs[j := w.jobs[j].(state := s)], workers := w.workers[j := Tail])
    ensures PhaseOf(w, j).Tail? ==>
      && Enabled(w, WorkerTail(j))
      && After(w, WorkerTail(j)) == w.(jobs := w.jobs[j := w.jobs[j].(state := Interrupted)])
    ensures Alive(w, j) ==>
      && Enabled(w, WorkerDies(j))
      && After(w, WorkerDies(j)) == w.(workers := w.workers[j := Gone])
  {
  }

  /** A refresh that finds no pid yet within five seconds of the creation leaves the job alone. */
  lemma WindowHolds(w: World, q: nat, legible: bool)
    requires Enabled(w, RefreshCheck(q, legible)) && w.refreshes[q].ident == NoPid
    ensures w.now < w.jobs[w.refreshes[q].j].created + 5 ==>
      After(w, RefreshCheck(q, legible)) == w.(refreshes := w.refreshes - {q})
    ensures w.now >= w.jobs[w.refreshes[q].j].created + 5 ==>
      After(w, RefreshCheck(q, legible)) == w.(refreshes := w.refreshes[q := Doomed(w.refreshes[q].j)])
  {
  }

  /** A vanished worker's job is marked: in any reachable state, any refresh of it can run to its end and does. */
  lemma VanishedIsMarked(states: seq<World>, steps: seq<Step>, q: nat, j: nat)
    returns (states': seq<World>, steps': seq<Step>)
    requires Run(states, steps) && q !in states[|steps|].refreshes && j in states[|steps|].jobs
    requires Active(states[|steps|].jobs[j].state) && !Alive(states[|steps|], j)
    requires states[|steps|].jobs[j].ident != NoPid || states[|steps|].now >= states[|steps|].jobs[j].created + 5
    ensures Run(states', steps') && states <= states' && |states'| == |states| + 3
    ensures StateIs(states'[|steps'|], j, Unknown)
  {
    states', steps' := Extend(states, steps, RefreshLook(q, j));
    states', steps' := Extend(states', steps', RefreshCheck(q, true));
    states', steps' := Extend(states', steps', RefreshWrite(q, true));
  }

  /** An interrupted worker that does not stir is terminated and its job marked. */
  lemma InterruptIsEnforced(states: seq<World>, steps: seq<Step>, j: nat)
    returns (states': seq<World>, steps': seq<Step>)
    requires Run(states, steps) && j in states[|steps|].jobs && states[|steps|].jobs[j].ident == Known
    requires states[|steps|].jobs[j].state in {Queued, Running} && Alive(states[|steps|], j)
    ensures Run(states', steps') && |states'| == |states| + 3 && states <= states'
    ensures StateIs(states'[|states|], j, Interrupting)
    ensures StateIs(states'[|steps'|], j, Unknown) && PhaseOf(states'[|steps'|], j).Gone?
  {
    states', steps' := Extend(states, steps, Interrupt(j));
    states', steps' := Extend(states', steps', GraceKill(j));
    states', steps' := Extend(states', steps', GraceWrite(j));
  }

  /** A waiting job can be answered, and answered again. */
  lemma ContinueAnswers(states: seq<World>, steps: seq<Step>, j: nat)
    returns (states': seq<World>, steps': seq<Step>)
    requires Run(states, steps)
    requires StateIs(states[|steps|], j, NeedsChoice) || StateIs(states[|steps|], j, Answered)
    ensures Run(states', steps') && |states'| == |states| + 2 && states <= states'
    ensures StateIs(states'[|steps'|], j, Answered)
  {
    var gone := PhaseOf(states[|steps|], j).Gone?;
    states', steps' := Extend(states, steps, ContinueRead(j));
    states', steps' := Extend(states', steps', ContinueWrite(j, gone));
  }

  /** A spawn that fails leaves the queued record behind, with no worker, and lets the next creation in. */
  lemma SpawnFailsMeans(w: World)
    requires w.creator.Recorded?
    ensures Enabled(w, SpawnFails)
    ensures After(w, SpawnFails) == w.(workers := w.workers[w.creator.j := Gone], creator := Free)
  {
  }

  /** A creation that finds its job over by then merges no pid into it; any other goes on to the merge. */
  lemma CheckStateMeans(w: World)
    requires w.creator.Spawned? && w.creator.j in w.jobs
    ensures Enabled(w, CheckState)
    ensures After(w, CheckState) == w.(creator :=
      if w.jobs[w.creator.j].state in {Succeeded, Failed, Interrupted, Unknown, NeedsChoice} then Free
      else Merging(w.creator.j))
  {
  }

  /** A finished job can be deleted by the next creation whose key is free. */
  lemma DeletesFinished(states: seq<World>, steps: seq<Step>, key: string, j: nat)
    returns (states': seq<World>, steps': seq<Step>)
    requires Run(states, steps) && states[|steps|].creator == Free
    requires forall k :: k in states[|steps|].jobs && states[|steps|].jobs[k].key == key ==>
      !Active(states[|steps|].jobs[k].state)
    requires j in states[|steps|].jobs && !Active(states[|steps|].jobs[j].state)
    ensures Run(states', steps') && states'[0] == states[0]
    ensures states'[|steps'|].jobs == states[|steps|].jobs - {j}
  {
    var w := states[|steps|];
    states', steps' := Extend(states, steps, BeginCreate(key));
    states', steps' := ListAll(states', steps', w);
    states', steps' := Extend(states', steps', PruneOne(j));
  }

  // ---------------------------------------------------------------- two live workers, exactly

  /** Two live workers of one key, whether or not their records are still there. */
  predicate Twins(w: World, key: string, j: nat, k: nat) {
    && j != k && Alive(w, j) && Alive(w, k)
    && j in w.keys && k in w.keys && w.keys[j] == key && w.keys[k] == key
  }

  ghost predicate TwoLive(w: World, key: string) {
    exists j, k :: Twins(w, key, j, k)
  }

  /** A worker of `key` is spawned while another one lives. */
  ghost predicate SpawnMeets(w: World, step: Step, key: string) {
    && step.Spawn? && w.creator.Recorded?
    && w.creator.j in w.keys && w.keys[w.creator.j] == key
    && exists k :: LivesBeside(w, key, k)
  }

  predicate LivesBeside(w: World, key: string, k: nat)
    requires w.creator.Recorded?
  {
    k != w.creator.j && Alive(w, k) && k in w.keys && w.keys[k] == key
  }

  lemma TwinsBefore(w: World, step: Step, key: string, j: nat, k: nat)
    requires Enabled(w, step) && Twins(After(w, step), key, j, k)
    ensures Twins(w, key, j, k) || SpawnMeets(w, step, key)
  {
    if step.Spawn? {
      if j == w.creator.j {
        assert LivesBeside(w, key, k);
      } else if k == w.creator.j {
        assert LivesBeside(w, key, j);
      }
    }
  }

  lemma {:induction false} TwoLiveFromSpawn(states: seq<World>, steps: seq<Step>, n: nat, key: string)
    requires Run(states, steps) && n < |states| && TwoLive(states[n], key)
    ensures exists m :: 0 <= m < n && SpawnMeets(states[m], steps[m], key)
  {
    if n > 0 {
      var j, k :| Twins(states[n], key, j, k);
      TwinsBefore(states[n - 1], steps[n - 1], key, j, k);
      if !SpawnMeets(states[n - 1], steps[n - 1], key) {
        TwoLiveFromSpawn(states, steps, n - 1, key);
      }
    }
  }

  /** A run has two live workers of a key at some moment exactly when it spawns one while another lives. */
  lemma TwoLiveExactly(states: seq<World>, steps: seq<Step>, key: string)
    requires Run(states, steps)
    ensures (exists n :: 0 <= n < |states| && TwoLive(states[n], key)) <==>
      (exists m :: 0 <= m < |steps| && SpawnMeets(states[m], steps[m], key))
  {
    if n :| 0 <= n < |states| && TwoLive(states[n], key) {
      TwoLiveFromSpawn(states, steps, n, key);
    }
    if m :| 0 <= m < |steps| && SpawnMeets(states[m], steps[m], key) {
      var k :| LivesBeside(states[m], key, k);
      assert Twins(states[m + 1], key, states[m].creator.j, k);
    }
  }

  ghost predicate KeysAgree(w: World) {
    forall j :: j in w.jobs ==> j in w.keys && w.keys[j] == w.jobs[j].key
  }

  lemma StepKeepsKeysAgree(w: World, step: Step)
    requires KeysAgree(w) && Enabled(w, step)
    ensures KeysAgree(After(w, step))
  {
    if !IsCreateStep(step) {
      StepKeepsKeys(w, step);
    }
  }

  lemma {:induction false} KeysStay(states: seq<World>, steps: seq<Step>, n: nat)
    requires Run(states, steps) && n < |states|
    ensures KeysAgree(states[n])
  {
    if n > 0 {
      KeysStay(states, steps, n - 1);
      StepKeepsKeysAgree(states[n - 1], steps[n - 1]);
    }
  }

  /** Under the two assumptions, whoever is met has written its terminal record: it is in its tail. */
  lemma SpawnMeetsTails(states: seq<World>, steps: seq<Step>, m: nat, key: string, k: nat)
    requires Run(states, steps) && m < |steps| && states[0].prompt && states[0].readable
    requires SpawnMeets(states[m], steps[m], key) && LivesBeside(states[m], key, k)
    ensures PhaseOf(states[m], k).Tail?
  {
    RunInv(states, steps, m);
    KeysStay(states, steps, m);
    var w := states[m];
    assert JobInv(w, w.creator.j);
    if k in w.jobs {
      assert JobInv(w, k);
    }
  }

  predicate StateIs(w: World, j: nat, state: State) {
    j in w.jobs && w.jobs[j].state == state
  }

  /** Continue has read the waiting job; the worker's tail then made it `interrupted`. */
  lemma InterruptedUnderContinue() returns (states: seq<World>, steps: seq<Step>)
    ensures Run(states, steps) && states[0].prompt && states[0].readable
    ensures StateIs(states[|steps|], 0, Interrupted) && (0, false) in states[|steps|].continuing
  {
    states, steps := EndedInTail(NeedsChoice);
    states, steps := Extend(states, steps, ContinueRead(0));
    states, steps := Extend(states, steps, WorkerTail(0));
  }

  /**
   The daemon can answer a record that is already `interrupted`: the signal landed in the worker's
   tail after continue read it.
   */
  lemma AnsweredOverInterrupted() returns (states: seq<World>, steps: seq<Step>, n: nat)
    ensures Run(states, steps) && states[0].prompt && states[0].readable
    ensures n < |steps| && steps[n] == ContinueWrite(0, false)
    ensures StateIs(states[n], 0, Interrupted) && StateIs(states[n + 1], 0, Answered)
  {
    states, steps := InterruptedUnderContinue();
    n := |steps|;
    states, steps := Extend(states, steps, ContinueWrite(0, false));
  }

  /** A run that goes on from another. */
  ghost predicate GoesOn(states: seq<World>, steps: seq<Step>, states': seq<World>, steps': seq<Step>) {
    Run(states', steps') && states <= states' && steps <= steps'
  }

  /** The continue that reads at step `n` finds `interrupted` where it writes its answer. */
  ghost predicate AnswersOver(states: seq<World>, steps: seq<Step>, n: nat, j: nat)
    requires |states| == |steps| + 1
  {
    && n < |steps| && steps[n] == ContinueRead(j)
    && exists m :: n < m < |steps| && FindsInterrupted(states, steps, m, j, PhaseOf(states[n], j).Gone?)
  }

  /** At step `m` such a continue's write meets `interrupted`. */
  predicate FindsInterrupted(states: seq<World>, steps: seq<Step>, m: nat, j: nat, gone: bool)
    requires |states| == |steps| + 1 && m < |steps|
  {
    steps[m] == ContinueWrite(j, gone) && StateIs(states[m], j, Interrupted)
  }

  /**
   When continue can answer a record that has become `interrupted`: from a waiting record, in any
   reachable state, some run goes on to it exactly when the worker is not gone at continue's read.
   */
  lemma AnswersOverExactly(states: seq<World>, steps: seq<Step>, j: nat)
    requires Run(states, steps)
    requires StateIs(states[|steps|], j, NeedsChoice) || StateIs(states[|steps|], j, Answered)
    ensures
      (exists states', steps' ::
        GoesOn(states, steps, states', steps') && AnswersOver(states', steps', |steps|, j)) <==>
      !PhaseOf(states[|steps|], j).Gone?
  {
    if !PhaseOf(states[|steps|], j).Gone? {
      var states', steps' := AnswerOver(states, steps, j);
    }
    forall states', steps' | GoesOn(states, steps, states', steps') && AnswersOver(states', steps', |steps|, j)
      ensures !PhaseOf(states[|steps|], j).Gone?
    {
      assert states'[|steps|] == states[|steps|];
      NotOverWhenGone(states', steps', |steps|, j);
    }
  }

  lemma NotOverWhenGone(states: seq<World>, steps: seq<Step>, n: nat, j: nat)
    requires Run(states, steps) && AnswersOver(states, steps, n, j)
    ensures !PhaseOf(states[n], j).Gone?
  {
    var m :| n < m < |steps| && FindsInterrupted(states, steps, m, j, PhaseOf(states[n], j).Gone?);
    RunSound(states, steps, m);
    assert ContinueInv(states[m], (j, steps[m].gone).0, (j, steps[m].gone).1);
  }

  lemma AnswerOver(states: seq<World>, steps: seq<Step>, j: nat) returns (states': seq<World>, steps': seq<Step>)
    requires Run(states, steps)
    requires StateIs(states[|steps|], j, NeedsChoice) || StateIs(states[|steps|], j, Answered)
    requires !PhaseOf(states[|steps|], j).Gone?
    ensures GoesOn(states, steps, states', steps') && AnswersOver(states', steps', |steps|, j)
  {
    var n := |steps|;
    RunSound(states, steps, n);
    assert JobSound(states[n], j);
    states', steps' := Extend(states, steps, ContinueRead(j));
    states', steps' := TailUnderContinue(states', steps', j);
    states', steps' := Extend(states', steps', ContinueWrite(j, false));
    assert FindsInterrupted(states', steps', n + 2, j, false);
  }

  lemma TailUnderContinue(states: seq<World>, steps: seq<Step>, j: nat) returns (states': seq<World>, steps': seq<Step>)
    requires Run(states, steps) && j in states[|steps|].jobs && PhaseOf(states[|steps|], j).Tail?
    requires (j, false) in states[|steps|].continuing
    ensures Run(states', steps') && states <= states' && steps <= steps' && |steps'| == |steps| + 1
    ensures StateIs(states'[|steps'|], j, Interrupted) && (j, false) in states'[|steps'|].continuing
  {
    states', steps' := Extend(states, steps, WorkerTail(j));
  }

  /** A creation whose worker has started and whose pid is not recorded five seconds later. */
  lemma SlowSpawn() returns (states: seq<World>, steps: seq<Step>)
    ensures Run(states, steps) && !states[0].prompt && states[0].readable
    ensures states[|steps|] == World(false, true, PID_WINDOW, map[0 := Job("p", Queued, NoPid, 0)], map[0 := "p"],
                                     map[0 := Starting], Spawned(0), map[], {}, {}, {})
  {
    states, steps := [Empty(false, true)], [];
    states, steps := Admit(states, steps, "p", 0);
    states, steps := Extend(states, steps, Tick(PID_WINDOW));
  }

  /** A creation so slow that a refresh has given its job up. */
  lemma GivenUpWhileStarting() returns (states: seq<World>, steps: seq<Step>)
    ensures Run(states, steps) && !states[0].prompt && states[0].readable
    ensures states[|steps|] == World(false, true, PID_WINDOW, map[0 := Job("p", Unknown, NoPid, 0)], map[0 := "p"],
                                     map[0 := Starting], Free, map[], {}, {}, {})
  {
    states, steps := SlowSpawn();
    states, steps := Extend(states, steps, RefreshLook(0, 0));
    states, steps := Extend(states, steps, RefreshCheck(0, true));
    states, steps := Extend(states, steps, RefreshWrite(0, true));
    states, steps := Extend(states, steps, CheckState);
    assert states[|steps|].jobs == map[0 := Job("p", Unknown, NoPid, 0)];
    assert states[|steps|].refreshes == map[];
  }

  /**
   Without `prompt`: a refresh gives up on a creation in progress, a second job is admitted, and
   the first worker then runs.
   */
  lemma SlowCreationAdmitsTwo() returns (states: seq<World>, steps: seq<Step>)
    ensures Run(states, steps) && !states[0].prompt && states[0].readable
    ensures !OneActive(states[|steps|])
  {
    states, steps := GivenUpWhileStarting();
    states, steps := AdmitAndMerge(states, steps, "p", 1, Known);
    states, steps := Extend(states, steps, WorkerRuns(0, Known));
    var w := states[|steps|];
    assert 0 in w.jobs && 1 in w.jobs && w.jobs[0].key == w.jobs[1].key;
  }

  /** Without `prompt`, `unknown` is not final: the worker of a creation given up starts to run. */
  lemma UnknownComesBack() returns (states: seq<World>, steps: seq<Step>, n: nat)
    ensures Run(states, steps) && !states[0].prompt && states[0].readable
    ensures n < |steps| && StateIs(states[n], 0, Unknown) && StateIs(states[n + 1], 0, Running)
  {
    states, steps := GivenUpWhileStarting();
    n := |steps|;
    states, steps := Extend(states, steps, WorkerRuns(0, Known));
  }

  /**
   Without `readable`, not even a full identity is: a refresh that cannot read the start time
   marks a worker that then succeeds.
   */
  lemma BlindMarkComesBack() returns (states: seq<World>, steps: seq<Step>, n: nat)
    ensures Run(states, steps) && states[0].prompt && !states[0].readable
    ensures n < |steps| && StateIs(states[n], 0, Unknown) && states[n].jobs[0].ident == Known
    ensures StateIs(states[n + 1], 0, Succeeded)
  {
    states, steps := MarkedWhileWorking();
    n := |steps|;
    states, steps := Extend(states, steps, WorkerEnds(0, Succeeded));
  }

  lemma MarkedWhileWorking() returns (states: seq<World>, steps: seq<Step>)
    ensures Run(states, steps) && states[0].prompt && !states[0].readable
    ensures states[|steps|] == World(true, false, 0, map[0 := Job("p", Unknown, Known, 0)], map[0 := "p"],
                                     map[0 := Working], Free, map[], {}, {}, {})
  {
    states, steps := RunningJob(false);
    states, steps := Extend(states, steps, RefreshLook(0, 0));
    states, steps := Extend(states, steps, RefreshCheck(0, false));
    states, steps := Extend(states, steps, RefreshWrite(0, false));
    assert states[|steps|].jobs == map[0 := Job("p", Unknown, Known, 0)];
    assert states[|steps|].refreshes == map[];
  }

  // ---------------------------------------------------------------- when `unknown` is left, exactly

  /** Later in a run, the record of `j` is there and is no longer `unknown`. */
  ghost predicate LeavesUnknown(states: seq<World>, n: nat, j: nat) {
    exists m :: n <= m < |states| && j in states[m].jobs && !states[m].jobs[j].state.Unknown?
  }

  /** Later in a run, the record of `j` is there and active. */
  ghost predicate BecomesActive(states: seq<World>, n: nat, j: nat) {
    exists m :: n <= m < |states| && j in states[m].jobs && Active(states[m].jobs[j].state)
  }

  /**
   From every reachable state, on any machine: some run takes an `unknown` record out of `unknown`
   exactly when its worker is not dead, and back to an active state exactly when its worker has not
   written its first record.
   */
  lemma UnknownLeftExactly(states: seq<World>, steps: seq<Step>, j: nat)
    requires Run(states, steps) && StateIs(states[|steps|], j, Unknown)
    ensures
      (exists states', steps' ::
        GoesOn(states, steps, states', steps') && LeavesUnknown(states', |steps|, j)) <==>
      !PhaseOf(states[|steps|], j).Gone?
    ensures
      (exists states', steps' ::
        GoesOn(states, steps, states', steps') && BecomesActive(states', |steps|, j)) <==>
      !Reported(states[|steps|], j)
  {
    RunSound(states, steps, |steps|);
    assert JobSound(states[|steps|], j);
    if !Reported(states[|steps|], j) {
      var states', steps' := ComesBack(states, steps, j);
    } else if !PhaseOf(states[|steps|], j).Gone? {
      var states', steps' := Extend(states, steps, WorkerEnds(j, Succeeded));
      assert GoesOn(states, steps, states', steps') && LeavesUnknown(states', |steps|, j);
    }
    forall states', steps' | GoesOn(states, steps, states', steps')
      ensures LeavesUnknown(states', |steps|, j) ==> !PhaseOf(states[|steps|], j).Gone?
      ensures BecomesActive(states', |steps|, j) ==> !Reported(states[|steps|], j)
    {
      StaysUnknown(states', steps', |steps|, j);
    }
  }

  lemma StaysUnknown(states: seq<World>, steps: seq<Step>, n: nat, j: nat)
    requires Run(states, steps) && n < |states| && StateIs(states[n], j, Unknown)
    ensures LeavesUnknown(states, n, j) ==> !PhaseOf(states[n], j).Gone?
    ensures BecomesActive(states, n, j) ==> !Reported(states[n], j)
  {
    forall m | n <= m < |states| && j in states[m].jobs
      ensures PhaseOf(states[n], j).Gone? ==> states[m].jobs[j].state.Unknown?
      ensures Reported(states[n], j) ==> !Active(states[m].jobs[j].state)
    {
      if PhaseOf(states[n], j).Gone? {
        DeadForGood(states, steps, n, m, j);
      }
      if Reported(states[n], j) {
        ReportedForGood(states, steps, n, m, j);
      }
    }
  }

  lemma ComesBack(states: seq<World>, steps: seq<Step>, j: nat) returns (states': seq<World>, steps': seq<Step>)
    requires Run(states, steps) && StateIs(states[|steps|], j, Unknown) && !Reported(states[|steps|], j)
    ensures GoesOn(states, steps, states', steps')
    ensures LeavesUnknown(states', |steps|, j) && BecomesActive(states', |steps|, j)
  {
    RunSound(states, steps, |steps|);
    assert JobSound(states[|steps|], j);
    states', steps' := states, steps;
    if PhaseOf(states[|steps|], j).NotSpawned? {
      states', steps' := Extend(states, steps, Spawn);
    }
    states', steps' := Extend(states', steps', WorkerRuns(j, Known));
    assert StateIs(states'[|steps'|], j, Running);
  }

  /** A worker whose start time could not be read, given up by a refresh. */
  lemma VanishedWhileStarting() returns (states: seq<World>, steps: seq<Step>)
    ensures Run(states, steps) && states[0].prompt && !states[0].readable
    ensures states[|steps|] == World(true, false, 0, map[0 := Job("p", Unknown, PidOnly, 0)], map[0 := "p"],
                                     map[0 := Starting], Free, map[], {}, {}, {})
  {
    states, steps := [Empty(true, false)], [];
    states, steps := AdmitAndMerge(states, steps, "p", 0, PidOnly);
    assert states[|steps|].jobs == map[0 := Job("p", Queued, PidOnly, 0)];
    states, steps := Extend(states, steps, RefreshLook(0, 0));
    states, steps := Extend(states, steps, RefreshCheck(0, true));
    states, steps := Extend(states, steps, RefreshWrite(0, true));
    assert states[|steps|].jobs == map[0 := Job("p", Unknown, PidOnly, 0)];
    assert states[|steps|].refreshes == map[];
  }

  /**
   Without `readable`: a live worker whose start time could not be read counts as vanished, and a
   second one is admitted beside it.
   */
  lemma UnreadableStartAdmitsTwo() returns (states: seq<World>, steps: seq<Step>)
    ensures Run(states, steps) && states[0].prompt && !states[0].readable
    ensures var w := states[|steps|];
      0 in w.jobs && 1 in w.jobs && w.jobs[0].key == w.jobs[1].key && AtWork(w, 0) && AtWork(w, 1)
  {
    states, steps := VanishedWhileStarting();
    states, steps := AdmitAndMerge(states, steps, "p", 1, Known);
  }
}
