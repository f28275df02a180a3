/**
 The life of job records under one daemon: admission, the refresh to `unknown`, interrupt, the
 grace terminator, continue, and the workers themselves, in every interleaving.

 A job's worker is the one process that carries the job's (pid, start time); the pair is never
 reused, so a recorded identity either is that worker, alive, or is dead for good. Two facts about
 the machine are switches of the model: `prompt`, a creation records its worker within five seconds,
 and `readable`, the start time of a live process can be read whenever it is asked for. What the
 daemon may do to a record holds with either switch off; that no two jobs of one key run at once
 needs both on, and the runs that show it are given.
 */
module Lifecycle {
  const PID_WINDOW: nat := 5

  // ---------------------------------------------------------------- one record

  datatype State = Queued | Running | Interrupting | Succeeded | Failed | Interrupted | Unknown | NeedsChoice | Answered

  predicate Active(s: State) {
    s.Queued? || s.Running? || s.Interrupting?
  }

  predicate Terminal(s: State) {
    s.Succeeded? || s.Failed? || s.Interrupted? || s.Unknown? || s.NeedsChoice?
  }

  /** What the record says of its worker: nothing, a pid whose start time was unreadable, or the full identity. */
  datatype Ident = NoPid | PidOnly | Known

  datatype Job = Job(key: string, state: State, ident: Ident, created: nat)

  /** The recorded identity is the worker's, and the worker lives. */
  predicate IsJob(ident: Ident, alive: bool) {
    ident == Known && alive
  }

  /** The locked half of `_refresh_unknown`. */
  function Refreshed(job: Job, alive: bool): Job {
    if !Active(job.state) || IsJob(job.ident, alive) then job else job.(state := Unknown)
  }

  /** The locked half of `interrupt_job`. */
  function Armed(job: Job, alive: bool): bool {
    (job.state.Queued? || job.state.Running?) && IsJob(job.ident, alive)
  }

  function AskedToStop(job: Job, alive: bool): Job {
    if Armed(job, alive) then job.(state := Interrupting) else job
  }

  /** The locked half of `_terminate_after_grace`. */
  function GivenUp(job: Job): Job {
    if Active(job.state) then job.(state := Unknown) else job
  }

  // ---------------------------------------------------------------- the whole system

  /** Where a job's worker is: its run ends with one terminal write, then a tail, then death. */
  datatype Phase = NotSpawned | Starting | Working | Tail | Gone

  /** The holder of the create lock. */
  datatype Creator =
    | Free
    | Listing(key: string, todo: set<nat>, finished: set<nat>, busy: bool)
    | Admitted(key: string)
    | Recorded(j: nat)
    | Spawned(j: nat)
    | Merging(j: nat)

  /** A refresh between its lock-free look and its locked write. */
  datatype Refresh = Saw(j: nat, ident: Ident) | Doomed(j: nat)

  datatype World = World(
    prompt: bool,
    readable: bool,
    now: nat,
    jobs: map<nat, Job>,
    keys: map<nat, string>,           // the key each job was created under, kept when its record is deleted
    workers: map<nat, Phase>,
    creator: Creator,
    refreshes: map<nat, Refresh>,
    armed: set<nat>,                  // jobs with a grace terminator waiting
    killed: set<nat>,                 // jobs whose grace terminator has terminated the worker
    continuing: set<(nat, bool)>)     // continues past their read; whether the worker was gone by then

  function PhaseOf(w: World, j: nat): Phase {
    if j in w.workers then w.workers[j] else NotSpawned
  }

  predicate Alive(w: World, j: nat) {
    PhaseOf(w, j).Starting? || PhaseOf(w, j).Working? || PhaseOf(w, j).Tail?
  }

  /** The worker has yet to write its terminal record. */
  predicate AtWork(w: World, j: nat) {
    PhaseOf(w, j).Starting? || PhaseOf(w, j).Working?
  }

  predicate Creates(c: Creator, j: nat) {
    (c.Recorded? || c.Spawned? || c.Merging?) && c.j == j
  }

  datatype Step =
    | BeginCreate(key: string)
    | ListOne(j: nat)
    | PruneOne(j: nat)
    | Decide
    | WriteRecord(j: nat)
    | Spawn
    | SpawnFails
    | CheckState
    | MergePid(ident: Ident)
    | Tick(d: nat)
    | RefreshLook(q: nat, j: nat)
    | RefreshCheck(q: nat, legible: bool)
    | RefreshWrite(q: nat, legible: bool)
    | Interrupt(j: nat)
    | GraceKill(j: nat)
    | GraceWrite(j: nat)
    | ContinueRead(j: nat)
    | ContinueWrite(j: nat, gone: bool)
    | WorkerRuns(j: nat, ident: Ident)
    | WorkerEnds(j: nat, state: State)
    | WorkerTail(j: nat)
    | WorkerDies(j: nat)

  /** The identity a reader of the worker's start time can come away with. */
  predicate CanRead(w: World, j: nat, ident: Ident) {
    ident == Known || (ident == PidOnly && (w.readable ==> PhaseOf(w, j).Gone?))
  }

  /** Under `prompt`, time does not pass a creation by: its record gets a pid inside the window. */
  predicate InTime(w: World, now: nat) {
    (w.prompt && (w.creator.Recorded? || w.creator.Spawned? || w.creator.Merging?)
       && w.creator.j in w.jobs && w.jobs[w.creator.j].ident == NoPid) ==>
      now < w.jobs[w.creator.j].created + PID_WINDOW
  }

  predicate Enabled(w: World, step: Step) {
    match step
    case BeginCreate(_) => w.creator.Free?
    case ListOne(j) => w.creator.Listing? && j in w.creator.todo && j in w.jobs
    case PruneOne(j) => w.creator.Listing? && w.creator.todo == {} && j in w.creator.finished && j in w.jobs
    case Decide => w.creator.Listing? && w.creator.todo == {}
    case WriteRecord(j) => w.creator.Admitted? && j !in w.jobs && j !in w.workers
    case Spawn => w.creator.Recorded?
    case SpawnFails => w.creator.Recorded?
    case CheckState => w.creator.Spawned? && w.creator.j in w.jobs
    case MergePid(ident) => w.creator.Merging? && w.creator.j in w.jobs && CanRead(w, w.creator.j, ident)
    case Tick(d) => InTime(w, w.now + d)
    case RefreshLook(q, j) => q !in w.refreshes && j in w.jobs && Active(w.jobs[j].state)
    case RefreshCheck(q, legible) =>
      q in w.refreshes && w.refreshes[q].Saw? && w.refreshes[q].j in w.jobs && (legible || !w.readable)
    case RefreshWrite(q, legible) =>
      q in w.refreshes && w.refreshes[q].Doomed? && w.refreshes[q].j in w.jobs && (legible || !w.readable)
    case Interrupt(j) => j in w.jobs && Armed(w.jobs[j], Alive(w, j))
    case GraceKill(j) => j in w.armed
    case GraceWrite(j) => j in w.killed && j in w.jobs
    case ContinueRead(j) => j in w.jobs && (w.jobs[j].state.NeedsChoice? || w.jobs[j].state.Answered?)
    case ContinueWrite(j, gone) => (j, gone) in w.continuing && j in w.jobs
    case WorkerRuns(j, ident) => PhaseOf(w, j).Starting? && j in w.jobs && ident != NoPid && CanRead(w, j, ident)
    case WorkerEnds(j, s) =>
      PhaseOf(w, j).Working? && j in w.jobs && (s.Succeeded? || s.Failed? || s.NeedsChoice? || s.Interrupted?)
    case WorkerTail(j) => PhaseOf(w, j).Tail? && j in w.jobs
    case WorkerDies(j) => Alive(w, j)
  }

  function Put(w: World, j: nat, job: Job): World {
    w.(jobs := w.jobs[j := job])
  }

  function Move(w: World, j: nat, phase: Phase): World {
    w.(workers := w.workers[j := phase])
  }

  function Drop(w: World, q: nat): World {
    w.(refreshes := w.refreshes - {q})
  }

  function After(w: World, step: Step): World
    requires Enabled(w, step)
  {
    match step
    case BeginCreate(key) => w.(creator := Listing(key, w.jobs.Keys, {}, false))
    case ListOne(j) =>
      var c := w.creator;
      var active := Active(w.jobs[j].state);
      w.(creator := Listing(c.key, c.todo - {j}, if active then c.finished else c.finished + {j},
                            c.busy || (active && w.jobs[j].key == c.key)))
    case PruneOne(j) => w.(jobs := w.jobs - {j})
    case Decide => w.(creator := if w.creator.busy then Free else Admitted(w.creator.key))
    case WriteRecord(j) =>
      Move(Put(w, j, Job(w.creator.key, Queued, NoPid, w.now)), j, NotSpawned)
        .(creator := Recorded(j), keys := w.keys[j := w.creator.key])
    case Spawn => Move(w, w.creator.j, Starting).(creator := Spawned(w.creator.j))
    case SpawnFails => Move(w, w.creator.j, Gone).(creator := Free)
    case CheckState => w.(creator := if Terminal(w.jobs[w.creator.j].state) then Free else Merging(w.creator.j))
    case MergePid(ident) => Put(w, w.creator.j, w.jobs[w.creator.j].(ident := ident)).(creator := Free)
    case Tick(d) => w.(now := w.now + d)
    case RefreshLook(q, j) => w.(refreshes := w.refreshes[q := Saw(j, w.jobs[j].ident)])
    case RefreshCheck(q, legible) =>
      var saw := w.refreshes[q];
      if IsJob(saw.ident, legible && Alive(w, saw.j))
        || (saw.ident == NoPid && w.now < w.jobs[saw.j].created + PID_WINDOW)
      then Drop(w, q)
      else w.(refreshes := w.refreshes[q := Doomed(saw.j)])
    case RefreshWrite(q, legible) =>
      var j := w.refreshes[q].j;
      Drop(Put(w, j, Refreshed(w.jobs[j], legible && Alive(w, j))), q)
    case Interrupt(j) => Put(w, j, AskedToStop(w.jobs[j], Alive(w, j))).(armed := w.armed + {j})
    case GraceKill(j) =>
      Move(w, j, if Alive(w, j) then Gone else PhaseOf(w, j)).(armed := w.armed - {j}, killed := w.killed + {j})
    case GraceWrite(j) => Put(w, j, GivenUp(w.jobs[j])).(killed := w.killed - {j})
    case ContinueRead(j) => w.(continuing := w.continuing + {(j, PhaseOf(w, j).Gone?)})
    case ContinueWrite(j, gone) => Put(w, j, w.jobs[j].(state := Answered)).(continuing := w.continuing - {(j, gone)})
    case WorkerRuns(j, ident) => Move(Put(w, j, w.jobs[j].(state := Running, ident := ident)), j, Working)
    case WorkerEnds(j, s) => Move(Put(w, j, w.jobs[j].(state := s)), j, Tail)
    case WorkerTail(j) => Put(w, j, w.jobs[j].(state := Interrupted))
    case WorkerDies(j) => Move(w, j, Gone)
  }

  ghost predicate Initial(w: World) {
    && w.jobs == map[] && w.keys == map[] && w.workers == map[] && w.creator == Free && w.refreshes == map[]
    && w.armed == {} && w.killed == {} && w.continuing == {}
  }

  function Empty(prompt: bool, readable: bool): World {
    World(prompt, readable, 0, map[], map[], map[], Free, map[], {}, {}, {})
  }

  /** A run: any interleaving of enabled steps from a machine without jobs. */
  ghost predicate Run(states: seq<World>, steps: seq<Step>) {
    && |states| == |steps| + 1
    && Initial(states[0])
    && forall i :: 0 <= i < |steps| ==> Enabled(states[i], steps[i]) && states[i + 1] == After(states[i], steps[i])
  }

  // ---------------------------------------------------------------- what holds in every run

  /** The worker's own outcomes, and the answer to one of them. */
  predicate Ended(s: State) {
    !Active(s) && !s.Unknown?
  }

  /** The worker has written its first record. */
  predicate Reported(w: World, j: nat) {
    PhaseOf(w, j).Working? || PhaseOf(w, j).Tail? || PhaseOf(w, j).Gone?
  }

  /** A record and its worker agree, whatever the machine. */
  ghost predicate JobSound(w: World, j: nat)
    requires j in w.jobs
  {
    var job, phase := w.jobs[j], PhaseOf(w, j);
    && j in w.workers
    && (phase.NotSpawned? ==> w.creator == Recorded(j) && job.ident == NoPid)
    && (phase.Tail? ==> Ended(job.state))
    && (Ended(job.state) ==> phase.Tail? || phase.Gone?)
  }

  ghost predicate ContinueInv(w: World, j: nat, gone: bool) {
    && j in w.workers
    && (j in w.jobs ==>
          w.jobs[j].state.NeedsChoice? || w.jobs[j].state.Answered? || (!gone && w.jobs[j].state.Interrupted?))
    && (gone ==> PhaseOf(w, j).Gone?)
  }

  /** The invariant of every run: no assumption about the machine is in it. */
  ghost predicate Sound(w: World) {
    && (forall j :: j in w.jobs ==> JobSound(w, j))
    && (w.creator.Recorded? ==> w.creator.j in w.workers && PhaseOf(w, w.creator.j).NotSpawned?)
    && (forall j :: j in w.killed ==> PhaseOf(w, j).Gone?)
    && (forall j :: j in w.armed ==> j in w.workers && !PhaseOf(w, j).NotSpawned?)
    && (forall c :: c in w.continuing ==> ContinueInv(w, c.0, c.1))
  }

  predicate IsCreateStep(step: Step) {
    step.BeginCreate? || step.ListOne? || step.PruneOne? || step.Decide? || step.WriteRecord? || step.Spawn?
    || step.SpawnFails? || step.CheckState? || step.MergePid?
  }

  predicate IsWorkerStep(step: Step) {
    step.WorkerRuns? || step.WorkerEnds? || step.WorkerTail? || step.WorkerDies?
  }

  predicate IsRefreshStep(step: Step) {
    step.RefreshLook? || step.RefreshCheck? || step.RefreshWrite? || step.Tick?
  }

  lemma SoundKeptCreate(w: World, step: Step, j: nat)
    requires Sound(w) && Enabled(w, step) && j in After(w, step).jobs && IsCreateStep(step)
    ensures JobSound(After(w, step), j)
  {
    if j in w.jobs {
      assert JobSound(w, j);
    }
    if step.WriteRecord? || step.Spawn? || step.SpawnFails? || step.MergePid? {
      SoundKeptSpawning(w, step, j);
    }
  }

  lemma SoundKeptSpawning(w: World, step: Step, j: nat)
    requires Sound(w) && Enabled(w, step) && j in After(w, step).jobs
    requires step.WriteRecord? || step.Spawn? || step.SpawnFails? || step.MergePid?
    ensures JobSound(After(w, step), j)
  {
    if j in w.jobs {
      assert JobSound(w, j);
    }
  }

  lemma SoundKeptWorker(w: World, step: Step, j: nat)
    requires Sound(w) && Enabled(w, step) && j in After(w, step).jobs && IsWorkerStep(step)
    ensures JobSound(After(w, step), j)
  {
    assert JobSound(w, j);
  }

  lemma SoundKeptRefresh(w: World, step: Step, j: nat)
    requires Sound(w) && Enabled(w, step) && j in After(w, step).jobs && IsRefreshStep(step)
    ensures JobSound(After(w, step), j)
  {
    assert JobSound(w, j);
  }

  predicate IsOtherStep(step: Step) {
    !IsCreateStep(step) && !IsWorkerStep(step) && !IsRefreshStep(step)
  }

  lemma SoundKeptOther(w: World, step: Step, j: nat)
    requires Sound(w) && Enabled(w, step) && j in After(w, step).jobs && IsOtherStep(step)
    ensures JobSound(After(w, step), j)
  {
    assert JobSound(w, j);
    if step.ContinueWrite? {
      assert ContinueInv(w, step.j, step.gone);
    }
  }

  lemma RecordedKept(w: World, step: Step)
    requires Sound(w) && Enabled(w, step) && After(w, step).creator.Recorded?
    ensures var w' := After(w, step); w'.creator.j in w'.workers && PhaseOf(w', w'.creator.j).NotSpawned?
  {
    if !IsCreateStep(step) {
      StepKeepsSpawned(w, step);
    }
  }

  lemma GraceKept(w: World, step: Step, j: nat)
    requires Sound(w) && Enabled(w, step)
    ensures j in After(w, step).killed ==> PhaseOf(After(w, step), j).Gone?
    ensures j in After(w, step).armed ==> j in After(w, step).workers && !PhaseOf(After(w, step), j).NotSpawned?
  {
    if step.Interrupt? {
      assert JobSound(w, step.j);
    } else if !step.GraceKill? {
      assert After(w, step).killed <= w.killed && After(w, step).armed == w.armed;
    }
  }

  lemma ContinueKept(w: World, step: Step, j: nat, gone: bool)
    requires Sound(w) && Enabled(w, step) && (j, gone) in After(w, step).continuing
    ensures ContinueInv(After(w, step), j, gone)
  {
    if step.ContinueRead? || step.ContinueWrite? {
      ContinueKeptOwn(w, step, j, gone);
    } else if IsWorkerStep(step) {
      ContinueKeptWorker(w, step, j, gone);
    } else {
      ContinueKeptDaemon(w, step, j, gone);
    }
  }

  lemma ContinueKeptDaemon(w: World, step: Step, j: nat, gone: bool)
    requires Sound(w) && Enabled(w, step) && (j, gone) in After(w, step).continuing
    requires !IsWorkerStep(step) && !step.ContinueRead? && !step.ContinueWrite?
    ensures ContinueInv(After(w, step), j, gone)
  {
    assert After(w, step).continuing == w.continuing;
    assert ContinueInv(w, j, gone);
    PhaseStays(w, step, j);
    StepKeepsWorkers(w, step);
    if j !in w.jobs {
      StepKeepsRemoved(w, step, j);
    } else if j in After(w, step).jobs {
      EdgeTaken(w, step, j);
    }
  }

  lemma ContinueKeptWorker(w: World, step: Step, j: nat, gone: bool)
    requires Sound(w) && Enabled(w, step) && (j, gone) in After(w, step).continuing && IsWorkerStep(step)
    ensures ContinueInv(After(w, step), j, gone)
  {
    assert ContinueInv(w, j, gone);
    if j in w.jobs {
      assert JobSound(w, j);
    }
  }

  lemma ContinueKeptOwn(w: World, step: Step, j: nat, gone: bool)
    requires Sound(w) && Enabled(w, step) && (j, gone) in After(w, step).continuing
    requires step.ContinueRead? || step.ContinueWrite?
    ensures ContinueInv(After(w, step), j, gone)
  {
    if (j, gone) in w.continuing {
      assert ContinueInv(w, j, gone);
    } else {
      assert JobSound(w, j);
    }
  }

  lemma StepKeepsSound(w: World, step: Step)
    requires Sound(w) && Enabled(w, step)
    ensures Sound(After(w, step))
  {
    var w' := After(w, step);
    forall j | j in w'.jobs ensures JobSound(w', j) {
      if IsCreateStep(step) {
        SoundKeptCreate(w, step, j);
      } else if IsWorkerStep(step) {
        SoundKeptWorker(w, step, j);
      } else if IsRefreshStep(step) {
        SoundKeptRefresh(w, step, j);
      } else {
        SoundKeptOther(w, step, j);
      }
    }
    if w'.creator.Recorded? {
      RecordedKept(w, step);
    }
    forall j: nat
      ensures j in w'.killed ==> PhaseOf(w', j).Gone?
      ensures j in w'.armed ==> j in w'.workers && !PhaseOf(w', j).NotSpawned?
    {
      GraceKept(w, step, j);
    }
    forall c | c in w'.continuing ensures ContinueInv(w', c.0, c.1) {
      ContinueKept(w, step, c.0, c.1);
    }
  }

  lemma {:induction false} RunSound(states: seq<World>, steps: seq<Step>, n: nat)
    requires Run(states, steps) && n < |states|
    ensures Sound(states[n])
  {
    if n > 0 {
      RunSound(states, steps, n - 1);
      StepKeepsSound(states[n - 1], steps[n - 1]);
    }
  }

  // ---------------------------------------------------------------- what holds under the two assumptions

  /** In time and readable: a record is active until its worker has ended or died. */
  ghost predicate JobTimely(w: World, j: nat)
    requires j in w.jobs
  {
    var job, phase := w.jobs[j], PhaseOf(w, j);
    && (phase.NotSpawned? || AtWork(w, j) ==> Active(job.state))
    && ((phase.NotSpawned? || phase.Starting?) && job.ident == NoPid ==>
          Creates(w.creator, j) && w.now < job.created + PID_WINDOW)
    && (phase.Working? || phase.Tail? ==> job.ident == Known)
    && (phase.Starting? ==> job.ident != PidOnly)
  }

  ghost predicate JobInv(w: World, j: nat)
    requires j in w.jobs
  {
    JobSound(w, j) && JobTimely(w, j)
  }

  /** What the holder of the create lock knows. */
  ghost predicate CreatorInv(w: World) {
    match w.creator
    case Free => true
    case Listing(key, todo, finished, busy) =>
      && (forall j :: j in finished && j in w.jobs ==> !Active(w.jobs[j].state))
      && (!busy ==> forall j :: j in w.jobs && j !in todo && w.jobs[j].key == key ==> !Active(w.jobs[j].state))
    case Admitted(key) => forall j :: j in w.jobs && w.jobs[j].key == key ==> !Active(w.jobs[j].state)
    case Recorded(j) => j in w.jobs && PhaseOf(w, j).NotSpawned?
    case Spawned(j) => j in w.workers && !PhaseOf(w, j).NotSpawned?
    case Merging(j) => j in w.workers && !PhaseOf(w, j).NotSpawned?
  }

  ghost predicate RefreshInv(w: World, r: Refresh) {
    r.j in w.workers &&
    match r
    case Saw(j, ident) =>
      && (ident == PidOnly ==> PhaseOf(w, j).Gone?)
      && (ident == Known && j in w.jobs ==> w.jobs[j].ident != NoPid)
    case Doomed(j) => j in w.jobs && w.jobs[j].ident == NoPid ==> PhaseOf(w, j).Gone?
  }

  /** At most one active job per key. */
  ghost predicate OneActive(w: World) {
    forall j, k :: j in w.jobs && k in w.jobs && j != k && w.jobs[j].key == w.jobs[k].key ==>
      !(Active(w.jobs[j].state) && Active(w.jobs[k].state))
  }

  ghost predicate Inv(w: World) {
    && w.prompt && w.readable
    && Sound(w)
    && (forall j :: j in w.jobs ==> JobInv(w, j))
    && (forall j: nat :: AtWork(w, j) ==> j in w.jobs)
    && CreatorInv(w)
    && (forall q :: q in w.refreshes ==> RefreshInv(w, w.refreshes[q]))
    && OneActive(w)
  }

  lemma JobKeptCreate(w: World, step: Step, j: nat)
    requires Inv(w) && Enabled(w, step) && j in After(w, step).jobs
    requires IsCreateStep(step)
    ensures JobTimely(After(w, step), j)
  {
    if j in w.jobs {
      assert JobInv(w, j);
    }
    if step.WriteRecord? || step.Spawn? || step.SpawnFails? || step.MergePid? {
      JobKeptSpawning(w, step, j);
    }
  }

  lemma JobKeptSpawning(w: World, step: Step, j: nat)
    requires Inv(w) && Enabled(w, step) && j in After(w, step).jobs
    requires step.WriteRecord? || step.Spawn? || step.SpawnFails? || step.MergePid?
    ensures JobTimely(After(w, step), j)
  {
    if j in w.jobs {
      assert JobInv(w, j);
    }
  }

  lemma JobKeptWorker(w: World, step: Step, j: nat)
    requires Inv(w) && Enabled(w, step) && j in After(w, step).jobs
    requires IsWorkerStep(step)
    ensures JobTimely(After(w, step), j)
  {
    assert JobInv(w, j);
  }

  lemma JobKeptRefresh(w: World, step: Step, j: nat)
    requires Inv(w) && Enabled(w, step) && j in After(w, step).jobs
    requires IsRefreshStep(step)
    ensures JobTimely(After(w, step), j)
  {
    assert JobInv(w, j);
    if step.RefreshWrite? {
      assert RefreshInv(w, w.refreshes[step.q]);
    }
  }

  lemma JobKeptOther(w: World, step: Step, j: nat)
    requires Inv(w) && Enabled(w, step) && j in After(w, step).jobs
    requires IsOtherStep(step)
    ensures JobTimely(After(w, step), j)
  {
    assert JobInv(w, j);
    if step.ContinueWrite? {
      assert ContinueInv(w, step.j, step.gone);
    }
  }

  lemma JobKept(w: World, step: Step, j: nat)
    requires Inv(w) && Enabled(w, step) && j in After(w, step).jobs
    ensures JobTimely(After(w, step), j)
  {
    if IsCreateStep(step) {
      JobKeptCreate(w, step, j);
    } else if IsWorkerStep(step) {
      JobKeptWorker(w, step, j);
    } else if IsRefreshStep(step) {
      JobKeptRefresh(w, step, j);
    } else {
      JobKeptOther(w, step, j);
    }
  }

  lemma WorkKept(w: World, step: Step, j: nat)
    requires Inv(w) && Enabled(w, step) && AtWork(After(w, step), j)
    ensures j in After(w, step).jobs
  {
    if step.PruneOne? {
      assert JobInv(w, step.j);
    }
  }

  lemma CreatorKeptCreate(w: World, step: Step)
    requires Inv(w) && Enabled(w, step) && IsCreateStep(step)
    ensures CreatorInv(After(w, step))
  {
  }

  lemma CreatorKept(w: World, step: Step)
    requires Inv(w) && Enabled(w, step)
    ensures CreatorInv(After(w, step))
  {
    if IsCreateStep(step) {
      CreatorKeptCreate(w, step);
    } else {
      StepKeepsKeys(w, step);
      StepKeepsSpawned(w, step);
      forall j | j in w.jobs && !Active(w.jobs[j].state) ensures !Active(After(w, step).jobs[j].state) {
        StepKeepsInactive(w, step, j);
      }
      CreatorCarries(w, After(w, step));
    }
  }

  /**
   What the holder of the create lock knows survives whatever leaves the records there, the
   inactive ones inactive and the spawned workers spawned.
   */
  lemma CreatorCarries(w: World, w': World)
    requires CreatorInv(w) && w'.creator == w.creator && SameKeys(w, w') && SameSpawned(w, w')
    requires forall j :: j in w.jobs && !Active(w.jobs[j].state) ==> !Active(w'.jobs[j].state)
    ensures CreatorInv(w')
  {
  }

  ghost predicate SameKeys(w: World, w': World) {
    w'.jobs.Keys == w.jobs.Keys && forall j :: j in w.jobs ==> w'.jobs[j].key == w.jobs[j].key
  }

  ghost predicate SameSpawned(w: World, w': World) {
    w.workers.Keys <= w'.workers.Keys && forall j: nat :: PhaseOf(w', j).NotSpawned? <==> PhaseOf(w, j).NotSpawned?
  }

  lemma StepKeepsSpawned(w: World, step: Step)
    requires Enabled(w, step) && !IsCreateStep(step)
    ensures SameSpawned(w, After(w, step)) && After(w, step).creator == w.creator
  {
    if !IsWorkerStep(step) && !step.GraceKill? {
      assert After(w, step).workers == w.workers;
    }
  }

  lemma StepKeepsKeys(w: World, step: Step)
    requires Enabled(w, step) && !IsCreateStep(step)
    ensures SameKeys(w, After(w, step))
  {
    if step.RefreshWrite? || step.Interrupt? || step.GraceWrite? || step.ContinueWrite? {
      WriteKeepsKeys(w, step);
    } else if !IsWorkerStep(step) {
      assert After(w, step).jobs == w.jobs;
    }
  }

  lemma WriteKeepsKeys(w: World, step: Step)
    requires Enabled(w, step) && (step.RefreshWrite? || step.Interrupt? || step.GraceWrite? || step.ContinueWrite?)
    ensures SameKeys(w, After(w, step))
  {
  }

  lemma RefreshKeptOwn(w: World, step: Step, q: nat)
    requires Inv(w) && Enabled(w, step) && q in After(w, step).refreshes
    requires IsRefreshStep(step)
    ensures RefreshInv(After(w, step), After(w, step).refreshes[q])
  {
    if q in w.refreshes {
      assert RefreshInv(w, w.refreshes[q]);
      if w.refreshes[q].j in w.jobs {
        assert JobInv(w, w.refreshes[q].j);
      }
    } else if step.RefreshLook? {
      assert JobInv(w, step.j);
    }
  }

  lemma RefreshKept(w: World, step: Step, q: nat)
    requires Inv(w) && Enabled(w, step) && q in After(w, step).refreshes
    ensures RefreshInv(After(w, step), After(w, step).refreshes[q])
  {
    if IsRefreshStep(step) {
      RefreshKeptOwn(w, step, q);
    } else {
      assert RefreshInv(w, w.refreshes[q]);
      if w.refreshes[q].j in w.jobs {
        assert JobInv(w, w.refreshes[q].j);
      }
    }
  }

  lemma OneActiveKept(w: World, step: Step, j: nat, k: nat)
    requires Inv(w) && Enabled(w, step)
    requires var w' := After(w, step);
      j in w'.jobs && k in w'.jobs && j != k && w'.jobs[j].key == w'.jobs[k].key
    ensures var w' := After(w, step); !(Active(w'.jobs[j].state) && Active(w'.jobs[k].state))
  {
    if !IsCreateStep(step) {
      StepKeepsKeys(w, step);
      StepKeepsInactive(w, step, j);
      StepKeepsInactive(w, step, k);
    }
  }

  lemma StepKeepsInv(w: World, step: Step)
    requires Inv(w) && Enabled(w, step)
    ensures Inv(After(w, step))
  {
    var w' := After(w, step);
    StepKeepsSound(w, step);
    forall j | j in w'.jobs ensures JobInv(w', j) {
      JobKept(w, step, j);
    }
    forall j: nat | AtWork(w', j) ensures j in w'.jobs {
      WorkKept(w, step, j);
    }
    CreatorKept(w, step);
    forall q | q in w'.refreshes ensures RefreshInv(w', w'.refreshes[q]) {
      RefreshKept(w, step, q);
    }
    forall j, k | j in w'.jobs && k in w'.jobs && j != k && w'.jobs[j].key == w'.jobs[k].key
      ensures !(Active(w'.jobs[j].state) && Active(w'.jobs[k].state))
    {
      OneActiveKept(w, step, j, k);
    }
  }

  lemma {:induction false} RunInv(states: seq<World>, steps: seq<Step>, n: nat)
    requires Run(states, steps) && n < |states| && states[0].prompt && states[0].readable
    ensures Inv(states[n])
  {
    if n > 0 {
      RunInv(states, steps, n - 1);
      StepKeepsInv(states[n - 1], steps[n - 1]);
    }
  }

  // ---------------------------------------------------------------- admission

  /**
   One job per key. In every run under the two assumptions, no two jobs of one key are active at
   once, and no two have workers at work at once, where a worker is at work from its start until
   it writes its terminal record.
   */
  lemma OneJobPerKey(states: seq<World>, steps: seq<Step>, n: nat)
    requires Run(states, steps) && n < |states| && states[0].prompt && states[0].readable
    ensures OneActive(states[n])
    ensures forall j: nat, k: nat :: j != k && AtWork(states[n], j) && AtWork(states[n], k) ==>
      j in states[n].jobs && k in states[n].jobs && states[n].jobs[j].key != states[n].jobs[k].key
  {
    RunInv(states, steps, n);
    var w := states[n];
    forall j: nat | AtWork(w, j) ensures j in w.jobs && Active(w.jobs[j].state) {
      assert JobInv(w, j);
    }
  }

  // ---------------------------------------------------------------- daemon-side edges

  /** Where the daemon may take a record. */
  predicate DaemonEdge(before: State, after: State) {
    || after == before
    || ((before.Queued? || before.Running?) && after.Interrupting?)
    || (Active(before) && after.Unknown?)
    || ((before.NeedsChoice? || before.Answered? || before.Interrupted?) && after.Answered?)
  }

  /** A refresh whose second look could not read the start time of a process. */
  predicate Blind(step: Step) {
    step.RefreshWrite? && !step.legible
  }

  lemma EdgeTaken(w: World, step: Step, j: nat)
    requires Sound(w) && Enabled(w, step) && !IsWorkerStep(step) && j in w.jobs && j in After(w, step).jobs
    ensures var before, after := w.jobs[j].state, After(w, step).jobs[j].state;
      && DaemonEdge(before, after)
      && (!Active(before) && !(step.ContinueWrite? && step.j == j) ==> after == before)
      && (step.ContinueWrite? && step.j == j && before.Interrupted? ==> !step.gone)
  {
    if step.ContinueWrite? {
      assert ContinueInv(w, step.j, step.gone);
    } else if IsCreateStep(step) {
      CreateKeepsState(w, step, j);
    }
  }

  lemma CreateKeepsState(w: World, step: Step, j: nat)
    requires Enabled(w, step) && IsCreateStep(step) && j in w.jobs && j in After(w, step).jobs
    ensures After(w, step).jobs[j].state == w.jobs[j].state
  {
  }

  /** What is known of the worker when the daemon takes a record out of the active states. */
  lemma LeftWhenDead(w: World, step: Step, j: nat)
    requires Sound(w) && Enabled(w, step) && !IsWorkerStep(step) && j in w.jobs && j in After(w, step).jobs
    requires Active(w.jobs[j].state) && !Active(After(w, step).jobs[j].state)
    ensures step.RefreshWrite? || PhaseOf(w, j).Gone?
    ensures w.jobs[j].ident == Known && !Blind(step) ==> PhaseOf(w, j).Gone?
    ensures PhaseOf(After(w, step), j) == PhaseOf(w, j) && After(w, step).jobs[j].state.Unknown?
  {
    assert JobSound(w, j);
    EdgeTaken(w, step, j);
  }

  lemma MarkedWhenDead(w: World, step: Step, j: nat)
    requires Inv(w) && Enabled(w, step) && !IsWorkerStep(step) && j in w.jobs && j in After(w, step).jobs
    requires Active(w.jobs[j].state) && !Active(After(w, step).jobs[j].state)
    ensures PhaseOf(w, j).Gone?
  {
    LeftWhenDead(w, step, j);
    assert JobInv(w, j);
    if step.RefreshWrite? {
      assert RefreshInv(w, w.refreshes[step.q]);
    }
  }

  /**
   In every run, on any machine, every daemon step takes every record along one of its edges. Only
   continue touches an inactive record, and only to answer it; it finds `interrupted` only when the
   worker was still alive at its read. An active record with a recorded pid and start time becomes
   inactive only once its worker is dead, unless the refresh that marks it failed to read a start
   time; under the two assumptions so does every other.
   */
  lemma DaemonEdges(states: seq<World>, steps: seq<Step>, n: nat, j: nat)
    requires Run(states, steps) && n < |steps|
    requires !IsWorkerStep(steps[n]) && j in states[n].jobs && j in states[n + 1].jobs
    ensures var before, after := states[n].jobs[j].state, states[n + 1].jobs[j].state;
      && DaemonEdge(before, after)
      && (!Active(before) && !(steps[n].ContinueWrite? && steps[n].j == j) ==> after == before)
      && (steps[n].ContinueWrite? && steps[n].j == j && before.Interrupted? ==> !steps[n].gone)
      && (Active(before) && !Active(after) ==>
            && (states[n].jobs[j].ident == Known && !Blind(steps[n]) ==> PhaseOf(states[n], j).Gone?)
            && (!steps[n].RefreshWrite? ==> PhaseOf(states[n], j).Gone?)
            && (states[0].prompt && states[0].readable ==> PhaseOf(states[n], j).Gone?))
  {
    RunSound(states, steps, n);
    EdgeTaken(states[n], steps[n], j);
    if Active(states[n].jobs[j].state) && !Active(states[n + 1].jobs[j].state) {
      LeftWhenDead(states[n], steps[n], j);
      if states[0].prompt && states[0].readable {
        RunInv(states, steps, n);
        MarkedWhenDead(states[n], steps[n], j);
      }
    }
  }

  // ---------------------------------------------------------------- what is for good

  /** Where the worker may take a record: to `running` as its first write, to an outcome after that. */
  lemma WorkerEdge(w: World, step: Step, j: nat)
    requires Enabled(w, step) && IsWorkerStep(step) && j in w.jobs
    ensures After(w, step).jobs.Keys == w.jobs.Keys
    ensures var before, after, phase := w.jobs[j].state, After(w, step).jobs[j].state, PhaseOf(w, j);
      || after == before
      || (after.Running? && phase.Starting?)
      || (Ended(after) && (phase.Working? || phase.Tail?))
  {
  }

  /** A dead worker stays dead, and a worker that has reported has. */
  lemma PhaseStays(w: World, step: Step, j: nat)
    requires Sound(w) && Enabled(w, step) && j in w.workers
    ensures Reported(w, j) ==> Reported(After(w, step), j)
    ensures PhaseOf(w, j).Gone? ==> PhaseOf(After(w, step), j).Gone?
  {
    if IsCreateStep(step) {
      PhaseStaysCreate(w, step, j);
    } else if !IsWorkerStep(step) && !step.GraceKill? {
      assert After(w, step).workers == w.workers;
    }
  }

  lemma PhaseStaysCreate(w: World, step: Step, j: nat)
    requires Sound(w) && Enabled(w, step) && j in w.workers && IsCreateStep(step)
    ensures Reported(w, j) ==> Reported(After(w, step), j)
    ensures PhaseOf(w, j).Gone? ==> PhaseOf(After(w, step), j).Gone?
  {
  }

  lemma EndedStays(w: World, step: Step, j: nat)
    requires Sound(w) && Enabled(w, step) && j in w.jobs && j in After(w, step).jobs && Ended(w.jobs[j].state)
    ensures Ended(After(w, step).jobs[j].state)
  {
    assert JobSound(w, j);
    if IsWorkerStep(step) {
      WorkerEdge(w, step, j);
    } else {
      EdgeTaken(w, step, j);
    }
  }

  lemma DeadStays(w: World, step: Step, j: nat)
    requires Sound(w) && Enabled(w, step) && j in w.jobs && j in After(w, step).jobs
    requires w.jobs[j].state.Unknown? && PhaseOf(w, j).Gone?
    ensures After(w, step).jobs[j].state.Unknown? && PhaseOf(After(w, step), j).Gone?
  {
    assert JobSound(w, j);
    PhaseStays(w, step, j);
    if IsWorkerStep(step) {
      WorkerEdge(w, step, j);
    } else {
      EdgeTaken(w, step, j);
    }
  }

  lemma ReportedStays(w: World, step: Step, j: nat)
    requires Sound(w) && Enabled(w, step) && j in w.jobs && j in After(w, step).jobs
    requires !Active(w.jobs[j].state) && Reported(w, j)
    ensures !Active(After(w, step).jobs[j].state) && Reported(After(w, step), j)
  {
    assert JobSound(w, j);
    PhaseStays(w, step, j);
    if IsWorkerStep(step) {
      WorkerEdge(w, step, j);
    } else {
      EdgeTaken(w, step, j);
    }
  }

  lemma StepKeepsInactive(w: World, step: Step, j: nat)
    requires Inv(w) && Enabled(w, step) && j in w.jobs && j in After(w, step).jobs
    ensures !Active(w.jobs[j].state) ==> !Active(After(w, step).jobs[j].state)
  {
    assert JobInv(w, j);
    if Ended(w.jobs[j].state) {
      EndedStays(w, step, j);
    } else if w.jobs[j].state.Unknown? {
      DeadStays(w, step, j);
    }
  }

  lemma StepKeepsRemoved(w: World, step: Step, j: nat)
    requires Enabled(w, step) && j !in w.jobs && j in w.workers
    ensures j !in After(w, step).jobs && j in After(w, step).workers
  {
  }

  lemma StepKeepsWorkers(w: World, step: Step)
    requires Enabled(w, step)
    ensures w.workers.Keys <= After(w, step).workers.Keys
  {
  }

  /** A deleted job never returns: in no run, on no machine, is its id used again. */
  lemma {:induction false} RemovedForGood(states: seq<World>, steps: seq<Step>, n: nat, m: nat, j: nat)
    requires Run(states, steps) && n <= m < |states|
    requires j !in states[n].jobs && j in states[n].workers
    ensures j !in states[m].jobs
    decreases m - n
  {
    if n < m {
      StepKeepsRemoved(states[n], steps[n], j);
      RemovedForGood(states, steps, n + 1, m, j);
    }
  }

  /** A record that is there at two moments of a run was there at every moment between. */
  lemma StillThere(states: seq<World>, steps: seq<Step>, n: nat, m: nat, j: nat)
    requires Run(states, steps) && n < m < |states| && j in states[n].jobs && j in states[m].jobs
    ensures j in states[n + 1].jobs && Sound(states[n])
  {
    RunSound(states, steps, n);
    assert JobSound(states[n], j);
    StepKeepsWorkers(states[n], steps[n]);
    if j !in states[n + 1].jobs {
      RemovedForGood(states, steps, n + 1, m, j);
    }
  }

  /** In every run, an ended record stays ended: the daemon only answers it, the worker only makes it `interrupted`. */
  lemma {:induction false} EndedForGood(states: seq<World>, steps: seq<Step>, n: nat, m: nat, j: nat)
    requires Run(states, steps) && n <= m < |states| && j in states[n].jobs && j in states[m].jobs
    requires Ended(states[n].jobs[j].state)
    ensures Ended(states[m].jobs[j].state)
    decreases m - n
  {
    if n < m {
      StillThere(states, steps, n, m, j);
      EndedStays(states[n], steps[n], j);
      EndedForGood(states, steps, n + 1, m, j);
    }
  }

  /** In every run, `unknown` over a dead worker is for good. */
  lemma {:induction false} DeadForGood(states: seq<World>, steps: seq<Step>, n: nat, m: nat, j: nat)
    requires Run(states, steps) && n <= m < |states| && j in states[n].jobs && j in states[m].jobs
    requires states[n].jobs[j].state.Unknown? && PhaseOf(states[n], j).Gone?
    ensures states[m].jobs[j].state.Unknown? && PhaseOf(states[m], j).Gone?
    decreases m - n
  {
    if n < m {
      StillThere(states, steps, n, m, j);
      DeadStays(states[n], steps[n], j);
      DeadForGood(states, steps, n + 1, m, j);
    }
  }

  lemma {:induction false} ReportedForGood(states: seq<World>, steps: seq<Step>, n: nat, m: nat, j: nat)
    requires Run(states, steps) && n <= m < |states| && j in states[n].jobs && j in states[m].jobs
    requires !Active(states[n].jobs[j].state) && Reported(states[n], j)
    ensures !Active(states[m].jobs[j].state)
    decreases m - n
  {
    if n < m {
      StillThere(states, steps, n, m, j);
      ReportedStays(states[n], steps[n], j);
      ReportedForGood(states, steps, n + 1, m, j);
    }
  }

  /**
   In every run, on any machine: a job the daemon marks `unknown` that has a recorded pid and start
   time is `unknown` for the rest of the run, its worker dead, unless the refresh that marks it
   failed to read a start time.
   */
  lemma KnownMarkIsFinal(states: seq<World>, steps: seq<Step>, n: nat, m: nat, j: nat)
    requires Run(states, steps) && n < |steps| && !IsWorkerStep(steps[n]) && n < m < |states|
    requires j in states[n].jobs && Active(states[n].jobs[j].state) && j in states[m].jobs
    requires states[n].jobs[j].ident == Known && !Blind(steps[n])
    requires j in states[n + 1].jobs && states[n + 1].jobs[j].state.Unknown?
    ensures states[m].jobs[j].state.Unknown? && PhaseOf(states[m], j).Gone?
  {
    RunSound(states, steps, n);
    LeftWhenDead(states[n], steps[n], j);
    DeadForGood(states, steps, n + 1, m, j);
  }

  /**
   Under the two assumptions, no inactive record becomes active again, and `unknown` is for good,
   whatever was recorded.
   */
  lemma UnknownIsFinal(states: seq<World>, steps: seq<Step>, n: nat, m: nat, j: nat)
    requires Run(states, steps) && n <= m < |states| && states[0].prompt && states[0].readable
    requires j in states[n].jobs && j in states[m].jobs
    ensures !Active(states[n].jobs[j].state) ==> !Active(states[m].jobs[j].state)
    ensures states[n].jobs[j].state.Unknown? ==> states[m].jobs[j].state.Unknown? && PhaseOf(states[m], j).Gone?
  {
    RunInv(states, steps, n);
    assert JobInv(states[n], j);
    if Ended(states[n].jobs[j].state) {
      EndedForGood(states, steps, n, m, j);
    } else if states[n].jobs[j].state.Unknown? {
      DeadForGood(states, steps, n, m, j);
    }
  }
}
