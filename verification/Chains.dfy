/**
 Jobs made from other jobs: a retry of a failed one, a continue of one that waits for a decision.
 What a chain of them keeps, however long it grows.
 */
module Chains {
  import opened Text
  import opened Json

  type Fields = map<string, Json>

  datatype State = Active | Succeeded | Failed | Interrupted | Unknown | NeedsChoice | Answered

  datatype Origin = Created | RetryOf(parent: nat) | ContinueOf(parent: nat)

  datatype Job = Job(
    verb: string,
    target: Fields,
    args: Fields,
    consent: bool,
    origin: Origin,
    state: State,
    error: string,                // the code of the recorded error, or empty
    result: Fields,
    answeredBy: Option<nat>)

  /** Why a request for a new job is refused. */
  datatype Refusal =
    | RetryInterrupted
    | RetryNotFailed
    | RetryGuarded
    | RetryUnknownOutcome
    | ContinueNotPending
    | ContinueProjectChanged
    | SecretsMissing
    | ProjectBusy
    | SpecInvalid

  function Get(fields: Fields, key: string): Option<Json> {
    if key in fields then Some(fields[key]) else None
  }

  predicate IsTrue(fields: Fields, key: string) {
    Get(fields, key) == Some(Bool(true))
  }

  /** Arguments the page sets only behind a confirmation of their own. */
  predicate Guarded(verb: string, args: Fields) {
    || (verb == "apps-checkout" && IsTrue(args, "reset"))
    || (verb == "apps-update" && IsTrue(args, "force"))
    || IsTrue(args, "ignore_frappe_range")
  }

  /** Python's truth of a value. */
  predicate Truthy(value: Option<Json>) {
    match value
    case None => false
    case Some(Null) => false
    case Some(Bool(b)) => b
    case Some(Num(n)) => n != 0.0
    case Some(Str(s)) => s != ""
    case Some(Arr(items)) => items != []
    case Some(Obj(fields)) => fields != map[]
  }

  predicate UnknownOutcome(job: Job) {
    || job.error == "exec.stream_lost" || job.error == "exec.exit_code_unknown"
    || (job.verb == "apps-update"
        && (Truthy(Get(job.result, "unknown_apps")) || Truthy(Get(job.result, "unknown_migrations"))
            || Truthy(Get(job.result, "unknown_builds"))))
  }

  /** The code's `_retry_refusal`. */
  function RetryRefusal(job: Job): Option<Refusal> {
    if job.state == Interrupted then Some(RetryInterrupted)
    else if job.state != Failed then Some(RetryNotFailed)
    else if Guarded(job.verb, job.args) then Some(RetryGuarded)
    else if UnknownOutcome(job) then Some(RetryUnknownOutcome)
    else None
  }

  /** Why a continue is refused before a job is made for it. */
  function ContinueRefusal(was: Job, target: Fields, holds: bool): Option<Refusal> {
    if was.state != NeedsChoice && was.state != Answered then Some(ContinueNotPending)
    else if ProjectOf(target) != Project(was) then Some(ContinueProjectChanged)
    else if was.verb == "init" && !holds then Some(SecretsMissing)
    else None
  }

  /** `.get("project")` of a target: a missing project reads as null. */
  function ProjectOf(target: Fields): Json {
    match Get(target, "project")
    case None => Null
    case Some(value) => value
  }

  function Project(job: Job): Json {
    ProjectOf(job.target)
  }

  // ---------------------------------------------------------------- specs

  /** The tables of verbs, and Python's string operations on any string. */
  datatype Rules = Rules(
    verbs: set<string>,
    projectless: set<string>,
    publish: set<string>,
    text: Json -> string,
    strip: string -> string,
    lower: string -> string)

  predicate NamesSecret(rules: Rules, key: string) {
    var low := rules.lower(key);
    Find(low, "password").Some? || Find(low, "secret").Some? || Find(low, "token").Some?
  }

  /** `_secret_field` finds something: a key at any depth that names a secret. */
  predicate HoldsSecret(rules: Rules, value: Json)
    decreases value
  {
    match value
    case Obj(fields) => exists k :: k in fields && (NamesSecret(rules, k) || HoldsSecret(rules, fields[k]))
    case Arr(items) => exists i :: 0 <= i < |items| && HoldsSecret(rules, items[i])
    case _ => false
  }

  /** A string that names something once the blanks around it are gone. */
  predicate NonBlank(rules: Rules, value: Json) {
    value.Str? && rules.strip(value.s) != ""
  }

  /** `_validate_spec` lets the spec pass. */
  predicate ValidSpec(rules: Rules, verb: string, target: Fields, args: Fields) {
    && verb in rules.verbs
    && !HoldsSecret(rules, Obj(target)) && !HoldsSecret(rules, Obj(args))
    && (verb !in rules.projectless ==> NonBlank(rules, ProjectOf(target)))
  }

  /** `_project_key`. */
  function ProjectKey(rules: Rules, verb: string, target: Fields): string {
    if verb in rules.publish && Truthy(Get(target, "site")) then "@publish:" + rules.text(target["site"])
    else if NonBlank(rules, ProjectOf(target)) then rules.strip(ProjectOf(target).s)
    else "@" + verb
  }

  function KeyOf(rules: Rules, job: Job): string {
    ProjectKey(rules, job.verb, job.target)
  }

  predicate Blocks(rules: Rules, job: Job, key: string) {
    job.state == Active && KeyOf(rules, job) == key
  }

  /** Some active job has the key. */
  predicate Busy(rules: Rules, jobs: seq<Job>, key: string) {
    exists i :: 0 <= i < |jobs| && Blocks(rules, jobs[i], key)
  }

  /** Every job of the registry passed validation, and no two active ones share a key. */
  ghost predicate Admitted(rules: Rules, jobs: seq<Job>) {
    && (forall i :: 0 <= i < |jobs| ==> ValidSpec(rules, jobs[i].verb, jobs[i].target, jobs[i].args))
    && (forall i, j :: 0 <= i < j < |jobs| && jobs[i].state == Active && jobs[j].state == Active ==>
          KeyOf(rules, jobs[i]) != KeyOf(rules, jobs[j]))
  }

  // ---------------------------------------------------------------- what is refused, spelled out

  /** A job about one site's public name. */
  predicate SiteJob(rules: Rules, verb: string, target: Fields) {
    verb in rules.publish && "site" in target && Truthy(Some(target["site"]))
  }

  /** A job about one instance, by name. */
  predicate InstanceJob(rules: Rules, verb: string, target: Fields) {
    && !SiteJob(rules, verb, target)
    && "project" in target && target["project"].Str? && rules.strip(target["project"].s) != ""
  }

  /** A job about the machine: its verb alone says what it changes. */
  predicate MachineJob(rules: Rules, verb: string, target: Fields) {
    !SiteJob(rules, verb, target) && !InstanceJob(rules, verb, target)
  }

  /** Two jobs that change the same thing: one site, one instance, or, for two of the machine's, one verb. */
  predicate Rivals(rules: Rules, v: string, t: Fields, v': string, t': Fields) {
    || (SiteJob(rules, v, t) && SiteJob(rules, v', t') && rules.text(t["site"]) == rules.text(t'["site"]))
    || (InstanceJob(rules, v, t) && InstanceJob(rules, v', t')
        && rules.strip(t["project"].s) == rules.strip(t'["project"].s))
    || (MachineJob(rules, v, t) && MachineJob(rules, v', t') && v == v')
  }

  /** Two jobs about different things whose names happen to read alike once they are keys. */
  predicate Mistaken(rules: Rules, v: string, t: Fields, v': string, t': Fields) {
    || (InstanceJob(rules, v, t) && SiteJob(rules, v', t')
        && rules.strip(t["project"].s) == "@publish:" + rules.text(t'["site"]))
    || (InstanceJob(rules, v, t) && MachineJob(rules, v', t') && rules.strip(t["project"].s) == "@" + v')
    || (MachineJob(rules, v, t) && SiteJob(rules, v', t') && "@" + v == "@publish:" + rules.text(t'["site"]))
  }

  predicate Contends(rules: Rules, v: string, t: Fields, v': string, t': Fields) {
    Rivals(rules, v, t, v', t') || Mistaken(rules, v, t, v', t') || Mistaken(rules, v', t', v, t)
  }

  /** Two jobs have one key exactly when they change the same thing, or are mistaken for it. */
  lemma SameKeyExactly(rules: Rules, v: string, t: Fields, v': string, t': Fields)
    ensures ProjectKey(rules, v, t) == ProjectKey(rules, v', t') <==> Contends(rules, v, t, v', t')
  {
    KeyMeans(rules, v, t);
    KeyMeans(rules, v', t');
    Prepended("@publish:", rules.text(Site(t)), rules.text(Site(t')));
    Prepended("@", v, v');
  }

  function Site(t: Fields): Json {
    if "site" in t then t["site"] else Null
  }

  lemma KeyMeans(rules: Rules, v: string, t: Fields)
    ensures SiteJob(rules, v, t) ==> ProjectKey(rules, v, t) == "@publish:" + rules.text(t["site"])
    ensures InstanceJob(rules, v, t) ==> ProjectKey(rules, v, t) == rules.strip(t["project"].s)
    ensures MachineJob(rules, v, t) ==> ProjectKey(rules, v, t) == "@" + v
  {
  }

  lemma Prepended(p: string, a: string, b: string)
    ensures p + a == p + b <==> a == b
  {
    assert (p + a)[|p|..] == a && (p + b)[|p|..] == b;
  }

  /** A mistake: an instance whose name is `@` and a verb of the machine. */
  lemma NamesCollide() returns (rules: Rules, t: Fields)
    ensures ValidSpec(rules, "migrate", t, map[]) && ValidSpec(rules, "check-updates", map[], map[])
    ensures InstanceJob(rules, "migrate", t) && MachineJob(rules, "check-updates", map[])
    ensures ProjectKey(rules, "migrate", t) == ProjectKey(rules, "check-updates", map[])
  {
    rules := Rules({"migrate", "check-updates"}, {"check-updates"}, {}, _ => "", s => s, _ => "");
    t := map["project" := Str("@check-updates")];
    assert !HoldsSecret(rules, Str("@check-updates"));
    assert Find("", "password") == None && Find("", "secret") == None && Find("", "token") == None;
  }

  /** In every registry: no two active jobs change the same instance, the same site, or the machine under one verb. */
  lemma OnePerInstance(rules: Rules, jobs: seq<Job>, i: nat, j: nat)
    requires Admitted(rules, jobs) && i < |jobs| && j < |jobs| && i != j
    requires jobs[i].state == Active && jobs[j].state == Active
    ensures !Contends(rules, jobs[i].verb, jobs[i].target, jobs[j].verb, jobs[j].target)
  {
    SameKeyExactly(rules, jobs[i].verb, jobs[i].target, jobs[j].verb, jobs[j].target);
    if j < i {
      assert KeyOf(rules, jobs[j]) != KeyOf(rules, jobs[i]);
    }
  }

  ghost predicate Obstructs(rules: Rules, job: Job, verb: string, target: Fields) {
    job.state == Active && Contends(rules, job.verb, job.target, verb, target)
  }

  /** A key is busy exactly when an active job changes the same thing, or is mistaken for it. */
  lemma BusyExactly(rules: Rules, jobs: seq<Job>, verb: string, target: Fields)
    ensures Busy(rules, jobs, ProjectKey(rules, verb, target)) <==>
      exists i :: 0 <= i < |jobs| && Obstructs(rules, jobs[i], verb, target)
  {
    var key := ProjectKey(rules, verb, target);
    forall i | 0 <= i < |jobs| ensures Blocks(rules, jobs[i], key) <==> Obstructs(rules, jobs[i], verb, target) {
      SameKeyExactly(rules, jobs[i].verb, jobs[i].target, verb, target);
    }
  }

  /** A key of an object at any depth of a value. */
  ghost predicate HasKey(value: Json, key: string)
    decreases value
  {
    match value
    case Obj(fields) => key in fields || exists k :: k in fields && HasKey(fields[k], key)
    case Arr(items) => exists i :: 0 <= i < |items| && HasKey(items[i], key)
    case _ => false
  }

  /** A key that speaks of a secret, whatever its case. */
  ghost predicate Speaks(rules: Rules, key: string) {
    var low := rules.lower(key);
    Contains(low, "password") || Contains(low, "secret") || Contains(low, "token")
  }

  lemma SpeaksIsNamed(rules: Rules, key: string)
    ensures NamesSecret(rules, key) <==> Speaks(rules, key)
  {
    var low := rules.lower(key);
    forall pattern ensures Find(low, pattern).Some? <==> Contains(low, pattern) {
      if Find(low, pattern).Some? {
        assert At(low, pattern, Find(low, pattern).value);
      }
    }
  }

  lemma {:induction false} SecretMeans(rules: Rules, value: Json)
    ensures HoldsSecret(rules, value) <==> exists key :: HasKey(value, key) && Speaks(rules, key)
    decreases value
  {
    match value
    case Obj(fields) =>
      forall k | k in fields
        ensures NamesSecret(rules, k) <==> Speaks(rules, k)
        ensures HoldsSecret(rules, fields[k]) <==> exists key :: HasKey(fields[k], key) && Speaks(rules, key)
      {
        SpeaksIsNamed(rules, k);
        SecretMeans(rules, fields[k]);
      }
      if HoldsSecret(rules, value) {
        var k :| k in fields && (NamesSecret(rules, k) || HoldsSecret(rules, fields[k]));
        if NamesSecret(rules, k) {
          assert HasKey(value, k) && Speaks(rules, k);
        } else {
          var key :| HasKey(fields[k], key) && Speaks(rules, key);
          assert HasKey(value, key);
        }
      }
      if key :| HasKey(value, key) && Speaks(rules, key) {
        if key !in fields {
          var k :| k in fields && HasKey(fields[k], key);
          assert HoldsSecret(rules, fields[k]);
        }
      }
    case Arr(items) =>
      forall i | 0 <= i < |items|
        ensures HoldsSecret(rules, items[i]) <==> exists key :: HasKey(items[i], key) && Speaks(rules, key)
      {
        SecretMeans(rules, items[i]);
      }
      if HoldsSecret(rules, value) {
        var i :| 0 <= i < |items| && HoldsSecret(rules, items[i]);
        var key :| HasKey(items[i], key) && Speaks(rules, key);
        assert HasKey(value, key);
      }
      if key :| HasKey(value, key) && Speaks(rules, key) {
        var i :| 0 <= i < |items| && HasKey(items[i], key);
        assert HoldsSecret(rules, items[i]);
      }
    case _ =>
  }

  /**
   Which specs pass: a known verb, no key at any depth that speaks of a secret, an instance where the
   verb needs one.
   */
  lemma ValidMeans(rules: Rules, verb: string, target: Fields, args: Fields)
    ensures ValidSpec(rules, verb, target, args) <==>
      && verb in rules.verbs
      && (forall key :: HasKey(Obj(target), key) || HasKey(Obj(args), key) ==> !Speaks(rules, key))
      && (verb in rules.projectless
          || ("project" in target && target["project"].Str? && rules.strip(target["project"].s) != ""))
  {
    SecretMeans(rules, Obj(target));
    SecretMeans(rules, Obj(args));
  }

  /** What Python takes for false. */
  lemma TruthyMeans(value: Json)
    ensures Truthy(Some(value)) <==>
      && value != Null && value != Bool(false) && value != Num(0.0)
      && value != Str("") && value != Arr([]) && value != Obj(map[])
    ensures !Truthy(None)
  {
  }

  predicate Set(fields: Fields, key: string) {
    key in fields && fields[key] == Bool(true)
  }

  predicate Reports(fields: Fields, key: string) {
    key in fields && Truthy(Some(fields[key]))
  }

  /** Why a job is not retried, in order; a job that is, failed, carries no guarded flag, and left nothing running. */
  lemma RetryMeans(job: Job)
    ensures RetryRefusal(job) ==
      if job.state == Interrupted then Some(RetryInterrupted)
      else if job.state != Failed then Some(RetryNotFailed)
      else if (job.verb == "apps-checkout" && Set(job.args, "reset"))
           || (job.verb == "apps-update" && Set(job.args, "force"))
           || Set(job.args, "ignore_frappe_range") then Some(RetryGuarded)
      else if job.error == "exec.stream_lost" || job.error == "exec.exit_code_unknown"
           || (job.verb == "apps-update"
               && (Reports(job.result, "unknown_apps") || Reports(job.result, "unknown_migrations")
                   || Reports(job.result, "unknown_builds"))) then Some(RetryUnknownOutcome)
      else None
  {
  }

  /** Two targets name the same project when both name none, or both the same one. */
  lemma ProjectMeans(a: Fields, b: Fields)
    ensures ProjectOf(a) == ProjectOf(b) <==>
      || (("project" !in a || a["project"] == Null) && ("project" !in b || b["project"] == Null))
      || ("project" in a && "project" in b && a["project"] == b["project"])
  {
  }

  lemma ContinueMeans(was: Job, target: Fields, holds: bool)
    ensures ContinueRefusal(was, target, holds) ==
      if was.state !in {NeedsChoice, Answered} then Some(ContinueNotPending)
      else if ProjectOf(target) != ProjectOf(was.target) then Some(ContinueProjectChanged)
      else if was.verb == "init" && !holds then Some(SecretsMissing)
      else None
  {
  }

  // ---------------------------------------------------------------- chains

  /** What a job owes the job it was made from. */
  ghost predicate Descends(jobs: seq<Job>, i: nat)
    requires i < |jobs|
  {
    match jobs[i].origin
    case Created => true
    case RetryOf(p) =>
      && p < i
      && jobs[i].verb == jobs[p].verb && jobs[i].target == jobs[p].target && jobs[i].args == jobs[p].args
      && !jobs[i].consent && !Guarded(jobs[i].verb, jobs[i].args)
    case ContinueOf(p) =>
      p < i && jobs[i].verb == jobs[p].verb && Project(jobs[i]) == Project(jobs[p])
  }

  ghost predicate Inv(jobs: seq<Job>) {
    && (forall i :: 0 <= i < |jobs| ==> Descends(jobs, i))
    && (forall i :: 0 <= i < |jobs| && jobs[i].state == Answered ==> jobs[i].answeredBy.Some?)
    && (forall i :: 0 <= i < |jobs| && jobs[i].answeredBy.Some? ==>
          jobs[i].answeredBy.value < |jobs| && jobs[jobs[i].answeredBy.value].origin == ContinueOf(i))
  }

  /** The job a chain started from. */
  ghost function Root(jobs: seq<Job>, i: nat): (r: nat)
    requires Inv(jobs) && i < |jobs|
    ensures r <= i && jobs[r].origin.Created?
    decreases i
  {
    assert Descends(jobs, i);
    match jobs[i].origin
    case Created => i
    case RetryOf(p) => Root(jobs, p)
    case ContinueOf(p) => Root(jobs, p)
  }

  /** `i` was made from `j` by retries alone. */
  ghost predicate Retried(jobs: seq<Job>, i: nat, j: nat)
    requires Inv(jobs) && i < |jobs|
    decreases i
  {
    assert Descends(jobs, i);
    i == j || (jobs[i].origin.RetryOf? && Retried(jobs, jobs[i].origin.parent, j))
  }

  /** However long the chain, its verb and its instance are those it started with. */
  lemma {:induction false} ChainKeepsVerbAndProject(jobs: seq<Job>, i: nat)
    requires Inv(jobs) && i < |jobs|
    ensures jobs[i].verb == jobs[Root(jobs, i)].verb && Project(jobs[i]) == Project(jobs[Root(jobs, i)])
    decreases i
  {
    assert Descends(jobs, i);
    if !jobs[i].origin.Created? {
      ChainKeepsVerbAndProject(jobs, jobs[i].origin.parent);
    }
  }

  /** A chain of retries runs the very job it started from, never with consent, never with guarded arguments. */
  lemma {:induction false} RetriesRunTheSameJob(jobs: seq<Job>, i: nat, j: nat)
    requires Inv(jobs) && i < |jobs| && Retried(jobs, i, j)
    ensures j <= i && jobs[i].verb == jobs[j].verb && jobs[i].target == jobs[j].target && jobs[i].args == jobs[j].args
    ensures i != j ==> !jobs[i].consent && !Guarded(jobs[j].verb, jobs[j].args)
    decreases i
  {
    assert Descends(jobs, i);
    if i != j {
      RetriesRunTheSameJob(jobs, jobs[i].origin.parent, j);
    }
  }

  /** An answered job names the job that answers it, which was made from it and runs its verb on its instance. */
  lemma AnsweredHasFollowUp(jobs: seq<Job>, i: nat)
    requires Inv(jobs) && i < |jobs| && jobs[i].state == Answered
    ensures var c := jobs[i].answeredBy;
      && c.Some? && i < c.value < |jobs| && jobs[c.value].origin == ContinueOf(i)
      && jobs[c.value].verb == jobs[i].verb && Project(jobs[c.value]) == Project(jobs[i])
  {
    assert Descends(jobs, jobs[i].answeredBy.value);
  }

  // ---------------------------------------------------------------- the registry

  /** Whose password is left once every succeeded job's is forgotten. */
  ghost function Remembered(jobs: seq<Job>, held: set<nat>): set<nat> {
    set i | i in held && !(i < |jobs| && jobs[i].state == Succeeded)
  }

  ghost predicate Known(jobs: seq<Job>, held: set<nat>) {
    forall h :: h in held ==> h < |jobs|
  }

  /** Each answer still to be written names a job made for it. */
  ghost predicate Follow(jobs: seq<Job>, answering: set<(nat, nat)>) {
    forall i, c :: (i, c) in answering ==> i < |jobs| && c < |jobs| && jobs[c].origin == ContinueOf(i)
  }

  lemma RememberedNext(jobs: seq<Job>, held: set<nat>, i: nat)
    requires i < |jobs|
    ensures Remembered(jobs[..i + 1], held) ==
      Remembered(jobs[..i], held) - if jobs[i].state == Succeeded then {i} else {}
  {
  }

  lemma FollowMore(jobs: seq<Job>, answering: set<(nat, nat)>, job: Job, i: nat)
    requires Follow(jobs, answering) && job.origin == ContinueOf(i) && i < |jobs|
    ensures Follow(jobs + [job], answering + {(i, |jobs|)})
  {
  }

  /**
   The jobs one daemon has made, in order; the jobs whose password it still holds; and the
   continues between admission and answer.
   */
  class Registry {
    const rules: Rules
    var jobs: seq<Job>
    var held: set<nat>
    var answering: set<(nat, nat)>

    constructor (rules: Rules)
      ensures Valid() && jobs == [] && held == {} && answering == {} && this.rules == rules
    {
      this.rules := rules;
      jobs, held, answering := [], {}, {};
    }

    ghost predicate Valid()
      reads this
    {
      && Inv(jobs) && Admitted(rules, jobs)
      && Known(jobs, held) && Follow(jobs, answering)
    }

    /** `read_job`, as far as it changes anything: a succeeded job's password is forgotten. */
    method Read(i: nat)
      requires i < |jobs|
      modifies this`held
      ensures held == if jobs[i].state == Succeeded then old(held) - {i} else old(held)
    {
      if jobs[i].state == Succeeded {
        held := held - {i};
      }
    }

    /** `list_jobs` and the search for an active job with the key. */
    method FindBusy(key: string) returns (busy: bool)
      modifies this`held
      ensures held == Remembered(jobs, old(held)) && busy == Busy(rules, jobs, key)
    {
      var i := 0;
      busy := false;
      while i < |jobs|
        invariant 0 <= i <= |jobs|
        invariant held == Remembered(jobs[..i], old(held))
        invariant busy <==> exists k :: 0 <= k < i && Blocks(rules, jobs[k], key)
      {
        RememberedNext(jobs, old(held), i);
        Read(i);
        busy := busy || (jobs[i].state == Active && ProjectKey(rules, jobs[i].verb, jobs[i].target) == key);
        assert Blocks(rules, jobs[i], key) ==> busy;
        i := i + 1;
      }
      assert jobs[..i] == jobs;
    }

    /**
     `create_job`: validate, find the key free, admit. Nothing is admitted beside an active job
     of its key, and no spec holds a secret.
     */
    method Admit(job: Job, password: bool) returns (r: Result<nat, Refusal>)
      requires Valid() && job.state == Active && job.answeredBy == None && Descends(jobs + [job], |jobs|)
      modifies this`jobs, this`held
      ensures Valid()
      ensures r == if !ValidSpec(rules, job.verb, job.target, job.args) then Err(SpecInvalid)
                   else if Busy(rules, old(jobs), KeyOf(rules, job)) then Err(ProjectBusy)
                   else Ok(|old(jobs)|)
      ensures r == Err(ProjectBusy) <==>
        && ValidSpec(rules, job.verb, job.target, job.args)
        && exists i :: 0 <= i < |old(jobs)| && Obstructs(rules, old(jobs)[i], job.verb, job.target)
      ensures jobs == if r.Ok? then old(jobs) + [job] else old(jobs)
      ensures held == if r == Err(SpecInvalid) then old(held)
                      else Remembered(old(jobs), old(held)) + if r.Ok? && password then {r.value} else {}
    {
      if !ValidSpec(rules, job.verb, job.target, job.args) {
        return Err(SpecInvalid);
      }
      BusyExactly(rules, jobs, job.verb, job.target);
      var key := ProjectKey(rules, job.verb, job.target);
      var busy := FindBusy(key);
      if busy {
        return Err(ProjectBusy);
      }
      AdmitKeepsInv(rules, jobs, job);
      r := Ok(|jobs|);
      if password {
        held := held + {|jobs|};
      }
      jobs := jobs + [job];
    }

    method Create(verb: string, target: Fields, args: Fields, consent: bool, password: bool)
        returns (r: Result<nat, Refusal>)
      requires Valid()
      modifies this`jobs, this`held
      ensures Valid()
      ensures r == if !ValidSpec(rules, verb, target, args) then Err(SpecInvalid)
                   else if Busy(rules, old(jobs), ProjectKey(rules, verb, target)) then Err(ProjectBusy)
                   else Ok(|old(jobs)|)
      ensures jobs == if r.Ok? then old(jobs) + [Job(verb, target, args, consent, Created, Active, "", map[], None)]
        else old(jobs)
      ensures r.Ok? && password ==> r.value in held
    {
      r := Admit(Job(verb, target, args, consent, Created, Active, "", map[], None), password);
    }

    /**
     `retry_job`: a new job with the same spec and no consent. The spec passed once, so only a
     busy key can still refuse it.
     */
    method Retry(i: nat) returns (r: Result<nat, Refusal>)
      requires Valid() && i < |jobs|
      modifies this`jobs, this`held
      ensures Valid()
      ensures var was := old(jobs)[i];
        r == if RetryRefusal(was).Some? then Err(RetryRefusal(was).value)
             else if was.verb == "init" && i !in old(held) then Err(SecretsMissing)
             else if Busy(rules, old(jobs), KeyOf(rules, was)) then Err(ProjectBusy)
             else Ok(|old(jobs)|)
      ensures var was := old(jobs)[i];
        jobs == if r.Ok? then old(jobs)
          + [Job(was.verb, was.target, was.args, false, RetryOf(i), Active, "", map[], None)]
                else old(jobs)
      ensures r.Ok? ==> old(jobs)[i].state == Failed
      ensures r.Ok? ==> (r.value in held <==> i in old(held))
      ensures held <= old(held) + if r.Ok? then {r.value} else {}
    {
      Read(i);
      var was := jobs[i];
      var refusal := RetryRefusal(was);
      if refusal.Some? {
        return Err(refusal.value);
      }
      if was.verb == "init" && i !in held {
        return Err(SecretsMissing);
      }
      r := Admit(Job(was.verb, was.target, was.args, false, RetryOf(i), Active, "", map[], None), i in held);
    }

    /** `continue_job` up to the admission of the answer's job. The waiting one is as it was. */
    method Continue(i: nat, target: Fields, args: Fields, consent: bool) returns (r: Result<nat, Refusal>)
      requires Valid() && i < |jobs|
      modifies this
      ensures Valid()
      ensures var was := old(jobs)[i];
        r == if ContinueRefusal(was, target, i in old(held)).Some? then
          Err(ContinueRefusal(was, target, i in old(held)).value)
             else if !ValidSpec(rules, was.verb, target, args) then Err(SpecInvalid)
             else if Busy(rules, old(jobs), ProjectKey(rules, was.verb, target)) then Err(ProjectBusy)
             else Ok(|old(jobs)|)
      ensures var was := old(jobs)[i];
        jobs == if r.Ok? then old(jobs) + [Job(was.verb, target, args, consent, ContinueOf(i), Active, "", map[], None)]
                else old(jobs)
      ensures answering == old(answering) + if r.Ok? then {(i, r.value)} else {}
      ensures r.Ok? ==> (r.value in held <==> i in old(held))
      ensures held <= old(held) + if r.Ok? then {r.value} else {}
    {
      Read(i);
      var was := jobs[i];
      var refusal := ContinueRefusal(was, target, i in held);
      if refusal.Some? {
        return Err(refusal.value);
      }
      r := Admit(Job(was.verb, target, args, consent, ContinueOf(i), Active, "", map[], None), i in held);
      if r.Ok? {
        FollowMore(old(jobs), answering, jobs[r.value], i);
        answering := answering + {(i, r.value)};
      }
    }

    /** Its last write, after whatever else happened since: the waiting job names the job admitted. */
    method Answer(i: nat, follow: nat)
      requires Valid() && (i, follow) in answering
      modifies this`jobs, this`answering
      ensures Valid() && answering == old(answering) - {(i, follow)}
      ensures jobs == old(jobs)[i := old(jobs)[i].(state := Answered, answeredBy := Some(follow))]
      ensures jobs[follow].origin == ContinueOf(i)
    {
      SetKeepsInv(rules, jobs, i, jobs[i].(state := Answered, answeredBy := Some(follow)));
      jobs := jobs[i := jobs[i].(state := Answered, answeredBy := Some(follow))];
      answering := answering - {(i, follow)};
    }

    /** A terminal record, of the worker or of a refresh. */
    method Finish(i: nat, state: State, error: string, result: Fields)
      requires Valid() && i < |jobs| && state != Answered && state != Active
      modifies this`jobs
      ensures Valid()
      ensures jobs == old(jobs)[i := old(jobs)[i].(state := state, error := error, result := result)]
    {
      SetKeepsInv(rules, jobs, i, jobs[i].(state := state, error := error, result := result));
      jobs := jobs[i := jobs[i].(state := state, error := error, result := result)];
    }
  }

  lemma AdmitKeepsInv(rules: Rules, jobs: seq<Job>, job: Job)
    requires Inv(jobs) && Admitted(rules, jobs) && Descends(jobs + [job], |jobs|) && job.state == Active
      && job.answeredBy == None
    requires ValidSpec(rules, job.verb, job.target, job.args) && !Busy(rules, jobs, KeyOf(rules, job))
    ensures Inv(jobs + [job]) && Admitted(rules, jobs + [job])
  {
    forall i | 0 <= i < |jobs| ensures Descends(jobs + [job], i) && !Blocks(rules, jobs[i], KeyOf(rules, job)) {
      assert Descends(jobs, i);
    }
  }

  /** Changing a job's outcome leaves every descent alone. */
  lemma SetKeepsInv(rules: Rules, jobs: seq<Job>, i: nat, job: Job)
    requires Inv(jobs) && Admitted(rules, jobs) && i < |jobs| && job.state != Active
    requires job == jobs[i].(state := job.state, error := job.error, result := job.result, answeredBy := job.answeredBy)
    requires job.answeredBy != jobs[i].answeredBy ==>
      job.answeredBy.Some? && job.answeredBy.value < |jobs| && jobs[job.answeredBy.value].origin == ContinueOf(i)
    requires job.state == Answered ==> job.answeredBy.Some?
    ensures Inv(jobs[i := job]) && Admitted(rules, jobs[i := job])
  {
    SetKeepsDescents(jobs, i, job, jobs[i := job]);
    SetKeepsAdmitted(rules, jobs, i, job);
  }

  lemma SetKeepsDescents(jobs: seq<Job>, i: nat, job: Job, after: seq<Job>)
    requires i < |jobs| && after == jobs[i := job] && forall k :: 0 <= k < |jobs| ==> Descends(jobs, k)
    requires job == jobs[i].(state := job.state, error := job.error, result := job.result, answeredBy := job.answeredBy)
    ensures forall k :: 0 <= k < |after| ==> Descends(after, k)
  {
    forall k | 0 <= k < |after| ensures Descends(after, k) {
      assert Descends(jobs, k);
    }
  }

  lemma SetKeepsAdmitted(rules: Rules, jobs: seq<Job>, i: nat, job: Job)
    requires Admitted(rules, jobs) && i < |jobs| && job.state != Active
    requires job.verb == jobs[i].verb && job.target == jobs[i].target && job.args == jobs[i].args
    ensures Admitted(rules, jobs[i := job])
  {
    var after := jobs[i := job];
    forall k | 0 <= k < |after| ensures ValidSpec(rules, after[k].verb, after[k].target, after[k].args) {
      assert ValidSpec(rules, jobs[k].verb, jobs[k].target, jobs[k].args);
    }
  }
}
