/**
 Two operations that take an instance down or up on the way to something else: removing a bench
 from a stopped instance, and restarting an instance with the benches that were serving.

 What the tools they call do is an input: each call either returns, raises an exception, or is cut
 short by the interrupt signal, which in Python is not an `Exception`.
 */
module Instance {
  import opened Text

  datatype Attempt<+T> = Done(value: T) | Raises | Cut

  // ---------------------------------------------------------------- results

  datatype Status = Okay | Warning | NeedsChoice | Error

  /** A result's payload, as far as success is read from it. */
  datatype Data =
    | Nothing
    | Dict(ok: Option<bool>)
    | Object(ok: Option<bool>, cleanShutdown: Option<bool>, failures: nat)

  datatype Outcome = Outcome(status: Status, data: Data)

  /** The code's `_result_ok`. */
  predicate ResultOk(r: Outcome) {
    match r.data
    case Nothing => r.status.Okay? || r.status.Warning?
    case Dict(ok) => if ok.Some? then ok.value else true
    case Object(ok, clean, failures) => if ok.Some? then ok.value else clean != Some(false) && failures == 0
  }

  // ---------------------------------------------------------------- removing a bench

  datatype Container = Container(service: string, running: bool)

  /** The instance was down: its frappe container exists and does not run. */
  predicate WasStopped(containers: seq<Container>) {
    exists i :: 0 <= i < |containers| && containers[i].service == "frappe" && !containers[i].running
  }

  method FrappeStopped(containers: seq<Container>) returns (stopped: bool)
    ensures stopped == WasStopped(containers)
  {
    for i := 0 to |containers|
      invariant forall j :: 0 <= j < i ==> !(containers[j].service == "frappe" && !containers[j].running)
    {
      if containers[i].service == "frappe" && !containers[i].running {
        return true;
      }
    }
    return false;
  }

  /** How `_remove_bench` was left. */
  datatype Exit = Returned(r: Outcome) | Raised | Interrupted

  /**
   What happens, in order: the calls, an interrupt that lands after the removal returned or raised
   and before the stop is entered, the stop, and an interrupt behind it, as while its warning is
   recorded.
   */
  datatype Calls = Calls(containers: Attempt<seq<Container>>, start: Attempt<()>, removal: Attempt<Outcome>,
                         interruptBeforeStop: bool, stop: Attempt<()>, interruptAfterStop: bool)

  /** The operation got as far as possibly starting the containers of a stopped instance. */
  predicate StartedIt(c: Calls) {
    c.containers.Done? && WasStopped(c.containers.value)
  }

  /** The removal came back, with success and without a question. */
  predicate Completed(c: Calls) {
    c.start.Done? && c.removal.Done? && !c.removal.value.status.NeedsChoice? && ResultOk(c.removal.value)
  }

  /** An interrupt lands between the start and the stop attempt. */
  predicate InterruptedBetween(c: Calls) {
    c.start.Cut? || (c.start.Done? && c.removal.Cut?) || c.interruptBeforeStop
  }

  /** Which results count as success: an explicit verdict first; otherwise a clean shutdown without failures. */
  lemma ResultMeans(r: Outcome)
    ensures r.data.Nothing? ==> (ResultOk(r) <==> r.status in {Okay, Warning})
    ensures r.data.Dict? ==> (ResultOk(r) <==> r.data.ok != Some(false))
    ensures r.data.Object? ==>
      (ResultOk(r) <==>
        r.data.ok == Some(true) || (r.data.ok == None && r.data.cleanShutdown != Some(false) && r.data.failures == 0))
  {
  }

  /** When a removal is taken for completed, and when an instance for one that was down. */
  lemma CompletedMeans(c: Calls)
    ensures Completed(c) <==>
      && c.start.Done? && c.removal.Done? && c.removal.value.status != NeedsChoice
      && match c.removal.value.data
         case Nothing => c.removal.value.status == Okay || c.removal.value.status == Warning
         case Dict(ok) => ok != Some(false)
         case Object(ok, clean, failures) => ok == Some(true) || (ok == None && clean != Some(false) && failures == 0)
    ensures StartedIt(c) <==>
      c.containers.Done? && exists x :: x in c.containers.value && x.service == "frappe" && !x.running
  {
    ResultMeans(if c.removal.Done? then c.removal.value else Outcome(Okay, Nothing));
  }

  class Machine {
    var stopAttempts: nat
    var started: seq<Bench>           // the benches started, in order
    var containersUp: bool            // the containers alone were brought back

    constructor ()
      ensures stopAttempts == 0 && started == [] && !containersUp
    {
      stopAttempts, started, containersUp := 0, [], false;
    }

    /** `_stop_again`: an attempt that raises is a warning; an interrupt still gets through. */
    method StopAgain(stop: Attempt<()>) returns (interrupted: bool)
      modifies this`stopAttempts
      ensures stopAttempts == old(stopAttempts) + 1 && interrupted == stop.Cut?
    {
      stopAttempts := stopAttempts + 1;
      interrupted := stop.Cut?;
    }

    /**
     `_remove_bench`: bring a stopped instance's containers up, remove, and undo the start when the
     removal did not complete. An instance that was running is never stopped; one that was stopped
     gets exactly one stop attempt if the removal did not complete, and none if it did, if and only
     if no interrupt lands on an uncompleted removal between the start and that attempt.
     */
    method RemoveBench(c: Calls) returns (exit: Exit)
      modifies this`stopAttempts
      ensures !StartedIt(c) ==> stopAttempts == old(stopAttempts)
      ensures stopAttempts == old(stopAttempts) + (if StartedIt(c) && !Completed(c) then 1 else 0) <==>
        !(StartedIt(c) && !Completed(c) && InterruptedBetween(c))
      ensures old(stopAttempts) <= stopAttempts <= old(stopAttempts) + 1
      ensures exit.Returned? ==> c.containers.Done? && c.start.Done? && c.removal == Done(exit.r)
      ensures exit.Raised? ==> c.containers.Raises? || c.start.Raises? || (c.start.Done? && c.removal.Raises?)
      ensures exit.Interrupted? <==>
        || c.containers.Cut?
        || (c.containers.Done? && InterruptedBetween(c))
        || (StartedIt(c) && !Completed(c) && (c.stop.Cut? || c.interruptAfterStop))
    {
      if !c.containers.Done? {
        return if c.containers.Raises? then Raised else Interrupted;
      }
      var started := FrappeStopped(c.containers.value);
      if c.start.Cut? || (c.start.Done? && c.removal.Cut?) {
        return Interrupted;
      }
      if c.interruptBeforeStop {
        return Interrupted;
      }
      if c.start.Raises? || c.removal.Raises? {
        if started {
          var interrupted := StopAgain(c.stop);
          if interrupted || c.interruptAfterStop {
            return Interrupted;
          }
        }
        return Raised;
      }
      var r := c.removal.value;
      if started && (r.status.NeedsChoice? || !ResultOk(r)) {
        var interrupted := StopAgain(c.stop);
        if interrupted || c.interruptAfterStop {
          return Interrupted;
        }
      }
      return Returned(r);
    }

    /**
     The three places an interrupt can leave a stopped instance up: in the removal, behind it,
     and in the handler of its exception.
     */
    method InterruptLeavesItUp()
      modifies this`stopAttempts
      ensures stopAttempts == old(stopAttempts)
    {
      var stopped := [Container("frappe", false)];
      assert stopped[0].service == "frappe";
      var cut := Calls(Done(stopped), Done(()), Cut, false, Done(()), false);
      var behind := Calls(Done(stopped), Done(()), Done(Outcome(NeedsChoice, Nothing)), true, Done(()), false);
      var handler := Calls(Done(stopped), Raises, Cut, true, Done(()), false);
      assert !Completed(cut) && !Completed(behind) && !Completed(handler);
      var exit := RemoveBench(cut);
      exit := RemoveBench(behind);
      exit := RemoveBench(handler);
    }

    // ---------------------------------------------------------------- restarting

    /**
     `_restart_serving_benches`: what was serving comes back, in order, up to the first start
     that raises, and nothing else.
     */
    method RestartServing(frappeRunning: bool, cached: seq<Bench>, fallback: Bench, cleanShutdown: Option<bool>,
        failing: Option<nat>)
      returns (raised: bool)
      requires started == [] && !containersUp
      modifies this
      ensures stopAttempts == old(stopAttempts) + 1
      ensures var serving := Serving(frappeRunning, Probed(cached, fallback));
        if cleanShutdown == Some(false) then started == [] && !containersUp && !raised
        else if serving == [] then started == [] && containersUp && !raised
        else if failing.Some? && failing.value < |serving| then raised && started == serving[..failing.value]
          && !containersUp
        else !raised && started == serving && !containersUp
    {
      var serving := FindServing(frappeRunning, Probed(cached, fallback));
      stopAttempts := stopAttempts + 1;
      if cleanShutdown == Some(false) {
        return false;
      }
      if serving == [] {
        containersUp := true;
        return false;
      }
      var i := 0;
      while i < |serving|
        invariant 0 <= i <= |serving| && started == serving[..i] && !containersUp
        invariant failing.Some? ==> i <= failing.value
        invariant stopAttempts == old(stopAttempts) + 1
      {
        if failing == Some(i) {
          return true;
        }
        started := started + [serving[i]];
        i := i + 1;
      }
      return false;
    }
  }

  // ---------------------------------------------------------------- serving benches

  datatype Bench = Bench(path: string, supervised: bool, managed: bool)

  /** The benches looked at: the cached ones, or the default one when none is cached. */
  function Probed(cached: seq<Bench>, fallback: Bench): seq<Bench> {
    if cached == [] then [fallback] else cached
  }

  predicate Serves(b: Bench) {
    b.supervised || b.managed
  }

  /** The benches that serve, in the cache's order; none while the container is down. */
  function Serving(frappeRunning: bool, benches: seq<Bench>): seq<Bench> {
    if frappeRunning then Filter(benches, Serves) else []
  }

  method FindServing(frappeRunning: bool, benches: seq<Bench>) returns (serving: seq<Bench>)
    ensures serving == Serving(frappeRunning, benches)
  {
    serving := [];
    if !frappeRunning {
      return;
    }
    var i := 0;
    while i < |benches|
      invariant 0 <= i <= |benches| && serving == Filter(benches[..i], Serves)
    {
      FilterNext(benches, Serves, i);
      if benches[i].supervised || benches[i].managed {
        serving := serving + [benches[i]];
      }
      i := i + 1;
    }
    assert benches[..i] == benches;
  }

  /**
   What a restart brings back when every start returns: of the cached benches, or of the default one
   when none is cached, each that is supervised or managed, once, in order, and nothing else; none
   when the container was down.
   */
  lemma ServingIsExact(frappeRunning: bool, cached: seq<Bench>, fallback: Bench) returns (at: seq<nat>)
    ensures var serving := Serving(frappeRunning, Probed(cached, fallback));
      var benches := if cached == [] then [fallback] else cached;
      && |at| == |serving|
      && (forall k :: 0 <= k < |at| ==> at[k] < |benches| && serving[k] == benches[at[k]])
      && (forall k, l :: 0 <= k < l < |at| ==> at[k] < at[l])
      && forall i :: 0 <= i < |benches| ==>
           (i in at <==> frappeRunning && (benches[i].supervised || benches[i].managed))
  {
    at := [];
    if frappeRunning {
      at := FilterPositions(Probed(cached, fallback), Serves);
    }
  }
}
