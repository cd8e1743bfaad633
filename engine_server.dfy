/**
 * The simulated server of the matrix engine: an explicit lifecycle state
 * machine Initial -> Running <-> Paused -> Crashed -> Running ... over a
 * step queue that exists from Start until the next Crash.
 *
 * Effects outside the model are: building node services and the node
 * itself, releasing fiber resources, and the transport's own port table.
 * The transport is represented only by the set of its open endpoints, which
 * starting the node adds to and a crash clears, and the process heap only by
 * its allocated-byte count, which starting the node raises and a crash
 * resets.
 */
module EngineServer {
  import opened StepQueues
  import opened MonotonicClocks

  datatype State = Initial | Running | Paused | Crashed

  class Server {
    var state: State
    /** The step queue; null before the first Start and after a Crash. */
    var steps: StepQueue?
    /** Bytes allocated on the server's process heap. */
    var heapBytes: nat
    /** Open endpoints (ports) of the server's transport. */
    var endpoints: set<nat>
    const clock: MonotonicClock

    ghost predicate Valid()
      reads this, steps
    {
      && (state == Running ==> steps != null)
      && (state == Initial || state == Crashed ==> steps == null)
      && (steps != null ==> steps.Valid())
    }

    constructor (drift: Drift, globalNow: nat, clockInit: nat)
      ensures Valid() && state == Initial && steps == null
      ensures heapBytes == 0 && endpoints == {}
      ensures fresh(clock) && clock.drift == drift
    {
      state := Initial;
      steps := null;
      heapBytes := 0;
      endpoints := {};
      clock := new MonotonicClock(drift, globalNow, clockInit);
    }

    /** The destructor's check: a server may only be destroyed once it has crashed. */
    predicate CanDestroy()
      reads this
    {
      state == Crashed
    }

    method IsAlive() returns (alive: bool)
      ensures alive <==> state == Running || state == Paused
    {
      alive := state == Running || state == Paused;
    }

    /** Kills the process: drops every endpoint, the step queue and the heap. */
    method Crash()
      requires Valid() && state != Crashed
      modifies this
      ensures Valid() && state == Crashed && CanDestroy()
      ensures steps == null && heapBytes == 0 && endpoints == {}
    {
      endpoints := {};
      steps := null;
      heapBytes := 0;
      state := Crashed;
    }

    /**
     * Boots the node: resets the monotonic clock, creates a fresh, empty step
     * queue and starts the node. `clockInit` is the value the time model gives
     * the clock; `nodeBytes` is what the queue, the node services and the node
     * take on the server's heap, and `ports` the endpoints the node opens as
     * it starts. What the node does is not part of this model.
     */
    method Start(globalNow: nat, clockInit: nat, nodeBytes: nat, ports: set<nat>)
      requires Valid() && (state == Initial || state == Crashed)
      modifies this, clock
      ensures Valid() && state == Running
      ensures steps != null && fresh(steps) && steps.entries == []
      ensures clock.lastReset == globalNow && clock.init == clockInit
      ensures clock.Now(globalNow) == clock.drift.elapsed(0) + clockInit
      ensures heapBytes == old(heapBytes) + nodeBytes && endpoints == old(endpoints) + ports
    {
      clock.Reset(globalNow, clockInit);
      steps := new StepQueue();
      heapBytes := heapBytes + nodeBytes;
      endpoints := endpoints + ports;
      state := Running;
    }

    /** Crash then Start: the node is started again on an emptied heap with no old endpoints. */
    method FastReboot(globalNow: nat, clockInit: nat, nodeBytes: nat, ports: set<nat>)
      requires Valid() && state != Crashed
      modifies this, clock
      ensures Valid() && state == Running
      ensures steps != null && fresh(steps) && steps.entries == []
      ensures heapBytes == nodeBytes && endpoints == ports
      ensures clock.lastReset == globalNow && clock.init == clockInit
    {
      Crash();
      Start(globalNow, clockInit, nodeBytes, ports);
    }

    /** Stops delivering steps; the source lets this run from any state but Paused. */
    method Pause()
      requires Valid() && state != Paused
      modifies this
      ensures Valid() && state == Paused
      ensures steps == old(steps) && heapBytes == old(heapBytes) && endpoints == old(endpoints)
    {
      state := Paused;
    }

    /**
     * Resumes a paused server: every step dated before `globalNow` is taken
     * and queued again at `globalNow`, so that no step runs in the past.
     */
    method Resume(globalNow: nat)
      requires Valid() && state == Paused && steps != null
      modifies this, steps
      ensures Valid() && state == Running && steps == old(steps)
      ensures steps.entries == Resumed(old(steps.entries), globalNow)
      ensures forall e :: e in steps.entries ==> e.time >= globalNow
      ensures |steps.entries| == |old(steps.entries)|
      ensures heapBytes == old(heapBytes) && endpoints == old(endpoints)
    {
      RequeueOverdue(steps, globalNow);
      state := Running;
    }

    method IsRunnable() returns (runnable: bool)
      requires Valid()
      ensures runnable <==> state == Running && steps.entries != []
      ensures runnable ==> steps != null && steps.Valid() && steps.entries != []
    {
      if state != Running {
        return false;
      }
      runnable := !steps.IsEmpty();
    }

    method NextStepTime() returns (t: nat)
      requires Valid() && steps != null && steps.entries != []
      ensures t == steps.entries[0].time
      ensures forall e :: e in steps.entries ==> t <= e.time
    {
      t := steps.NextStepTime();
    }

    /** Takes the earliest pending step; the caller runs the returned action. */
    method Step() returns (action: Action)
      requires Valid() && steps != null && steps.entries != []
      modifies steps
      ensures Valid()
      ensures action == old(steps.entries[0]).action
      ensures steps.entries == old(steps.entries[1..])
    {
      var step := steps.TakeNext();
      action := step.action;
    }

    /** Crashes the server unless it has crashed already, so a second call does nothing. */
    method Shutdown()
      requires Valid()
      modifies this
      ensures Valid() && state == Crashed && steps == null && CanDestroy()
      ensures old(state) == Crashed ==> heapBytes == old(heapBytes) && endpoints == old(endpoints)
      ensures old(state) != Crashed ==> heapBytes == 0 && endpoints == {}
    {
      if state != Crashed {
        Crash();
      }
    }

    /**
     * Contribution of this server to the world's digest: zero for a crashed
     * server, otherwise `combine` (the digest calculator, not modelled) of the
     * heap's allocated bytes and the database's own digest.
     */
    method ComputeDigest(dbDigest: nat, combine: (nat, nat) -> nat) returns (digest: nat)
      ensures state == Crashed ==> digest == 0
      ensures state != Crashed ==> digest == combine(heapBytes, dbDigest)
    {
      if state == Crashed {
        return 0;
      }
      digest := combine(heapBytes, dbDigest);
    }
  }

  /** Shutting a server down twice leaves it exactly as the first shutdown did. */
  method ShutdownTwice(s: Server)
    requires s.Valid()
    modifies s
    ensures s.Valid() && s.state == Crashed && s.steps == null && s.CanDestroy()
    ensures old(s.state) == Crashed ==> s.heapBytes == old(s.heapBytes) && s.endpoints == old(s.endpoints)
    ensures old(s.state) != Crashed ==> s.heapBytes == 0 && s.endpoints == {}
  {
    s.Shutdown();
    s.Shutdown();
  }
}
