/**
 * The older simulated server: a `paused` flag instead of a state machine, and
 * an event queue that always exists and is cleared on a crash. The node is
 * created by Create and started by Start; a crash releases it.
 *
 * The node factory, node services, the node's own behaviour and the local
 * clocks are not part of this model; the process network is represented by
 * its set of open endpoints and the process heap by its allocated bytes.
 */
module LegacyServer {
  import opened StepQueues

  /** Decimal digits of `n`, most significant first, as a stream builder prints it. */
  function Decimal(n: nat): (s: string)
    ensures |s| >= 1
    ensures forall i :: 0 <= i < |s| ==> '0' <= s[i] <= '9'
    decreases n
  {
    if n < 10 then [Digit(n)] else Decimal(n / 10) + [Digit(n % 10)]
  }

  function Digit(d: nat): (c: char)
    requires d < 10
    ensures '0' <= c <= '9'
  {
    (d + '0' as int) as char
  }

  /** Reads back a non-empty string of decimal digits. */
  function ParseDecimal(s: string): (n: nat)
    requires |s| >= 1
    requires forall i :: 0 <= i < |s| ==> '0' <= s[i] <= '9'
    decreases |s|
  {
    var last := (s[|s| - 1] as int - '0' as int) as nat;
    if |s| == 1 then last else ParseDecimal(s[..|s| - 1]) * 10 + last
  }

  lemma {:induction false} DecimalRoundTrip(n: nat)
    ensures ParseDecimal(Decimal(n)) == n
    decreases n
  {
    if n >= 10 {
      var s := Decimal(n);
      assert s[..|s| - 1] == Decimal(n / 10);
      DecimalRoundTrip(n / 10);
    }
  }

  /** The server's name: "Server-" followed by its id in decimal. */
  function MakeName(id: nat): (name: string)
    ensures name == "Server-" + Decimal(id)
    ensures |name| > 7 && name[..7] == "Server-"
    ensures forall i :: 7 <= i < |name| ==> '0' <= name[i] <= '9'
    ensures ParseDecimal(name[7..]) == id
  {
    DecimalRoundTrip(id);
    var name := "Server-" + Decimal(id);
    assert name[7..] == Decimal(id);
    name
  }

  /** Distinct ids give distinct server names. */
  lemma NamesAreUnique(a: nat, b: nat)
    requires MakeName(a) == MakeName(b)
    ensures a == b
  {
  }

  class Server {
    const id: nat
    const name: string
    var paused: bool
    const events: StepQueue
    /** Whether the node object exists on the heap (Create makes it, Crash releases it). */
    var hasNode: bool
    var heapBytes: nat
    var endpoints: set<nat>

    ghost predicate Valid()
      reads this, events
    {
      events.Valid()
    }

    /**
     * Names the server and creates its node, not yet started; `nodeBytes` is
     * what the node services and the node take on the server's heap.
     */
    constructor (id: nat, nodeBytes: nat)
      ensures Valid() && this.id == id && name == MakeName(id)
      ensures !paused && hasNode && events.entries == [] && fresh(events)
      ensures heapBytes == nodeBytes && endpoints == {}
    {
      this.id := id;
      name := MakeName(id);
      paused := false;
      events := new StepQueue();
      heapBytes := nodeBytes;
      endpoints := {};
      hasNode := true;
    }

    /** Creates the node anew; its services and the node take `nodeBytes` bytes of the heap. */
    method Create(nodeBytes: nat)
      modifies this
      ensures hasNode && heapBytes == old(heapBytes) + nodeBytes
      ensures paused == old(paused) && endpoints == old(endpoints)
    {
      hasNode := true;
      heapBytes := heapBytes + nodeBytes;
    }

    /**
     * Starts the node; the node's own start-up is not modelled beyond the
     * endpoints `ports` that it opens.
     */
    method Start(ports: set<nat>)
      requires hasNode
      modifies this
      ensures endpoints == old(endpoints) + ports
      ensures hasNode && paused == old(paused) && heapBytes == old(heapBytes)
    {
      endpoints := endpoints + ports;
    }

    method Pause()
      requires !paused
      modifies this
      ensures paused && hasNode == old(hasNode)
      ensures heapBytes == old(heapBytes) && endpoints == old(endpoints)
    {
      paused := true;
    }

    /** Re-queues every event dated before `globalNow` at `globalNow`, then clears the flag. */
    method Resume(globalNow: nat)
      requires Valid() && paused
      modifies this, events
      ensures Valid() && !paused && hasNode == old(hasNode)
      ensures events.entries == Resumed(old(events.entries), globalNow)
      ensures forall e :: e in events.entries ==> e.time >= globalNow
      ensures |events.entries| == |old(events.entries)|
      ensures heapBytes == old(heapBytes) && endpoints == old(endpoints)
    {
      RequeueOverdue(events, globalNow);
      paused := false;
    }

    method IsRunnable() returns (runnable: bool)
      ensures runnable <==> !paused && events.entries != []
    {
      if paused {
        return false;
      }
      runnable := !events.IsEmpty();
    }

    method NextStepTime() returns (t: nat)
      requires Valid() && events.entries != []
      ensures t == events.entries[0].time
      ensures forall e :: e in events.entries ==> t <= e.time
    {
      t := events.NextStepTime();
    }

    /** Takes the earliest pending event; the caller runs the returned action. */
    method Step() returns (action: Action)
      requires Valid() && events.entries != []
      modifies events
      ensures Valid()
      ensures action == old(events.entries[0]).action
      ensures events.entries == old(events.entries[1..])
    {
      var event := events.TakeNext();
      action := event.action;
    }

    /** Kills the process: drops endpoints, every pending event, the node and the heap. */
    method Crash()
      modifies this, events
      ensures Valid() && !paused && !hasNode
      ensures events.entries == [] && heapBytes == 0 && endpoints == {}
    {
      endpoints := {};
      events.Clear();
      hasNode := false;
      heapBytes := 0;
      paused := false;
    }

    /** Crash, Create and Start: a fresh node on an emptied heap, with only its new endpoints. */
    method Reboot(nodeBytes: nat, ports: set<nat>)
      modifies this, events
      ensures Valid() && !paused && hasNode
      ensures events.entries == [] && heapBytes == nodeBytes && endpoints == ports
    {
      Crash();
      Create(nodeBytes);
      Start(ports);
    }

    method Shutdown()
      modifies this, events
      ensures Valid() && !paused && !hasNode
      ensures events.entries == [] && heapBytes == 0 && endpoints == {}
    {
      Crash();
    }

    /** The destructor: the server is crashed on its way out. */
    method Destroy()
      modifies this, events
      ensures Valid() && !paused && !hasNode
      ensures events.entries == [] && heapBytes == 0 && endpoints == {}
    {
      Crash();
    }
  }
}
