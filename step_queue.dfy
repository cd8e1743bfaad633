/**
 * The per-actor queue of pending steps (callbacks), ordered by virtual time.
 * Its own code is not part of this model; it is modelled abstractly as a
 * time-ordered sequence in which a step added at time t goes after every
 * step already queued at a time <= t (ties are broken by insertion order).
 */
module StepQueues {

  /** Identity of the closure a step runs; what the closure does is not modelled. */
  type Action = nat

  datatype Step = Step(time: nat, action: Action)

  ghost predicate Ordered(q: seq<Step>) {
    forall i, j :: 0 <= i < j < |q| ==> q[i].time <= q[j].time
  }

  /** The queue after adding `x`: it goes after every step dated no later than it. */
  function Insert(q: seq<Step>, x: Step): (r: seq<Step>)
    ensures |r| == |q| + 1
    ensures multiset(r) == multiset(q) + multiset{x}
  {
    if q == [] then [x]
    else if q[0].time <= x.time then
      assert q == [q[0]] + q[1..];
      [q[0]] + Insert(q[1..], x)
    else [x] + q
  }

  /** Adding a step keeps the queue ordered. */
  lemma {:induction false} InsertOrdered(q: seq<Step>, x: Step)
    requires Ordered(q)
    ensures Ordered(Insert(q, x))
  {
    if q != [] && q[0].time <= x.time {
      InsertOrdered(q[1..], x);
      var r := Insert(q, x);
      assert r == [q[0]] + Insert(q[1..], x);
      forall i | 1 <= i < |r| ensures r[0].time <= r[i].time {
        assert r[i] in multiset(Insert(q[1..], x));
        assert r[i] in multiset(q[1..]) || r[i] == x;
      }
    }
  }

  /** Inserting between a prefix dated no later than `x` and a rest dated after it. */
  lemma {:induction false} InsertBetween(a: seq<Step>, b: seq<Step>, x: Step)
    requires forall i :: 0 <= i < |a| ==> a[i].time <= x.time
    requires b == [] || b[0].time > x.time
    ensures Insert(a + b, x) == a + [x] + b
  {
    if a == [] {
      assert a + b == b;
    } else {
      assert (a + b)[0] == a[0];
      assert (a + b)[1..] == a[1..] + b;
      InsertBetween(a[1..], b, x);
      assert a + [x] + b == [a[0]] + (a[1..] + [x] + b);
    }
  }

  /** The number of leading steps dated strictly before `t`. */
  function CountBefore(q: seq<Step>, t: nat): (n: nat)
    ensures n <= |q|
    ensures forall i :: 0 <= i < n ==> q[i].time < t
    ensures n < |q| ==> q[n].time >= t
  {
    if q == [] || q[0].time >= t then 0 else 1 + CountBefore(q[1..], t)
  }

  /** In an ordered queue, the steps dated before `t` are exactly the leading ones. */
  lemma BeforeIsPrefix(q: seq<Step>, t: nat, i: nat)
    requires Ordered(q)
    requires i < |q|
    ensures q[i].time < t <==> i < CountBefore(q, t)
  {
  }

  lemma {:induction false} CountBeforeMonotone(q: seq<Step>, t: nat, u: nat)
    requires t <= u
    ensures CountBefore(q, t) <= CountBefore(q, u)
  {
    if q != [] && q[0].time < t {
      CountBeforeMonotone(q[1..], t, u);
    }
  }

  /** The count of leading steps before `t` in a prefix-then-rest queue. */
  lemma {:induction false} CountBeforeAppend(a: seq<Step>, b: seq<Step>, t: nat)
    requires forall i :: 0 <= i < |a| ==> a[i].time < t
    requires b == [] || b[0].time >= t
    ensures CountBefore(a + b, t) == |a|
  {
    if a == [] {
      assert a + b == b;
    } else {
      assert (a + b)[1..] == a[1..] + b;
      CountBeforeAppend(a[1..], b, t);
    }
  }

  /** The same steps, all dated `t`, in the same order. */
  function Retimed(q: seq<Step>, t: nat): (r: seq<Step>)
    ensures |r| == |q|
    ensures forall i :: 0 <= i < |r| ==> r[i] == Step(t, q[i].action)
  {
    seq(|q|, i requires 0 <= i < |q| => Step(t, q[i].action))
  }

  /**
   * The queue a resume at time `now` leaves: the steps already dated `now`,
   * then every overdue step re-dated to `now` in its original order, then the
   * steps dated after `now`.
   */
  function Resumed(q: seq<Step>, now: nat): seq<Step> {
    var k := CountBefore(q, now);
    var m := CountBefore(q, now + 1);
    CountBeforeMonotone(q, now, now + 1);
    q[k..m] + Retimed(q[..k], now) + q[m..]
  }

  /** After a resume no step is dated before `now`, and the queue stays ordered. */
  lemma {:induction false} ResumedNotInPast(q: seq<Step>, now: nat)
    requires Ordered(q)
    ensures Ordered(Resumed(q, now))
    ensures forall e :: e in Resumed(q, now) ==> e.time >= now
  {
    var k := CountBefore(q, now);
    var m := CountBefore(q, now + 1);
    CountBeforeMonotone(q, now, now + 1);
    var r := Resumed(q, now);
    assert r == q[k..m] + Retimed(q[..k], now) + q[m..];
    forall i | 0 <= i < |r| ensures now <= r[i].time && (i < m ==> r[i].time == now) && (i >= m ==> r[i] == q[i]) {
      if i < m - k {
        assert r[i] == q[k + i];
      } else if i < m {
        assert r[i] == Retimed(q[..k], now)[i - (m - k)];
      } else {
        assert r[i] == q[i];
        assert q[k].time >= now;
      }
    }
  }

  /** A resume re-dates exactly the overdue steps: same length, same actions, same later steps. */
  lemma {:induction false} ResumedKeepsSteps(q: seq<Step>, now: nat)
    requires Ordered(q)
    ensures |Resumed(q, now)| == |q|
    ensures forall i :: 0 <= i < |q| && q[i].time < now ==> Step(now, q[i].action) in Resumed(q, now)
    ensures forall i :: 0 <= i < |q| && q[i].time >= now ==> q[i] in Resumed(q, now)
  {
    CountBeforeMonotone(q, now, now + 1);
    forall i | 0 <= i < |q| && q[i].time < now ensures Step(now, q[i].action) in Resumed(q, now) {
      OverdueRequeued(q, now, i);
    }
    forall i | 0 <= i < |q| && q[i].time >= now ensures q[i] in Resumed(q, now) {
      OnTimeKept(q, now, i);
    }
  }

  /** An overdue step reappears re-dated to `now`, after the steps already dated `now`. */
  lemma OverdueRequeued(q: seq<Step>, now: nat, i: nat)
    requires Ordered(q) && i < |q| && q[i].time < now
    ensures Step(now, q[i].action) in Resumed(q, now)
  {
    var k := CountBefore(q, now);
    var m := CountBefore(q, now + 1);
    CountBeforeMonotone(q, now, now + 1);
    BeforeIsPrefix(q, now, i);
    var r := Resumed(q, now);
    assert r[m - k + i] == Retimed(q[..k], now)[i];
  }

  /** A step not overdue stays in the queue as it was. */
  lemma OnTimeKept(q: seq<Step>, now: nat, i: nat)
    requires Ordered(q) && i < |q| && q[i].time >= now
    ensures q[i] in Resumed(q, now)
  {
    var k := CountBefore(q, now);
    var m := CountBefore(q, now + 1);
    CountBeforeMonotone(q, now, now + 1);
    BeforeIsPrefix(q, now, i);
    var r := Resumed(q, now);
    if i < m {
      assert r[i - k] == q[i];
    } else {
      assert r[i] == q[i];
    }
  }

  /**
   * The abstract step queue. `entries` is its content in the order TakeNext
   * would return it.
   */
  class StepQueue {
    var entries: seq<Step>

    ghost predicate Valid()
      reads this
    {
      Ordered(entries)
    }

    constructor ()
      ensures Valid() && entries == []
    {
      entries := [];
    }

    predicate IsEmpty()
      reads this
    {
      entries == []
    }

    /** The time of the earliest pending step. */
    function NextStepTime(): (t: nat)
      reads this
      requires Valid() && entries != []
      ensures forall e :: e in entries ==> t <= e.time
    {
      entries[0].time
    }

    method Add(time: nat, action: Action)
      requires Valid()
      modifies this
      ensures Valid()
      ensures entries == Insert(old(entries), Step(time, action))
    {
      InsertOrdered(entries, Step(time, action));
      entries := Insert(entries, Step(time, action));
    }

    /** Removes and returns the earliest pending step. */
    method TakeNext() returns (step: Step)
      requires Valid() && entries != []
      modifies this
      ensures Valid()
      ensures step == old(entries[0]) && entries == old(entries[1..])
      ensures forall e :: e in entries ==> step.time <= e.time
    {
      step := entries[0];
      entries := entries[1..];
    }

    method Clear()
      modifies this
      ensures Valid() && entries == []
    {
      entries := [];
    }
  }

  /**
   * The loop both server versions run on Resume: while the earliest pending
   * step is dated before `now`, take it and add it back at `now`. Afterwards
   * no step is in the past; the loop ends because the count of overdue steps
   * not yet re-queued goes down by one per round.
   */
  method RequeueOverdue(queue: StepQueue, now: nat)
    requires queue.Valid()
    modifies queue
    ensures queue.Valid()
    ensures queue.entries == Resumed(old(queue.entries), now)
    ensures forall e :: e in queue.entries ==> e.time >= now
    ensures |queue.entries| == |old(queue.entries)|
  {
    ghost var q := queue.entries;
    ghost var k := CountBefore(q, now);
    ghost var m := CountBefore(q, now + 1);
    CountBeforeMonotone(q, now, now + 1);
    ResumeLoopBounds(q, now, k, m);
    ghost var j := 0;
    while !queue.IsEmpty() && queue.NextStepTime() < now
      invariant queue.Valid()
      invariant j <= k
      invariant queue.entries == Requeued(q, now, j, k, m)
      decreases k - j
    {
      ResumeLoopGuard(q, now, j, k, m);
      RequeueStep(q, now, j, k, m);
      var step := queue.TakeNext();
      queue.Add(now, step.action);
      j := j + 1;
    }
    ResumeLoopGuard(q, now, j, k, m);
    ResumedNotInPast(q, now);
    ResumedKeepsSteps(q, now);
  }

  /**
   * One round of the Resume loop: the head is the next overdue step, and
   * adding it back at `now` gives the working queue of the next round.
   */
  lemma RequeueStep(q: seq<Step>, now: nat, j: nat, k: nat, m: nat)
    requires k == CountBefore(q, now) && m == CountBefore(q, now + 1)
    requires j < k <= m
    ensures Requeued(q, now, j, k, m)[0] == q[j]
    ensures Insert(Requeued(q, now, j, k, m)[1..], Step(now, q[j].action)) == Requeued(q, now, j + 1, k, m)
  {
    RequeuedHead(q, now, j, k, m);
    RequeueInsert(q, now, j, k, m);
  }

  lemma RequeuedHead(q: seq<Step>, now: nat, j: nat, k: nat, m: nat)
    requires j < k <= m <= |q|
    ensures Requeued(q, now, j, k, m)[0] == q[j]
    ensures Requeued(q, now, j, k, m)[1..] == q[j + 1..k] + q[k..m] + Retimed(q[..j], now) + q[m..]
  {
    var r := Requeued(q, now, j, k, m);
    assert q[j..k] == [q[j]] + q[j + 1..k];
    assert r == [q[j]] + (q[j + 1..k] + q[k..m] + Retimed(q[..j], now) + q[m..]);
  }

  lemma RequeueInsert(q: seq<Step>, now: nat, j: nat, k: nat, m: nat)
    requires k == CountBefore(q, now) && m == CountBefore(q, now + 1)
    requires j < k <= m
    ensures Insert(q[j + 1..k] + q[k..m] + Retimed(q[..j], now) + q[m..], Step(now, q[j].action))
              == Requeued(q, now, j + 1, k, m)
  {
    var x := Step(now, q[j].action);
    var a := q[j + 1..k] + q[k..m] + Retimed(q[..j], now);
    PendingNotAfter(q, now, j, k, m);
    assert q[m..] == [] || q[m].time >= now + 1;
    InsertBetween(a, q[m..], x);
    RetimedSnoc(q, now, j);
    assert a + [x] == q[j + 1..k] + q[k..m] + (Retimed(q[..j], now) + [x]);
  }

  lemma RetimedSnoc(q: seq<Step>, now: nat, j: nat)
    requires j < |q|
    ensures Retimed(q[..j], now) + [Step(now, q[j].action)] == Retimed(q[..j + 1], now)
  {
  }

  /** Every step of the loop's working queue before the later steps is dated no later than `now`. */
  lemma PendingNotAfter(q: seq<Step>, now: nat, j: nat, k: nat, m: nat)
    requires k == CountBefore(q, now) && m == CountBefore(q, now + 1)
    requires j < k <= m
    ensures forall e :: e in q[j + 1..k] + q[k..m] + Retimed(q[..j], now) ==> e.time <= now
  {
  }

  /** The working queue of the Resume loop after `j` overdue steps have been re-queued. */
  function Requeued(q: seq<Step>, now: nat, j: nat, k: nat, m: nat): seq<Step>
    requires j <= k <= m <= |q|
  {
    q[j..k] + q[k..m] + Retimed(q[..j], now) + q[m..]
  }

  /** The Resume loop starts from the queue itself and ends in Resumed. */
  lemma ResumeLoopBounds(q: seq<Step>, now: nat, k: nat, m: nat)
    requires k == CountBefore(q, now) && m == CountBefore(q, now + 1)
    requires k <= m
    ensures Requeued(q, now, 0, k, m) == q
    ensures Requeued(q, now, k, k, m) == Resumed(q, now)
  {
    assert q[..0] == [];
    assert Retimed(q[..0], now) == [];
    assert q[k..k] == [];
    assert q[0..k] + q[k..m] == q[..m];
    assert q[..m] + q[m..] == q;
  }

  /** While overdue steps remain, the earliest step is overdue; afterwards none is. */
  lemma ResumeLoopGuard(q: seq<Step>, now: nat, j: nat, k: nat, m: nat)
    requires k == CountBefore(q, now) && m == CountBefore(q, now + 1)
    requires j <= k <= m
    ensures var e := Requeued(q, now, j, k, m); (e != [] && e[0].time < now) <==> j < k
  {
    var e := Requeued(q, now, j, k, m);
    if j < k {
      assert e[0] == q[j];
    } else if k < m {
      assert e[0] == q[k];
    } else if j > 0 {
      assert e[0] == Retimed(q[..j], now)[0];
    } else if m < |q| {
      assert e[0] == q[m];
    }
  }
}
