/**
 * The brute-force linearizability checker for recorded histories. The search
 * picks a remaining call that no remaining call precedes in real time,
 * either skips it (incomplete calls only) or applies it to the model state,
 * and recurses on the rest; the remaining calls live in the prefix
 * calls[..count] of an array that the search permutes in place, swapping the
 * chosen call to the end of the prefix and back.
 *
 * The sequential model (`Model::Apply`) and the real-time order
 * (`PrecedesInRealTime`) are parameters of the model: function values about
 * which nothing is assumed.
 */
module LinCheck {
  import opened Wrappers

  type Value = string

  /** One recorded call; `result` is None while the call has not completed. */
  datatype Call = Call(name: string, arguments: seq<Value>, result: Option<Value>)
  {
    predicate IsCompleted() {
      result.Some?
    }
  }

  /** What the sequential model returns when it applies a call to a state. */
  datatype Applied<S> = Applied(ok: bool, value: Value, next: S)

  type Apply<!S> = (S, string, seq<Value>) -> Applied<S>
  type Precedes = (Call, Call) -> bool

  /** The remaining calls after the one at `i` is swapped to the end and dropped. */
  function Without(h: seq<Call>, i: nat): (r: seq<Call>)
    requires i < |h|
    ensures |r| == |h| - 1
    ensures multiset(r) + multiset{h[i]} == multiset(h)
  {
    var r := h[i := h[|h| - 1]][..|h| - 1];
    if i == |h| - 1 then
      assert h == r + [h[i]];
      r
    else
      assert r == h[..i] + [h[|h| - 1]] + h[i + 1..|h| - 1];
      assert h == h[..i] + [h[i]] + h[i + 1..|h| - 1] + [h[|h| - 1]];
      r
  }

  /** No call of `h` precedes `h[i]` in real time. */
  ghost predicate Candidate(h: seq<Call>, i: nat, precedes: Precedes)
    requires i < |h|
  {
    forall k :: 0 <= k < |h| ==> !precedes(h[k], h[i])
  }

  /**
   * Whether the search succeeds on the remaining calls `h` from model state
   * `s`: the empty history is linearizable, otherwise some candidate call is
   * a successful first choice.
   */
  ghost predicate Linearizable<S>(h: seq<Call>, s: S, apply: Apply<S>, precedes: Precedes)
    decreases |h|, 2, 0
  {
    |h| == 0 || ChoiceFrom(h, 0, s, apply, precedes)
  }

  /** Some call at position `i` or later of `h` is a successful first choice. */
  ghost predicate ChoiceFrom<S>(h: seq<Call>, i: nat, s: S, apply: Apply<S>, precedes: Precedes)
    requires i <= |h|
    decreases |h|, 1, |h| - i
  {
    i < |h| && (Choice(h, i, s, apply, precedes) || ChoiceFrom(h, i + 1, s, apply, precedes))
  }

  lemma {:induction false} ChoiceFromWitness<S>(h: seq<Call>, i: nat, s: S, apply: Apply<S>, precedes: Precedes)
    requires i <= |h|
    ensures ChoiceFrom(h, i, s, apply, precedes) <==> exists k: nat :: i <= k < |h| && Choice(h, k, s, apply, precedes)
    decreases |h| - i
  {
    if i < |h| {
      ChoiceFromWitness(h, i + 1, s, apply, precedes);
      if ChoiceFrom(h, i, s, apply, precedes) {
        if Choice(h, i, s, apply, precedes) {
          assert i <= i < |h| && Choice(h, i, s, apply, precedes);
          assert exists k: nat :: i <= k < |h| && Choice(h, k, s, apply, precedes);
        } else {
          var k :| i + 1 <= k < |h| && Choice(h, k, s, apply, precedes);
          assert i <= k < |h| && Choice(h, k, s, apply, precedes);
        }
      } else {
        forall k | i <= k < |h|
          ensures !Choice(h, k, s, apply, precedes)
        {
          if k > i {
            assert i + 1 <= k < |h|;
          }
        }
      }
    }
  }

  /** The search's definition agrees with "some remaining call is a successful first choice". */
  lemma LinearizableChoice<S>(h: seq<Call>, s: S, apply: Apply<S>, precedes: Precedes)
    ensures Linearizable(h, s, apply, precedes) <==>
              |h| == 0 || exists k: nat :: k < |h| && Choice(h, k, s, apply, precedes)
  {
    ChoiceFromWitness(h, 0, s, apply, precedes);
  }

  /**
   * Choosing `h[i]` first succeeds: it is a candidate, and either it is
   * incomplete and the rest succeeds from the same state, or the model
   * accepts it, returns the recorded result if there is one, and the rest
   * succeeds from the model's next state.
   */
  ghost predicate Choice<S>(h: seq<Call>, i: nat, s: S, apply: Apply<S>, precedes: Precedes)
    requires i < |h|
    decreases |h|, 0, 0
  {
    && Candidate(h, i, precedes)
    && (|| (!h[i].IsCompleted() && Linearizable(Without(h, i), s, apply, precedes))
        || (var r := apply(s, h[i].name, h[i].arguments);
            && r.ok
            && (!h[i].IsCompleted() || r.value == h[i].result.value)
            && Linearizable(Without(h, i), r.next, apply, precedes)))
  }

  /** Replaying `lin` on the model from `s` accepts every call and reproduces every recorded result. */
  ghost predicate Legal<S>(lin: seq<Call>, s: S, apply: Apply<S>)
    decreases |lin|
  {
    || lin == []
    || (var r := apply(s, lin[0].name, lin[0].arguments);
        && r.ok
        && (!lin[0].IsCompleted() || r.value == lin[0].result.value)
        && Legal(lin[1..], r.next, apply))
  }

  /** A call placed later in `lin` never precedes an earlier one in real time. */
  ghost predicate RespectsRealTime(lin: seq<Call>, precedes: Precedes) {
    forall a, b :: 0 <= a < b < |lin| ==> !precedes(lin[b], lin[a])
  }

  /** `lin` draws its calls from `h` and keeps every completed call of `h`. */
  ghost predicate CoversCompleted(lin: seq<Call>, h: seq<Call>) {
    && multiset(lin) <= multiset(h)
    && forall c: Call :: c.IsCompleted() ==> multiset(lin)[c] == multiset(h)[c]
  }

  /**
   * Soundness of the search: when it succeeds there is a linearization, an
   * order of the completed calls and some incomplete ones that respects
   * real time and that the sequential model accepts with the recorded results.
   */
  lemma {:induction false} LinearizableHasWitness<S>(h: seq<Call>, s: S, apply: Apply<S>, precedes: Precedes)
    requires Linearizable(h, s, apply, precedes)
    ensures exists lin :: Legal(lin, s, apply) && RespectsRealTime(lin, precedes) && CoversCompleted(lin, h)
    decreases |h|
  {
    if |h| == 0 {
      assert Legal([], s, apply) && RespectsRealTime([], precedes) && CoversCompleted([], h);
      return;
    }
    LinearizableChoice(h, s, apply, precedes);
    var i :| 0 <= i < |h| && Choice(h, i, s, apply, precedes);
    var rest := Without(h, i);
    if !h[i].IsCompleted() && Linearizable(rest, s, apply, precedes) {
      LinearizableHasWitness(rest, s, apply, precedes);
      var lin :| Legal(lin, s, apply) && RespectsRealTime(lin, precedes) && CoversCompleted(lin, rest);
      SkipKeepsCover(h, i, lin);
    } else {
      var r := apply(s, h[i].name, h[i].arguments);
      LinearizableHasWitness(rest, r.next, apply, precedes);
      var lin :| Legal(lin, r.next, apply) && RespectsRealTime(lin, precedes) && CoversCompleted(lin, rest);
      ApplyExtendsWitness(h, i, s, apply, precedes, lin);
    }
  }

  /** Skipping an incomplete call: a linearization of the other calls serves for all of them. */
  lemma SkipKeepsCover(h: seq<Call>, i: nat, lin: seq<Call>)
    requires i < |h| && !h[i].IsCompleted()
    requires CoversCompleted(lin, Without(h, i))
    ensures CoversCompleted(lin, h)
  {
  }

  /** Placing a candidate call the model accepts in front of a linearization of the other calls. */
  lemma ApplyExtendsWitness<S>(h: seq<Call>, i: nat, s: S, apply: Apply<S>, precedes: Precedes, lin: seq<Call>)
    requires i < |h| && Candidate(h, i, precedes)
    requires apply(s, h[i].name, h[i].arguments).ok
    requires !h[i].IsCompleted() || apply(s, h[i].name, h[i].arguments).value == h[i].result.value
    requires Legal(lin, apply(s, h[i].name, h[i].arguments).next, apply)
    requires RespectsRealTime(lin, precedes) && CoversCompleted(lin, Without(h, i))
    ensures Legal([h[i]] + lin, s, apply)
    ensures RespectsRealTime([h[i]] + lin, precedes)
    ensures CoversCompleted([h[i]] + lin, h)
  {
    var rest := Without(h, i);
    var lin2 := [h[i]] + lin;
    assert lin2[1..] == lin;
    forall a, b | 0 <= a < b < |lin2|
      ensures !precedes(lin2[b], lin2[a])
    {
      if a == 0 {
        var c := lin2[b];
        assert c in multiset(lin);
        assert c in multiset(rest);
        assert c in multiset(h);
        var k :| 0 <= k < |h| && h[k] == c;
      } else {
        assert lin2[a] == lin[a - 1] && lin2[b] == lin[b - 1];
      }
    }
    assert multiset(lin2) == multiset(lin) + multiset{h[i]};
  }

  /**
   * The search state: `calls[..count]` are the calls still to place, the
   * rest of `calls` and `linear` are the calls placed so far.
   */
  class LinChecker<S> {
    const calls: array<Call>
    var linear: seq<Call>
    var count: nat
    ghost const history: seq<Call>
    const init: S
    const apply: Apply<S>
    const precedes: Precedes

    ghost predicate Valid()
      reads this, calls
    {
      && count <= calls.Length
      && |linear| + count == calls.Length
      && |history| == calls.Length
      && multiset(calls[..]) == multiset(history)
    }

    constructor (history: seq<Call>, init: S, apply: Apply<S>, precedes: Precedes)
      ensures Valid() && fresh(calls) && calls[..] == history && count == |history| && linear == []
      ensures this.history == history && this.init == init
      ensures this.apply == apply && this.precedes == precedes
    {
      this.history := history;
      var a := new Call[|history|](i requires 0 <= i < |history| => history[i]);
      assert a[..] == history;
      calls := a;
      linear := [];
      count := |history|;
      this.init := init;
      this.apply := apply;
      this.precedes := precedes;
    }

    /** Searches from the model's initial state. */
    method Check() returns (found: bool)
      requires Valid()
      modifies this, calls
      ensures Valid() && calls[..] == old(calls[..]) && count == old(count) && linear == old(linear)
      ensures found == Linearizable(calls[..count], init, apply, precedes)
    {
      found := Search(init, calls[..count]);
    }

    /**
     * Tries every candidate first call of the remaining calls `h`, from model
     * state `s`, and restores the search state.
     */
    method Search(s: S, ghost h: seq<Call>) returns (found: bool)
      requires Valid() && h == calls[..count]
      modifies this, calls
      ensures Valid() && calls[..] == old(calls[..]) && count == old(count) && linear == old(linear)
      ensures found == Linearizable(h, s, apply, precedes)
      decreases count, 1
    {
      if count == 0 {
        return true;
      }
      var i := 0;
      while i < count
        invariant 0 <= i <= count
        invariant Valid() && calls[..] == old(calls[..]) && count == old(count) && linear == old(linear)
        invariant ChoiceFrom(h, 0, s, apply, precedes) == ChoiceFrom(h, i, s, apply, precedes)
      {
        var candidate := true;
        var j := 0;
        while j < count
          invariant 0 <= j <= count
          invariant candidate && forall k :: 0 <= k < j ==> !precedes(h[k], h[i])
        {
          if precedes(calls[j], calls[i]) {
            candidate := false;
            break;
          }
          j := j + 1;
        }
        if !candidate {
          i := i + 1;
          continue;
        }
        if !calls[i].IsCompleted() {
          var succeeded := StepInto(i, s, h);
          if succeeded {
            return true;
          }
        }
        var result := apply(s, calls[i].name, calls[i].arguments);
        if result.ok {
          if !calls[i].IsCompleted() || result.value == calls[i].result.value {
            var succeeded := StepInto(i, result.next, h);
            if succeeded {
              return true;
            }
          }
        }
        i := i + 1;
      }
      return false;
    }

    /**
     * Places `calls[i]` next: records it, swaps it out of the remaining
     * prefix `h`, searches the rest from `next`, then undoes all three.
     */
    method StepInto(i: nat, next: S, ghost h: seq<Call>) returns (succeeded: bool)
      requires Valid() && h == calls[..count] && i < count
      modifies this, calls
      ensures Valid() && calls[..] == old(calls[..]) && count == old(count) && linear == old(linear)
      ensures succeeded == Linearizable(Without(h, i), next, apply, precedes)
      decreases count, 0
    {
      ghost var entry := calls[..];
      ghost var placed := linear;
      Place(i, h);
      ghost var swapped := calls[..];
      succeeded := Search(next, Without(h, i));
      assert calls[..] == swapped;
      Unplace(i);
      SwapTwice(entry, i, |h| - 1);
      assert calls[..] == entry && linear == placed;
    }

    /** The first half of StepInto: push `calls[i]` onto `linear`, swap it to the end of the prefix, shrink the prefix. */
    method Place(i: nat, ghost h: seq<Call>)
      requires Valid() && h == calls[..count] && i < count
      modifies this, calls
      ensures Valid() && count == old(count) - 1 && calls[..count] == Without(h, i)
      ensures linear == old(linear) + [h[i]]
      ensures calls[..] == old(calls[..])[i := h[count]][count := h[i]]
    {
      SwapToEnd(calls[..], i, count);
      assert calls[..][..count] == h;
      linear := linear + [calls[i]];
      calls[i], calls[count - 1] := calls[count - 1], calls[i];
      count := count - 1;
    }

    /** The second half of StepInto: grow the prefix, swap `calls[i]` back, pop `linear`. */
    method Unplace(i: nat)
      requires i <= count < calls.Length && linear != []
      modifies this, calls
      ensures count == old(count) + 1 && linear == old(linear)[..|old(linear)| - 1]
      ensures calls[..] == old(calls[..])[i := old(calls[count])][old(count) := old(calls[i])]
    {
      count := count + 1;
      calls[i], calls[count - 1] := calls[count - 1], calls[i];
      linear := linear[..|linear| - 1];
    }
  }

  /**
   * Swapping `a[i]` with the last element of the prefix `a[..n]` keeps the
   * multiset of `a` and leaves `Without(a[..n], i)` as the shorter prefix.
   */
  lemma SwapToEnd(a: seq<Call>, i: nat, n: nat)
    requires i < n <= |a|
    ensures multiset(a[i := a[n - 1]][n - 1 := a[i]]) == multiset(a)
    ensures a[i := a[n - 1]][n - 1 := a[i]][..n - 1] == Without(a[..n], i)
  {
  }

  /** Swapping the same two positions twice gives the sequence back. */
  lemma SwapTwice(a: seq<Call>, i: nat, j: nat)
    requires i <= j < |a|
    ensures var b := a[i := a[j]][j := a[i]]; b[i := b[j]][j := b[i]] == a
  {
  }

  /** Checks a whole history from the model's initial state. */
  method LinCheckBrute<S>(history: seq<Call>, init: S, apply: Apply<S>, precedes: Precedes) returns (ok: bool)
    ensures ok == Linearizable(history, init, apply, precedes)
    ensures history == [] ==> ok
    ensures ok ==> exists lin :: Legal(lin, init, apply) && RespectsRealTime(lin, precedes) && CoversCompleted(lin, history)
  {
    var checker := new LinChecker(history, init, apply, precedes);
    ok := checker.Check();
    assert checker.calls[..checker.count] == checker.calls[..] == history;
    if ok {
      LinearizableHasWitness(history, init, apply, precedes);
    }
  }
}
