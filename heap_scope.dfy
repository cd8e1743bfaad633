/**
 * The process-wide "current heap" pointer and the scope guard that swaps it:
 * making a guard saves the current heap and installs another, destroying the
 * guard puts the saved one back. A null heap stands for the global heap.
 */
module HeapScopes {

  /** A process heap; only its identity matters here. */
  class Heap {
    constructor ()
    {
    }
  }

  /** The variable behind GetHeap / SetHeap. */
  class HeapContext {
    var current: Heap?

    constructor (initial: Heap?)
      ensures current == initial
    {
      current := initial;
    }
  }

  class HeapScopeGuard {
    const context: HeapContext
    const saved: Heap?

    /** Saves the current heap and installs `heap`. */
    constructor (context: HeapContext, heap: Heap?)
      modifies context
      ensures this.context == context
      ensures saved == old(context.current) && context.current == heap
    {
      this.context := context;
      saved := context.current;
      context.current := heap;
    }

    /** A guard that installs the global (null) heap. */
    constructor Global(context: HeapContext)
      modifies context
      ensures this.context == context
      ensures saved == old(context.current) && context.current == null
    {
      this.context := context;
      saved := context.current;
      context.current := null;
    }

    /** The heap that was current when the guard was made. */
    method ParentScopeHeap() returns (parent: Heap?)
      ensures parent == saved
    {
      parent := saved;
    }

    /** The guard's destructor: puts the saved heap back. */
    method Release()
      modifies context
      ensures context.current == saved
    {
      context.current := saved;
    }
  }

  /**
   * Guards nested as C++ scopes nest them: one guard per heap in `heaps`,
   * released in reverse order. Inside the innermost scope the last heap is
   * current; afterwards the heap current before the outermost guard is back.
   */
  method NestedScopes(context: HeapContext, heaps: seq<Heap?>) returns (innermost: Heap?)
    modifies context
    ensures innermost == (if heaps == [] then old(context.current) else heaps[|heaps| - 1])
    ensures context.current == old(context.current)
    decreases |heaps|
  {
    if heaps == [] {
      return context.current;
    }
    var guard := new HeapScopeGuard(context, heaps[0]);
    if |heaps| == 1 {
      innermost := context.current;
    } else {
      innermost := NestedScopes(context, heaps[1..]);
    }
    guard.Release();
  }
}
