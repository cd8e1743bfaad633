/**
 * The free lists of the per-server memory arena: an intrusive LIFO list of
 * block headers, linked through each header's `next` field, and a cache of
 * one such list per size class.
 *
 * The arena itself (its mapping, bump pointer, zero-filling and address
 * arithmetic) is not part of this model, and neither is the mapping from a
 * block's size to its size class: the cache is given the class index.
 */
module BlockAllocator {

  /** Size classes 0..MaxClassIndex. */
  const MaxClassIndex: nat := 10

  ghost predicate IsPowerOfTwo(n: nat)
    decreases n
  {
    n == 1 || (n >= 2 && n % 2 == 0 && IsPowerOfTwo(n / 2))
  }

  /** The header written at the start of every block; `size` is a power of two. */
  class BlockHeader {
    var size: nat
    var canary: nat
    var next: BlockHeader?
  }

  /** An intrusive singly linked free list; `blocks` is its content from the head on. */
  class BlockList {
    var head: BlockHeader?
    ghost var blocks: seq<BlockHeader>

    ghost predicate Valid()
      reads this, set b | b in blocks
    {
      && (head == null <==> blocks == [])
      && (blocks != [] ==> head == blocks[0] && blocks[|blocks| - 1].next == null)
      && (forall i :: 0 <= i < |blocks| - 1 ==> blocks[i].next == blocks[i + 1])
      && (forall i, j :: 0 <= i < j < |blocks| ==> blocks[i] != blocks[j])
    }

    constructor ()
      ensures Valid() && blocks == []
    {
      head := null;
      blocks := [];
    }

    /** Links `block` in front of the current head. */
    method Push(block: BlockHeader)
      requires Valid() && block !in blocks
      modifies this, block
      ensures Valid()
      ensures blocks == [block] + old(blocks)
      ensures head == block && block.next == old(head)
      ensures block.size == old(block.size) && block.canary == old(block.canary)
    {
      block.next := head;
      head := block;
      blocks := [block] + blocks;
    }

    /** Unlinks and returns the most recently pushed block, or null when the list is empty. */
    method TryPop() returns (block: BlockHeader?)
      requires Valid()
      modifies this
      ensures Valid()
      ensures old(blocks) == [] ==> block == null && blocks == []
      ensures old(blocks) != [] ==> block == old(blocks[0]) && blocks == old(blocks[1..])
    {
      if head == null {
        return null;
      }
      block := head;
      assert |blocks| > 1 ==> blocks[0].next == blocks[1];
      head := head.next;
      blocks := blocks[1..];
    }
  }

  /** Pushing a block and popping right away gives the block back and the list its old content. */
  method PushThenPop(list: BlockList, block: BlockHeader) returns (popped: BlockHeader?)
    requires list.Valid() && block !in list.blocks
    modifies list, block
    ensures list.Valid() && popped == block
    ensures list.blocks == old(list.blocks) && list.head == old(list.head)
  {
    list.Push(block);
    popped := list.TryPop();
  }

  /** One free list per size class; acting on one class leaves the others as they were. */
  class BlockCache {
    const lists: array<BlockList>
    ghost var Repr: set<object>

    ghost predicate Valid()
      reads this, Repr
    {
      && this in Repr && lists in Repr
      && lists.Length == MaxClassIndex + 1
      && (forall i :: 0 <= i < lists.Length ==> lists[i] in Repr)
      && (forall i, j :: 0 <= i < j < lists.Length ==> lists[i] != lists[j])
      && (forall i :: 0 <= i < lists.Length ==> (set b | b in lists[i].blocks) <= Repr)
      && (forall i :: 0 <= i < lists.Length ==> lists[i].Valid())
      && (forall i, b :: 0 <= i < lists.Length && b in lists[i].blocks ==> IsPowerOfTwo(b.size))
    }

    /** The free blocks of size class `i`, most recently released first. */
    ghost function Contents(i: nat): seq<BlockHeader>
      reads this, lists, lists[i]
      requires i < lists.Length
    {
      lists[i].blocks
    }

    ghost predicate Cached(block: BlockHeader)
      reads this, lists, set i | 0 <= i < lists.Length :: lists[i]
    {
      exists i :: 0 <= i < lists.Length && block in lists[i].blocks
    }

    constructor ()
      ensures Valid() && fresh(Repr)
      ensures forall i :: 0 <= i <= MaxClassIndex ==> Contents(i) == []
    {
      var first := new BlockList();
      var a := new BlockList[MaxClassIndex + 1](_ => first);
      var k := 1;
      while k < a.Length
        invariant 1 <= k <= a.Length && a[0] == first
        invariant forall i :: 0 <= i < k ==> fresh(a[i]) && a[i].Valid() && a[i].blocks == []
        invariant forall i, j :: 0 <= i < j < k ==> a[i] != a[j]
      {
        a[k] := new BlockList();
        k := k + 1;
      }
      lists := a;
      Repr := {this, a} + (set i | 0 <= i < a.Length :: a[i]);
    }

    /** Pops a free block of class `classIndex`, or null when that class has none. */
    method TryAcquire(classIndex: nat) returns (block: BlockHeader?)
      requires Valid() && classIndex <= MaxClassIndex
      modifies lists[classIndex]
      ensures Valid()
      ensures old(Contents(classIndex)) == [] ==> block == null && Contents(classIndex) == []
      ensures old(Contents(classIndex)) != [] ==>
                block == old(Contents(classIndex))[0] && Contents(classIndex) == old(Contents(classIndex))[1..]
      ensures forall i :: 0 <= i <= MaxClassIndex && i != classIndex ==> Contents(i) == old(Contents(i))
    {
      block := lists[classIndex].TryPop();
    }

    /** Returns a block that is in no free list to the free list of class `classIndex`. */
    method Release(classIndex: nat, block: BlockHeader)
      requires Valid() && classIndex <= MaxClassIndex
      requires IsPowerOfTwo(block.size) && !Cached(block)
      modifies this, lists[classIndex], block
      ensures Valid()
      ensures Contents(classIndex) == [block] + old(Contents(classIndex))
      ensures forall i :: 0 <= i <= MaxClassIndex && i != classIndex ==> Contents(i) == old(Contents(i))
    {
      lists[classIndex].Push(block);
      Repr := Repr + {block};
    }
  }
}
