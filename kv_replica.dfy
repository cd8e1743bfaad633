/**
 * The replicated key-value example: replicas keep last-writer-wins stamped
 * values; a coordinator reads a majority of replicas and keeps the value with
 * the largest timestamp.
 *
 * RPC calls, fibers, mutexes and quorum futures are not part of this model.
 */
module KvReplica {

  type Key = string

  newtype Int32 = x: int | -0x8000_0000 <= x < 0x8000_0000

  datatype StampedValue = StampedValue(value: Int32, timestamp: nat)

  /** What a replica reads for a key it has never stored. */
  function NoValue(): (r: StampedValue)
    ensures r.value == 0 && r.timestamp == 0
  {
    StampedValue(0, 0)
  }

  /** The store after a replica's local write of `target` under `key`. */
  function AfterWrite(store: map<Key, StampedValue>, key: Key, target: StampedValue): map<Key, StampedValue> {
    if key !in store then store[key := target]
    else if target.timestamp > store[key].timestamp then store[key := target]
    else store
  }

  /** A stored value wins over a write unless the write's timestamp is strictly greater. */
  lemma WriteKeepsNewest(store: map<Key, StampedValue>, key: Key, target: StampedValue)
    ensures key in AfterWrite(store, key, target)
    ensures key !in store ==> AfterWrite(store, key, target)[key] == target
    ensures key in store ==>
              AfterWrite(store, key, target)[key] ==
                (if target.timestamp > store[key].timestamp then target else store[key])
    ensures key in store ==> AfterWrite(store, key, target)[key].timestamp >= store[key].timestamp
    ensures AfterWrite(store, key, target)[key].timestamp >= target.timestamp
  {
  }

  /** A write touches no other key. */
  lemma WriteIsLocal(store: map<Key, StampedValue>, key: Key, target: StampedValue, other: Key)
    requires other != key
    ensures other in AfterWrite(store, key, target) <==> other in store
    ensures other in store ==> AfterWrite(store, key, target)[other] == store[other]
  {
  }

  /** Repeating a write changes nothing. */
  lemma WriteIsIdempotent(store: map<Key, StampedValue>, key: Key, target: StampedValue)
    ensures AfterWrite(AfterWrite(store, key, target), key, target) == AfterWrite(store, key, target)
  {
  }

  /** Writes with distinct timestamps commute: replicas converge whatever the delivery order. */
  lemma WritesCommute(store: map<Key, StampedValue>, k1: Key, v1: StampedValue, k2: Key, v2: StampedValue)
    requires k1 == k2 ==> v1.timestamp != v2.timestamp
    ensures AfterWrite(AfterWrite(store, k1, v1), k2, v2) == AfterWrite(AfterWrite(store, k2, v2), k1, v1)
  {
    if k1 == k2 {
      if k1 in store {
        if v1.timestamp > store[k1].timestamp && v2.timestamp > store[k1].timestamp {
          assert v1.timestamp > v2.timestamp || v2.timestamp > v1.timestamp;
        }
      }
    } else {
      var a := AfterWrite(AfterWrite(store, k1, v1), k2, v2);
      var b := AfterWrite(AfterWrite(store, k2, v2), k1, v1);
      assert a.Keys == b.Keys;
      forall k | k in a.Keys ensures a[k] == b[k] {
      }
    }
  }

  /** What a replica reads for `key`. */
  function ReadOr(store: map<Key, StampedValue>, key: Key): StampedValue {
    if key in store then store[key] else NoValue()
  }

  /** The storage replica role; `store` is its local persistent key-value store. */
  class Replica {
    var store: map<Key, StampedValue>

    constructor (store: map<Key, StampedValue>)
      ensures this.store == store
    {
      this.store := store;
    }

    method LocalWrite(key: Key, target: StampedValue)
      modifies this
      ensures store == AfterWrite(old(store), key, target)
    {
      if key !in store {
        Update(key, target);
      } else if target.timestamp > store[key].timestamp {
        Update(key, target);
      }
    }

    method LocalRead(key: Key) returns (r: StampedValue)
      ensures key in store ==> r == store[key]
      ensures key !in store ==> r == NoValue()
    {
      r := if key in store then store[key] else NoValue();
    }

    method Update(key: Key, target: StampedValue)
      modifies this
      ensures store == old(store)[key := target]
    {
      store := store[key := target];
    }
  }

  /** Reading back right after a write sees that write or a newer value. */
  lemma ReadAfterWrite(store: map<Key, StampedValue>, key: Key, target: StampedValue)
    ensures ReadOr(AfterWrite(store, key, target), key).timestamp >= target.timestamp
    ensures ReadOr(AfterWrite(store, key, target), key).timestamp >= ReadOr(store, key).timestamp
  {
  }

  /**
   * The position std::max_element picks when ordering by timestamp: the
   * first element whose timestamp no other element exceeds.
   */
  function MostRecentIndex(values: seq<StampedValue>): (k: nat)
    requires |values| > 0
    ensures k < |values|
    ensures forall j :: 0 <= j < |values| ==> values[j].timestamp <= values[k].timestamp
    ensures forall j :: 0 <= j < k ==> values[j].timestamp < values[k].timestamp
  {
    if |values| == 1 then 0
    else
      var k := MostRecentIndex(values[..|values| - 1]);
      if values[k].timestamp < values[|values| - 1].timestamp then |values| - 1 else k
  }

  /** The value with the largest timestamp, the first such one on ties. */
  function FindMostRecent(values: seq<StampedValue>): (r: StampedValue)
    requires |values| > 0
    ensures r in values
    ensures forall v :: v in values ==> v.timestamp <= r.timestamp
  {
    values[MostRecentIndex(values)]
  }

  /** Quorum size for `nodeCount` replicas. */
  function Majority(nodeCount: nat): (r: nat)
    ensures 2 * r > nodeCount
    ensures nodeCount > 0 ==> r <= nodeCount
  {
    nodeCount / 2 + 1
  }

  lemma {:induction false} SubsetCardinality<T>(a: set<T>, b: set<T>)
    requires a <= b
    ensures |a| <= |b|
    decreases |b|
  {
    if a != {} {
      var x :| x in a;
      SubsetCardinality(a - {x}, b - {x});
    }
  }

  /** Any two majorities of the same replicas share a replica. */
  lemma QuorumsIntersect<T>(nodes: set<T>, q1: set<T>, q2: set<T>)
    requires q1 <= nodes && q2 <= nodes
    requires |q1| >= Majority(|nodes|) && |q2| >= Majority(|nodes|)
    ensures q1 * q2 != {}
  {
    if q1 * q2 == {} {
      assert |q1 + q2| == |q1| + |q2|;
      SubsetCardinality(q1 + q2, nodes);
      assert false;
    }
  }
}
