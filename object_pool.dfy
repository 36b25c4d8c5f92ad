/**
 * The first object pool: a queue of idle objects and a set of active ones.
 * Its Spawn takes the front of the queue, or makes a new object when the
 * queue is empty; making an object always enqueues it, so an object spawned
 * from an empty queue ends up both queued and active.
 */
module PoolCore {
  import opened PoolObjects

  /** A pool's queue and active set, as values. */
  datatype PoolState = PoolState(available: seq<PooledObject>, active: set<PooledObject>)

  /** What Despawn leaves: an active object moves to the back of the queue; null or an inactive object changes nothing. */
  function AfterDespawn(s: PoolState, obj: PooledObject?): PoolState {
    if obj != null && obj in s.active then PoolState(s.available + [obj], s.active - {obj}) else s
  }

  /**
   * Despawning never activates anything and never drops a queued object:
   * the old queue is a prefix of the new one, and the despawned object is
   * inactive afterwards.
   */
  lemma AfterDespawnShape(s: PoolState, obj: PooledObject?)
    ensures AfterDespawn(s, obj).active <= s.active
    ensures s.available <= AfterDespawn(s, obj).available
    ensures obj != null ==> obj !in AfterDespawn(s, obj).active
    ensures |AfterDespawn(s, obj).available| + |AfterDespawn(s, obj).active| == |s.available| + |s.active|
  {
  }

  class ObjectPool {
    var available: seq<PooledObject>
    var active: set<PooledObject>
    /**
     * The runtime type of the prefab every object is cloned from: what
     * GetType() gives on each clone. The default pool name uses the type
     * argument instead, which may be a base class of it (the popup pool's is
     * PopupBase); the model uses this one type for both, and the name only
     * appears in log messages.
     */
    const prefabKind: string
    const poolName: string

    function AvailableCount(): nat
      reads this
    {
      |available|
    }

    function ActiveCount(): nat
      reads this
    {
      |active|
    }

    function TotalCount(): nat
      reads this
    {
      |available| + |active|
    }

    /** The queue and the active set as one value. */
    function State(): PoolState
      reads this
    {
      PoolState(available, active)
    }

    /** The queue has no repeats and shares no object with the active set. */
    ghost predicate Valid()
      reads this
    {
      NoDuplicates(available) && Separate(available, active)
    }

    /** Every pooled object is a clone of the prefab. */
    ghost predicate OfPrefab()
      reads this
    {
      (forall i :: 0 <= i < |available| ==> available[i].kind == prefabKind) &&
      (forall o :: o in active ==> o.kind == prefabKind)
    }

    /** Prewarms max(0, initialSize) new objects into the queue; the name defaults to the type's name plus "Pool". */
    constructor (kind: string, initialSize: int := 10, name: string := "")
      ensures prefabKind == kind && poolName == (if name == "" then kind + "Pool" else name)
      ensures |available| == (if initialSize > 0 then initialSize else 0) && active == {}
      ensures forall i :: 0 <= i < |available| ==>
        fresh(available[i]) && available[i].kind == kind && available[i].serial == i
      ensures Valid() && OfPrefab()
    {
      prefabKind := kind;
      poolName := if name == "" then kind + "Pool" else name;
      available := [];
      active := {};
      new;
      var prewarmCount := if initialSize > 0 then initialSize else 0;
      var i := 0;
      while i < prewarmCount
        invariant 0 <= i <= prewarmCount && |available| == i && active == {}
        invariant forall j :: 0 <= j < i ==>
          fresh(available[j]) && available[j].kind == kind && available[j].serial == j
        invariant NoDuplicates(available)
      {
        var obj := CreateNewObject();
        i := i + 1;
      }
    }

    /** Clones the prefab, numbers it by the current total and enqueues it. */
    method CreateNewObject() returns (obj: PooledObject)
      modifies this
      ensures fresh(obj) && obj.kind == prefabKind && obj.serial == old(TotalCount())
      ensures available == old(available) + [obj] && active == old(active)
    {
      obj := new PooledObject(prefabKind, TotalCount());
      available := available + [obj];
    }

    /**
     * Hands out the front of the queue, or a new object when the queue is
     * empty; either way the object becomes active. A new object also stays
     * in the queue.
     */
    method Spawn() returns (obj: PooledObject)
      modifies this
      ensures |old(available)| > 0 ==> obj == old(available)[0] && available == old(available)[1..]
      ensures |old(available)| == 0 ==> fresh(obj) && available == [obj]
      ensures active == old(active) + {obj}
      ensures |old(available)| > 0 && old(Valid()) ==> Valid()
      ensures |old(available)| == 0 ==> obj in available && obj in active && !Valid()
      ensures old(OfPrefab()) ==> OfPrefab() && obj.kind == prefabKind
    {
      if |available| > 0 {
        obj := available[0];
        available := available[1..];
      } else {
        obj := CreateNewObject();
      }
      active := active + {obj};
    }

    /**
     * Spawn as intended: a new object made for an empty queue is handed
     * out without being enqueued, so the queue and the active set stay
     * separate.
     */
    method SpawnCorrected() returns (obj: PooledObject)
      modifies this
      ensures |old(available)| > 0 ==> obj == old(available)[0] && available == old(available)[1..]
      ensures |old(available)| == 0 ==> fresh(obj) && obj.serial == old(TotalCount()) && available == []
      ensures active == old(active) + {obj}
      ensures old(Valid()) ==> Valid() && obj !in available
      ensures old(OfPrefab()) ==> OfPrefab() && obj.kind == prefabKind
    {
      if |available| > 0 {
        obj := available[0];
        available := available[1..];
      } else {
        obj := new PooledObject(prefabKind, TotalCount());
      }
      active := active + {obj};
    }

    /** Returns an active object to the back of the queue; null or an inactive object changes nothing. */
    method Despawn(obj: PooledObject?)
      modifies this
      ensures obj == null || obj !in old(active) ==> available == old(available) && active == old(active)
      ensures obj != null && obj in old(active) ==>
        active == old(active) - {obj} && available == old(available) + [obj]
      ensures State() == AfterDespawn(old(State()), obj)
      ensures old(Valid()) ==> Valid()
      ensures old(OfPrefab()) ==> OfPrefab()
    {
      if obj == null {
        return;
      }
      if obj in active {
        active := active - {obj};
        available := available + [obj];
      }
    }
  }

  /**
   * Two spawns from a pool with an empty queue hand out the same object:
   * the first one is left in the queue, so the second spawn dequeues it.
   */
  method TwoSpawnsFromEmptyPoolShareAnObject(pool: ObjectPool) returns (first: PooledObject, second: PooledObject)
    requires |pool.available| == 0
    modifies pool
    ensures first == second
    ensures pool.available == [] && pool.active == old(pool.active) + {first}
  {
    first := pool.Spawn();
    second := pool.Spawn();
  }

  /** With the corrected spawn, two spawns from an empty queue hand out two different objects, both active. */
  method TwoCorrectedSpawnsAreDistinct(pool: ObjectPool) returns (first: PooledObject, second: PooledObject)
    requires |pool.available| == 0
    modifies pool
    ensures first != second
    ensures pool.available == [] && pool.active == old(pool.active) + {first, second}
  {
    first := pool.SpawnCorrected();
    second := pool.SpawnCorrected();
  }
}
