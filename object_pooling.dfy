/**
 * The second object pool, used by the pool registry: like the first, but an
 * object made for a spawn is not put into the queue, and the whole pool can
 * be returned or emptied at once.
 */
module Pooling {
  import opened PoolObjects

  /** The elements of a queue as a set. */
  function Members(q: seq<PooledObject>): set<PooledObject> {
    set i | 0 <= i < |q| :: q[i]
  }

  lemma MembersAppend(q: seq<PooledObject>, x: PooledObject)
    ensures Members(q + [x]) == Members(q) + {x}
  {
    assert (q + [x])[|q|] == x;
    forall y | y in Members(q)
      ensures y in Members(q + [x])
    {
      var i :| 0 <= i < |q| && q[i] == y;
      assert (q + [x])[i] == y;
    }
  }

  class ObjectPooling {
    var availableObjects: seq<PooledObject>
    var activeObjects: set<PooledObject>
    /**
     * The pool's type argument, which the registry's cast and the default
     * name use. The model takes the prefab's runtime type, and so every
     * clone's kind, to be this same type.
     */
    const elementKind: string
    const initialSize: nat
    const poolName: string

    function AvailableCount(): nat
      reads this
    {
      |availableObjects|
    }

    function ActiveCount(): nat
      reads this
    {
      |activeObjects|
    }

    function TotalCount(): nat
      reads this
    {
      |availableObjects| + |activeObjects|
    }

    /** The queue has no repeats and shares no object with the active set. */
    ghost predicate Valid()
      reads this
    {
      NoDuplicates(availableObjects) && Separate(availableObjects, activeObjects)
    }

    /** Clamps the size at 0 and prewarms that many new objects into the queue. */
    constructor (kind: string, size: int := 5, name: string := "")
      ensures elementKind == kind && poolName == (if name == "" then kind + "Pool" else name)
      ensures initialSize == (if size > 0 then size else 0)
      ensures |availableObjects| == initialSize && activeObjects == {}
      ensures forall i :: 0 <= i < |availableObjects| ==> fresh(availableObjects[i]) && availableObjects[i].kind == kind
      ensures Valid()
    {
      elementKind := kind;
      initialSize := if size > 0 then size else 0;
      poolName := if name == "" then kind + "Pool" else name;
      availableObjects := [];
      activeObjects := {};
      new;
      PrewarmPool();
    }

    /** Appends initialSize new objects to the queue. */
    method PrewarmPool()
      modifies this
      ensures |availableObjects| == |old(availableObjects)| + initialSize
      ensures availableObjects[..|old(availableObjects)|] == old(availableObjects)
      ensures forall i :: |old(availableObjects)| <= i < |availableObjects| ==>
        fresh(availableObjects[i]) && availableObjects[i].kind == elementKind
      ensures activeObjects == old(activeObjects)
      ensures old(Valid()) ==> Valid()
    {
      ghost var q0 := availableObjects;
      var i := 0;
      while i < initialSize
        invariant 0 <= i <= initialSize && |availableObjects| == |q0| + i
        invariant availableObjects[..|q0|] == q0 && activeObjects == old(activeObjects)
        invariant forall j :: |q0| <= j < |availableObjects| ==>
          fresh(availableObjects[j]) && availableObjects[j].kind == elementKind
        invariant old(Valid()) ==> Valid()
      {
        var obj := CreateNewObject(true);
        i := i + 1;
      }
    }

    /** Clones the prefab, numbered by the current total; only a pooling call enqueues it. */
    method CreateNewObject(isPooling: bool) returns (obj: PooledObject)
      modifies this
      ensures fresh(obj) && obj.kind == elementKind && obj.serial == old(TotalCount())
      ensures availableObjects == old(availableObjects) + (if isPooling then [obj] else [])
      ensures activeObjects == old(activeObjects)
      ensures old(Valid()) ==> Valid()
    {
      obj := new PooledObject(elementKind, |availableObjects| + |activeObjects|);
      if isPooling {
        availableObjects := availableObjects + [obj];
      }
    }

    /** Hands out the front of the queue, or a new object that is not queued; either way it becomes active. */
    method Spawn() returns (obj: PooledObject)
      modifies this
      ensures |old(availableObjects)| > 0 ==> obj == old(availableObjects)[0] && availableObjects == old(availableObjects)[1..]
      ensures |old(availableObjects)| == 0 ==> fresh(obj) && availableObjects == []
      ensures activeObjects == old(activeObjects) + {obj}
      ensures old(Valid()) ==> Valid() && obj !in availableObjects
    {
      if |availableObjects| > 0 {
        obj := availableObjects[0];
        availableObjects := availableObjects[1..];
      } else {
        obj := CreateNewObject(false);
      }
      activeObjects := activeObjects + {obj};
    }

    /**
     * Returns an active object to the back of the queue, keeping the total
     * count; null or an inactive object changes nothing.
     */
    method Despawn(obj: PooledObject?)
      modifies this
      ensures obj == null || obj !in old(activeObjects) ==>
        availableObjects == old(availableObjects) && activeObjects == old(activeObjects)
      ensures obj != null && obj in old(activeObjects) ==>
        activeObjects == old(activeObjects) - {obj} && availableObjects == old(availableObjects) + [obj] &&
        TotalCount() == old(TotalCount())
      ensures old(Valid()) ==> Valid()
    {
      if obj == null {
        return;
      }
      if obj !in activeObjects {
        return;
      }
      activeObjects := activeObjects - {obj};
      availableObjects := availableObjects + [obj];
    }

    /** Returns every active object to the queue, in an unspecified order. */
    method DespawnAll()
      modifies this
      ensures activeObjects == {}
      ensures |availableObjects| == |old(availableObjects)| + |old(activeObjects)|
      ensures availableObjects[..|old(availableObjects)|] == old(availableObjects)
      ensures Members(availableObjects[|old(availableObjects)|..]) == old(activeObjects)
      ensures old(Valid()) ==> Valid()
    {
      ghost var q0 := availableObjects;
      var remaining := activeObjects;
      while remaining != {}
        invariant activeObjects == remaining && remaining <= old(activeObjects)
        invariant |availableObjects| >= |q0| && availableObjects[..|q0|] == q0
        invariant Members(availableObjects[|q0|..]) == old(activeObjects) - remaining
        invariant |availableObjects| + |remaining| == |q0| + |old(activeObjects)|
        invariant old(Valid()) ==> Valid()
        decreases |remaining|
      {
        var obj :| obj in remaining;
        ghost var before := availableObjects;
        Despawn(obj);
        assert availableObjects[|q0|..] == before[|q0|..] + [obj];
        MembersAppend(before[|q0|..], obj);
        remaining := remaining - {obj};
      }
    }

    /** Returns every active object, then discards the whole queue. */
    method Clear()
      modifies this
      ensures availableObjects == [] && activeObjects == {}
      ensures Valid()
    {
      DespawnAll();
      while |availableObjects| > 0
        decreases |availableObjects|
      {
        var obj := availableObjects[0];
        availableObjects := availableObjects[1..];
      }
      activeObjects := {};
    }
  }
}
