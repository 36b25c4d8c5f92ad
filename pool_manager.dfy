/**
 * The pool registry: pools of any element type registered by name. A pool
 * asked for under another element type comes back as null, which is what
 * the failed cast in the registry yields.
 */
module PoolRegistry {
  import opened Pooling

  class PoolManager {
    var pools: map<string, ObjectPooling>

    constructor ()
      ensures pools == map[]
    {
      pools := map[];
    }

    /** The registered pool for a name, or null when the name is unknown or its pool holds another type. */
    function GetPool(poolName: string, kind: string): (r: ObjectPooling?)
      reads this
      ensures r != null <==> poolName in pools && pools[poolName].elementKind == kind
      ensures r != null ==> r == pools[poolName]
    {
      if poolName in pools && pools[poolName].elementKind == kind then pools[poolName] else null
    }

    /**
     * A known name gives back its registered pool (null on a type mismatch)
     * and creates nothing; a new name registers a new pool under it.
     */
    method CreatePool(poolName: string, kind: string, initialSize: int := 5) returns (pool: ObjectPooling?)
      modifies this
      ensures poolName in old(pools) ==>
        pools == old(pools) &&
        pool == (if old(pools)[poolName].elementKind == kind then old(pools)[poolName] else null)
      ensures poolName !in old(pools) ==>
        pool != null && fresh(pool) && pools == old(pools)[poolName := pool] && |pools| == |old(pools)| + 1 &&
        pool.elementKind == kind && pool.poolName == (if poolName == "" then kind + "Pool" else poolName) &&
        pool.initialSize == (if initialSize > 0 then initialSize else 0) && pool.activeObjects == {}
    {
      if poolName in pools {
        pool := if pools[poolName].elementKind == kind then pools[poolName] else null;
        return;
      }
      var p := new ObjectPooling(kind, initialSize, poolName);
      pools := pools[poolName := p];
      pool := p;
    }

    /** Unregisters the name if present; otherwise nothing changes. */
    method DestroyPool(poolName: string)
      modifies this
      ensures pools == old(pools) - {poolName}
      ensures poolName in old(pools) ==> |pools| == |old(pools)| - 1
      ensures poolName !in old(pools) ==> pools == old(pools)
    {
      if poolName in pools {
        pools := pools - {poolName};
      }
    }

    /** Unregisters every pool. */
    method ClearAllPools()
      modifies this
      ensures pools == map[] && PoolCount() == 0
    {
      pools := map[];
    }

    function PoolCount(): nat
      reads this
    {
      |pools|
    }
  }
}
