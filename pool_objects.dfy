/** A pooled engine object, known by identity, its runtime type and the number in its name. */
module PoolObjects {
  class PooledObject {
    /** The runtime type of the pooled component. */
    const kind: string
    /** The number in the object's name: the pool's object count when it was created. */
    const serial: int

    constructor (k: string, n: int)
      ensures kind == k && serial == n
    {
      kind := k;
      serial := n;
    }
  }

  /** No object appears twice in the queue. */
  predicate NoDuplicates(q: seq<PooledObject>) {
    forall i, j :: 0 <= i < j < |q| ==> q[i] != q[j]
  }

  /** No queued object is also active. */
  predicate Separate(q: seq<PooledObject>, active: set<PooledObject>) {
    forall i :: 0 <= i < |q| ==> q[i] !in active
  }
}
