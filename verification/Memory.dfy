/** malloc, as its callers see it: any request may fail, whatever became of the others. */
module Memory {

  class Heap {
    const grants: nat -> bool
    var calls: nat

    constructor (grants: nat -> bool)
      ensures this.grants == grants && calls == 0
    {
      this.grants, calls := grants, 0;
    }

    method Malloc() returns (ok: bool)
      modifies this
      ensures ok == grants(old(calls)) && calls == old(calls) + 1
    {
      ok := grants(calls);
      calls := calls + 1;
    }
  }

  /** Some request is refused. */
  ghost predicate Starved(heap: Heap) {
    exists n: nat :: !heap.grants(n)
  }
}
