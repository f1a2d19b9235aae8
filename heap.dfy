/** An abstract stand-in for the `Heap` allocator that `RawVec` and `Vec`
    hold. The real allocator is foreign code: here it is only a ledger of the
    blocks it has handed out and not yet taken back, each with its slot count.
    Whether the allocator grants a request is a parameter (`grant`), since
    nothing in this layer decides it. */
module Heaps {
  import opened Wrappers

  /** The owned address a buffer holds: `Dangling` is `NonNull::dangling()`,
      the placeholder of an empty buffer; `Block(id)` names a live allocation.
      An id names a block, not an address: a reallocation yields a new block
      even where the real allocator grows it in place at the same address. */
  datatype Ptr = Dangling | Block(id: nat)

  /** The blocks a pointer owns: none for the placeholder. */
  function Owned(p: Ptr): (r: set<nat>)
    ensures p.Block? ==> r == {p.id}
    ensures p.Dangling? ==> r == {}
  {
    if p.Block? then {p.id} else {}
  }

  class Heap {
    /** Every block allocated and not yet released, with its slot count. */
    ghost var live: map<nat, nat>
    var nextId: nat

    ghost predicate Valid()
      reads this
    {
      forall id :: id in live ==> id < nextId
    }

    constructor ()
      ensures Valid() && live == map[]
    {
      live := map[];
      nextId := 0;
    }

    /** `alloc_one::<T>()`: a block of one slot, or an error. */
    method AllocOne(grant: bool) returns (r: Option<nat>)
      requires Valid()
      modifies this
      ensures Valid()
      ensures grant ==> r.Some? && r.value !in old(live) && live == old(live)[r.value := 1]
      ensures !grant ==> r == None && live == old(live)
    {
      if grant {
        r := Some(nextId);
        live := live[nextId := 1];
        nextId := nextId + 1;
      } else {
        r := None;
      }
    }

    /** `realloc_array::<T>(ptr, old_cap, new_cap)`: the block `id`, which must
        hold exactly `oldCap` slots, is replaced by one of `newCap` slots; on
        an error the old block stays as it was. */
    method ReallocArray(id: nat, oldCap: nat, newCap: nat, grant: bool) returns (r: Option<nat>)
      requires Valid()
      requires id in live && live[id] == oldCap
      modifies this
      ensures Valid()
      ensures grant ==> r.Some? && r.value !in old(live) &&
                        live == (old(live) - {id})[r.value := newCap]
      ensures !grant ==> r == None && live == old(live)
    {
      if grant {
        r := Some(nextId);
        live := (live - {id})[nextId := newCap];
        nextId := nextId + 1;
      } else {
        r := None;
      }
    }

    /** `dealloc_one(ptr)`: releases a one-slot block; it reports no error. */
    method DeallocOne(id: nat)
      requires Valid()
      requires id in live && live[id] == 1
      modifies this
      ensures Valid()
      ensures live == old(live) - {id}
    {
      live := live - {id};
    }

    /** `dealloc_array(ptr, cap)`: releases a block of exactly `cap` slots, or
        reports an error and keeps it. */
    method DeallocArray(id: nat, cap: nat, grant: bool) returns (ok: bool)
      requires Valid()
      requires id in live && live[id] == cap
      modifies this
      ensures Valid()
      ensures ok == grant
      ensures live == if ok then old(live) - {id} else old(live)
    {
      ok := grant;
      if ok {
        live := live - {id};
      }
    }
  }
}
