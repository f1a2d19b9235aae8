/** `RawVec<T>` (src/raw_vec.rs): the owning handle of one heap block sized
    for `cap` elements. It knows how to grow and how to release itself, and
    nothing about which slots are live. */
module RawVecs {
  import opened Wrappers
  import opened Capacity
  import opened Heaps

  class RawVec {
    var ptr: Ptr
    var cap: nat
    /** The allocator handle the buffer was created with (`alloc: Heap`). */
    const alloc: Heap
    /** `mem::size_of::<T>()`. */
    const elemSize: nat

    /** The placeholder stands exactly for an empty buffer; a non-empty one
        owns a live block of exactly `cap` slots whose byte size fits in
        `isize`. */
    ghost predicate Valid()
      reads this, alloc
    {
      && alloc.Valid()
      && 0 < elemSize <= ISIZE_MAX
      && (cap == 0 <==> ptr == Dangling)
      && (ptr.Block? ==> ptr.id in alloc.live && alloc.live[ptr.id] == cap)
      && cap * elemSize <= ISIZE_MAX
    }

    constructor Empty(alloc: Heap, elemSize: nat)
      requires alloc.Valid()
      requires 0 < elemSize <= ISIZE_MAX
      ensures Valid()
      ensures this.alloc == alloc && this.elemSize == elemSize
      ensures ptr == Dangling && cap == 0
    {
      this.alloc := alloc;
      this.elemSize := elemSize;
      ptr := Dangling;
      cap := 0;
    }

    /** `RawVec::default`: an empty buffer that allocates nothing, or a panic
        for a zero-sized element type. `elemSize <= ISIZE_MAX` holds of every
        Rust type. */
    static method Default(alloc: Heap, elemSize: nat) returns (r: Result<RawVec, Halt>)
      requires alloc.Valid()
      requires elemSize <= ISIZE_MAX
      ensures elemSize == 0 ==> r == Failure(ZeroSizedType)
      ensures elemSize != 0 ==> r.Success?
      ensures r.Success? ==> fresh(r.value) && r.value.Valid() &&
                             r.value.alloc == alloc && r.value.elemSize == elemSize &&
                             r.value.cap == 0 && r.value.ptr == Dangling
    {
      if elemSize == 0 {
        return Failure(ZeroSizedType);
      }
      var v := new RawVec.Empty(alloc, elemSize);
      r := Success(v);
    }

    /** `RawVec::grow`: moves to the capacity `NextCap` gives, taking a new
        block from the allocator; an overflow panics and an allocator error
        aborts, both before `ptr` and `cap` are touched. */
    method Grow(grant: bool) returns (r: Outcome<Halt>)
      requires Valid()
      modifies this, alloc
      ensures Valid()
      ensures NextCap(old(cap), elemSize).Failure? ==> r == Fail(CapacityOverflow)
      ensures NextCap(old(cap), elemSize).Success? && !grant ==> r == Fail(OutOfMemory)
      ensures r.Pass? <==> NextCap(old(cap), elemSize).Success? && grant
      ensures r.Pass? ==> cap == NextCap(old(cap), elemSize).value && ptr.Block? &&
                          ptr.id !in old(alloc.live) &&
                          alloc.live == (old(alloc.live) - Owned(old(ptr)))[ptr.id := cap]
      ensures r.Fail? ==> ptr == old(ptr) && cap == old(cap) && alloc.live == old(alloc.live)
    {
      NextCapStaysInRange(cap, elemSize);
      var p: Option<nat>;
      var newCap: nat;
      if cap == 0 {
        p := alloc.AllocOne(grant);
        newCap := 1;
      } else {
        var oldNumBytes := cap * elemSize;
        if !(oldNumBytes <= ISIZE_MAX / 2) {
          return Fail(CapacityOverflow);
        }
        newCap := cap * 2;
        p := alloc.ReallocArray(ptr.id, cap, newCap, grant);
      }
      if p.None? {
        return Fail(OutOfMemory);
      }
      ptr := Block(p.value);
      cap := newCap;
      r := Pass;
    }

    /** `Drop for RawVec`: nothing when `cap == 0`; otherwise the block is
        handed back once, sized by `cap` (`dealloc_one` for one slot,
        `dealloc_array` for more, whose error aborts via `oom`). Afterwards
        the block is no longer live, so `Valid()` (which a second drop would
        need) no longer holds. */
    method Drop(grant: bool) returns (r: Outcome<Halt>)
      requires Valid()
      modifies alloc
      ensures alloc.Valid()
      ensures r == (if cap > 1 && !grant then Fail(OutOfMemory) else Pass)
      ensures alloc.live == if r.Pass? then old(alloc.live) - Owned(ptr) else old(alloc.live)
      ensures r.Pass? && cap != 0 ==> ptr.id !in alloc.live
    {
      if cap == 0 {
        return Pass;
      }
      if cap == 1 {
        alloc.DeallocOne(ptr.id);
      } else {
        var ok := alloc.DeallocArray(ptr.id, cap, grant);
        if !ok {
          return Fail(OutOfMemory);
        }
      }
      r := Pass;
    }
  }

  /** The test `zst_panic`: `RawVec::<()>::default()` panics. */
  method ZstPanicTest() returns (why: Option<Halt>)
    ensures why == Some(ZeroSizedType)
  {
    var alloc := new Heap();
    var r := RawVec.Default(alloc, 0);
    why := if r.Failure? then Some(r.error) else None;
  }

  /** The test `grow`: a `RawVec<i32>` starts at capacity 0 and sixteen
      growths give 1, 2, 4, ..., 2^15. */
  method GrowTest() returns (initial: nat, caps: seq<nat>)
    ensures initial == 0
    ensures caps == seq(16, c requires 0 <= c => Pow2(c))
  {
    var alloc := new Heap();
    var res := RawVec.Default(alloc, 4);
    var v := res.value;
    initial := v.cap;
    caps := [];
    var c := 0;
    while c < 16
      invariant 0 <= c <= 16
      invariant v.Valid() && v.elemSize == 4 && v.alloc == alloc
      invariant v.cap == if c == 0 then 0 else Pow2(c - 1)
      invariant caps == seq(c, i requires 0 <= i => Pow2(i))
    {
      if c > 0 {
        Pow2Monotone(c - 1, 14);
        assert Pow2(14) == 16384;
        assert v.cap * v.elemSize <= ISIZE_MAX / 2;
        assert Pow2(c) == v.cap * 2;
      }
      var outcome := v.Grow(true);
      assert v.cap == Pow2(c);
      caps := caps + [v.cap];
      c := c + 1;
    }
  }
}
