/** `Vec<T>` (src/vec.rs) as far as it is defined there: the constructor and
    the growth step, over its own `ptr`, `cap` and `len`. */
module Vecs {
  import opened Wrappers
  import opened Capacity
  import opened Heaps

  class Vec {
    var ptr: Ptr
    var cap: nat
    var len: nat
    const alloc: Heap
    /** `mem::size_of::<T>()`. */
    const elemSize: nat

    ghost predicate Valid()
      reads this, alloc
    {
      && alloc.Valid()
      && 0 < elemSize <= ISIZE_MAX
      && (cap == 0 <==> ptr == Dangling)
      && (ptr.Block? ==> ptr.id in alloc.live && alloc.live[ptr.id] == cap)
      && cap * elemSize <= ISIZE_MAX
      && len <= cap
    }

    constructor Empty(alloc: Heap, elemSize: nat)
      requires alloc.Valid()
      requires 0 < elemSize <= ISIZE_MAX
      ensures Valid()
      ensures this.alloc == alloc && this.elemSize == elemSize
      ensures ptr == Dangling && cap == 0 && len == 0
    {
      this.alloc := alloc;
      this.elemSize := elemSize;
      ptr := Dangling;
      cap := 0;
      len := 0;
    }

    /** `Vec::new`: an empty vector that allocates nothing, or a panic for a
        zero-sized element type. `elemSize <= ISIZE_MAX` holds of every Rust
        type. */
    static method New(alloc: Heap, elemSize: nat) returns (r: Result<Vec, Halt>)
      requires alloc.Valid()
      requires elemSize <= ISIZE_MAX
      ensures elemSize == 0 ==> r == Failure(ZeroSizedType)
      ensures elemSize != 0 ==> r.Success?
      ensures r.Success? ==> fresh(r.value) && r.value.Valid() &&
                             r.value.alloc == alloc && r.value.elemSize == elemSize &&
                             r.value.cap == 0 && r.value.len == 0 && r.value.ptr == Dangling
    {
      if elemSize == 0 {
        return Failure(ZeroSizedType);
      }
      var v := new Vec.Empty(alloc, elemSize);
      r := Success(v);
    }

    /** `Vec::grow`: the same policy as `RawVec::grow`, `len` untouched; an
        overflow panics and an allocator error aborts, both before `ptr` and
        `cap` are replaced. */
    method Grow(grant: bool) returns (r: Outcome<Halt>)
      requires Valid()
      modifies this, alloc
      ensures Valid()
      ensures len == old(len)
      ensures NextCap(old(cap), elemSize).Failure? ==> r == Fail(CapacityOverflow)
      ensures NextCap(old(cap), elemSize).Success? && !grant ==> r == Fail(OutOfMemory)
      ensures r.Pass? <==> NextCap(old(cap), elemSize).Success? && grant
      ensures r.Pass? ==> cap == NextCap(old(cap), elemSize).value && ptr.Block? &&
                          ptr.id !in old(alloc.live) &&
                          alloc.live == (old(alloc.live) - Owned(old(ptr)))[ptr.id := cap]
      ensures r.Fail? ==> ptr == old(ptr) && cap == old(cap) && alloc.live == old(alloc.live)
    {
      NextCapStaysInRange(cap, elemSize);
      var newCap: nat;
      var p: Option<nat>;
      if cap == 0 {
        newCap := 1;
        p := alloc.AllocOne(grant);
      } else {
        newCap := cap * 2;
        var oldNumBytes := cap * elemSize;
        if !(oldNumBytes <= ISIZE_MAX / 2) {
          return Fail(CapacityOverflow);
        }
        p := alloc.ReallocArray(ptr.id, cap, newCap, grant);
      }
      if p.None? {
        return Fail(OutOfMemory);
      }
      ptr := Block(p.value);
      cap := newCap;
      r := Pass;
    }
  }

  /** The test `grow`: a `Vec<i32>` starts at capacity 0 and sixteen growths
      give 1, 2, 4, ..., 2^15, with the length staying 0. */
  method GrowTest() returns (initial: nat, caps: seq<nat>, len: nat)
    ensures initial == 0 && len == 0
    ensures caps == seq(16, c requires 0 <= c => Pow2(c))
  {
    var alloc := new Heap();
    var res := Vec.New(alloc, 4);
    var v := res.value;
    initial := v.cap;
    caps := [];
    var c := 0;
    while c < 16
      invariant 0 <= c <= 16
      invariant v.Valid() && v.elemSize == 4 && v.alloc == alloc && v.len == 0
      invariant v.cap == if c == 0 then 0 else Pow2(c - 1)
      invariant caps == seq(c, i requires 0 <= i => Pow2(i))
    {
      if c > 0 {
        Pow2Monotone(c - 1, 14);
        assert Pow2(14) == 16384;
        assert v.cap * v.elemSize <= ISIZE_MAX / 2;
        assert Pow2(c) == v.cap * 2;
      }
      var outcome := v.Grow(true);
      assert v.cap == Pow2(c);
      caps := caps + [v.cap];
      c := c + 1;
    }
    len := v.len;
  }

  /** The test `zst_panic`: `Vec::<()>::new()` panics. */
  method ZstPanicTest() returns (why: Option<Halt>)
    ensures why == Some(ZeroSizedType)
  {
    var alloc := new Heap();
    var r := Vec.New(alloc, 0);
    why := if r.Failure? then Some(r.error) else None;
  }
}
