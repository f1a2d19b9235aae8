/** The capacity policy shared by `RawVec::grow` (src/raw_vec.rs) and
    `Vec::grow` (src/vec.rs): the first growth allocates one slot, each later
    one doubles, and a growth whose current byte size exceeds half of
    `isize::MAX` panics with "capacity overflow". */
module Capacity {
  import opened Wrappers

  /** `isize::MAX` and `usize::MAX` on a 64-bit target. */
  const ISIZE_MAX: nat := 0x7FFF_FFFF_FFFF_FFFF
  const USIZE_MAX: nat := 0xFFFF_FFFF_FFFF_FFFF

  /** Why an operation of this layer stops short. The first two are
      `assert!` failures: they panic, and the panic unwinds to the caller.
      Only `OutOfMemory`, raised through `Heap::oom`, aborts the process. */
  datatype Halt =
    | ZeroSizedType      // assert!(size_of::<T>() != 0, "We're not ready to handle ZSTs")
    | CapacityOverflow   // assert!(old_num_bytes <= isize::MAX / 2, "capacity overflow")
    | OutOfMemory        // Heap::oom after an allocator error

  function Pow2(k: nat): (r: nat)
    ensures r >= 1
  {
    if k == 0 then 1 else 2 * Pow2(k - 1)
  }

  /** The capacity one call of `grow` moves to from `cap`, for elements of
      `elemSize` bytes; the overflow guard is checked only when `cap > 0`. */
  function NextCap(cap: nat, elemSize: nat): (r: Result<nat, Halt>)
    ensures r.Success? ==> r.value > cap
    ensures r.Failure? ==> r.error == CapacityOverflow
  {
    if cap == 0 then Success(1)
    else if cap * elemSize <= ISIZE_MAX / 2 then Success(cap * 2)
    else Failure(CapacityOverflow)
  }

  /** For a sized element type, a growth never takes the byte size of the
      buffer past `isize::MAX`, and `cap * 2`, which `Vec::grow` computes
      before its guard, never wraps around in `usize`. */
  lemma NextCapStaysInRange(cap: nat, elemSize: nat)
    requires 0 < elemSize <= ISIZE_MAX
    requires cap * elemSize <= ISIZE_MAX
    ensures cap * 2 <= USIZE_MAX
    ensures NextCap(cap, elemSize).Success? ==>
              NextCap(cap, elemSize).value <= USIZE_MAX &&
              NextCap(cap, elemSize).value * elemSize <= ISIZE_MAX
  {
  }

  /** The outcome of `k` successive calls of `grow` on a fresh buffer; a
      panic or an abort ends the sequence. */
  function GrowTimes(elemSize: nat, k: nat): (r: Result<nat, Halt>)
    ensures r.Failure? ==> r.error == CapacityOverflow
  {
    if k == 0 then Success(0)
    else match GrowTimes(elemSize, k - 1)
      case Failure(e) => Failure(e)
      case Success(cap) => NextCap(cap, elemSize)
  }

  lemma {:induction false} Pow2Monotone(a: nat, b: nat)
    requires a <= b
    ensures Pow2(a) <= Pow2(b)
  {
    if a < b { Pow2Monotone(a, b - 1); }
  }

  /** The capacities of a fresh buffer run 0, 1, 2, 4, ..., 2^(k-1), and the
      `k`-th growth panics exactly when the capacity it starts from,
      2^(k-2), already holds more than `isize::MAX / 2` bytes. */
  lemma {:induction false} GrowTimesDoubles(elemSize: nat, k: nat)
    requires k >= 1
    ensures GrowTimes(elemSize, k) ==
              if k == 1 || Pow2(k - 2) * elemSize <= ISIZE_MAX / 2
              then Success(Pow2(k - 1))
              else Failure(CapacityOverflow)
  {
    if k >= 2 {
      GrowTimesDoubles(elemSize, k - 1);
      if k >= 3 {
        assert Pow2(k - 2) * elemSize == 2 * (Pow2(k - 3) * elemSize);
      }
    }
  }

  /** Once a growth sequence has failed, every longer one has failed the same
      way: no later `grow` is reached. */
  lemma {:induction false} OverflowIsFinal(elemSize: nat, j: nat, k: nat)
    requires j <= k
    requires GrowTimes(elemSize, j).Failure?
    ensures GrowTimes(elemSize, k) == GrowTimes(elemSize, j)
  {
    if j < k { OverflowIsFinal(elemSize, j, k - 1); }
  }

  /** For a sized element type, every capacity a fresh buffer reaches by
      growing keeps its byte size within `isize::MAX`: the overflow guard
      stops the doubling before the bound is passed. */
  lemma {:induction false} GrowTimesBounded(elemSize: nat, k: nat)
    requires 0 < elemSize <= ISIZE_MAX
    ensures GrowTimes(elemSize, k).Success? ==>
              GrowTimes(elemSize, k).value * elemSize <= ISIZE_MAX
  {
    if k > 0 {
      GrowTimesBounded(elemSize, k - 1);
      var prev := GrowTimes(elemSize, k - 1);
      if prev.Success? {
        NextCapStaysInRange(prev.value, elemSize);
      }
    }
  }
}
