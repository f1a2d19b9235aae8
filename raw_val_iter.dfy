/** `RawValIter<T>` (src/raw_val_iter.rs): a `(start, end)` pair of addresses
    over a contiguous run of elements it does not own. For a sized `T` an
    address moves by `size_of::<T>()` bytes per element; for a zero-sized `T`
    it is a plain counter that moves by one. */
module RawValIters {
  import opened Wrappers
  import opened Cursor

  /** The distance between the addresses of two neighbouring elements. */
  function Stride(elemSize: nat): (r: nat)
    ensures r > 0
  {
    if elemSize == 0 then 1 else elemSize
  }

  /** The `end` address `RawValIter::new` computes for `len` elements from
      `start`: a counter for a zero-sized type, `start` itself for an empty
      slice, `start.offset(len)` otherwise. All three place `end` exactly
      `len` strides after `start`. */
  function EndAddress(start: nat, len: nat, elemSize: nat): (e: nat)
    ensures e == start + len * Stride(elemSize)
  {
    if elemSize == 0 then start + len
    else if len == 0 then start
    else start + len * elemSize
  }

  lemma ScaledIndex(i: nat, s: nat)
    requires s > 0
    ensures (i * s) / s == i
  {
    var q, m := (i * s) / s, (i * s) % s;
    assert (i - q) * s == m;
    if i - q >= 1 {
      assert false;
    } else if i - q <= -1 {
      assert false;
    }
  }

  lemma ScaledStep(i: nat, s: nat)
    requires i > 0
    ensures i * s >= s
    ensures (i - 1) * s == i * s - s
  {
  }

  lemma ScaledGap(lo: nat, hi: nat, s: nat)
    requires s > 0 && lo <= hi
    ensures lo * s <= hi * s
    ensures (hi * s - lo * s) / s == hi - lo
    ensures lo * s == hi * s ==> lo == hi
  {
    assert hi * s - lo * s == (hi - lo) * s;
    ScaledIndex(hi - lo, s);
  }

  class RawValIter<T> {
    /** The memory the cursor reads: the slice it was made over. */
    const slice: seq<T>
    /** `slice.as_ptr()`. */
    const base: nat
    /** `mem::size_of::<T>()`. */
    const elemSize: nat
    var start: nat
    var end: nat
    /** The positions of `start` and `end` within the slice. */
    ghost var span: Span
    /** Every position yielded so far, in the order yielded. */
    ghost var yielded: seq<nat>

    ghost predicate Valid()
      reads this
    {
      && Partitioned(|slice|, span, yielded)
      && start == base + span.lo * Stride(elemSize)
      && end == base + span.hi * Stride(elemSize)
    }

    /** The element at a position a call yielded. */
    function Fetch(p: Option<nat>): (r: Option<T>)
    {
      if p.Some? && p.value < |slice| then Some(slice[p.value]) else None
    }

    /** What one call of `op` did: the cursor took the step `Step` gives,
        handed back the element at the position it yielded, and logged that
        position. */
    twostate predicate Took(op: Op, new r: Option<T>)
      reads this
    {
      && old(span).lo <= old(span).hi
      && span == Step(old(span), op).span
      && r == Fetch(Step(old(span), op).pos)
      && yielded == old(yielded) + Yielded([Step(old(span), op).pos])
    }

    /** `RawValIter::new(slice)`, where the slice starts at address `base`. */
    constructor (slice: seq<T>, base: nat, elemSize: nat)
      ensures Valid()
      ensures this.slice == slice && this.base == base && this.elemSize == elemSize
      ensures span == Span(0, |slice|) && yielded == []
    {
      var e := EndAddress(base, |slice|, elemSize);
      this.slice := slice;
      this.base := base;
      this.elemSize := elemSize;
      start := base;
      end := e;
      span := Span(0, |slice|);
      yielded := [];
      new;
      FreshPartitioned(|slice|);
      assert start == base + span.lo * Stride(elemSize);
      assert end == base + span.hi * Stride(elemSize);
    }

    /** `next`: nothing once `start == end`; otherwise the element at
        `start`, with `start` moved one element on. */
    method Next() returns (r: Option<T>)
      requires Valid()
      modifies this
      ensures Valid() && Took(Op.Next, r)
      ensures end == old(end)
    {
      ScaledGap(span.lo, span.hi, Stride(elemSize));
      StepPartitioned(|slice|, span, yielded, Op.Next);
      if start == end {
        r := None;
      } else {
        ScaledIndex(span.lo, Stride(elemSize));
        ScaledStep(span.lo + 1, Stride(elemSize));
        r := Some(slice[(start - base) / Stride(elemSize)]);
        start := if elemSize == 0 then start + 1 else start + elemSize;
        yielded := yielded + Yielded([Some(span.lo)]);
        span := Span(span.lo + 1, span.hi);
      }
    }

    /** `next_back`: nothing once `start == end`; otherwise `end` moves one
        element back and the element now at `end` is returned. */
    method NextBack() returns (r: Option<T>)
      requires Valid()
      modifies this
      ensures Valid() && Took(Op.NextBack, r)
      ensures start == old(start)
    {
      ScaledGap(span.lo, span.hi, Stride(elemSize));
      StepPartitioned(|slice|, span, yielded, Op.NextBack);
      if start == end {
        r := None;
      } else {
        ScaledStep(span.hi, Stride(elemSize));
        end := if elemSize == 0 then end - 1 else end - elemSize;
        ScaledIndex(span.hi - 1, Stride(elemSize));
        r := Some(slice[(end - base) / Stride(elemSize)]);
        yielded := yielded + Yielded([Some(span.hi - 1)]);
        span := Span(span.lo, span.hi - 1);
      }
    }

    /** `size_hint`: the byte distance between the ends divided by the
        element size (1 for a zero-sized type) is exactly the number of
        elements left, so both bounds are that number. */
    method SizeHint() returns (lower: nat, upper: Option<nat>)
      requires Valid()
      ensures lower == span.hi - span.lo
      ensures upper == Some(lower)
    {
      ScaledGap(span.lo, span.hi, Stride(elemSize));
      var len := (end - start) / if elemSize == 0 then 1 else elemSize;
      lower, upper := len, Some(len);
    }
  }

  /** Calling `next` until it yields nothing hands back every element of the
      slice once, front to back, whatever the element size. */
  method ForwardTraversal<T>(slice: seq<T>, base: nat, elemSize: nat) returns (outs: seq<T>)
    ensures outs == slice
  {
    var it := new RawValIter(slice, base, elemSize);
    outs := [];
    while true
      invariant it.Valid() && it.slice == slice
      invariant it.span == Span(|outs|, |slice|)
      invariant outs == slice[..|outs|]
      decreases |slice| - |outs|
    {
      var r := it.Next();
      if r.None? {
        break;
      }
      outs := outs + [r.value];
    }
  }

  /** Calling `next_back` until it yields nothing hands back every element of
      the slice once, back to front, whatever the element size. */
  method BackwardTraversal<T>(slice: seq<T>, base: nat, elemSize: nat) returns (outs: seq<T>)
    ensures |outs| == |slice|
    ensures forall k :: 0 <= k < |outs| ==> outs[k] == slice[|slice| - 1 - k]
  {
    var it := new RawValIter(slice, base, elemSize);
    outs := [];
    while true
      invariant it.Valid() && it.slice == slice
      invariant |outs| <= |slice|
      invariant it.span == Span(0, |slice| - |outs|)
      invariant forall k :: 0 <= k < |outs| ==> outs[k] == slice[|slice| - 1 - k]
      decreases |slice| - |outs|
    {
      var r := it.NextBack();
      if r.None? {
        break;
      }
      outs := outs + [r.value];
    }
  }

  /** The test `next` over `[0, 1]` of `i32`. */
  method NextTest() returns (a: Option<int>, b: Option<int>, c: Option<int>)
    ensures a == Some(0) && b == Some(1) && c == None
  {
    var it := new RawValIter([0, 1], 0x1000, 4);
    a := it.Next();
    b := it.Next();
    c := it.Next();
  }

  /** The test `size_hint`: `(0, Some(0))` over `[]`, `(2, Some(2))` over
      `[0, 1]`. */
  method SizeHintTest() returns (empty: (nat, Option<nat>), two: (nat, Option<nat>))
    ensures empty == (0, Some(0)) && two == (2, Some(2))
  {
    empty := NewSizeHint<int>([], 0x1000, 4);
    two := NewSizeHint([0, 1], 0x1000, 4);
  }

  /** A cursor made over a slice of `n` elements reports `(n, Some(n))`,
      whatever the element size. */
  method NewSizeHint<T>(slice: seq<T>, base: nat, elemSize: nat) returns (hint: (nat, Option<nat>))
    ensures hint == (|slice|, Some(|slice|))
  {
    var it := new RawValIter(slice, base, elemSize);
    var lower, upper := it.SizeHint();
    hint := (lower, upper);
  }

  /** The test `next_back` over `[0, 1]`. */
  method NextBackTest() returns (a: Option<int>, b: Option<int>, c: Option<int>)
    ensures a == Some(1) && b == Some(0) && c == None
  {
    var it := new RawValIter([0, 1], 0x1000, 4);
    a := it.NextBack();
    b := it.NextBack();
    c := it.NextBack();
  }

  /** The test `next_next_back` over `[0, 1, 2, 3]`: the two ends meet after
      four calls, having yielded every element once. */
  method NextNextBackTest() returns (outs: seq<Option<int>>)
    ensures outs == [Some(0), Some(3), Some(1), Some(2), None, None]
  {
    var it := new RawValIter([0, 1, 2, 3], 0x1000, 4);
    var a := it.Next();
    var b := it.NextBack();
    var c := it.Next();
    var d := it.NextBack();
    var e := it.Next();
    var f := it.NextBack();
    outs := [a, b, c, d, e, f];
  }

  /** The zero-sized case: over three `()` values the address is a counter,
      and interleaved calls still yield three elements and then stop. */
  method ZeroSizedTest() returns (size: nat, outs: seq<Option<()>>)
    ensures size == 3
    ensures outs == [Some(()), Some(()), Some(()), None]
  {
    var it := new RawValIter([(), (), ()], 1, 0);
    var upper;
    size, upper := it.SizeHint();
    var a := it.NextBack();
    var b := it.Next();
    var c := it.NextBack();
    var d := it.Next();
    outs := [a, b, c, d];
  }
}
