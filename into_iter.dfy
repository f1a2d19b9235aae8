/** `IntoIter<T>` (src/into_iter.rs): the consuming iterator. It keeps the
    buffer it was made from alive (`_buf`, never touched while iterating) and
    delegates every call to its cursor; dropping it runs the cursor to the end
    when the element type has a destructor, so no remaining element leaks. */
module IntoIters {
  import opened Wrappers
  import opened Capacity
  import opened Heaps
  import opened Cursor
  import opened RawVecs
  import opened RawValIters

  class IntoIter<T> {
    /** `_buf`: held only so that the allocation outlives the iterator; its
        release is `RawVec`'s `Drop`. */
    const buf: RawVec
    const iter: RawValIter<T>
    /** `mem::needs_drop::<T>()`. */
    const needsDrop: bool

    ghost predicate Valid()
      reads this, buf, buf.alloc, iter
    {
      buf.Valid() && iter.Valid()
    }

    /** `IntoIter::new(buf, iter)`. */
    constructor (buf: RawVec, iter: RawValIter<T>, needsDrop: bool)
      requires buf.Valid() && iter.Valid()
      ensures Valid()
      ensures this.buf == buf && this.iter == iter && this.needsDrop == needsDrop
    {
      this.buf := buf;
      this.iter := iter;
      this.needsDrop := needsDrop;
    }

    /** `next`: exactly the cursor's `next`. */
    method Next() returns (r: Option<T>)
      requires Valid()
      modifies iter
      ensures Valid() && iter.Took(Op.Next, r)
    {
      r := iter.Next();
    }

    /** `size_hint`: exactly the cursor's count of remaining elements. */
    method SizeHint() returns (lower: nat, upper: Option<nat>)
      requires Valid()
      ensures lower == iter.span.hi - iter.span.lo
      ensures upper == Some(lower)
    {
      lower, upper := iter.SizeHint();
    }

    /** `next_back`: exactly the cursor's `next_back`. */
    method NextBack() returns (r: Option<T>)
      requires Valid()
      modifies iter
      ensures Valid() && iter.Took(Op.NextBack, r)
    {
      r := iter.NextBack();
    }

    /** `Drop for IntoIter`: when `T` needs dropping, calls `next` until it
        yields nothing, so every remaining element is yielded (and dropped)
        once, front to back; otherwise it visits nothing. The buffer is left
        for `RawVec` to release. */
    method Drop()
      requires Valid()
      modifies iter
      ensures Valid()
      ensures needsDrop ==> iter.span == Span(old(iter.span.hi), old(iter.span.hi)) &&
                            iter.yielded == old(iter.yielded) + Range(old(iter.span.lo), old(iter.span.hi))
      ensures !needsDrop ==> iter.span == old(iter.span) && iter.yielded == old(iter.yielded)
    {
      if needsDrop {
        while true
          invariant Valid()
          invariant old(iter.span.lo) <= iter.span.lo <= iter.span.hi == old(iter.span.hi)
          invariant iter.yielded == old(iter.yielded) + Range(old(iter.span.lo), iter.span.lo)
          decreases iter.span.hi - iter.span.lo
        {
          var x := Next();
          if x.None? {
            break;
          }
        }
      }
    }
  }

  /** A consuming iterator over `slice`, kept alive by a fresh 4-byte
      element buffer; `needsDrop` says whether the element type has a
      destructor (`i32` has none). The buffer here is an empty one that owns
      no block, so this is not the handover `Vec::into_iter` performs, where
      the buffer holds the very elements the cursor walks. Nothing relates
      `buf` to the cursor's memory, and `IntoIter::new` checks no such
      relation either: the iterator only keeps `buf` alive. */
  method IntoIterOver(slice: seq<int>, needsDrop: bool) returns (it: IntoIter<int>)
    ensures fresh(it) && fresh(it.iter) && it.Valid() && it.needsDrop == needsDrop
    ensures it.iter.slice == slice && it.iter.span == Span(0, |slice|) && it.iter.yielded == []
  {
    var alloc := new Heap();
    var res := RawVec.Default(alloc, 4);
    var cursor := new RawValIter(slice, 0x1000, 4);
    it := new IntoIter(res.value, cursor, needsDrop);
  }

  /** The test `next` over `[0, 1]`. */
  method NextTest() returns (a: Option<int>, b: Option<int>, c: Option<int>)
    ensures a == Some(0) && b == Some(1) && c == None
  {
    var it := IntoIterOver([0, 1], false);
    a := it.Next();
    b := it.Next();
    c := it.Next();
  }

  /** The test `size_hint`: 0, 1 and 2 elements over `[]`, `[0]`, `[0, 1]`. */
  method SizeHintTest() returns (hints: seq<(nat, Option<nat>)>)
    ensures hints == [(0, Some(0)), (1, Some(1)), (2, Some(2))]
  {
    var h0 := SizeHintOf([]);
    var h1 := SizeHintOf([0]);
    var h2 := SizeHintOf([0, 1]);
    hints := [h0, h1, h2];
  }

  method SizeHintOf(slice: seq<int>) returns (hint: (nat, Option<nat>))
    ensures hint == (|slice|, Some(|slice|))
  {
    var it := IntoIterOver(slice, false);
    var lower, upper := it.SizeHint();
    hint := (lower, upper);
  }

  /** The test `next_back` over `[0, 1]`. */
  method NextBackTest() returns (a: Option<int>, b: Option<int>, c: Option<int>)
    ensures a == Some(1) && b == Some(0) && c == None
  {
    var it := IntoIterOver([0, 1], false);
    a := it.NextBack();
    b := it.NextBack();
    c := it.NextBack();
  }

  /** The test `next_next_back` over `[0, 1, 2]`. */
  method NextNextBackTest() returns (outs: seq<Option<int>>)
    ensures outs == [Some(0), Some(2), Some(1), None, None]
  {
    var it := IntoIterOver([0, 1, 2], false);
    var a := it.Next();
    var b := it.NextBack();
    var c := it.Next();
    var d := it.NextBack();
    var e := it.Next();
    outs := [a, b, c, d, e];
  }

  /** Dropping an iterator abandoned after one `next` over `[0, 1, 2]`: with
      a destructor the two remaining elements are consumed, each once;
      without one nothing is visited. */
  method DropTest() returns (first: Option<int>, leftNeedsDrop: nat, leftPlain: nat)
    ensures first == Some(0) && leftNeedsDrop == 0 && leftPlain == 2
  {
    var it := IntoIterOver([0, 1, 2], true);
    first := it.Next();
    it.Drop();
    assert it.iter.yielded == [0, 1, 2];
    var upper;
    leftNeedsDrop, upper := it.SizeHint();
    var plain := IntoIterOver([0, 1, 2], false);
    var x := plain.Next();
    plain.Drop();
    leftPlain, upper := plain.SizeHint();
  }
}
