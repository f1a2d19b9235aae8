/** `Drain<'a, T>` (src/drain.rs): the draining iterator. It delegates every
    call to its cursor, and dropping it always runs the cursor to the end,
    whatever the element type, so the part of the range nobody asked for is
    still consumed. */
module Drains {
  import opened Wrappers
  import opened Cursor
  import opened RawValIters

  class Drain<T> {
    const iter: RawValIter<T>

    ghost predicate Valid()
      reads this, iter
    {
      iter.Valid()
    }

    /** `Drain::new(iter)`. */
    constructor (iter: RawValIter<T>)
      requires iter.Valid()
      ensures Valid() && this.iter == iter
    {
      this.iter := iter;
    }

    /** `next`: exactly the cursor's `next`. */
    method Next() returns (r: Option<T>)
      requires Valid()
      modifies iter
      ensures Valid() && iter.Took(Op.Next, r)
    {
      r := iter.Next();
    }

    /** `size_hint`: exactly the cursor's count of remaining elements. */
    method SizeHint() returns (lower: nat, upper: Option<nat>)
      requires Valid()
      ensures lower == iter.span.hi - iter.span.lo
      ensures upper == Some(lower)
    {
      lower, upper := iter.SizeHint();
    }

    /** `next_back`: exactly the cursor's `next_back`. */
    method NextBack() returns (r: Option<T>)
      requires Valid()
      modifies iter
      ensures Valid() && iter.Took(Op.NextBack, r)
    {
      r := iter.NextBack();
    }

    /** `Drop for Drain`: calls the cursor's `next` until it yields nothing,
        so every remaining element is yielded (and dropped) once, front to
        back, and the cursor ends exhausted. */
    method Drop()
      requires Valid()
      modifies iter
      ensures Valid()
      ensures iter.span == Span(old(iter.span.hi), old(iter.span.hi))
      ensures iter.yielded == old(iter.yielded) + Range(old(iter.span.lo), old(iter.span.hi))
    {
      while true
        invariant Valid()
        invariant old(iter.span.lo) <= iter.span.lo <= iter.span.hi == old(iter.span.hi)
        invariant iter.yielded == old(iter.yielded) + Range(old(iter.span.lo), iter.span.lo)
        decreases iter.span.hi - iter.span.lo
      {
        var x := iter.Next();
        if x.None? {
          break;
        }
      }
    }
  }

  /** A draining iterator over `slice`. */
  method DrainOver(slice: seq<int>) returns (d: Drain<int>)
    ensures fresh(d) && fresh(d.iter) && d.Valid()
    ensures d.iter.slice == slice && d.iter.span == Span(0, |slice|) && d.iter.yielded == []
  {
    var cursor := new RawValIter(slice, 0x1000, 4);
    d := new Drain(cursor);
  }

  /** The test `next` over `[0, 1]`. */
  method NextTest() returns (a: Option<int>, b: Option<int>, c: Option<int>)
    ensures a == Some(0) && b == Some(1) && c == None
  {
    var d := DrainOver([0, 1]);
    a := d.Next();
    b := d.Next();
    c := d.Next();
  }

  /** The test `size_hint`: 1 and 2 elements over `[0]` and `[0, 1]`. */
  method SizeHintTest() returns (one: (nat, Option<nat>), two: (nat, Option<nat>))
    ensures one == (1, Some(1)) && two == (2, Some(2))
  {
    one := SizeHintOf([0]);
    two := SizeHintOf([0, 1]);
  }

  method SizeHintOf(slice: seq<int>) returns (hint: (nat, Option<nat>))
    ensures hint == (|slice|, Some(|slice|))
  {
    var d := DrainOver(slice);
    var lower, upper := d.SizeHint();
    hint := (lower, upper);
  }

  /** The test `next_back` over `[0, 1]`. */
  method NextBackTest() returns (a: Option<int>, b: Option<int>, c: Option<int>)
    ensures a == Some(1) && b == Some(0) && c == None
  {
    var d := DrainOver([0, 1]);
    a := d.NextBack();
    b := d.NextBack();
    c := d.NextBack();
  }

  /** The test `next_next_back` over `[0, 1, 2]`: no repeat, no omission. */
  method NextNextBackTest() returns (outs: seq<Option<int>>)
    ensures outs == [Some(0), Some(2), Some(1), None, None]
  {
    var d := DrainOver([0, 1, 2]);
    var a := d.Next();
    var b := d.NextBack();
    var c := d.Next();
    var e := d.NextBack();
    var f := d.Next();
    outs := [a, b, c, e, f];
  }

  /** A drain abandoned after one `next` over `[0, 1, 2]`: dropping it
      consumes the two untouched elements, each once, and leaves nothing. */
  method PartialDropTest() returns (first: Option<int>, left: nat)
    ensures first == Some(0) && left == 0
  {
    var d := DrainOver([0, 1, 2]);
    first := d.Next();
    d.Drop();
    assert d.iter.yielded == [0, 1, 2];
    var upper;
    left, upper := d.SizeHint();
  }
}
