/** The index-level behaviour of the double-ended cursor `RawValIter`
    (src/raw_val_iter.rs). A cursor over `n` elements has a remaining range
    `[lo, hi)` of positions; `next` yields `lo` and moves it up, `next_back`
    moves `hi` down and yields it, and both yield nothing once `lo == hi`. */
module Cursor {
  import opened Wrappers

  datatype Op = Next | NextBack

  /** The positions `[lo, hi)` not yet yielded. */
  datatype Span = Span(lo: nat, hi: nat)

  /** The cursor after one call, and the position the call yielded. */
  datatype Stepped = Stepped(span: Span, pos: Option<nat>)

  /** One call of `next` or `next_back`. */
  function Step(s: Span, op: Op): (r: Stepped)
    requires s.lo <= s.hi
    ensures r.span.lo <= r.span.hi
    ensures r.pos.Some? <==> s.lo < s.hi
    ensures r.pos.None? ==> r.span == s
    ensures r.pos.Some? ==> s.lo <= r.pos.value < s.hi &&
                            !(r.span.lo <= r.pos.value < r.span.hi) &&
                            r.span.hi - r.span.lo == s.hi - s.lo - 1
  {
    if s.lo == s.hi then Stepped(s, None)
    else match op
      case Next => Stepped(Span(s.lo + 1, s.hi), Some(s.lo))
      case NextBack => Stepped(Span(s.lo, s.hi - 1), Some(s.hi - 1))
  }

  /** The cursor after a sequence of calls, and what each call yielded. */
  function Run(s: Span, ops: seq<Op>): (r: (Span, seq<Option<nat>>))
    requires s.lo <= s.hi
    ensures |r.1| == |ops|
    ensures s.lo <= r.0.lo <= r.0.hi <= s.hi
    decreases |ops|
  {
    if ops == [] then (s, [])
    else
      var st := Step(s, ops[0]);
      var rest := Run(st.span, ops[1..]);
      (rest.0, [st.pos] + rest.1)
  }

  /** The positions among a sequence of call results, in order. */
  function Yielded(outs: seq<Option<nat>>): (r: seq<nat>)
    ensures |r| <= |outs|
  {
    if outs == [] then []
    else (if outs[0].Some? then [outs[0].value] else []) + Yielded(outs[1..])
  }

  lemma {:induction false} YieldedAppend(a: seq<Option<nat>>, b: seq<Option<nat>>)
    ensures Yielded(a + b) == Yielded(a) + Yielded(b)
  {
    if a == [] {
      assert a + b == b;
    } else {
      var head := if a[0].Some? then [a[0].value] else [];
      assert (a + b)[0] == a[0];
      assert (a + b)[1..] == a[1..] + b;
      assert Yielded(a + b) == head + Yielded(a[1..] + b);
      YieldedAppend(a[1..], b);
      assert Yielded(a) == head + Yielded(a[1..]);
    }
  }

  /** The positions `lo, lo + 1, ..., hi - 1`. */
  function Range(lo: nat, hi: nat): (r: seq<nat>)
    requires lo <= hi
    ensures |r| == hi - lo
    ensures forall k :: 0 <= k < |r| ==> r[k] == lo + k
  {
    seq(hi - lo, k requires 0 <= k => lo + k)
  }

  /** What a cursor over `n` elements promises about the positions `ys` it
      has yielded so far while `s` remains: no position twice, every yielded
      position outside the remaining range, and every position outside that
      range yielded. */
  ghost predicate Partitioned(n: nat, s: Span, ys: seq<nat>)
  {
    && s.lo <= s.hi <= n
    && |ys| == n - (s.hi - s.lo)
    && (forall i, j :: 0 <= i < j < |ys| ==> ys[i] != ys[j])
    && (forall k :: 0 <= k < |ys| ==> ys[k] < n && !(s.lo <= ys[k] < s.hi))
    && (forall p :: 0 <= p < n && !(s.lo <= p < s.hi) ==> p in ys)
  }

  /** A fresh cursor has yielded nothing and keeps everything. */
  lemma FreshPartitioned(n: nat)
    ensures Partitioned(n, Span(0, n), [])
  {
  }

  /** One call keeps the partition: what it yields was remaining and is
      yielded exactly once. */
  lemma StepPartitioned(n: nat, s: Span, ys: seq<nat>, op: Op)
    requires Partitioned(n, s, ys)
    ensures Partitioned(n, Step(s, op).span, ys + Yielded([Step(s, op).pos]))
  {
  }

  /** Any interleaving of `next` and `next_back` keeps the partition. */
  lemma {:induction false} RunPartitioned(n: nat, s: Span, ys: seq<nat>, ops: seq<Op>)
    requires Partitioned(n, s, ys)
    ensures Partitioned(n, Run(s, ops).0, ys + Yielded(Run(s, ops).1))
    decreases |ops|
  {
    if ops != [] {
      var st := Step(s, ops[0]);
      StepPartitioned(n, s, ys, ops[0]);
      var ys' := ys + Yielded([st.pos]);
      RunPartitioned(n, st.span, ys', ops[1..]);
      var rest := Run(st.span, ops[1..]);
      YieldedAppend([st.pos], rest.1);
      assert ys' + Yielded(rest.1) == ys + Yielded([st.pos] + rest.1);
    }
  }

  /** Each call that finds the cursor non-empty shrinks it by one, so at
      least `hi - lo` calls, in any mix, meet the two ends. */
  lemma {:induction false} RunExhausts(s: Span, ops: seq<Op>)
    requires s.lo <= s.hi
    requires |ops| >= s.hi - s.lo
    ensures Run(s, ops).0.lo == Run(s, ops).0.hi
    decreases |ops|
  {
    if s.lo < s.hi {
      RunExhausts(Step(s, ops[0]).span, ops[1..]);
    } else if ops != [] {
      ExhaustedStays(s, ops);
    }
  }

  /** An exhausted cursor stays exhausted: every further call yields
      nothing and changes nothing. */
  lemma {:induction false} ExhaustedStays(s: Span, ops: seq<Op>)
    requires s.lo == s.hi
    ensures Run(s, ops).0 == s
    ensures forall k :: 0 <= k < |ops| ==> Run(s, ops).1[k] == None
    decreases |ops|
  {
    if ops != [] {
      ExhaustedStays(s, ops[1..]);
    }
  }

  /** The property the cursor exists for: over `n` elements, any sequence of
      at least `n` calls of `next` and `next_back`, in any order, yields
      every position exactly once and leaves the cursor exhausted. */
  lemma EveryPositionOnce(n: nat, ops: seq<Op>)
    requires |ops| >= n
    ensures Run(Span(0, n), ops).0.lo == Run(Span(0, n), ops).0.hi
    ensures var ys := Yielded(Run(Span(0, n), ops).1);
            && |ys| == n
            && (forall i, j :: 0 <= i < j < |ys| ==> ys[i] != ys[j])
            && (forall p :: 0 <= p < n ==> p in ys)
  {
    FreshPartitioned(n);
    RunPartitioned(n, Span(0, n), [], ops);
    RunExhausts(Span(0, n), ops);
    assert [] + Yielded(Run(Span(0, n), ops).1) == Yielded(Run(Span(0, n), ops).1);
  }

  /** `next` alone yields the remaining positions in order, then nothing. */
  lemma {:induction false} ForwardInOrder(lo: nat, hi: nat)
    requires lo <= hi
    ensures var r := Run(Span(lo, hi), seq(hi - lo + 1, _ => Next));
            && r.0 == Span(hi, hi)
            && (forall k :: 0 <= k < hi - lo ==> r.1[k] == Some(lo + k))
            && r.1[hi - lo] == None
    decreases hi - lo
  {
    var ops := seq(hi - lo + 1, _ => Next);
    if lo == hi {
      assert ops[1..] == [];
    } else {
      ForwardInOrder(lo + 1, hi);
      assert ops[1..] == seq(hi - (lo + 1) + 1, _ => Next);
    }
  }

  /** `next_back` alone yields the remaining positions in reverse, then
      nothing. */
  lemma {:induction false} BackwardReversed(lo: nat, hi: nat)
    requires lo <= hi
    ensures var r := Run(Span(lo, hi), seq(hi - lo + 1, _ => NextBack));
            && r.0 == Span(lo, lo)
            && (forall k :: 0 <= k < hi - lo ==> r.1[k] == Some(hi - 1 - k))
            && r.1[hi - lo] == None
    decreases hi - lo
  {
    var ops := seq(hi - lo + 1, _ => NextBack);
    if lo == hi {
      assert ops[1..] == [];
    } else {
      BackwardReversed(lo, hi - 1);
      assert ops[1..] == seq((hi - 1) - lo + 1, _ => NextBack);
    }
  }
}
