# rustnomicon-vec: growth policy and raw cursor, in Dafny

This project models the core of a hand-rolled growable array written in Rust:

- `RawVec` and `Vec` each hold a capacity and grow it. The first growth allocates one slot, and each later growth doubles the capacity. A growth whose current byte size exceeds `isize::MAX / 2` panics with "capacity overflow". An allocator error aborts the process through `oom`. Both constructors panic for a zero-sized element type. `RawVec`'s drop releases its block once, and only when `cap != 0`.
- `RawValIter` is a double-ended `(start, end)` cursor over a run of elements it does not own. `next` reads at `start` and advances it. `next_back` retreats `end` and reads there. `size_hint` is exact.
- `IntoIter` and `Drain` delegate to a `RawValIter`. Their drops run the cursor to exhaustion, `IntoIter`'s only when the element type needs dropping.

Files:

- `wrappers.dfy`: `Option`, `Result` and `Outcome`.
- `capacity.dfy`: the growth policy `NextCap`, the growth sequence `GrowTimes` and the reasons an operation stops short.
- `heap.dfy`: an abstract allocator. It keeps a ledger of live blocks with their slot counts. Whether it grants a request is a parameter.
- `raw_vec.dfy` and `vec.dfy`: the two buffer classes.
- `cursor.dfy`: the cursor at the level of positions. A `Span` `[lo, hi)` holds the positions not yet yielded, and `Step` and `Run` apply calls to it. The lemmas show that any interleaving of `next` and `next_back` yields every position exactly once.
- `raw_val_iter.dfy`: the `RawValIter` class. Its `start` and `end` are addresses, `base + index * stride`, and the stride is 1 for a zero-sized type. A ghost `span` holds the two indices, and a ghost `yielded` log records every position handed out.
- `into_iter.dfy` and `drain.dfy`: the two wrapper classes.

Each Rust test is restated as a method whose `ensures` gives the values the test asserts. The `IntoIter` and `Drain` tests in the source build their input with `Vec::push`, which `src/vec.rs` does not define. Here they run over a cursor on the same elements, built with `IntoIter::new` and `Drain::new`.

Panics and aborts are return values: `Fail(CapacityOverflow)`, `Fail(OutOfMemory)` and `Failure(ZeroSizedType)`. The zero-size and capacity-overflow checks are `assert!`s, so they panic and unwind. Only `OutOfMemory`, raised through `oom`, aborts the process. On each of these paths `ptr`, `cap` and the allocator ledger are exactly as before the call. This matches the source, which checks the guard and the allocator result before it assigns anything.

## Model

| member | source | states |
|---|---|---|
| Capacity.NextCap | src/raw_vec.rs:41-59 | a growth moves to a strictly larger capacity; the only way it fails is capacity overflow |
| Capacity.NextCapStaysInRange | src/raw_vec.rs:45-57 | for a sized type within `isize::MAX`, a buffer of at most `isize::MAX` bytes grows to one of at most `isize::MAX` bytes, and `cap * 2`, computed by `Vec::grow` before its guard, never leaves `usize` |
| Capacity.GrowTimes | src/raw_vec.rs:45-51 | a sequence of growths under the capacity policy can fail only through the capacity-overflow guard |
| Capacity.GrowTimesDoubles | src/raw_vec.rs:80-89 | after k growths from empty the capacity is 2^(k-1); the k-th growth panics exactly when 2^(k-2) slots already exceed `isize::MAX / 2` bytes |
| Capacity.OverflowIsFinal | src/raw_vec.rs:45-51 | once a growth sequence has failed, every longer sequence ends in the same failure: no later `grow` is reached |
| Capacity.GrowTimesBounded | src/raw_vec.rs:45-57 | for a sized element type, every capacity reached by growing from empty keeps `cap * elem_size` within `isize::MAX` |
| Heaps.Heap.AllocOne | src/raw_vec.rs:43 | the allocator either adds one fresh one-slot block to the ledger or refuses and changes nothing |
| Heaps.Heap.ReallocArray | src/raw_vec.rs:55-56 | the allocator either replaces the block of exactly `old_cap` slots by a fresh block of `new_cap` slots or refuses and keeps the old block |
| Heaps.Heap.DeallocOne | src/raw_vec.rs:20 | releasing a one-slot block removes exactly that block from the ledger |
| Heaps.Heap.DeallocArray | src/raw_vec.rs:22-25 | releasing a block of exactly `cap` slots removes exactly that block, or reports an error and keeps it |
| RawVecs.RawVec.Empty | src/raw_vec.rs:34-38 | a fresh buffer holds the dangling placeholder and capacity 0 |
| RawVecs.RawVec.Default | src/raw_vec.rs:32-39 | a zero-sized element type panics; otherwise the result is a valid buffer with `cap == 0` that owns no block |
| RawVecs.RawVec.Grow | src/raw_vec.rs:41-67 | success moves `cap` to `NextCap` and swaps the old block for a fresh one of `cap` slots; overflow panics and allocator refusal aborts, each with `ptr`, `cap` and the ledger unchanged; validity (including byte size within `isize::MAX`) is kept |
| RawVecs.RawVec.Drop | src/raw_vec.rs:12-28 | with `cap == 0` nothing is released; otherwise exactly the owned block, sized by `cap`, leaves the ledger, so a second drop is impossible; a `dealloc_array` error aborts through `oom` |
| RawVecs.ZstPanicTest | src/raw_vec.rs:74-78 | `RawVec::<()>::default()` panics |
| RawVecs.GrowTest | src/raw_vec.rs:80-89 | a `RawVec<i32>` starts at capacity 0, and sixteen growths give 1, 2, 4, ..., 2^15 |
| Vecs.Vec.Empty | src/vec.rs:17-22 | a fresh vector holds the dangling placeholder, capacity 0 and length 0 |
| Vecs.Vec.New | src/vec.rs:14-23 | a zero-sized element type panics; otherwise the result is a valid vector with `cap == 0` and `len == 0` |
| Vecs.Vec.Grow | src/vec.rs:25-52 | the same capacity policy, overflow panic and out-of-memory abort as `RawVec::grow`, and `len` never changes |
| Vecs.GrowTest | src/vec.rs:59-68 | a `Vec<i32>` starts at capacity 0, sixteen growths give 1, 2, ..., 2^15, and the length stays 0 |
| Vecs.ZstPanicTest | src/vec.rs:70-74 | `Vec::<()>::new()` panics |
| Cursor.Step | src/raw_val_iter.rs:33-73 | one call keeps `lo <= hi`; it yields a position exactly when the cursor is non-empty; an empty cursor is unchanged; a yielded position was remaining and no longer is, and one fewer remains |
| Cursor.Run | src/raw_val_iter.rs:33-73 | a sequence of calls gives one result per call and only ever narrows the remaining range |
| Cursor.FreshPartitioned | src/raw_val_iter.rs:14-27 | a new cursor over n elements has yielded nothing and keeps all n |
| Cursor.StepPartitioned | src/raw_val_iter.rs:33-73 | one `next` or `next_back` keeps the partition: no position is yielded twice, and each position is either yielded or still remaining |
| Cursor.RunPartitioned | src/raw_val_iter.rs:111-121 | any interleaving of `next` and `next_back` keeps that partition |
| Cursor.RunExhausts | src/raw_val_iter.rs:111-121 | after at least `hi - lo` calls in any mix, the two ends have met |
| Cursor.ExhaustedStays | src/raw_val_iter.rs:34-35 | on an exhausted cursor every further call yields nothing and changes nothing |
| Cursor.EveryPositionOnce | src/raw_val_iter.rs:111-121 | over n elements, any n or more calls in any order yield every position exactly once and leave the cursor exhausted |
| Cursor.ForwardInOrder | src/raw_val_iter.rs:80-87 | `next` alone yields the remaining positions in order, then nothing |
| Cursor.BackwardReversed | src/raw_val_iter.rs:102-109 | `next_back` alone yields the remaining positions in reverse order, then nothing |
| RawValIters.Stride | src/raw_val_iter.rs:51-53 | the divisor of `size_hint` and the step of the address is never 0, and is 1 for a zero-sized type |
| RawValIters.EndAddress | src/raw_val_iter.rs:19-25 | each of the three ways `new` computes `end` places it exactly `len` strides after `start` |
| RawValIters.RawValIter.constructor | src/raw_val_iter.rs:14-27 | a new cursor over a slice of n elements has `start` at the slice, all n positions remaining and nothing yielded |
| RawValIters.RawValIter.Next | src/raw_val_iter.rs:33-48 | with `start == end` it returns `None` and changes nothing; otherwise it returns the element at `start`, advances `start` one element, leaves `end` alone and logs the position |
| RawValIters.RawValIter.NextBack | src/raw_val_iter.rs:59-73 | with `start == end` it returns `None`; otherwise `end` retreats one element and the element now at `end` is returned; `start` is left alone |
| RawValIters.RawValIter.SizeHint | src/raw_val_iter.rs:50-55 | the byte distance divided by the element size (1 when zero-sized) is exactly the number of remaining elements, for both bounds |
| RawValIters.ForwardTraversal | src/raw_val_iter.rs:33-48 | for any slice and element size, calling `next` until it yields `None` returns exactly the slice, in order |
| RawValIters.BackwardTraversal | src/raw_val_iter.rs:59-73 | for any slice and element size, calling `next_back` until it yields `None` returns every element once, in reverse order |
| RawValIters.NewSizeHint | src/raw_val_iter.rs:14-27 | a cursor newly made over n elements reports `(n, Some(n))` |
| RawValIters.NextTest | src/raw_val_iter.rs:80-87 | over `[0, 1]`, `next` gives 0, 1, then `None` |
| RawValIters.SizeHintTest | src/raw_val_iter.rs:89-100 | `(0, Some(0))` over `[]` and `(2, Some(2))` over `[0, 1]` |
| RawValIters.NextBackTest | src/raw_val_iter.rs:102-109 | over `[0, 1]`, `next_back` gives 1, 0, then `None` |
| RawValIters.NextNextBackTest | src/raw_val_iter.rs:111-121 | over `[0, 1, 2, 3]`, alternating `next` and `next_back` gives 0, 3, 1, 2, `None`, `None` |
| RawValIters.ZeroSizedTest | src/raw_val_iter.rs:39-40 | with a zero-sized type the address is a counter: three `()` values give size 3 and interleaved calls yield three values, then `None` |
| IntoIters.IntoIter.constructor | src/into_iter.rs:39-43 | the iterator holds the given buffer and cursor |
| IntoIters.IntoIter.Next | src/into_iter.rs:14-16 | returns and does exactly what the cursor's `next` does; the buffer is untouched |
| IntoIters.IntoIter.SizeHint | src/into_iter.rs:18-20 | exactly the cursor's remaining count, for both bounds |
| IntoIters.IntoIter.NextBack | src/into_iter.rs:23-27 | returns and does exactly what the cursor's `next_back` does |
| IntoIters.IntoIter.Drop | src/into_iter.rs:29-37 | when `T` needs dropping, every remaining position is yielded once, front to back, and the cursor ends exhausted; otherwise nothing is visited; the buffer is never touched |
| IntoIters.NextTest | src/into_iter.rs:49-59 | over `[0, 1]`, `next` gives 0, 1, then `None` |
| IntoIters.SizeHintTest | src/into_iter.rs:61-80 | over 0, 1 and 2 elements the hints are `(0, Some(0))`, `(1, Some(1))` and `(2, Some(2))` |
| IntoIters.NextBackTest | src/into_iter.rs:82-92 | over `[0, 1]`, `next_back` gives 1, 0, then `None` |
| IntoIters.NextNextBackTest | src/into_iter.rs:94-107 | over `[0, 1, 2]`, next, next_back, next, next_back, next give 0, 2, 1, `None`, `None` |
| IntoIters.DropTest | src/into_iter.rs:29-34 | dropping after one `next` over `[0, 1, 2]` leaves 0 elements when `T` needs dropping and 2 when it does not |
| Drains.Drain.constructor | src/drain.rs:34-41 | the drain holds the given cursor |
| Drains.Drain.Next | src/drain.rs:13-15 | returns and does exactly what the cursor's `next` does |
| Drains.Drain.SizeHint | src/drain.rs:17-19 | exactly the cursor's remaining count, for both bounds |
| Drains.Drain.NextBack | src/drain.rs:22-26 | returns and does exactly what the cursor's `next_back` does |
| Drains.Drain.Drop | src/drain.rs:28-32 | whatever the element type, every remaining position is yielded once, front to back, and the cursor ends exhausted |
| Drains.NextTest | src/drain.rs:47-57 | over `[0, 1]`, `next` gives 0, 1, then `None` |
| Drains.SizeHintTest | src/drain.rs:66-77 | over 1 and 2 elements the hints are `(1, Some(1))` and `(2, Some(2))` |
| Drains.NextBackTest | src/drain.rs:80-90 | over `[0, 1]`, `next_back` gives 1, 0, then `None` |
| Drains.NextNextBackTest | src/drain.rs:92-105 | over `[0, 1, 2]`, interleaved calls give 0, 2, 1, `None`, `None`, with no repeat and no omission |
| Drains.PartialDropTest | src/drain.rs:28-32 | a drain dropped after one `next` over `[0, 1, 2]` still consumes 1 and 2, each once, and leaves nothing |

## Left out

- src/owned_ptr.rs is not part of this model. Its `NonNull` wrapper is the datatype `Ptr`: `Dangling` for `OwnedPtr::empty()` and `Block(id)` for a live allocation.
- src/lib.rs only declares modules and feature flags.
- The allocator (`alloc_one`, `realloc_array`, `dealloc_one`, `dealloc_array`, `oom`) is foreign code. `Heap` stands in for it with a ledger of live blocks, and each answer is a `grant` parameter.
- A panic or an abort is an outcome the model returns. The unwinding that follows a panic, and the destructors it runs (a `RawVec` releasing its block on the way out), are not modelled. That an `oom` abort ends the process is not modelled either.
- `ptr::read`, byte layout, alignment and pointer provenance are left out. Reading at an address is indexing the slice at `(addr - base) / stride`.
- Addresses are unbounded naturals. The `usize` wrap-around of the zero-sized address counter (`start as usize + slice.len()`) is not modelled.
- `mem::needs_drop::<T>()` is a boolean field of `IntoIter`. Element destructors are not modelled: dropping an element is yielding it into the `yielded` log.
- `IntoIter.Drop` models the `Drop` impl only. The drop of the `_buf` field that follows it is `RawVec.Drop`, and the two are not chained here.
- `Vec` gets no destructor here, because src/vec.rs defines none.
- `push`, `pop`, `insert`, `remove`, `into_iter` and `drain(start)` are used by the tests but not defined in src/vec.rs. They are not modelled. The `Drain` test at src/drain.rs:61-64 calls `into_iter`, not `drain`, and is covered by `IntoIters.SizeHintTest`.
- `PhantomData` lifetimes and the borrow of the drained vector are static ownership facts, not runtime behaviour.
- Constants are those of a 64-bit target: `isize::MAX = 2^63 - 1`. Element sizes are taken to be at most `isize::MAX`, as Rust guarantees for every type.
- Unlike the Rustonomicon's `Vec` chapter, whose `RawVec` gives a zero-sized type capacity `usize::MAX` and skips deallocation for it, both constructors here panic for a zero-sized type. The model follows this code. So `RawVec`'s drop has no zero-sized branch, because such a buffer cannot be built.
