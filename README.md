# cVector in Dafny

A model of cVector, a growable array of `int` written in C as a header-only
library, and proofs about it. The repository holds three versions of the
component:

- `src/cvector.h`, the current `cVector`: a struct with a buffer `m_data`, a
  logical size `m_size` and a physical capacity `m_capacity`. Every capacity it
  asks for is rounded up to the least power of two at least as large as the
  request (`UTIL_get_new_cap`). It offers constructors, bounds-checked access
  (`at`, `at_iter`, `front`, `back`), element-shifting mutators (`insert`,
  `push_back`, `pop_back`, `erase`) and capacity operations (`resize`,
  `resize_val`, `reserve`, `shrink_to_fit`). Modelled by module `CVector`.
- `cvector.h`, an older copy of the same design without `erase` and
  `shrink_to_fit`. Its capacity rule, constructors, `at`, `at_iter`, `insert`,
  `push_back`, `pop_back`, `resize`, `resize_val` and `reserve` are the same
  code as in `src/cvector.h` (cvector.h:57-63, 106-122, 130-240), so the
  members of `CVector` model them too. Its `front` (no emptiness check) and
  `back` (reads slot `m_size`) differ; module `CVectorOld` models those two.
- `vector.h`, the earliest `Vector`: append-only, capacity 8 by default or
  exactly the requested size, doubled by `vect_insert` when full. Modelled by
  module `Vector`.

Modules:

- `Errors` (errors.dfy): the `Option` type. Where the C code returns `NULL`
  (`insert`, `erase`, `at_iter`, constructors) or the sentinel -1 (`at`,
  `front`, `back`, `vect_at`; `ERR` in src/cvector.h), the model returns
  `None`. A null
  `CVector?` stands for a `NULL` constructor result.
- `Pow2` (pow2.dfy): `IsPow2`, the reference definition `CeilPow2`, its
  properties, and `GetNewCap`, the loop of `UTIL_get_new_cap`, proved to
  compute the least power of two at least as large as the request.
- `SeqOps` (seq_ops.dfy): what the mutators do to the live elements, as
  functions on sequences (`InsertAt`, `RemoveAt`, `Resized`), with round-trip
  lemmas.
- `CVector` (cvector.dfy): class `CVector` with fields `data` (an
  `array<int>`), `size` and `capacity`. The invariant `Valid()` says the buffer
  has `capacity` slots, `size <= capacity`, and the capacity is a power of two.
  `Contents()` is the live prefix `data[..size]`. Every mutator keeps `Valid()`
  and states the new live elements as a function of the old ones, the new
  capacity, and what happens to the dead slots past the size. Pointers are
  indices: `begin` is 0, `end` is `size`, and the live elements are exactly the
  slots between them. Reallocation (`UTIL_reallocate`)
  replaces `data` with a fresh array that keeps the first `min(old, new)`
  slots. Slots past the old capacity are left unspecified, as `realloc` leaves
  them. The pointer loops of `insert`, `erase` and the fill loops are the
  in-place array methods `ShiftUp`, `ShiftDown` and `FillRange`.
- `CVectorOld` (cvector_old.dfy): the `front` and `back` of `cvector.h`.
- `Vector` (vector.dfy): class `Vector` with fields `size` (capacity),
  `currSize` and `pool`, and an abstract `VecModel` with `Append` and
  `AppendAll` for runs of appends.
- `Driver` (driver.dfy): the call sequence of `driver.c`, checked against the
  `CVector` contracts. The vector ends as `[1, 2, 4, 5]` with capacity 32.

Behaviour of the code worth noting:

- Growing `resize` fills slots from the old size up to `n`, not from the old
  capacity.
- `new_cVector_with_cap_val` sets the first `cap` slots (the request), not
  the whole normalised capacity.
- Errors are `NULL` and -1 returns, not distinct error kinds.
- When both `n` and the size are 0, `resize` frees the caller's vector and
  leaves the caller with a dangling pointer. It does not reallocate in place.
  This branch is excluded (see Left out).

## Model

| member | source | states |
|---|---|---|
| `Pow2.CeilPow2` | src/cvector.h:64-70 | the normalised capacity is a power of two, at least the request, and at least 1 |
| `Pow2.CeilPow2IsLeast` | src/cvector.h:64-70 | no power of two at least as large as the request is smaller than the normalised capacity |
| `Pow2.CeilPow2OfPow2` | src/cvector.h:64-70 | normalising a power of two returns it unchanged |
| `Pow2.CeilPow2Next` | src/cvector.h:244-246 | the growth target of an insert into a full power-of-two buffer, the normalised capacity + 1, is exactly double the capacity |
| `Pow2.CeilPow2Monotone` | src/cvector.h:64-70 | a larger request never gets a smaller capacity |
| `Pow2.GetNewCap` | src/cvector.h:64-70 | the doubling loop returns the least power of two at least as large as the request (1 for any request up to 1), equal to `CeilPow2` |
| `SeqOps.InsertAt` | src/cvector.h:240-252 | inserting at p keeps the elements before p, puts the value at p, moves the old elements from p on up one index, and adds one to the length |
| `SeqOps.RemoveAt` | src/cvector.h:280-288 | erasing at p keeps the elements before p, moves the later ones down one index, and removes one from the length |
| `SeqOps.Resized` | src/cvector.h:119-135 | resizing to n gives length n, keeps the prefix up to min(old size, n), and fills from the old size up to n with the fill value |
| `SeqOps.ShiftedIsInsert` | src/cvector.h:243-251 | growing by one slot, shifting the tail up from the highest index down and storing the value yields `InsertAt` |
| `SeqOps.RemoveAtInsertAt` | src/cvector.h:240-288 | erase at the position of an insert restores the original elements and length |
| `SeqOps.InsertAtRemoveAt` | src/cvector.h:240-288 | re-inserting an erased element at its position restores the original elements |
| `SeqOps.RemoveLastAfterAppend` | src/cvector.h:260-268 | push_back is insert at end, and pop_back undoes it |
| `SeqOps.ResizedTwice` | src/cvector.h:147-171 | resizing to n and then to m <= n equals resizing straight to m |
| `SeqOps.ResizedBack` | src/cvector.h:119-135 | growing and then resizing back to the original size restores the original elements |
| `CVector.InsertCapacityStep` | src/cvector.h:243-246 | an insert keeps the capacity a power of two with room for the new size, leaves it alone when not full, and doubles it when full |
| `CVector.ShrinkToFitBounds` | src/cvector.h:184-186 | the shrink_to_fit capacity holds every live element and never exceeds the old capacity |
| `CVector.DoubledCapacityCovers` | src/cvector.h:243-246 | after a full buffer doubles, the capacity later sizes need is unchanged by the doubling |
| `CVector.PushesCapacity` | src/cvector.h:240-260 | after k push_backs the capacity is the normalised larger of the old capacity and the new size |
| `CVector.ShiftUp` | src/cvector.h:248-250 | the insert loop moves each slot in [p, end-1) up one index and touches nothing else |
| `CVector.ShiftDown` | src/cvector.h:283-285 | the erase loop moves each slot in (p, end) down one index and touches nothing else |
| `CVector.FillRange` | src/cvector.h:122-134 | the fill loops set exactly the slots [lo, hi) to the value |
| `CVector.CVector.Allocate` | src/cvector.h:73-83 | a fresh zero-filled buffer of the given power-of-two capacity and size 0 |
| `CVector.CVector.Reallocate` | src/cvector.h:86-90 | a fresh buffer of the new capacity keeping the first min(old, new) slots and the size |
| `CVector.CVector.New` | src/cvector.h:299-301 | size 0, capacity 4, all slots zero |
| `CVector.CVector.NewWithCap` | src/cvector.h:304-311 | NULL for a request up to 0, otherwise size 0, capacity normalised from the request, all slots zero |
| `CVector.CVector.NewWithCapVal` | src/cvector.h:314-325 | NULL for a request up to 0, otherwise size 0, normalised capacity, slots [0, cap) hold the value and the rest are zero |
| `CVector.CVector.Size` | src/cvector.h:108 | the number of live elements, at most the capacity |
| `CVector.CVector.Capacity` | src/cvector.h:111 | the buffer length, a power of two holding every live element |
| `CVector.CVector.Empty` | src/cvector.h:114 | true exactly when there are no live elements |
| `CVector.CVector.Begin` | src/cvector.h:190 | the index of the first live element: the live elements are exactly the slots from it up to end |
| `CVector.CVector.End` | src/cvector.h:194 | the index one past the last live element |
| `CVector.CVector.AtIter` | src/cvector.h:197-204 | position n exactly when 0 <= n < size, NULL otherwise |
| `CVector.CVector.At` | src/cvector.h:207-214 | element n exactly when 0 <= n < size, the error value otherwise |
| `CVector.CVector.Front` | src/cvector.h:217-224 | element 0 on a non-empty vector, the error value on an empty one |
| `CVector.CVector.Back` | src/cvector.h:227-234 | element size-1 on a non-empty vector, the error value on an empty one |
| `CVector.CVector.Insert` | src/cvector.h:240-257 | for p in [0, size]: live elements become `InsertAt(old, p, val)`, p is returned, capacity grows to the normalised capacity + 1 only when full, otherwise the buffer and its dead slots are unchanged; for other p: NULL and no change |
| `CVector.CVector.PushBack` | src/cvector.h:260 | appends val, returns the old end, and doubles the capacity exactly when full |
| `CVector.CVector.PopBack` | src/cvector.h:263-268 | no change when empty; otherwise zeroes slot size-1 and decrements the size, with the same buffer and capacity |
| `CVector.CVector.Erase` | src/cvector.h:280-296 | for p in [0, size): live elements become `RemoveAt(old, p)`, the vacated slot is zeroed, p is returned; p == size acts as pop_back (zeroes slot size-1, keeps every other slot) and returns the new end; other p: NULL and no change |
| `CVector.CVector.ResizeVal` | src/cvector.h:147-171 | size becomes n and live elements `Resized(old, n, val)`; capacity grows to the normalised n only when n exceeds it; dropped slots are zeroed; other slots within the old capacity are unchanged |
| `CVector.CVector.Resize` | src/cvector.h:119-143 | as `ResizeVal` with fill value 0 |
| `CVector.CVector.Reserve` | src/cvector.h:176-180 | capacity becomes the normalised n only when n exceeds it; size, live elements and all old slots are kept |
| `CVector.CVector.ShrinkToFit` | src/cvector.h:184-186 | capacity becomes the normalised size, never more than before, keeping the live elements |
| `CVectorOld.Front` | cvector.h:124 | slot 0 whether or not the vector is empty: the first element when there is one |
| `CVectorOld.Back` | cvector.h:126 | slot `m_size`, one past the last live element; defined only when the vector is not full |
| `CVectorOld.BackReadsPastEnd` | cvector.h:126 | on a vector holding only 7, the old back yields 0 where the current back yields 7 |
| `Vector.AppendAllSpec` | vector.h:57-68 | a run of appends adds exactly the values after the old elements, keeps room for them, never shrinks the capacity, and a grown capacity is less than twice the element count |
| `Vector.AppendsToDefault` | vector.h:31-68 | after k appends to a default vector the elements are exactly the appended values in order, and they fit |
| `Vector.Vector.Create` | vector.h:31-39 | capacity 8, no elements, a zeroed pool |
| `Vector.Vector.CreateWithSize` | vector.h:42-54 | a request up to 0 falls back to capacity 8; otherwise the capacity is exactly the request; no elements; a zeroed pool |
| `Vector.Vector.Insert` | vector.h:57-68 | appends the value; capacity is unchanged when there is room and doubles exactly when full; `curr_size <= size` is kept |
| `Vector.Vector.At` | vector.h:72-78 | element pos for pos < curr_size, the error value otherwise |
| `Driver.PushFirstFour` | driver.c:4-8 | pushing 1 to 4 onto capacity 1 grows the capacity to 4 |
| `Driver.PushSixToNine` | driver.c:9-12 | pushing 6 to 9 grows the capacity to 8 |
| `Driver.PushTenToThirteen` | driver.c:13-16 | pushing 10 to 13 grows the capacity to 16 |
| `Driver.PushFourteenToSeventeen` | driver.c:17-20 | pushing 14 to 17 fills the capacity of 16 |
| `Driver.FixUp` | driver.c:22-27 | two pops, a push of 16 and an insert of 5 at index 4 give 1 to 16 |
| `Driver.ResizeAndErase` | driver.c:29-33 | resize_val(20, 100) grows the capacity to 32, resize(5) keeps 1 to 5, erase at 2 leaves [1, 2, 4, 5] and zero slots up to 20 |
| `Driver.DriverScenario` | driver.c:3-35 | the whole sequence ends with [1, 2, 4, 5], capacity 32, and zero slots 4 to 19 |

## Findings

| source | as written | input that shows it | evidently intended | confidence | as-written member | corrected member |
|---|---|---|---|---|---|---|
| cvector.h:126 | `back` returns `*(m_data + m_size)`, the slot after the last live element, with no emptiness check | `new_cVector()`, then `push_back(v, 7)`, then `back(v)`: it gives 0, not 7; on a full vector it reads past the buffer | `*(m_data + m_size - 1)` with an emptiness check, as src/cvector.h:227-234 does | high; not executed | `CVectorOld.BackReadsPastEnd` | `CVector.CVector.Back` |

## Left out

- `CVector.CVector.ResizeVal`: the branch where `n` and the size are both 0 (src/cvector.h:164-167, cvector.h:227-230) is excluded by a precondition, because it frees the caller's vector and reallocates into a local variable, leaving a dangling pointer. Negative `n` is excluded by the type `nat`: the C loops would write before the buffer.
- `CVector.CVector.Resize`: the same exclusion of the `n == 0` branch on an empty vector (src/cvector.h:136-139, cvector.h:201-204). Negative `n` is excluded by the type `nat`: the C loops would write before the buffer.
- `CVector.CVector.Reallocate`: slots past the old capacity are unspecified, as `realloc` leaves them. A failed `realloc` (a NULL result stored into `m_data`) is not modelled.
- `Vector.Vector.At`: negative positions are excluded by the type `nat`, because `vect_at` only checks `pos >= curr_size` and would read before the pool.
- `Pow2.GetNewCap`: capacities are unbounded, so the `int` overflow of the doubling loop for requests above 2^30 is not modelled. Sizes and capacities are `nat` throughout.
- Allocation failure: `UTIL_allocate` returning NULL when `calloc` fails, and the warnings `vect_createVector` prints when it fails. Constructors always succeed in the model.
- `clear` and `vect_clear` (src/cvector.h:271-277, cvector.h:242-248, vector.h:81-84) free the object itself. The model has no destroyed state.
- `data` (src/cvector.h:237, cvector.h:128) hands out the raw buffer pointer. Pointer identity and aliasing into the buffer are not modelled; positions are indices.
- Printing and debug output: `UTIL_print_cVector`, `UTIL_debug_cVector`, `vect_print` and the `DEBUG_*` functions. The `stderr` messages of `at`, `at_iter`, `front`, `back`, `insert`, `erase` and the constructors, and the position warning of `vect_at`, become `None` results. The "Cannot resize" message of `resize` and `resize_val` (src/cvector.h:141, 169; cvector.h:206, 232) and the size warning of `vect_createVectorWithSize` (vector.h:44) are dropped: the model leaves the vector unchanged or falls back to capacity 8, and reports nothing.
- The seven `UTIL_print_cVector` calls of `driver.c` (lines 21-34) and its final `clear` (line 35) are not modelled.
