# StackVec in Dafny

A model of the `stack_vec` crate: a vector whose storage is an inline array
of `Option<T>` slots of fixed capacity N, with a length counter on top.

- `slots.dfy`, module `Slots`: the storage trait `StackVecArray` and the
  slot semantics its macro gives every array size (`get`, `get_mut`, `set`,
  `remove`, `size`) plus the all-empty construction. One generic
  `array<Option<T>>` stands for the ten array types; `IsCapacity` restricts
  construction to the sizes the crate implements (2, 4, …, 1024).
- `occupancy.dfy`, module `Occupancy`: the specification vocabulary. It
  defines the dense-prefix discipline (slots `[0, len)` occupied, `[len, N)`
  empty), the values held by a run of occupied slots, and the number of
  occupied slots. Its lemmas say which storage updates keep the discipline.
- `stack_vec.dfy`, module `StackVec`: the container class `StackVec` (`len`
  and the owned storage), the iterator class `Items` (storage reference,
  captured `len`, cursor `count`), a push-then-pop client, and the crate's
  own test as a verified method.

The crate checks no precondition: an index past N panics, unwrapping an
empty slot panics, and `pop` on an empty vector underflows `len`. Here each
of these is a `requires` clause: the index is below N, the slot is occupied,
`len > 0` for `pop`, and `len < N` for `push`.

The dense prefix is what `push` and `pop` are for, but the type does not
enforce it. `set` and `remove` work on any index and leave `len` alone. So
the class invariant `Valid()` says only that `len <= N` and that N is a
supported capacity. Every method also says what it does to a vector that
was dense: `push`, `pop`, `get_mut` and an in-prefix `set` keep it dense and
update `Contents()` as a stack would. `set` at or beyond `len` breaks it.

Because `remove` never decrements `len`, removing any occupied slot of a
dense vector breaks the discipline, `idx == len - 1` included, so
`StackVec.Remove` states that any `remove` leaves a dense vector not dense.

## Model

| member | source | states |
|---|---|---|
| Slots.New | src/lib.rs:169-173 | a fresh storage of a supported capacity n has exactly n slots, every one empty |
| Slots.Get | src/macros.rs:7 | on an in-range occupied slot, returns the value that slot holds; reads without changing anything |
| Slots.GetMut | src/macros.rs:9 | on an in-range occupied slot, replaces its value by `f` of that value; every other slot is unchanged |
| Slots.Set | src/macros.rs:11 | slot idx becomes `Some(e)` whatever it held; every other slot is unchanged |
| Slots.Remove | src/macros.rs:13 | on an occupied slot, returns the value it held and leaves it empty; every other slot is unchanged |
| Slots.Size | src/macros.rs:15 | is N, the slot count; reads no slot, so contents and earlier operations cannot change it |
| Slots.SetThenGet | src/macros.rs:7-11 | `get(idx)` right after `set(idx, e)` returns e |
| Slots.SetThenRemove | src/macros.rs:11-13 | `remove(idx)` right after `set(idx, e)` returns e and leaves the slot empty, whatever it held before |
| Occupancy.Values | src/lib.rs:82-88 | the values of a run of occupied slots: same length, element i is the value in slot i |
| Occupancy.Occupied | src/lib.rs:41-43 | the number of occupied slots is at most the slot count, and equals it exactly when every slot is occupied |
| Occupancy.DenseLenIsOccupied | src/lib.rs:41-43 | under the dense-prefix discipline, the length equals the number of occupied slots |
| Occupancy.PushKeepsDense | src/lib.rs:27-31 | writing slot n of a dense prefix of length n < N gives a dense prefix of length n + 1 whose values gain e at the end |
| Occupancy.PopKeepsDense | src/lib.rs:35-39 | emptying slot n - 1 of a dense prefix of length n > 0 gives a dense prefix of length n - 1 whose values lose exactly the last one |
| Occupancy.SetKeepsDenseIff | src/lib.rs:59-61 | overwriting slot idx keeps a dense prefix of length n dense if and only if idx < n; then only value idx changes |
| Occupancy.RemoveBreaksDense | src/lib.rs:63-65 | emptying an occupied slot of a dense prefix of length n: the slot lies below n, and the result is no longer dense with length n |
| StackVec.StackVec.constructor | src/lib.rs:21-23 | a new vector has len 0 and every one of its N slots empty (dense, no contents) |
| StackVec.StackVec.Push | src/lib.rs:27-31 | given len < N: slot old len holds e, len grows by one, no other slot changes; a dense vector stays dense with e appended |
| StackVec.StackVec.Pop | src/lib.rs:35-39 | given len > 0 and slot len - 1 occupied: returns that slot's value, empties it, len shrinks by one; a dense vector stays dense and loses its last element, the one returned |
| StackVec.LenCountsOccupied | src/lib.rs:41-43 | on a dense vector, `len()` equals the number of occupied storage slots |
| StackVec.StackVec.Len | src/lib.rs:43 | len is at most the capacity, and for a dense vector it is the number of elements held |
| StackVec.StackVec.Iter | src/lib.rs:47-49 | a fresh iterator over the same storage with len captured and cursor 0; for a dense vector it will yield exactly the contents |
| StackVec.StackVec.Get | src/lib.rs:53 | on an occupied slot returns its value; for a dense vector the slot lies below len and the value is element idx of the contents |
| StackVec.StackVec.GetMut | src/lib.rs:57 | updates only the value in occupied slot idx; len unchanged; a dense vector stays dense with only element idx updated |
| StackVec.StackVec.Set | src/lib.rs:61 | slot idx becomes `Some(e)`, len and other slots unchanged; a dense vector stays dense if and only if idx < len, and then only element idx changes |
| StackVec.StackVec.Remove | src/lib.rs:65 | returns the value of occupied slot idx and empties it, len and other slots unchanged; a dense vector never stays dense |
| StackVec.StackVec.Size | src/lib.rs:69 | is the storage's N, independent of len and slot contents |
| StackVec.Items.constructor | src/lib.rs:48 | an iterator over the given storage with the given len and its cursor at 0 |
| StackVec.Items.Next | src/lib.rs:82-88 | while the cursor is below the captured len, yields the slot at the cursor and advances; afterwards yields None on every call and stays put; the values still to come lose exactly the one yielded |
| StackVec.PushThenPop | src/lib.rs:27-39 | push e then pop returns e and restores len; the slot used is left empty, so a dense vector gets its storage back unchanged |
| StackVec.ItWorks | src/lib.rs:515-526 | after pushing 0..23 into a capacity-32 vector, len is 24, iteration yields 0, 1, …, 23 in order, and the next call yields None |

## Left out

- The ten per-size storage types, their aliases and their `new` bodies (src/lib.rs:155-512): one generic array of any supported capacity stands for them.
- The commented-out `MutItems` iterator and the `StackVecArray` impl for `StackVec` (src/lib.rs:91-119, src/lib.rs:138-153): not live code.
- Panics and underflow: an index past N, an unwrap of an empty slot, `pop` on an empty vector and `push` on a full one are preconditions; the crash itself is not modelled.
- `uint` width: `len` never exceeds 1024, so no wrap-around can occur under the preconditions.
- Borrows and lifetimes: `get_mut` is an in-place update by a function instead of a returned `&mut T`. An `Items` holds the same array as its vector; the borrow checker's ban on mutating the vector while an iterator is alive is not enforced, and `Next` instead requires the slot it reads to be occupied.
- Dropping values when a slot is overwritten or the vector is destroyed: no observable effect in the model.
- The `println!` in the test (src/lib.rs:523): I/O; `ItWorks` returns the yielded values instead.
- Explicit error outcomes (capacity exceeded, empty, slot unoccupied): the crate has none, so none are modelled.
