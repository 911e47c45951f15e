/** Fixed-size slot storage: the backing array of a StackVec.

    The crate implements one storage trait for every array `[Option<T>, ..N]`
    with N a power of two from 2 to 1024, all from one macro. Here one generic
    `array<Option<T>>` stands for all of them; its `Length` is the fixed N.
    An out-of-range index or an unwrap of an empty slot aborts in the crate;
    here both are preconditions. */
module Slots {

  /** A slot: empty, or holding one value. */
  datatype Option<T> = None | Some(value: T)

  /** The capacities for which the crate provides a storage type. */
  predicate IsCapacity(n: nat) {
    n in {2, 4, 8, 16, 32, 64, 128, 256, 512, 1024}
  }

  /** A fresh storage of `n` slots, all of them empty. */
  method New<T>(n: nat) returns (a: array<Option<T>>)
    requires IsCapacity(n)
    ensures fresh(a) && a.Length == n
    ensures forall i :: 0 <= i < n ==> a[i] == None
  {
    a := new Option<T>[n](_ => None);
  }

  /** The value held in slot `idx`, which must be occupied. */
  function Get<T>(a: array<Option<T>>, idx: nat): (x: T)
    reads a
    requires idx < a.Length && a[idx].Some?
    ensures a[idx] == Some(x)
  {
    a[idx].value
  }

  /** The mutable borrow of slot `idx`, modelled as an in-place update of the
      value it holds by `f`; no other slot is touched. */
  method GetMut<T>(a: array<Option<T>>, idx: nat, f: T -> T)
    requires idx < a.Length && a[idx].Some?
    modifies a
    ensures a[..] == old(a[..])[idx := Some(f(old(a[idx]).value))]
  {
    a[idx] := Some(f(a[idx].value));
  }

  /** Overwrites slot `idx` with `e`, whatever it held. */
  method Set<T>(a: array<Option<T>>, idx: nat, e: T)
    requires idx < a.Length
    modifies a
    ensures a[..] == old(a[..])[idx := Some(e)]
  {
    a[idx] := Some(e);
  }

  /** Takes the value out of slot `idx`, which must be occupied, and leaves
      the slot empty. */
  method Remove<T>(a: array<Option<T>>, idx: nat) returns (x: T)
    requires idx < a.Length && a[idx].Some?
    modifies a
    ensures old(a[idx]) == Some(x)
    ensures a[..] == old(a[..])[idx := None]
  {
    x := a[idx].value;
    a[idx] := None;
  }

  /** The fixed number of slots. It reads no slot, so no slot's contents and
      no earlier operation can change it. */
  function Size<T>(a: array<Option<T>>): (n: nat)
    ensures n == a.Length
  {
    a.Length
  }

  /** `set` then `get` at the same index gives back the value set. */
  method SetThenGet<T>(a: array<Option<T>>, idx: nat, e: T) returns (x: T)
    requires idx < a.Length
    modifies a
    ensures x == e
    ensures a[..] == old(a[..])[idx := Some(e)]
  {
    Set(a, idx, e);
    x := Get(a, idx);
  }

  /** `set` then `remove` at the same index gives back the value set and
      leaves the slot empty, whatever it held before. */
  method SetThenRemove<T>(a: array<Option<T>>, idx: nat, e: T) returns (x: T)
    requires idx < a.Length
    modifies a
    ensures x == e
    ensures a[..] == old(a[..])[idx := None]
  {
    Set(a, idx, e);
    x := Remove(a, idx);
  }
}
