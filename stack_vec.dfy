/** The stack-based vector: a length counter over one owned slot storage,
    and the forward iterator over its first `len` slots.

    The container's intended discipline is a dense prefix (slots below `len`
    occupied, the rest empty). It is not an invariant of the type: `set` and
    `remove` act on any index and never touch `len`. So the class invariant
    `Valid` says only that `len` stays within the capacity, and each method
    says separately what happens to a dense vector. */
module StackVec {
  import opened Slots
  import opened Occupancy

  class StackVec<T> {
    var len: nat
    const data: array<Option<T>>

    ghost predicate Valid()
      reads this
    {
      len <= data.Length && IsCapacity(data.Length)
    }

    /** Slots `[0, len)` occupied, slots `[len, N)` empty. */
    ghost predicate Dense()
      reads this, data
    {
      DensePrefix(data[..], len)
    }

    /** The elements of a dense vector, bottom of the stack first. */
    ghost function Contents(): seq<T>
      reads this, data
      requires Dense()
    {
      Values(data[..len])
    }

    /** An empty vector over a fresh storage of capacity `n`. */
    constructor (n: nat)
      requires IsCapacity(n)
      ensures Valid() && fresh(data) && data.Length == n
      ensures len == 0 && forall i :: 0 <= i < n ==> data[i] == None
      ensures Dense() && Contents() == []
    {
      var a := New(n);
      data := a;
      len := 0;
    }

    /** Writes `e` at slot `len` and counts it. */
    method Push(e: T)
      requires Valid() && len < data.Length
      modifies this, data
      ensures Valid() && len == old(len) + 1
      ensures data[..] == old(data[..])[old(len) := Some(e)]
      ensures old(Dense()) ==> Dense() && Contents() == old(Contents()) + [e]
    {
      ghost var s := data[..];
      var idx := len;
      len := len + 1;
      Slots.Set(data, idx, e);
      if DensePrefix(s, idx) {
        PushKeepsDense(s, idx, e);
      }
    }

    /** Uncounts the last slot and takes its value, which must be there. */
    method Pop() returns (x: T)
      requires Valid() && 0 < len && data[len - 1].Some?
      modifies this, data
      ensures Valid() && len == old(len) - 1
      ensures old(data[len - 1]) == Some(x)
      ensures data[..] == old(data[..])[len := None]
      ensures old(Dense()) ==> Dense() && old(Contents()) == Contents() + [x]
    {
      ghost var s := data[..];
      var idx := len - 1;
      len := len - 1;
      x := Slots.Remove(data, idx);
      if DensePrefix(s, idx + 1) {
        PopKeepsDense(s, idx + 1);
      }
    }

    /** The number of counted slots; for a dense vector, the number of
        elements it holds. */
    function Len(): (n: nat)
      reads this, data
      ensures Valid() ==> n <= Size()
      ensures Dense() ==> n == |Contents()|
    {
      len
    }

    /** A fresh iterator over the first `len` slots, with `len` captured now. */
    method Iter() returns (it: Items<T>)
      requires Valid()
      ensures fresh(it) && it.Valid()
      ensures it.data == data && it.len == len && it.count == 0
      ensures Dense() ==> it.Ready() && it.Pending() == Contents()
    {
      it := new Items(data, len);
      assert data[0..len] == data[..len];
    }

    /** The value in slot `idx`, which must be occupied; for a dense vector
        that is element `idx` of the contents. */
    function Get(idx: nat): (x: T)
      reads this, data
      requires idx < data.Length && data[idx].Some?
      ensures data[idx] == Some(x)
      ensures Dense() ==> idx < len && Contents()[idx] == x
    {
      Slots.Get(data, idx)
    }

    /** Updates the value in occupied slot `idx` in place by `f`. The length
        is untouched; a dense vector stays dense. */
    method GetMut(idx: nat, f: T -> T)
      requires idx < data.Length && data[idx].Some?
      modifies data
      ensures data[..] == old(data[..])[idx := Some(f(old(data[idx]).value))]
      ensures old(Dense()) ==>
        (Dense() && idx < len && Contents() == old(Contents())[idx := f(old(Contents())[idx])])
    {
      ghost var s := data[..];
      Slots.GetMut(data, idx, f);
      if DensePrefix(s, len) {
        SetKeepsDenseIff(s, len, idx, f(s[idx].value));
      }
    }

    /** Overwrites slot `idx` without touching the length. On a dense vector
        the result is dense exactly when `idx < len`. */
    method Set(idx: nat, e: T)
      requires idx < data.Length
      modifies data
      ensures data[..] == old(data[..])[idx := Some(e)]
      ensures old(Dense()) ==> (Dense() <==> idx < len)
      ensures old(Dense()) && idx < len ==> Contents() == old(Contents())[idx := e]
    {
      ghost var s := data[..];
      Slots.Set(data, idx, e);
      if DensePrefix(s, len) {
        SetKeepsDenseIff(s, len, idx, e);
      }
    }

    /** Takes the value out of occupied slot `idx` without touching the
        length or shifting later slots, so a dense vector never stays dense. */
    method Remove(idx: nat) returns (x: T)
      requires idx < data.Length && data[idx].Some?
      modifies data
      ensures old(data[idx]) == Some(x)
      ensures data[..] == old(data[..])[idx := None]
      ensures old(Dense()) ==> idx < len && !Dense()
    {
      ghost var s := data[..];
      x := Slots.Remove(data, idx);
      if DensePrefix(s, len) {
        RemoveBreaksDense(s, len, idx);
      }
    }

    /** The capacity N; it reads no slot and not the length. */
    function Size(): (n: nat)
      ensures n == data.Length
    {
      Slots.Size(data)
    }
  }

  /** A forward iterator over slots `[0, len)` of a storage, `len` being the
      container's length when the iterator was made; `count` is its cursor. */
  class Items<T> {
    const data: array<Option<T>>
    const len: nat
    var count: nat

    ghost predicate Valid()
      reads this
    {
      count <= len <= data.Length
    }

    /** Every slot still to be visited is occupied. */
    ghost predicate Ready()
      reads this, data
      requires Valid()
    {
      AllOccupied(data[count..len])
    }

    /** The values still to be yielded, in order. */
    ghost function Pending(): seq<T>
      reads this, data
      requires Valid() && Ready()
    {
      Values(data[count..len])
    }

    constructor (data: array<Option<T>>, len: nat)
      requires len <= data.Length
      ensures Valid() && this.data == data && this.len == len && count == 0
    {
      this.data := data;
      this.len := len;
      count := 0;
    }

    /** Yields the value in slot `count` and advances, while `count < len`;
        from then on yields `None` without moving. */
    method Next() returns (r: Option<T>)
      requires Valid()
      requires count < len ==> data[count].Some?
      modifies this
      ensures Valid()
      ensures r.Some? <==> old(count) < len
      ensures r.Some? ==> r == data[old(count)] && count == old(count) + 1
      ensures r.None? ==> count == old(count)
      ensures old(Ready()) ==>
        (Ready() &&
         (r.None? <==> old(Pending()) == []) &&
         old(Pending()) == (if r.Some? then [r.value] else []) + Pending())
    {
      if count < len {
        ghost var rest := data[count..len];
        var c := count;
        count := count + 1;
        r := Some(Slots.Get(data, c));
        assert rest[1..] == data[count..len];
      } else {
        r := None;
      }
    }
  }

  /** On a dense vector the length is the number of occupied slots of its
      storage, as the documentation of `len` says. */
  lemma LenCountsOccupied<T>(v: StackVec<T>)
    requires v.Dense()
    ensures v.Len() == Occupied(v.data[..])
  {
    DenseLenIsOccupied(v.data[..], v.len);
  }

  /** A push followed by a pop gives back the value pushed and restores the
      length; the slot written is left empty, so on a dense vector (where it
      was empty before) the storage is restored too. */
  method PushThenPop<T>(v: StackVec<T>, e: T) returns (x: T)
    requires v.Valid() && v.len < v.data.Length
    modifies v, v.data
    ensures x == e && v.Valid() && v.len == old(v.len)
    ensures v.data[..] == old(v.data[..])[v.len := None]
    ensures old(v.Dense()) ==> v.Dense() && v.data[..] == old(v.data[..])
  {
    v.Push(e);
    x := v.Pop();
  }

  /** The crate's test: push 0, 1, ..., 23 into a capacity-32 vector, then
      walk it with an iterator, which yields exactly those values in order
      and nothing afterwards. */
  method ItWorks() returns (n: nat, yielded: seq<nat>, after: Option<nat>)
    ensures n == 24
    ensures yielded == seq(24, k => k)
    ensures after == None
  {
    var v := new StackVec<nat>(32);
    for i := 0 to 24
      invariant v.Valid() && v.data.Length == 32 && v.Dense()
      invariant v.Contents() == seq(i, k => k)
    {
      v.Push(i);
    }
    n := v.Len();
    var it := v.Iter();
    yielded := [];
    var done := false;
    while !done
      invariant it.Valid() && it.Ready()
      invariant yielded + it.Pending() == seq(24, k => k)
      invariant done ==> it.Pending() == []
      decreases it.len - it.count, if done then 0 else 1
    {
      var r := it.Next();
      match r
      case Some(x) => yielded := yielded + [x];
      case None => done := true;
    }
    after := it.Next();
  }
}
