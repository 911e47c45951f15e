/** Occupancy of a slot sequence: which slots hold a value, the values a run
    of occupied slots holds, and the dense-prefix discipline a StackVec is
    meant to keep (slots below its length occupied, the rest empty). The
    lemmas say how each storage update affects that discipline. */
module Occupancy {
  import opened Slots

  /** Every slot of `s` holds a value. */
  ghost predicate AllOccupied<T>(s: seq<Option<T>>) {
    forall i :: 0 <= i < |s| ==> s[i].Some?
  }

  /** Slots `[0, n)` are occupied and slots `[n, |s|)` are empty. */
  ghost predicate DensePrefix<T>(s: seq<Option<T>>, n: nat) {
    n <= |s| &&
    (forall i :: 0 <= i < n ==> s[i].Some?) &&
    (forall i :: n <= i < |s| ==> s[i].None?)
  }

  /** The values held by a run of occupied slots, in index order. */
  ghost function Values<T>(s: seq<Option<T>>): (r: seq<T>)
    requires AllOccupied(s)
    ensures |r| == |s|
    ensures forall i :: 0 <= i < |s| ==> s[i] == Some(r[i])
  {
    if s == [] then [] else [s[0].value] + Values(s[1..])
  }

  /** The number of occupied slots in `s`. */
  ghost function Occupied<T>(s: seq<Option<T>>): (k: nat)
    ensures k <= |s|
    ensures k == |s| <==> AllOccupied(s)
  {
    if s == [] then 0 else (if s[0].Some? then 1 else 0) + Occupied(s[1..])
  }

  /** Under the dense-prefix discipline the length is the number of
      occupied slots: it is determined by the storage alone. */
  lemma {:induction false} DenseLenIsOccupied<T>(s: seq<Option<T>>, n: nat)
    requires DensePrefix(s, n)
    ensures Occupied(s) == n
  {
    if s != [] {
      var m: nat := if n == 0 then 0 else n - 1;
      assert DensePrefix(s[1..], m) by {
        forall i | 0 <= i < |s[1..]| ensures s[1..][i] == s[i + 1] { }
      }
      DenseLenIsOccupied(s[1..], m);
    }
  }

  /** Writing at slot `n` of a dense prefix of length `n` gives a dense
      prefix of length `n + 1` whose values end with the one written. */
  lemma PushKeepsDense<T>(s: seq<Option<T>>, n: nat, e: T)
    requires DensePrefix(s, n) && n < |s|
    ensures DensePrefix(s[n := Some(e)], n + 1)
    ensures Values(s[n := Some(e)][..n + 1]) == Values(s[..n]) + [e]
  {
  }

  /** Emptying the last slot of a dense prefix of length `n` gives a dense
      prefix of length `n - 1`; the values lose exactly their last one. */
  lemma PopKeepsDense<T>(s: seq<Option<T>>, n: nat)
    requires DensePrefix(s, n) && 0 < n
    ensures DensePrefix(s[n - 1 := None], n - 1)
    ensures Values(s[..n]) == Values(s[n - 1 := None][..n - 1]) + [s[n - 1].value]
  {
  }

  /** Overwriting one slot keeps a dense prefix dense exactly when the slot
      lies inside the prefix; then the values change only at that index. */
  lemma SetKeepsDenseIff<T>(s: seq<Option<T>>, n: nat, idx: nat, e: T)
    requires DensePrefix(s, n) && idx < |s|
    ensures DensePrefix(s[idx := Some(e)], n) <==> idx < n
    ensures idx < n ==> Values(s[idx := Some(e)][..n]) == Values(s[..n])[idx := e]
  {
    if idx >= n {
      assert s[idx := Some(e)][idx].Some?;
    }
  }

  /** Emptying an occupied slot never leaves a dense prefix of the same
      length dense: the slot lies inside the prefix, which now has a hole. */
  lemma RemoveBreaksDense<T>(s: seq<Option<T>>, n: nat, idx: nat)
    requires DensePrefix(s, n) && idx < |s| && s[idx].Some?
    ensures idx < n
    ensures !DensePrefix(s[idx := None], n)
  {
    assert s[idx := None][idx].None?;
  }
}
