/**
 * Writing one slot of a copied list (`const copy = [...xs]; copy[index] = v`),
 * as the installment and due-date editors do. Writing past the end grows the
 * JavaScript array to `index + 1`; the slots jumped over are holes, which the
 * model fills with a given value.
 */
module Slots {

  /** The length of the copy after the write. */
  function GrownLength(n: nat, index: nat): (r: nat)
    ensures r >= n && r > index
    ensures index < n ==> r == n
    ensures index >= n ==> r == index + 1
  {
    if index < n then n else index + 1
  }

  /** The copy with slot `index` set to `value`. */
  function WithSlot<T>(xs: seq<T>, index: nat, value: T, hole: T): (r: seq<T>)
    ensures |r| == GrownLength(|xs|, index)
    ensures r[index] == value
    ensures forall i :: 0 <= i < |xs| && i != index ==> r[i] == xs[i]
    ensures forall i :: |xs| <= i < |r| && i != index ==> r[i] == hole
  {
    seq(GrownLength(|xs|, index), i => if i == index then value else if 0 <= i < |xs| then xs[i] else hole)
  }

  /** The write itself, on a fresh array: the input list is never touched. */
  method SetSlot<T>(xs: seq<T>, index: nat, value: T, hole: T) returns (r: seq<T>)
    ensures r == WithSlot(xs, index, value, hole)
  {
    var copy := new T[GrownLength(|xs|, index)](i => if 0 <= i < |xs| then xs[i] else hole);
    copy[index] := value;
    r := copy[..];
  }

  /** A second write to the same slot replaces the first. */
  lemma WithSlotTwice<T>(xs: seq<T>, index: nat, v: T, w: T, hole: T)
    ensures WithSlot(WithSlot(xs, index, v, hole), index, w, hole) == WithSlot(xs, index, w, hole)
  {
  }

  /** Writing back what a slot already holds changes nothing. */
  lemma WithSlotSame<T>(xs: seq<T>, index: nat, hole: T)
    requires index < |xs|
    ensures WithSlot(xs, index, xs[index], hole) == xs
  {
  }

  /** Writes to two different slots commute. */
  lemma WithSlotCommute<T>(xs: seq<T>, i: nat, j: nat, v: T, w: T, hole: T)
    requires i != j
    ensures WithSlot(WithSlot(xs, i, v, hole), j, w, hole) == WithSlot(WithSlot(xs, j, w, hole), i, v, hole)
  {
  }
}
