/**
 * Random choice of `amount` distinct indices out of 0 .. size-1, as the rand
 * crate's `IteratorRandom::choose_multiple` does it (reservoir sampling): the
 * first `amount` indices fill the reservoir; each later index `amount + i`
 * draws a slot in [0, i + 1 + amount) and replaces that slot when the slot
 * lies inside the reservoir.
 *
 * The generator is a parameter: `picks(i)` is the value the generator yields
 * for the draw made on behalf of index `amount + i`, and is reduced into the
 * draw's range. Only the contract is claimed to match the library: distinct
 * indices, each below `size`, `min(size, amount)` of them.
 */
module Reservoir {

  predicate Distinct(s: seq<nat>) {
    forall i, j :: 0 <= i < j < |s| ==> s[i] != s[j]
  }

  function MinNat(a: nat, b: nat): nat { if a <= b then a else b }

  /** The replacement phase, from index `next` onwards. */
  function Replace(reservoir: seq<nat>, amount: nat, next: nat, size: nat, picks: nat -> nat): (r: seq<nat>)
    requires amount <= next && |reservoir| == amount
    requires Distinct(reservoir) && forall i :: 0 <= i < |reservoir| ==> reservoir[i] < next
    ensures |r| == amount && Distinct(r)
    ensures forall i :: 0 <= i < |r| ==> r[i] < if next <= size then size else next
    decreases size - next
  {
    if next >= size then reservoir
    else
      var k := picks(next - amount) % (next + 1);
      var updated := if k < amount then reservoir[k := next] else reservoir;
      Replace(updated, amount, next + 1, size, picks)
  }

  /** `choose_multiple` over 0 .. size-1. */
  function ChooseMultiple(size: nat, amount: nat, picks: nat -> nat): (r: seq<nat>)
    ensures |r| == MinNat(size, amount)
    ensures Distinct(r)
    ensures forall i :: 0 <= i < |r| ==> r[i] < size
  {
    if size < amount then seq(size, i => i)
    else Replace(seq(amount, i => i), amount, amount, size, picks)
  }
}
