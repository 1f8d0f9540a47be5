/** Slots, epochs and half-open slot ranges, shared by every other module. */
module Slots {

  datatype Option<+T> = None | Some(value: T) {
    function GetOr(default: T): T {
      match this
      case Some(v) => v
      case None => default
    }
  }

  /** A half-open range of slots, `[lo, hi)`. */
  datatype Range = Range(lo: nat, hi: nat) {
    ghost predicate Has(s: nat) { lo <= s < hi }
    function Size(): int { hi - lo }
  }

  const SLOTS_PER_EPOCH: nat := 432000

  /** How many slots the search for a preceding present slot looks at. */
  const PRIMING_WINDOW: nat := 64

  function Epoch(slot: nat): nat { slot / SLOTS_PER_EPOCH }
  function EpochStart(epoch: nat): nat { epoch * SLOTS_PER_EPOCH }
  function EpochEnd(epoch: nat): nat { epoch * SLOTS_PER_EPOCH + (SLOTS_PER_EPOCH - 1) }

  function Max(a: nat, b: nat): nat { if a < b then b else a }
  function Min(a: nat, b: nat): nat { if a < b then a else b }

  /** `u64::saturating_sub`. */
  function SatSub(a: nat, b: nat): nat { if a < b then 0 else a - b }
  function SatPred(a: nat): nat { SatSub(a, 1) }

  lemma EpochBounds(slot: nat)
    ensures EpochStart(Epoch(slot)) <= slot <= EpochEnd(Epoch(slot)) < EpochStart(Epoch(slot) + 1)
  {
  }

  lemma InEpoch(e: nat, slot: nat)
    ensures Epoch(slot) == e <==> EpochStart(e) <= slot <= EpochEnd(e)
  {
  }

  /** A slot that is present in the archive and is not slot 0. The worker's counted cursor starts at
      `start.saturating_sub(1)`, so for slot 0 the sentinel is slot 0 itself and its block is taken
      for a duplicate: slot 0 is the one present slot that is never counted. */
  ghost predicate Due(present: set<nat>, s: nat) { s in present && s != 0 }

  /** No due slot lies in `[a, b)`. */
  ghost predicate NoDue(present: set<nat>, a: nat, b: nat) {
    forall s | a <= s < b :: !Due(present, s)
  }

  /** The least present slot in `[from, upTo]`. */
  function NextPresent(present: set<nat>, from: nat, upTo: nat): (r: Option<nat>)
    ensures r.Some? ==> from <= r.value <= upTo && r.value in present
    ensures r.Some? ==> forall s | from <= s < r.value :: s !in present
    ensures r.None? ==> forall s | from <= s <= upTo :: s !in present
    decreases upTo + 1 - from
  {
    if from > upTo then None
    else if from in present then Some(from)
    else NextPresent(present, from + 1, upTo)
  }

  /** The greatest present slot in `[floor, before)` among the `window` slots below `before`. */
  function PrevPresent(present: set<nat>, floor: nat, before: nat, window: nat): (r: Option<nat>)
    ensures r.Some? ==> floor <= r.value < before <= r.value + window && r.value in present
    ensures r.Some? ==> forall s | r.value < s < before :: s !in present
    ensures r.None? ==> forall s | floor <= s < before <= s + window :: s !in present
    decreases window
  {
    if window == 0 || before == 0 || before - 1 < floor then None
    else if before - 1 in present then Some(before - 1)
    else PrevPresent(present, floor, before - 1, window - 1)
  }
}
