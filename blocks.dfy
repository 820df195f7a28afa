/**
 * Size classes of the flat-file store. A slot of class `i` is `BLOCK_SIZE << i`
 * bytes long; `NextBlockSize` picks the smallest class that fits a length.
 *
 * Lengths are unbounded integers here: the source's 32-bit `<<` is not modelled.
 */
module Blocks {

  const BLOCK_SIZE: nat := 256

  function Pow2(i: nat): (r: nat)
    ensures r >= 1
  {
    if i == 0 then 1 else 2 * Pow2(i - 1)
  }

  /** Byte length of a slot of size class `i`, i.e. `BLOCK_SIZE << i`. */
  function SlotSize(i: nat): (r: nat)
    ensures r >= BLOCK_SIZE
  {
    BLOCK_SIZE * Pow2(i)
  }

  lemma SlotSizeDoubles(i: nat)
    ensures SlotSize(i + 1) == 2 * SlotSize(i)
  {
    assert Pow2(i + 1) == 2 * Pow2(i);
  }

  lemma SlotSizeHalves(i: nat)
    ensures i > 0 ==> SlotSize(i) == 2 * SlotSize(i - 1)
  {
    if i > 0 {
      SlotSizeDoubles(i - 1);
    }
  }

  /** Larger classes have strictly larger slots. */
  lemma {:induction false} SlotSizeStrictlyMonotone(i: nat, j: nat)
    requires i < j
    ensures SlotSize(i) < SlotSize(j)
  {
    SlotSizeDoubles(j - 1);
    if i < j - 1 {
      SlotSizeStrictlyMonotone(i, j - 1);
    }
  }

  /**
   * The size class of a record of `length` bytes: the least `i` with
   * `SlotSize(i) >= length`. Defined by halving, independently of the
   * counting loop of the source (see `NextBlockSizeLoop`).
   */
  function NextBlockSize(length: int): (i: nat)
    ensures length <= SlotSize(i)
    ensures i > 0 ==> SlotSize(i - 1) < length
    ensures i == 0 <==> length <= BLOCK_SIZE
    decreases length
  {
    if length <= BLOCK_SIZE then 0
    else
      var j := NextBlockSize((length + 1) / 2);
      SlotSizeDoubles(j);
      SlotSizeHalves(j);
      j + 1
  }

  /** `NextBlockSize(length)` is below every class whose slot fits `length`. */
  lemma {:induction false} NextBlockSizeLeast(length: int, j: nat)
    requires length <= SlotSize(j)
    ensures NextBlockSize(length) <= j
    decreases length
  {
    if length > BLOCK_SIZE {
      assert SlotSize(0) == BLOCK_SIZE;
      assert j > 0;
      SlotSizeHalves(j);
      NextBlockSizeLeast((length + 1) / 2, j - 1);
    }
  }

  /** `NextBlockSize(length)` is above every class whose slot is too short for `length`. */
  lemma {:induction false} NextBlockSizeAbove(length: int, j: nat)
    requires SlotSize(j) < length
    ensures j < NextBlockSize(length)
    decreases j
  {
    if j > 0 {
      SlotSizeHalves(j);
      NextBlockSizeAbove((length + 1) / 2, j - 1);
    }
  }

  /** A longer record never gets a smaller class. */
  lemma NextBlockSizeMonotone(a: int, b: int)
    requires a <= b
    ensures NextBlockSize(a) <= NextBlockSize(b)
  {
    NextBlockSizeLeast(a, NextBlockSize(b));
  }

  /** A length that is exactly a slot size gets exactly that class. */
  lemma {:induction false} NextBlockSizeOfSlotSize(i: nat)
    ensures NextBlockSize(SlotSize(i)) == i
  {
    if i > 0 {
      SlotSizeHalves(i);
      assert (SlotSize(i) + 1) / 2 == SlotSize(i - 1);
      NextBlockSizeOfSlotSize(i - 1);
    }
  }

  /**
   * The class `put` stores a record of `length` bytes in when its entry had
   * class `cls` (index.js:141): kept when the record fits, otherwise the
   * least class that fits.
   */
  function FitClass(cls: nat, length: int): (r: nat)
    ensures length <= SlotSize(r)
    ensures length <= SlotSize(cls) <==> r == cls
    ensures NextBlockSize(length) <= r
    ensures forall j: nat :: cls <= j && length <= SlotSize(j) ==> r <= j
  {
    if length > SlotSize(cls) then
      NextBlockSizeAbove(length, cls);
      assert forall j: nat :: length <= SlotSize(j) ==> NextBlockSize(length) <= j by {
        forall j: nat | length <= SlotSize(j) {
          NextBlockSizeLeast(length, j);
        }
      }
      NextBlockSize(length)
    else
      NextBlockSizeLeast(length, cls);
      cls
  }

  /** The counting loop of `nextBlockSize` (index.js:10-14): count classes up until the slot fits. */
  method NextBlockSizeLoop(length: int) returns (i: nat)
    ensures i == NextBlockSize(length)
  {
    i := 0;
    while SlotSize(i) < length
      invariant i <= NextBlockSize(length)
      decreases NextBlockSize(length) - i
    {
      i := i + 1;
    }
    NextBlockSizeLeast(length, i);
  }
}
