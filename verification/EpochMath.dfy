/** Epoch windows (internal/evmreader/util.go). Epoch k of length n is the blocks k*n .. k*n + n - 1. */
module EpochMath {
  import opened Model

  function CalculateEpochIndex(epochLength: nat, block: nat): nat
    requires epochLength >= 1
  {
    block / epochLength
  }

  function FirstBlock(epochLength: nat, index: nat): nat {
    index * epochLength
  }

  function LastBlock(epochLength: nat, index: nat): int {
    index * epochLength + epochLength - 1
  }

  /** A block lies in the window of epoch `index` exactly when that is its epoch index. */
  lemma WindowOfBlock(epochLength: nat, index: nat, block: nat)
    requires epochLength >= 1
    ensures CalculateEpochIndex(epochLength, block) == index <==>
            FirstBlock(epochLength, index) <= block <= LastBlock(epochLength, index)
  {
    var q, r := block / epochLength, block % epochLength;
    assert block == q * epochLength + r;
    if q < index {
      assert (q + 1) * epochLength <= index * epochLength;
    } else if q > index {
      assert (index + 1) * epochLength <= q * epochLength;
    }
  }

  lemma EpochIndexMonotone(epochLength: nat, a: nat, b: nat)
    requires epochLength >= 1 && a <= b
    ensures CalculateEpochIndex(epochLength, a) <= CalculateEpochIndex(epochLength, b)
  {
    var p, q := a / epochLength, b / epochLength;
    if q < p {
      assert (q + 1) * epochLength <= p * epochLength;
    }
  }

  lemma LastBlockMonotone(epochLength: nat, i: nat, j: nat)
    requires i <= j
    ensures LastBlock(epochLength, i) <= LastBlock(epochLength, j)
    ensures LastBlock(epochLength, j) == FirstBlock(epochLength, j + 1) - 1
  {
    assert i * epochLength <= j * epochLength;
    assert (j + 1) * epochLength == j * epochLength + epochLength;
  }

  /** A window ends before `block` exactly when its epoch comes before the epoch of `block`. */
  lemma WindowEndsBefore(epochLength: nat, index: nat, block: nat)
    requires epochLength >= 1
    ensures LastBlock(epochLength, index) < block <==> index < CalculateEpochIndex(epochLength, block)
  {
    var q := CalculateEpochIndex(epochLength, block);
    WindowOfBlock(epochLength, q, block);
    if index < q {
      LastBlockMonotone(epochLength, index, q - 1);
    } else {
      LastBlockMonotone(epochLength, q, index);
    }
  }

  /** The source computes the window in uint64. */
  function LastBlockUint64(epochLength: nat, index: nat): nat {
    (index * epochLength % TWO_TO_64 + epochLength + TWO_TO_64 - 1) % TWO_TO_64
  }

  /** Wrap-around never shows exactly when the window's last block is a uint64. */
  lemma WindowFitsUint64(epochLength: nat, block: nat)
    requires 1 <= epochLength < TWO_TO_64 && block < TWO_TO_64
    ensures var k := CalculateEpochIndex(epochLength, block);
            (LastBlockUint64(epochLength, k) == LastBlock(epochLength, k) <==>
             LastBlock(epochLength, k) < TWO_TO_64)
  {
    var k := CalculateEpochIndex(epochLength, block);
    WindowOfBlock(epochLength, k, block);
    assert FirstBlock(epochLength, k) < TWO_TO_64;
  }
}
