/** Positions of the array and the blocks of equal size they lie in. */
module Positions {
  import opened Cuts

  /** Block b holds position p; the last block holds everything from its first position on. */
  predicate Holds(b: nat, p: nat, size: nat, blocks: nat) {
    b < blocks && b * size <= p && (b == blocks - 1 || p < b * size + size)
  }

  /** Position p is one of the `size` positions of block b. */
  predicate InBlock(b: nat, p: nat, size: nat) { b * size <= p < b * size + size }

  /** Within the array the last block is no larger than the others. */
  lemma HoldsInArray(b: nat, p: nat, arraySize: nat, blocks: nat)
    requires blocks > 0 && p < arraySize
    ensures Holds(b, p, BlockSize(arraySize, blocks), blocks) <==> InBlock(b, p, BlockSize(arraySize, blocks))
  {
    var size := BlockSize(arraySize, blocks);
    BlockSizeIsLeast(arraySize, blocks, size);
    assert (blocks - 1) * size + size == blocks * size;
    if b >= blocks { MulMonotone(blocks, b, size); }
  }

  function BlockOf(p: nat, size: nat, blocks: nat): (b: nat)
    requires size > 0 && blocks > 0
    ensures b < blocks
  {
    if p / size < blocks - 1 then p / size else blocks - 1
  }

  /** Every position lies in exactly one block. */
  lemma BlockHolds(p: nat, size: nat, blocks: nat, b: nat)
    requires size > 0 && blocks > 0
    ensures Holds(b, p, size, blocks) <==> b == BlockOf(p, size, blocks)
  {
    var q := p / size;
    assert q * size <= p < q * size + size;
    if b <= q { MulMonotone(b, q, size); }
    if b < q { MulMonotone(b + 1, q, size); }
    if q < b { MulMonotone(q + 1, b, size); }
  }

  lemma BlockMonotone(p: nat, q: nat, size: nat, blocks: nat)
    requires size > 0 && blocks > 0 && p <= q
    ensures BlockOf(p, size, blocks) <= BlockOf(q, size, blocks)
  {
    QuotientAtLeast(q, size, p / size);
  }

  /** The blocks from that of l to that of r are those that hold a position from l to r. */
  lemma BlocksBetween(l: nat, r: nat, size: nat, blocks: nat, b: nat)
    requires size > 0 && blocks > 0 && l <= r
    ensures BlockOf(l, size, blocks) <= b <= BlockOf(r, size, blocks) <==>
            exists p: nat :: l <= p <= r && Holds(b, p, size, blocks)
  {
    if BlockOf(l, size, blocks) <= b <= BlockOf(r, size, blocks) {
      BlockHolds(r, size, blocks, BlockOf(r, size, blocks));
      MulMonotone(b, BlockOf(r, size, blocks), size);
      var p := if l < b * size then b * size else l;
      if p == l {
        BlockHolds(l, size, blocks, BlockOf(l, size, blocks));
        var a := BlockOf(l, size, blocks);
        if a < b { MulMonotone(a + 1, b, size); }
      }
      assert Holds(b, p, size, blocks);
    }
    if p: nat :| l <= p <= r && Holds(b, p, size, blocks) {
      BlockHolds(p, size, blocks, b);
      BlockMonotone(l, p, size, blocks);
      BlockMonotone(p, r, size, blocks);
    }
  }

  /** Blocks just large enough that the last one does not overflow. */
  function BlockSize(arraySize: nat, blocks: nat): (size: nat)
    requires blocks > 0
    ensures size > 0
  {
    if arraySize == 0 then 1 else 1 + (arraySize - 1) / blocks
  }

  /** No smaller size would do. */
  lemma BlockSizeIsLeast(arraySize: nat, blocks: nat, size: nat)
    requires blocks > 0 && size > 0
    ensures size >= BlockSize(arraySize, blocks) <==> arraySize <= blocks * size
  {
    if arraySize > 0 {
      var q := (arraySize - 1) / blocks;
      assert q * blocks <= arraySize - 1 < q * blocks + blocks;
      if size <= q { MulMonotone(size, q, blocks); } else { MulMonotone(q + 1, size, blocks); }
    }
  }
}
