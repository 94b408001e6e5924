/** Lengths in bytes of sets of blocks, the last of which may be short: the arithmetic of
    `src/BitfieldMan.cc`. */
module BlockLengths {
  import opened Bits
  import opened Integers
  import opened Sequences

  datatype Layout = Layout(blockLength: int, totalLength: int, blocks: nat)

  /** The number of blocks the constructor computes. */
  function BlockCount(blockLength: int, totalLength: int): int {
    if blockLength > 0 && totalLength > 0 then (totalLength + blockLength - 1) / blockLength else 0
  }

  predicate LayoutWf(l: Layout) {
    l.blocks == BlockCount(l.blockLength, l.totalLength)
  }

  /** Where block `i` begins. */
  function Start(l: Layout, i: int): int {
    i * l.blockLength
  }

  function LastLength(l: Layout): int {
    l.totalLength - l.blockLength * (l.blocks - 1)
  }

  function BlockLength(l: Layout, i: nat): int {
    if i == l.blocks - 1 then LastLength(l) else l.blockLength
  }

  /** The last block is neither empty nor longer than the others. */
  lemma LastLengthBounds(l: Layout)
    requires LayoutWf(l) && l.blocks > 0
    ensures 0 < LastLength(l) <= l.blockLength
  {
    var n, d := l.totalLength + l.blockLength - 1, l.blockLength;
    assert n == d * (n / d) + n % d;
    assert d * (l.blocks - 1) == d * l.blocks - d;
  }

  /** The length in bytes of the blocks set among the first `k`. */
  function Length(l: Layout, v: Bitmap, k: nat): int
    requires k <= |v|
  {
    if k == 0 then 0 else Length(l, v, k - 1) + if v[k - 1] then BlockLength(l, k - 1) else 0
  }

  lemma {:induction false} FullBlocks(l: Layout, v: Bitmap, k: nat)
    requires k <= |v| == l.blocks && (k == l.blocks ==> k == 0)
    ensures Length(l, v, k) == Count(v, k) * l.blockLength
  {
    if k > 0 {
      FullBlocks(l, v, k - 1);
    }
  }

  /** What `computeCompletedLength` and `getFilteredTotalLengthNow` compute from a count. */
  function LengthByCount(l: Layout, count: int, lastSet: bool): int {
    if count == 0 then 0
    else if lastSet then (count - 1) * l.blockLength + LastLength(l)
    else count * l.blockLength
  }

  /** It is the sum over the blocks, the short last one counted as such. */
  lemma CountGivesLength(l: Layout, v: Bitmap)
    requires |v| == l.blocks > 0
    ensures LengthByCount(l, Count(v, l.blocks), v[l.blocks - 1]) == Length(l, v, l.blocks)
  {
    FullBlocks(l, v, l.blocks - 1);
  }

  /** The lengths of a set and of its complement add up to the whole. */
  lemma {:induction false} LengthComplement(l: Layout, v: Bitmap, k: nat)
    requires LayoutWf(l) && k <= |v| == l.blocks
    ensures Length(l, v, k) + Length(l, Not(v), k) == if k == l.blocks && k > 0 then l.totalLength else Start(l, k)
  {
    if k > 0 {
      LengthComplement(l, v, k - 1);
      assert l.blockLength * (l.blocks - 1) == (l.blocks - 1) * l.blockLength;
    }
  }

  lemma {:induction false} LengthPositive(l: Layout, v: Bitmap, k: nat)
    requires LayoutWf(l) && k <= |v| == l.blocks
    ensures Length(l, v, k) >= 0
    ensures Length(l, v, k) == 0 <==> forall i :: 0 <= i < k ==> !v[i]
  {
    if k > 0 {
      LengthPositive(l, v, k - 1);
      LastLengthBounds(l);
    }
  }

  /** The completed length reaches the total exactly when every block is there. */
  lemma CompleteExactly(l: Layout, v: Bitmap)
    requires LayoutWf(l) && |v| == l.blocks > 0
    ensures Length(l, v, l.blocks) == l.totalLength <==> forall i :: 0 <= i < l.blocks ==> v[i]
  {
    LengthComplement(l, v, l.blocks);
    LengthPositive(l, Not(v), l.blocks);
    assert forall i :: 0 <= i < l.blocks ==> Not(v)[i] == !v[i];
  }

  // ---------- byte ranges ----------

  /** The bytes of block `i` in `[lo, hi)`. */
  function Overlap(l: Layout, i: nat, lo: int, hi: int): int {
    Max(0, Min(hi, Start(l, i) + BlockLength(l, i)) - Max(lo, Start(l, i)))
  }

  /** The bytes in `[lo, hi)` of the blocks set among the first `k`. */
  function OverlapSum(l: Layout, v: Bitmap, lo: int, hi: int, k: nat): int
    requires k <= |v|
  {
    if k == 0 then 0 else OverlapSum(l, v, lo, hi, k - 1) + if v[k - 1] then Overlap(l, k - 1, lo, hi) else 0
  }

  /** Blocks lie one behind the other within the total length. */
  lemma BlockBounds(l: Layout, i: nat)
    requires LayoutWf(l) && i < l.blocks
    ensures 0 <= Start(l, i) && 0 < BlockLength(l, i) <= l.blockLength
    ensures Start(l, i) + BlockLength(l, i) == if i == l.blocks - 1 then l.totalLength else Start(l, i + 1)
    ensures Start(l, i) + BlockLength(l, i) <= l.totalLength
  {
    LastLengthBounds(l);
    assert i * l.blockLength >= 0;
    if i < l.blocks - 1 {
      var d := l.blocks - 1 - (i + 1);
      assert (l.blocks - 1) * l.blockLength == (i + 1) * l.blockLength + d * l.blockLength;
      assert d * l.blockLength >= 0;
    }
    assert l.blockLength * (l.blocks - 1) == (l.blocks - 1) * l.blockLength;
  }

  /** Adjacent ranges add up. */
  lemma {:induction false} RangesAdd(l: Layout, v: Bitmap, lo: int, mid: int, hi: int, k: nat)
    requires LayoutWf(l) && k <= |v| == l.blocks && lo <= mid <= hi
    ensures OverlapSum(l, v, lo, mid, k) + OverlapSum(l, v, mid, hi, k) == OverlapSum(l, v, lo, hi, k)
  {
    if k > 0 {
      RangesAdd(l, v, lo, mid, hi, k - 1);
      BlockBounds(l, k - 1);
    }
  }

  /** On the whole download the range sum is the completed length. */
  lemma {:induction false} WholeRange(l: Layout, v: Bitmap, k: nat)
    requires LayoutWf(l) && k <= |v| == l.blocks
    ensures OverlapSum(l, v, 0, l.totalLength, k) == Length(l, v, k)
  {
    if k > 0 {
      WholeRange(l, v, k - 1);
      BlockBounds(l, k - 1);
    }
  }

  /** Clipping the range to the total length changes nothing. */
  lemma {:induction false} ClipRange(l: Layout, v: Bitmap, lo: int, hi: int, k: nat)
    requires LayoutWf(l) && k <= |v| == l.blocks
    ensures OverlapSum(l, v, lo, hi, k) == OverlapSum(l, v, lo, Min(hi, l.totalLength), k)
  {
    if k > 0 {
      ClipRange(l, v, lo, hi, k - 1);
      BlockBounds(l, k - 1);
    }
  }

  /** An empty range, or one behind the end, holds nothing. */
  lemma {:induction false} EmptyRange(l: Layout, v: Bitmap, lo: int, hi: int, k: nat)
    requires LayoutWf(l) && k <= |v| == l.blocks && (lo == hi || l.totalLength <= lo)
    ensures OverlapSum(l, v, lo, hi, k) == 0
  {
    if k > 0 {
      EmptyRange(l, v, lo, hi, k - 1);
      BlockBounds(l, k - 1);
    }
  }

  /** Blocks that end before the range contribute nothing. */
  lemma {:induction false} BeforeRange(l: Layout, v: Bitmap, lo: int, hi: int, k: nat)
    requires LayoutWf(l) && k <= |v| == l.blocks
    requires Start(l, k) <= lo && (k == l.blocks && k > 0 ==> l.totalLength <= lo)
    ensures OverlapSum(l, v, lo, hi, k) == 0
  {
    if k > 0 {
      BlockBounds(l, k - 1);
      BeforeRange(l, v, lo, hi, k - 1);
    }
  }

  /** Neither do those that begin behind it. */
  lemma {:induction false} BehindRange(l: Layout, v: Bitmap, lo: int, hi: int, j: nat, k: nat)
    requires LayoutWf(l) && j <= k <= |v| == l.blocks && (j < k ==> hi <= Start(l, j))
    ensures OverlapSum(l, v, lo, hi, k) == OverlapSum(l, v, lo, hi, j)
    decreases k - j
  {
    if j < k {
      BehindRange(l, v, lo, hi, j, k - 1);
      assert (k - 1 - j) * l.blockLength >= 0 by {
        BlockBounds(l, j);
      }
      assert Start(l, k - 1) == Start(l, j) + (k - 1 - j) * l.blockLength;
    }
  }

  /** Which block a byte is in. */
  lemma BlockOfByte(l: Layout, x: int) returns (i: nat)
    requires LayoutWf(l) && l.blockLength > 0 && 0 <= x < l.totalLength
    ensures i == x / l.blockLength && i < l.blocks
    ensures Start(l, i) <= x < Start(l, i) + BlockLength(l, i)
    ensures x < Start(l, i + 1)
  {
    var d := l.blockLength;
    DivNonNegative(x, d);
    i := x / d;
    DivFloor(x, d, i);
    DivFloor(l.totalLength + d - 1, d, l.blocks);
    Below(i, l.blocks, d, x, l.totalLength);
    BlockBounds(l, i);
  }

  lemma DivFloor(x: int, d: int, q: int)
    requires d > 0 && q == x / d
    ensures q * d <= x < (q + 1) * d
  {
    assert x == d * q + x % d;
  }

  lemma Below(i: int, n: int, d: int, x: int, total: int)
    requires d > 0 && i * d <= x < total && total + d - 1 < (n + 1) * d
    ensures i < n
  {
    if n <= i {
      Monotone(n, i, d);
    }
  }

  lemma Monotone(n: int, i: int, d: int)
    requires n <= i && d > 0
    ensures n * d <= i * d
  {
  }

  lemma DivNonNegative(x: int, d: int)
    requires x >= 0 && d > 0
    ensures x / d >= 0
  {
  }

  /** The first and the last block that bytes `[offset, offset + length)` touch. */
  function FirstBlock(l: Layout, offset: int): int
    requires l.blockLength > 0
  {
    offset / l.blockLength
  }

  function LastBlock(l: Layout, offset: int, length: int): int
    requires l.blockLength > 0
  {
    (offset + length - 1) / l.blockLength
  }

  /** Those are exactly the blocks with a byte in the range. */
  lemma TouchedOverlaps(l: Layout, i: nat, offset: int, length: int)
    requires LayoutWf(l) && i < l.blocks && 0 <= offset < l.totalLength && length > 0
    requires offset + length <= l.totalLength
    ensures FirstBlock(l, offset) <= i <= LastBlock(l, offset, length) <==> Overlap(l, i, offset, offset + length) > 0
  {
    var first := BlockOfByte(l, offset);
    var last := BlockOfByte(l, offset + length - 1);
    BlockBounds(l, i);
    if i < first {
      Apart(l, i, first);
    } else if i > last {
      Apart(l, last, i);
    } else {
      if first < i { Apart(l, first, i); }
      if i < last { Apart(l, i, last); }
    }
  }

  /** Different blocks share no byte. */
  lemma Apart(l: Layout, i: nat, j: nat)
    requires LayoutWf(l) && i < j < l.blocks
    ensures Start(l, i) + BlockLength(l, i) <= Start(l, j)
  {
    BlockBounds(l, i);
    var d := j - (i + 1);
    assert j * l.blockLength == (i + 1) * l.blockLength + d * l.blockLength;
    assert d * l.blockLength >= 0;
  }

  /** Bytes in order are in blocks in order. */
  lemma InOrder(l: Layout, i: nat, j: nat, x: int, y: int)
    requires LayoutWf(l) && i < l.blocks && j < l.blocks && x <= y
    requires Start(l, i) <= x && y < Start(l, j) + BlockLength(l, j)
    ensures i <= j
  {
    if j < i {
      Apart(l, j, i);
    }
  }

  /** What each block in a range contributes, from the first to the last. */
  lemma RangeOverlaps(l: Layout, i: nat, first: nat, last: nat, lo: int, hi: int)
    requires LayoutWf(l) && first <= i <= last < l.blocks && lo < hi <= l.totalLength
    requires Start(l, first) <= lo < Start(l, first) + BlockLength(l, first)
    requires Start(l, last) <= hi - 1 < Start(l, last) + BlockLength(l, last)
    ensures Overlap(l, i, lo, hi)
         == if first == last then hi - lo
            else if i == first then (first + 1) * l.blockLength - lo
            else if i == last then hi - last * l.blockLength
            else l.blockLength
  {
    BlockBounds(l, i);
    if first < i {
      Apart(l, first, i);
    }
    if i < last {
      Apart(l, i, last);
    }
  }
}
