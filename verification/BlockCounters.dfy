/** The counters of `src/BitfieldMan.cc`, computed from the bytes of the fields. */
module BlockCounters {
  import opened Bits
  import opened BlockLengths
  import opened Sequences
  import opened Wrappers

  /** The cached counters. */
  datatype Caches = Caches(missing: int, filtered: int, filteredTotal: int, completed: int, filteredCompleted: int)

  /** The blocks that are wanted: those of the filter if it is enabled, or all. */
  function Wanted(filter: Bitmap, enabled: bool): (v: Bitmap)
    ensures |v| == |filter| && forall i :: 0 <= i < |v| ==> v[i] == (filter[i] || !enabled)
  {
    seq(|filter|, i requires 0 <= i < |filter| => filter[i] || !enabled)
  }

  predicate AllSet(v: Bitmap) {
    forall i :: 0 <= i < |v| ==> v[i]
  }

  predicate Includes(have: Bitmap, filter: Bitmap)
    requires |have| == |filter|
  {
    forall i :: 0 <= i < |have| ==> filter[i] ==> have[i]
  }

  /** What the counters should be: sums over the blocks, the short last one counted as such.
      The total length of the filter is counted whether it is enabled or not. */
  function Counted(l: Layout, have: Bitmap, filter: Bitmap, enabled: bool): Caches
    requires |have| == |filter| == l.blocks
  {
    Caches(Count(And(Not(have), Wanted(filter, enabled)), l.blocks),
           if enabled then Count(filter, l.blocks) else 0,
           Length(l, filter, l.blocks),
           Length(l, have, l.blocks),
           Length(l, And(have, Wanted(filter, enabled)), l.blocks))
  }

  /** `v` with the bits in `[from, to)` set or cleared. */
  function Marked(v: Bitmap, from: int, to: int, on: bool): (r: Bitmap)
    ensures |r| == |v| && forall i :: 0 <= i < |v| ==> r[i] == if from <= i < to then on else v[i]
  {
    seq(|v|, i requires 0 <= i < |v| => if from <= i < to then on else v[i])
  }

  /** The blocks a filter field holds; none if there is no such field. */
  function FilterBits(filter: Option<seq<Byte>>, blocks: nat): (v: Bitmap)
    requires filter.Some? ==> blocks <= 8 * |filter.value|
    ensures |v| == blocks
  {
    if filter.None? then seq(blocks, i => false) else View(filter.value, blocks)
  }

  /** The guard of `getLastBlockLength`. */
  function Clamp(lastLength: int, blockLength: int): int {
    if lastLength > blockLength || lastLength < 0 then blockLength else lastLength
  }

  function GetLastBlockLength(l: Layout): (n: int)
    ensures LayoutWf(l) && l.blocks > 0 ==> n == LastLength(l)
  {
    if LayoutWf(l) && l.blocks > 0 then
      LastLengthBounds(l);
      Clamp(l.totalLength - l.blockLength * (l.blocks - 1), l.blockLength)
    else
      Clamp(l.totalLength - l.blockLength * (l.blocks - 1), l.blockLength)
  }

  lemma {:induction false} NothingSet(l: Layout, v: Bitmap, k: nat)
    requires k <= |v| && forall i :: 0 <= i < k ==> !v[i]
    ensures Length(l, v, k) == 0
  {
    if k > 0 {
      NothingSet(l, v, k - 1);
    }
  }

  /** What dropping a filter that is not enabled does to the counters. */
  lemma FilterDropped(l: Layout, have: Bitmap, filter: Bitmap, none: Bitmap)
    requires |have| == |filter| == |none| == l.blocks && forall i :: 0 <= i < |none| ==> !none[i]
    ensures Counted(l, have, none, false) == Counted(l, have, filter, false).(filteredTotal := 0)
  {
    NothingSet(l, none, l.blocks);
    assert Wanted(none, false) == Wanted(filter, false);
  }

  /** The missing blocks, counted by subtraction. */
  lemma MissingByCount(have: Bitmap, filter: Bitmap, enabled: bool, k: nat)
    requires |have| == |filter| && k <= |have|
    ensures Count(And(Not(have), Wanted(filter, enabled)), k)
         == if enabled then Count(filter, k) - Count(And(have, filter), k) else k - Count(have, k)
  {
    var wanted := Wanted(filter, enabled);
    CountSplit(wanted, have, k);
    CountSame(And(wanted, Not(have)), And(Not(have), wanted), k);
    if enabled {
      CountSame(wanted, filter, k);
      CountSame(And(wanted, have), And(have, filter), k);
    } else {
      CountExtremes(wanted, k);
      CountSame(And(wanted, have), have, k);
    }
  }

  method CountMissingBlockNow(l: Layout, bitfield: seq<Byte>, filter: Option<seq<Byte>>, enabled: bool) returns (n: int)
    requires |bitfield| == (l.blocks + 7) / 8 && (filter.Some? ==> |filter.value| == |bitfield|)
    requires enabled ==> filter.Some?
    ensures n == Count(And(Not(View(bitfield, l.blocks)), Wanted(FilterBits(filter, l.blocks), enabled)), l.blocks)
  {
    MissingByCount(View(bitfield, l.blocks), FilterBits(filter, l.blocks), enabled, l.blocks);
    if enabled {
      var filtered := CountSetBit(filter.value, l.blocks);
      var have := CountSetBitSlow(AndBytes(bitfield, filter.value), l.blocks);
      ViewAnd(bitfield, filter.value, l.blocks);
      n := filtered - have;
    } else {
      var have := CountSetBit(bitfield, l.blocks);
      n := l.blocks - have;
    }
  }

  method CountFilteredBlockNow(l: Layout, filter: Option<seq<Byte>>, enabled: bool) returns (n: int)
    requires filter.Some? ==> |filter.value| == (l.blocks + 7) / 8
    requires enabled ==> filter.Some?
    ensures n == if enabled then Count(FilterBits(filter, l.blocks), l.blocks) else 0
  {
    if enabled {
      n := CountSetBit(filter.value, l.blocks);
    } else {
      n := 0;
    }
  }

  /** `computeCompletedLength`, on the bytes and their count. */
  method ComputeCompletedLength(l: Layout, bytes: seq<Byte>, completedBlocks: nat) returns (n: int)
    requires LayoutWf(l) && |bytes| == (l.blocks + 7) / 8
    requires completedBlocks == Count(View(bytes, l.blocks), l.blocks)
    ensures n == Length(l, View(bytes, l.blocks), l.blocks)
  {
    if l.blocks > 0 {
      CountGivesLength(l, View(bytes, l.blocks));
    }
    if completedBlocks == 0 {
      n := 0;
    } else {
      if Test(bytes, l.blocks - 1) {
        n := (completedBlocks - 1) * l.blockLength + GetLastBlockLength(l);
      } else {
        n := completedBlocks * l.blockLength;
      }
    }
  }

  method GetFilteredTotalLengthNow(l: Layout, filter: Option<seq<Byte>>) returns (n: int)
    requires LayoutWf(l) && (filter.Some? ==> |filter.value| == (l.blocks + 7) / 8)
    ensures n == Length(l, FilterBits(filter, l.blocks), l.blocks)
  {
    if filter == None {
      NothingSet(l, FilterBits(filter, l.blocks), l.blocks);
      return 0;
    }
    var filteredBlocks := CountSetBit(filter.value, l.blocks);
    n := ComputeCompletedLength(l, filter.value, filteredBlocks);
  }

  method GetCompletedLength(l: Layout, bitfield: seq<Byte>) returns (n: int)
    requires LayoutWf(l) && |bitfield| == (l.blocks + 7) / 8
    ensures n == Length(l, View(bitfield, l.blocks), l.blocks)
  {
    var count := CountSetBit(bitfield, l.blocks);
    n := ComputeCompletedLength(l, bitfield, count);
  }

  method GetFilteredCompletedLength(l: Layout, bitfield: seq<Byte>, filter: Option<seq<Byte>>, enabled: bool)
    returns (n: int)
    requires LayoutWf(l) && |bitfield| == (l.blocks + 7) / 8
    requires (filter.Some? ==> |filter.value| == |bitfield|) && (enabled ==> filter.Some?)
    ensures n == Length(l, And(View(bitfield, l.blocks), Wanted(FilterBits(filter, l.blocks), enabled)), l.blocks)
  {
    if enabled {
      var arr := AndBytes(bitfield, filter.value);
      ViewAnd(bitfield, filter.value, l.blocks);
      var count := CountSetBitSlow(arr, l.blocks);
      n := ComputeCompletedLength(l, arr, count);
      assert FilterBits(filter, l.blocks) == Wanted(FilterBits(filter, l.blocks), enabled);
    } else {
      n := GetCompletedLength(l, bitfield);
      assert And(View(bitfield, l.blocks), Wanted(FilterBits(filter, l.blocks), enabled)) == View(bitfield, l.blocks);
    }
  }

  /** What `updateCache` stores: the popcount-based computations give the sums over blocks. */
  method CountNow(l: Layout, bitfield: seq<Byte>, filter: Option<seq<Byte>>, enabled: bool) returns (c: Caches)
    requires LayoutWf(l) && |bitfield| == (l.blocks + 7) / 8
    requires (filter.Some? ==> |filter.value| == |bitfield|) && (enabled ==> filter.Some?)
    ensures c == Counted(l, View(bitfield, l.blocks), FilterBits(filter, l.blocks), enabled)
  {
    var missing := CountMissingBlockNow(l, bitfield, filter, enabled);
    var filtered := CountFilteredBlockNow(l, filter, enabled);
    var filteredTotal := GetFilteredTotalLengthNow(l, filter);
    var completed := GetCompletedLength(l, bitfield);
    var filteredCompleted := GetFilteredCompletedLength(l, bitfield, filter, enabled);
    c := Caches(missing, filtered, filteredTotal, completed, filteredCompleted);
  }
}
