/** `BitfieldMan` of `src/BitfieldMan.cc`: three bit fields updated in place and the counters
    cached for them. The class invariant says that the caches agree with the bits. */
module BitfieldManager {
  import opened Bits
  import opened BlockCounters
  import opened BlockLengths
  import BlockSearch
  import OrderedSearch
  import opened Sequences
  import opened Wrappers

  class BitfieldMan {
    const totalLength: int
    var cachedCompletedLength: int
    var cachedFilteredCompletedLength: int
    var cachedFilteredTotalLength: int

    const bitfield: array<Byte>
    const useBitfield: array<Byte>
    var filterBitfield: array?<Byte>

    const bitfieldLength: nat
    var cachedNumMissingBlock: int
    var cachedNumFilteredBlock: int
    const blocks: nat

    var sparseHint: nat
    const blockLength: int
    var filterEnabled: bool

    function TheLayout(): Layout {
      Layout(blockLength, totalLength, blocks)
    }

    /** The fields fit the number of blocks and are separate arrays. */
    ghost predicate Shape() {
      && LayoutWf(TheLayout())
      && bitfieldLength == (blocks + 7) / 8
      && bitfield.Length == bitfieldLength && useBitfield.Length == bitfieldLength
      && bitfield != useBitfield
    }

    ghost predicate Fits()
      reads `filterBitfield, `filterEnabled, filterBitfield
    {
      && Shape()
      && (filterBitfield != null ==>
            && filterBitfield.Length == bitfieldLength
            && filterBitfield != bitfield && filterBitfield != useBitfield
            && SpareZero(filterBitfield[..], blocks))
      && (filterEnabled ==> filterBitfield != null)
    }

    /** The blocks retrieved. */
    ghost function Have(): (v: Bitmap)
      requires Shape()
      reads bitfield
      ensures |v| == blocks
    {
      View(bitfield[..], blocks)
    }

    /** The blocks in use. */
    ghost function InUse(): (v: Bitmap)
      requires Shape()
      reads useBitfield
      ensures |v| == blocks
    {
      View(useBitfield[..], blocks)
    }

    /** The blocks the filter field holds; none if there is no such field. */
    ghost function Filter(): (v: Bitmap)
      requires Fits()
      reads `filterBitfield, `filterEnabled, filterBitfield
      ensures |v| == blocks
    {
      FilterBits(if filterBitfield == null then None else Some(filterBitfield[..]), blocks)
    }

    /** The counters as they are cached. */
    function Cached(): Caches
      reads `cachedNumMissingBlock, `cachedNumFilteredBlock, `cachedFilteredTotalLength, `cachedCompletedLength,
            `cachedFilteredCompletedLength
    {
      Caches(cachedNumMissingBlock, cachedNumFilteredBlock, cachedFilteredTotalLength, cachedCompletedLength,
             cachedFilteredCompletedLength)
    }

    ghost predicate Valid()
      reads `cachedNumMissingBlock, `cachedNumFilteredBlock, `cachedFilteredTotalLength, `cachedCompletedLength,
            `cachedFilteredCompletedLength, `filterBitfield, `filterEnabled, bitfield, filterBitfield
    {
      Fits() && Cached() == Counted(TheLayout(), Have(), Filter(), filterEnabled)
    }

    constructor (blockLength: int, totalLength: int)
      ensures Valid() && fresh(bitfield) && fresh(useBitfield) && filterBitfield == null
      ensures this.blockLength == blockLength && this.totalLength == totalLength && !filterEnabled
      ensures forall i :: 0 <= i < blocks ==> !Have()[i] && !InUse()[i]
      ensures SpareZero(bitfield[..], blocks)
    {
      var n := if blockLength > 0 && totalLength > 0 then CeilDiv(totalLength, blockLength) else 0;
      this.totalLength := totalLength;
      this.blockLength := blockLength;
      blocks := n;
      bitfieldLength := n / 8 + (if n % 8 != 0 then 1 else 0);
      bitfield := new Byte[n / 8 + (if n % 8 != 0 then 1 else 0)](_ => 0);
      useBitfield := new Byte[n / 8 + (if n % 8 != 0 then 1 else 0)](_ => 0);
      filterBitfield := null;
      filterEnabled := false;
      sparseHint := 0;
      new;
      assert SpareZero(bitfield[..], blocks) && forall i :: 0 <= i < blocks ==> !Have()[i] && !InUse()[i];
      UpdateCache();
    }

    /** Recomputes every cached counter from the bits. */
    method UpdateCache()
      requires Fits()
      modifies `cachedNumMissingBlock, `cachedNumFilteredBlock, `cachedFilteredTotalLength, `cachedCompletedLength,
               `cachedFilteredCompletedLength
      ensures Cached() == Counted(TheLayout(), Have(), Filter(), filterEnabled)
    {
      var c := CountNow(TheLayout(), bitfield[..],
                        if filterBitfield == null then None else Some(filterBitfield[..]), filterEnabled);
      cachedNumMissingBlock := c.missing;
      cachedNumFilteredBlock := c.filtered;
      cachedFilteredTotalLength := c.filteredTotal;
      cachedCompletedLength := c.completed;
      cachedFilteredCompletedLength := c.filteredCompleted;
    }

    /** A copy with arrays of its own. A filter that is not enabled is not copied, and then its
        length does not count any more. The hint of a copy is never set, so it is any value. */
    constructor Copy(other: BitfieldMan, hint: nat)
      requires other.Valid()
      ensures Valid() && fresh(bitfield) && fresh(useBitfield) && (filterBitfield != null ==> fresh(filterBitfield))
      ensures TheLayout() == other.TheLayout() && filterEnabled == other.filterEnabled && sparseHint == hint
      ensures bitfield[..] == other.bitfield[..] && useBitfield[..] == other.useBitfield[..]
      ensures if filterEnabled then Filter() == other.Filter() else filterBitfield == null
      ensures Cached() == if other.filterEnabled then other.Cached() else other.Cached().(filteredTotal := 0)
    {
      totalLength := other.totalLength;
      blockLength := other.blockLength;
      blocks := other.blocks;
      bitfieldLength := other.bitfieldLength;
      var have := Duplicate(other.bitfield);
      var use := Duplicate(other.useBitfield);
      bitfield := have;
      useBitfield := use;
      var filter: array?<Byte> := null;
      if other.filterEnabled {
        filter := Duplicate(other.filterBitfield);
      }
      filterBitfield := filter;
      filterEnabled := other.filterEnabled;
      sparseHint := hint;
      new;
      UpdateCache();
      if !filterEnabled {
        FilterDropped(TheLayout(), Have(), other.Filter(), Filter());
      }
    }

    // ---------- mutators ----------

    method SetUseBit(index: nat) returns (b: bool)
      requires Valid()
      modifies useBitfield
      ensures Valid() && (b <==> index < blocks)
      ensures InUse() == if b then old(InUse())[index := true] else old(InUse())
    {
      b := SetBitInternal(useBitfield, blocks, index, true);
    }

    method UnsetUseBit(index: nat) returns (b: bool)
      requires Valid()
      modifies useBitfield
      ensures Valid() && (b <==> index < blocks)
      ensures InUse() == if b then old(InUse())[index := false] else old(InUse())
    {
      b := SetBitInternal(useBitfield, blocks, index, false);
    }

    method SetBit(index: nat) returns (b: bool)
      requires Valid()
      modifies bitfield, `cachedNumMissingBlock, `cachedNumFilteredBlock, `cachedFilteredTotalLength,
               `cachedCompletedLength, `cachedFilteredCompletedLength
      ensures Valid() && (b <==> index < blocks)
      ensures Have() == if b then old(Have())[index := true] else old(Have())
      ensures old(SpareZero(bitfield[..], blocks)) ==> SpareZero(bitfield[..], blocks)
    {
      b := SetBitInternal(bitfield, blocks, index, true);
      UpdateCache();
    }

    method UnsetBit(index: nat) returns (b: bool)
      requires Valid()
      modifies bitfield, `cachedNumMissingBlock, `cachedNumFilteredBlock, `cachedFilteredTotalLength,
               `cachedCompletedLength, `cachedFilteredCompletedLength
      ensures Valid() && (b <==> index < blocks)
      ensures Have() == if b then old(Have())[index := false] else old(Have())
      ensures old(SpareZero(bitfield[..], blocks)) ==> SpareZero(bitfield[..], blocks)
    {
      b := SetBitInternal(bitfield, blocks, index, false);
      UpdateCache();
    }

    /** Replaces the bits by those of a peer or of a saved state; all blocks become unused.
        The spare bits of the last byte are taken over as they are. */
    method SetBitfield(bytes: seq<Byte>)
      requires Valid()
      modifies bitfield, useBitfield, `cachedNumMissingBlock, `cachedNumFilteredBlock, `cachedFilteredTotalLength,
               `cachedCompletedLength, `cachedFilteredCompletedLength
      ensures Valid()
      ensures if bitfieldLength == 0 || |bytes| != bitfieldLength
              then Have() == old(Have()) && InUse() == old(InUse())
              else bitfield[..] == bytes && (forall i :: 0 <= i < blocks ==> !InUse()[i])
    {
      if bitfieldLength == 0 || bitfieldLength != |bytes| {
        return;
      }
      CopyBytes(bytes, bitfield);
      ClearBytes(useBitfield);
      UpdateCache();
    }

    method ClearAllBit()
      requires Valid()
      modifies bitfield, `cachedNumMissingBlock, `cachedNumFilteredBlock, `cachedFilteredTotalLength,
               `cachedCompletedLength, `cachedFilteredCompletedLength
      ensures Valid() && SpareZero(bitfield[..], blocks)
      ensures forall i :: 0 <= i < blocks ==> !Have()[i]
    {
      ClearBytes(bitfield);
      UpdateCache();
    }

    method SetAllBit()
      requires Valid()
      modifies bitfield, `cachedNumMissingBlock, `cachedNumFilteredBlock, `cachedFilteredTotalLength,
               `cachedCompletedLength, `cachedFilteredCompletedLength
      ensures Valid()
      ensures forall i :: 0 <= i < blocks ==> Have()[i]
      ensures old(SpareZero(bitfield[..], blocks)) ==> SpareZero(bitfield[..], blocks)
    {
      MarkBits(bitfield, blocks, 0, blocks, true);
      UpdateCache();
    }

    method ClearAllUseBit()
      requires Valid()
      modifies useBitfield, `cachedNumMissingBlock, `cachedNumFilteredBlock, `cachedFilteredTotalLength,
               `cachedCompletedLength, `cachedFilteredCompletedLength
      ensures Valid()
      ensures forall i :: 0 <= i < blocks ==> !InUse()[i]
    {
      ClearBytes(useBitfield);
      UpdateCache();
    }

    method SetAllUseBit()
      requires Valid()
      modifies useBitfield
      ensures Valid() && forall i :: 0 <= i < blocks ==> InUse()[i]
    {
      MarkBits(useBitfield, blocks, 0, blocks, true);
    }

    method ChangeBit(index: nat, on: bool)
      requires Valid()
      modifies bitfield, `cachedNumMissingBlock, `cachedNumFilteredBlock, `cachedFilteredTotalLength,
               `cachedCompletedLength, `cachedFilteredCompletedLength
      ensures Valid() && Have() == Marked(old(Have()), index, index + 1, on)
      ensures SpareZero(old(bitfield[..]), blocks) ==> SpareZero(bitfield[..], blocks)
    {
      MarkNone(Have(), index, index, on);
      MarkOneMore(Have(), index, index, on);
      if on {
        var _ := SetBit(index);
      } else {
        var _ := UnsetBit(index);
      }
    }

    /** The loop of `setBitRange` and `unsetBitRange`. */
    method ChangeEach(startIndex: nat, endIndex: nat, on: bool)
      requires Valid()
      modifies bitfield, `cachedNumMissingBlock, `cachedNumFilteredBlock, `cachedFilteredTotalLength,
               `cachedCompletedLength, `cachedFilteredCompletedLength
      ensures Valid() && Have() == Marked(old(Have()), startIndex, endIndex + 1, on)
      ensures SpareZero(old(bitfield[..]), blocks) ==> SpareZero(bitfield[..], blocks)
    {
      var i := startIndex;
      ghost var was := Have();
      MarkNone(was, startIndex, startIndex, on);
      if i > endIndex {
        MarkNone(was, startIndex, endIndex + 1, on);
        return;
      }
      while i <= endIndex
        invariant startIndex <= i <= endIndex + 1 && Valid()
        invariant Have() == Marked(was, startIndex, i, on)
        invariant SpareZero(old(bitfield[..]), blocks) ==> SpareZero(bitfield[..], blocks)
      {
        MarkTwice(was, startIndex, i, on);
        ChangeBit(i, on);
        i := i + 1;
      }
    }

    method SetBitRange(startIndex: nat, endIndex: nat)
      requires Valid()
      modifies bitfield, `cachedNumMissingBlock, `cachedNumFilteredBlock, `cachedFilteredTotalLength,
               `cachedCompletedLength, `cachedFilteredCompletedLength
      ensures Valid() && Have() == Marked(old(Have()), startIndex, endIndex + 1, true)
      ensures SpareZero(old(bitfield[..]), blocks) ==> SpareZero(bitfield[..], blocks)
    {
      ChangeEach(startIndex, endIndex, true);
      UpdateCache();
    }

    method UnsetBitRange(startIndex: nat, endIndex: nat)
      requires Valid()
      modifies bitfield, `cachedNumMissingBlock, `cachedNumFilteredBlock, `cachedFilteredTotalLength,
               `cachedCompletedLength, `cachedFilteredCompletedLength
      ensures Valid() && Have() == Marked(old(Have()), startIndex, endIndex + 1, false)
      ensures SpareZero(old(bitfield[..]), blocks) ==> SpareZero(bitfield[..], blocks)
    {
      ChangeEach(startIndex, endIndex, false);
      UpdateCache();
    }

    // ---------- filters ----------

    method EnsureFilterBitfield()
      requires Fits()
      modifies `filterBitfield
      ensures Fits() && filterBitfield != null && (filterBitfield == old(filterBitfield) || fresh(filterBitfield))
      ensures Filter() == old(Filter())
    {
      if filterBitfield == null {
        filterBitfield := new Byte[bitfieldLength](_ => 0);
        assert SpareZero(filterBitfield[..], blocks) && forall i :: 0 <= i < blocks ==> !Filter()[i];
      }
    }

    /** Sets or clears the filter bits of the blocks touched by a range of bytes. */
    method MarkFilterRange(offset: int, length: int, on: bool)
      requires Fits() && filterBitfield != null && length > 0 && offset >= 0 && blockLength > 0
      modifies filterBitfield
      ensures Fits()
      ensures Filter() == Marked(old(Filter()), FirstBlock(TheLayout(), offset),
                                 LastBlock(TheLayout(), offset, length) + 1, on)
    {
      DivNonNegative(offset, blockLength);
      DivNonNegative(offset + length - 1, blockLength);
      var startBlock := offset / blockLength;
      var endBlock := (offset + length - 1) / blockLength;
      MarkClip(Filter(), startBlock, endBlock + 1, on);
      MarkBits(filterBitfield, blocks, startBlock, if endBlock + 1 < blocks then endBlock + 1 else blocks, on);
    }

    method AddFilter(offset: int, length: int)
      requires Valid() && (length > 0 ==> offset >= 0 && blockLength > 0)
      modifies filterBitfield, `filterBitfield, `cachedNumMissingBlock, `cachedNumFilteredBlock,
               `cachedFilteredTotalLength, `cachedCompletedLength, `cachedFilteredCompletedLength
      ensures Valid() && (filterBitfield == old(filterBitfield) || fresh(filterBitfield))
      ensures Filter() == if length > 0 then Marked(old(Filter()), FirstBlock(TheLayout(), offset),
                                                    LastBlock(TheLayout(), offset, length) + 1, true)
                          else old(Filter())
    {
      EnsureFilterBitfield();
      if length > 0 {
        MarkFilterRange(offset, length, true);
      }
      UpdateCache();
    }

    method RemoveFilter(offset: int, length: int)
      requires Valid() && (length > 0 ==> offset >= 0 && blockLength > 0)
      modifies filterBitfield, `filterBitfield, `cachedNumMissingBlock, `cachedNumFilteredBlock,
               `cachedFilteredTotalLength, `cachedCompletedLength, `cachedFilteredCompletedLength
      ensures Valid() && (filterBitfield == old(filterBitfield) || fresh(filterBitfield))
      ensures Filter() == if length > 0 then Marked(old(Filter()), FirstBlock(TheLayout(), offset),
                                                    LastBlock(TheLayout(), offset, length) + 1, false)
                          else old(Filter())
    {
      EnsureFilterBitfield();
      if length > 0 {
        MarkFilterRange(offset, length, false);
      }
      UpdateCache();
    }

    method AddNotFilter(offset: int, length: int)
      requires Valid() && (length > 0 ==> offset >= 0)
      modifies filterBitfield, `filterBitfield, `cachedNumMissingBlock, `cachedNumFilteredBlock,
               `cachedFilteredTotalLength, `cachedCompletedLength, `cachedFilteredCompletedLength
      ensures Valid() && (filterBitfield == old(filterBitfield) || fresh(filterBitfield))
      ensures Filter() == if length > 0 && blocks > 0
                          then Marked(Marked(old(Filter()), 0, FirstBlock(TheLayout(), offset), true),
                                      LastBlock(TheLayout(), offset, length) + 1, blocks, true)
                          else old(Filter())
    {
      EnsureFilterBitfield();
      if length > 0 && blocks > 0 {
        MarkOutside(offset, length);
      }
      UpdateCache();
    }

    /** Sets the filter bits of the blocks before and behind those touched by a range of bytes. */
    method MarkOutside(offset: int, length: int)
      requires Fits() && filterBitfield != null && length > 0 && offset >= 0 && blocks > 0
      modifies filterBitfield
      ensures Fits()
      ensures Filter() == Marked(Marked(old(Filter()), 0, FirstBlock(TheLayout(), offset), true),
                                 LastBlock(TheLayout(), offset, length) + 1, blocks, true)
    {
      DivNonNegative(offset, blockLength);
      DivNonNegative(offset + length - 1, blockLength);
      var startBlock := offset / blockLength;
      MarkClip(Filter(), 0, startBlock, true);
      if blocks <= startBlock {
        startBlock := blocks;
      }
      var endBlock := (offset + length - 1) / blockLength;
      MarkBits(filterBitfield, blocks, 0, startBlock, true);
      MarkBits(filterBitfield, blocks, endBlock + 1, blocks, true);
    }

    method EnableFilter()
      requires Valid()
      modifies `filterBitfield, `filterEnabled, `cachedNumMissingBlock, `cachedNumFilteredBlock,
               `cachedFilteredTotalLength, `cachedCompletedLength, `cachedFilteredCompletedLength
      ensures Valid() && filterEnabled && Filter() == old(Filter())
      ensures filterBitfield == old(filterBitfield) || fresh(filterBitfield)
    {
      EnsureFilterBitfield();
      filterEnabled := true;
      UpdateCache();
    }

    method DisableFilter()
      requires Valid()
      modifies `filterEnabled, `cachedNumMissingBlock, `cachedNumFilteredBlock, `cachedFilteredTotalLength,
               `cachedCompletedLength, `cachedFilteredCompletedLength
      ensures Valid() && !filterEnabled && Filter() == old(Filter())
    {
      filterEnabled := false;
      UpdateCache();
    }

    method ClearFilter()
      requires Valid()
      modifies `filterBitfield, `filterEnabled, `cachedNumMissingBlock, `cachedNumFilteredBlock,
               `cachedFilteredTotalLength, `cachedCompletedLength, `cachedFilteredCompletedLength
      ensures Valid() && !filterEnabled && filterBitfield == null
    {
      if filterBitfield != null {
        filterBitfield := null;
      }
      filterEnabled := false;
      UpdateCache();
    }

    // ---------- queries ----------

    /** Without an enabled filter: every block is retrieved and no spare bit is set. */
    method IsAllBitSet() returns (all: bool)
      requires Shape()
      ensures all <==> SpareZero(bitfield[..], blocks) && AllSet(Have())
    {
      var bytes := bitfield[..];
      all := TestAllBitSet(bytes, blocks);
      assert forall i :: 0 <= i < blocks ==> Have()[i] == Test(bytes, i);
    }

    /** True exactly when no wanted block is missing, provided that without an enabled filter
        no spare bit is set; `SetBitfield` is the one mutator that can set one. */
    method IsFilteredAllBitSet() returns (all: bool)
      requires Valid()
      ensures all <==> cachedNumMissingBlock == 0 && (filterEnabled || SpareZero(bitfield[..], blocks))
    {
      NoneMissing(Have(), Filter(), filterEnabled);
      assert cachedNumMissingBlock == Cached().missing;
      if filterEnabled {
        all := Covers(bitfield[..], filterBitfield[..]);
      } else {
        all := IsAllBitSet();
      }
    }

    /** The number of retrieved bytes in `[offset, offset + length)`, whatever the filter. */
    method GetOffsetCompletedLength(offset: int, length: int) returns (res: int)
      requires Shape() && offset >= 0 && length >= 0
      requires length == 0 || totalLength <= offset || blockLength > 0
      ensures res == OverlapSum(TheLayout(), Have(), offset, offset + length, blocks)
    {
      ghost var l, v := TheLayout(), Have();
      if length == 0 || totalLength <= offset {
        EmptyRange(l, v, offset, offset + length, blocks);
        return 0;
      }
      var len := length;
      ClipRange(l, v, offset, offset + length, blocks);
      if totalLength < offset + length {
        len := totalLength - offset;
      }
      ghost var first := BlockOfByte(l, offset);
      ghost var last := BlockOfByte(l, offset + len - 1);
      var start := offset / blockLength;
      var end := (offset + len - 1) / blockLength;
      res := SumRange(TheLayout(), View(bitfield[..], blocks), offset, len, start, end);
    }

    // ---------- piece selection ----------

    /** The blocks that must not be selected: ignored, filtered out, retrieved or in use. */
    ghost function Unselectable(ignore: seq<Byte>): (b: Bitmap)
      requires Fits() && |ignore| == bitfieldLength
      reads `filterBitfield, `filterEnabled, bitfield, useBitfield, filterBitfield
      ensures |b| == blocks
      ensures forall i :: 0 <= i < blocks ==>
                (!b[i] <==> !Test(ignore, i) && !Have()[i] && !InUse()[i] && (filterEnabled ==> Filter()[i]))
    {
      var ignored, wanted, have, use := View(ignore, blocks), Wanted(Filter(), filterEnabled), Have(), InUse();
      seq(blocks, i requires 0 <= i < blocks => ignored[i] || !wanted[i] || have[i] || use[i])
    }

    /** The array expression the searches are given. */
    method Combine(ignore: seq<Byte>) returns (b: Bitmap)
      requires Fits() && |ignore| == bitfieldLength
      ensures b == Unselectable(ignore) && BlockSearch.Combined(b, InUse())
    {
      var have, use := bitfield[..], useBitfield[..];
      var busy := OrBytes(have, use);
      ViewOr(have, use, blocks);
      if filterEnabled {
        var filter := filterBitfield[..];
        var excluded := OrBytes(ignore, NotBytes(filter));
        ViewNot(filter, blocks);
        ViewOr(ignore, NotBytes(filter), blocks);
        ViewOr(excluded, busy, blocks);
        b := View(OrBytes(excluded, busy), blocks);
      } else {
        ViewOr(ignore, busy, blocks);
        b := View(OrBytes(ignore, busy), blocks);
      }
    }

    /** Selects a block that can be selected and remembers it as the hint. It finds one
        exactly when the scan in two passes from the hint does, see `HintIsCompleteExactly`. */
    method GetSparseMissingUnusedIndex(minSplitSize: int, ignore: seq<Byte>) returns (found: bool, index: nat)
      requires Valid() && |ignore| == bitfieldLength
      modifies `sparseHint
      ensures Valid()
      ensures found ==> index < blocks && !Unselectable(ignore)[index] && sparseHint == index
      ensures !found ==> sparseHint == old(sparseHint)
      ensures (found, index) in
                BlockSearch.Answers(Unselectable(ignore), InUse(), blockLength, minSplitSize, old(sparseHint))
    {
      found, index := FindSparse(minSplitSize, ignore);
      if found {
        sparseHint := index;
      }
    }

    /** The search itself, which leaves the hint as it is. */
    method FindSparse(minSplitSize: int, ignore: seq<Byte>) returns (found: bool, index: nat)
      requires Valid() && |ignore| == bitfieldLength
      ensures found ==> index < blocks && !Unselectable(ignore)[index]
      ensures (found, index) in
                BlockSearch.Answers(Unselectable(ignore), InUse(), blockLength, minSplitSize, sparseHint)
    {
      var b := Combine(ignore);
      found, index := BlockSearch.GetSparseMissingUnusedIndex(minSplitSize, b, View(useBitfield[..], blocks),
                                                              blockLength, sparseHint);
    }

    /** Selects in the first window in which something can be selected, and falls back to the
        scan from 0 when there is none. */
    method GetGeomMissingUnusedIndex(minSplitSize: int, ignore: seq<Byte>, base: real, offsetIndex: nat)
      returns (found: bool, index: nat, ghost window: nat)
      requires Valid() && |ignore| == bitfieldLength && base > 1.0
      ensures found ==> index < blocks && !Unselectable(ignore)[index]
      ensures forall k :: 0 <= k < window ==>
                OrderedSearch.Pick(Unselectable(ignore), InUse(), base, offsetIndex, k) == None
      ensures if OrderedSearch.WindowStart(base, window) + offsetIndex as real < blocks as real
              then found && OrderedSearch.Pick(Unselectable(ignore), InUse(), base, offsetIndex, window) == Some(index)
              else
                && (found <==> BlockSearch.PlainFinds(Unselectable(ignore), InUse(), blockLength, minSplitSize))
                && (found ==>
                      index in BlockSearch.HintedPicks(Unselectable(ignore), InUse(), blockLength, minSplitSize, 0))
    {
      var b := Combine(ignore);
      found, index, window := OrderedSearch.GetGeomMissingUnusedIndex(minSplitSize, b, View(useBitfield[..], blocks),
                                                                      blockLength, base, offsetIndex);
    }

    method GetInorderMissingUnusedIndex(minSplitSize: int, startIndex: nat, endIndex: nat, ignore: seq<Byte>)
      returns (found: bool, index: nat)
      requires Valid() && |ignore| == bitfieldLength && startIndex < blocks
      ensures found ==> index < blocks && !Unselectable(ignore)[index]
      ensures !Unselectable(ignore)[startIndex] ==> found && index == startIndex
      ensures Unselectable(ignore)[startIndex] ==>
                (!found <==> OrderedSearch.NoOffer(Unselectable(ignore), InUse(), startIndex,
                                                   if endIndex < blocks then endIndex else blocks,
                                                   blockLength, minSplitSize))
      ensures Unselectable(ignore)[startIndex] && found ==>
                OrderedSearch.FirstOffer(Unselectable(ignore), InUse(), startIndex,
                                         if endIndex < blocks then endIndex else blocks,
                                         blockLength, minSplitSize, index)
    {
      var b := Combine(ignore);
      found, index := OrderedSearch.GetInorderMissingUnusedIndex(
        startIndex, if endIndex < blocks then endIndex else blocks, minSplitSize, b, View(useBitfield[..], blocks),
        blockLength);
    }
  }

  /** The sum over the blocks `start` to `end` that a clipped range touches. */
  method SumRange(l: Layout, v: Bitmap, offset: int, len: int, start: nat, end: nat) returns (res: int)
    requires LayoutWf(l) && |v| == l.blocks && offset >= 0 && len > 0 && offset + len <= l.totalLength
    requires start < l.blocks && end < l.blocks
    requires Start(l, start) <= offset < Start(l, start) + BlockLength(l, start)
    requires Start(l, end) <= offset + len - 1 < Start(l, end) + BlockLength(l, end)
    ensures res == OverlapSum(l, v, offset, offset + len, l.blocks)
  {
    ghost var hi := offset + len;
    InOrder(l, start, end, offset, hi - 1);
    BeforeRange(l, v, offset, hi, start);
    RangeOverlaps(l, start, start, end, offset, hi);
    RangeOverlaps(l, end, start, end, offset, hi);
    res := 0;
    if start == end {
      if v[start] {
        res := len;
      }
    } else {
      if v[start] {
        res := res + (start + 1) * l.blockLength - offset;
      }
      for i := start + 1 to end
        invariant res == OverlapSum(l, v, offset, hi, i)
      {
        RangeOverlaps(l, i, start, end, offset, hi);
        if v[i] {
          res := res + l.blockLength;
        }
      }
      if v[end] {
        res := res + offset + len - end * l.blockLength;
      }
    }
    NothingBehind(l, v, offset, hi, end);
  }

  lemma NothingBehind(l: Layout, v: Bitmap, lo: int, hi: int, end: nat)
    requires LayoutWf(l) && |v| == l.blocks && end < l.blocks && hi <= Start(l, end) + BlockLength(l, end)
    ensures OverlapSum(l, v, lo, hi, l.blocks) == OverlapSum(l, v, lo, hi, end + 1)
  {
    if end + 1 < l.blocks {
      Apart(l, end, end + 1);
    }
    BehindRange(l, v, lo, hi, end + 1, l.blocks);
  }

  /** The byte-wise test of `isFilteredAllBitSet`. */
  method Covers(have: seq<Byte>, filter: seq<Byte>) returns (covers: bool)
    requires |have| == |filter|
    ensures covers <==> forall k :: 0 <= k < 8 * |have| ==> Test(filter, k) ==> Test(have, k)
  {
    for i := 0 to |have|
      invariant forall k :: 0 <= k < 8 * i ==> Test(filter, k) ==> Test(have, k)
    {
      CoveredByte(have, filter, i);
      if have[i] & filter[i] != filter[i] {
        return false;
      }
    }
    return true;
  }

  /** No block is missing exactly when every wanted block is there. */
  lemma NoneMissing(have: Bitmap, filter: Bitmap, enabled: bool)
    requires |have| == |filter|
    ensures var missing := Count(And(Not(have), Wanted(filter, enabled)), |have|);
            && (enabled ==> (missing == 0 <==> Includes(have, filter)))
            && (!enabled ==> (missing == 0 <==> AllSet(have)))
  {
    var missing := And(Not(have), Wanted(filter, enabled));
    CountExtremes(missing, |have|);
    assert forall i :: 0 <= i < |have| ==> missing[i] == (!have[i] && (filter[i] || !enabled));
  }

  /** Masking with the filter leaves the filter exactly when the byte covers it. */
  lemma CoveredByte(have: seq<Byte>, filter: seq<Byte>, i: nat)
    requires |have| == |filter| && i < |have|
    ensures have[i] & filter[i] == filter[i]
       <==> forall k :: 8 * i <= k < 8 * i + 8 ==> Test(filter, k) ==> Test(have, k)
  {
    forall j | 0 <= j < 8
      ensures Test(have, 8 * i + j) == TestByte(have[i], j) && Test(filter, 8 * i + j) == TestByte(filter[i], j)
      ensures TestByte(have[i] & filter[i], j) == (TestByte(have[i], j) && TestByte(filter[i], j))
    {
      TestAt(have, i, j);
      TestAt(filter, i, j);
      AndBit(have[i], filter[i], j);
    }
    if forall k :: 8 * i <= k < 8 * i + 8 ==> Test(filter, k) ==> Test(have, k) {
      forall j | 0 <= j < 8
        ensures TestByte(have[i] & filter[i], j) == TestByte(filter[i], j)
      {
        assert Test(filter, 8 * i + j) ==> Test(have, 8 * i + j);
      }
      ByteExt(have[i] & filter[i], filter[i]);
    } else {
      var k :| 8 * i <= k < 8 * i + 8 && Test(filter, k) && !Test(have, k);
      assert TestByte(have[i] & filter[i], k - 8 * i) != TestByte(filter[i], k - 8 * i) by {
        assert k == 8 * i + (k - 8 * i);
      }
    }
  }

  /** Sets or clears one bit of `field`; an index out of range changes nothing. */
  method SetBitInternal(field: array<Byte>, blocks: nat, index: nat, on: bool) returns (b: bool)
    requires field.Length == (blocks + 7) / 8
    modifies field
    ensures b <==> index < blocks
    ensures View(field[..], blocks) ==
            if b then View(old(field[..]), blocks)[index := on] else View(old(field[..]), blocks)
    ensures SpareZero(old(field[..]), blocks) ==> SpareZero(field[..], blocks)
  {
    if blocks <= index {
      return false;
    }
    ghost var was := field[..];
    field[index / 8] := SetByte(field[index / 8], index % 8, on);
    assert field[..] == was[index / 8 := SetByte(was[index / 8], index % 8, on)];
    ViewSet(was, blocks, index, on);
    SpareKept(was, blocks, index, on);
    return true;
  }

  /** A loop of `setBitInternal` over `[from, to)`. */
  method MarkBits(field: array<Byte>, blocks: nat, from: nat, to: nat, on: bool)
    requires field.Length == (blocks + 7) / 8 && to <= blocks
    modifies field
    ensures View(field[..], blocks) == Marked(View(old(field[..]), blocks), from, to, on)
    ensures SpareZero(old(field[..]), blocks) ==> SpareZero(field[..], blocks)
  {
    var i := from;
    ghost var was := View(field[..], blocks);
    assert was == Marked(was, from, from, on);
    while i < to
      invariant from <= i
      invariant View(field[..], blocks) == Marked(was, from, i, on) && (i > from ==> i <= to)
      invariant SpareZero(old(field[..]), blocks) ==> SpareZero(field[..], blocks)
    {
      var _ := SetBitInternal(field, blocks, i, on);
      i := i + 1;
    }
    assert Marked(was, from, i, on) == Marked(was, from, to, on);
  }

  lemma MarkOneMore(v: Bitmap, from: int, i: nat, on: bool)
    requires from <= i
    ensures Marked(v, from, i + 1, on) == if i < |v| then Marked(v, from, i, on)[i := on] else Marked(v, from, i, on)
  {
  }

  lemma MarkTwice(v: Bitmap, from: int, i: nat, on: bool)
    requires from <= i
    ensures Marked(Marked(v, from, i, on), i, i + 1, on) == Marked(v, from, i + 1, on)
  {
  }

  lemma MarkNone(v: Bitmap, from: int, to: int, on: bool)
    requires to <= from
    ensures Marked(v, from, to, on) == v
  {
  }

  lemma MarkClip(v: Bitmap, from: int, to: int, on: bool)
    ensures Marked(v, from, if to < |v| then to else |v|, on) == Marked(v, from, to, on)
  {
  }

  /** A new array with the same bytes. */
  method Duplicate(a: array<Byte>) returns (r: array<Byte>)
    ensures fresh(r) && r[..] == a[..]
  {
    r := new Byte[a.Length](_ => 0);
    CopyBytes(a[..], r);
  }

  method CopyBytes(bytes: seq<Byte>, a: array<Byte>)
    requires |bytes| == a.Length
    modifies a
    ensures a[..] == bytes
  {
    for i := 0 to a.Length
      invariant a[..i] == bytes[..i]
    {
      a[i] := bytes[i];
    }
  }

  method ClearBytes(a: array<Byte>)
    modifies a
    ensures forall i :: 0 <= i < 8 * a.Length ==> !Test(a[..], i)
  {
    for i := 0 to a.Length
      invariant forall k :: 0 <= k < i ==> a[k] == 0
    {
      a[i] := 0;
    }
  }

  lemma SpareKept(a: seq<Byte>, blocks: nat, index: nat, on: bool)
    requires index < blocks <= 8 * |a|
    ensures SpareZero(a, blocks) ==> SpareZero(a[index / 8 := SetByte(a[index / 8], index % 8, on)], blocks)
  {
    var r := a[index / 8 := SetByte(a[index / 8], index % 8, on)];
    ViewSet(a, 8 * |a|, index, on);
    forall i | blocks <= i < 8 * |a|
      ensures Test(r, i) == Test(a, i)
    {
      assert View(r, 8 * |a|)[i] == View(a, 8 * |a|)[i];
    }
  }

  /** The number of blocks of length `d` that hold `n` bytes. */
  function CeilDiv(n: int, d: int): (q: nat)
    requires n > 0 && d > 0
    ensures q == (n + d - 1) / d
  {
    DivNonNegative(n + d - 1, d);
    (n + d - 1) / d
  }
}
