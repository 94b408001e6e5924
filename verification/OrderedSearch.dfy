/** The in-order and the geometric piece selection of `src/BitfieldMan.cc`, over bitmaps as
    in `BlockSearch`. */
module OrderedSearch {
  import opened BlockSearch
  import opened Integers
  import opened Sequences
  import opened Wrappers

  // ---------- in order ----------

  /** The first index of a maximal free run. */
  predicate RunStart(b: Bitmap, s: int) {
    0 < s < |b| && !b[s] && b[s - 1]
  }

  /** The bytes from the beginning of block `s` to the end of block `j`, counting every block
      in full as the search does. */
  function Span(s: int, j: int, blockLength: int): int {
    (j - s + 1) * blockLength
  }

  /** The first index at or after `j` with which the part of the run from `s` is at least
      `minSplitSize` bytes long, if it comes before the end of the run. */
  function FirstLong(b: Bitmap, s: nat, j: nat, blockLength: int, minSplitSize: int): Option<nat>
    requires s <= j <= |b|
    decreases |b| - j
  {
    if j == |b| || b[j] then None
    else if Span(s, j, blockLength) >= minSplitSize then Some(j)
    else FirstLong(b, s, j + 1, blockLength, minSplitSize)
  }

  /** What the run starting at `s` offers: its first block if it follows a block that is not
      in use, otherwise the block at which it becomes long enough. */
  function Offer(b: Bitmap, use: Bitmap, s: int, blockLength: int, minSplitSize: int): Option<nat>
    requires |use| == |b| && RunStart(b, s)
  {
    if !use[s - 1] then Some(s) else FirstLong(b, s, s, blockLength, minSplitSize)
  }

  /** A run behind a block in use offers a block exactly when it is at least `minSplitSize`
      bytes long; the block offered is the first at which that length is reached. */
  lemma {:induction false} FirstLongExactly(b: Bitmap, s: nat, j: nat, blockLength: int, minSplitSize: int)
    requires s <= j < |b| && blockLength >= 0 && !b[j]
    requires forall x :: s <= x < j ==> Span(s, x, blockLength) < minSplitSize
    ensures var o := FirstLong(b, s, j, blockLength, minSplitSize);
            && (o.Some? <==> (RunEnd(b, j) - s) * blockLength >= minSplitSize)
            && (o.Some? ==>
                  && j <= o.value < RunEnd(b, j)
                  && Span(s, o.value, blockLength) >= minSplitSize
                  && forall x :: s <= x < o.value ==> Span(s, x, blockLength) < minSplitSize)
    decreases |b| - j
  {
    var e := RunEnd(b, j);
    if Span(s, j, blockLength) >= minSplitSize {
    } else if j + 1 < |b| && !b[j + 1] {
      FirstLongExactly(b, s, j + 1, blockLength, minSplitSize);
    } else {
      assert e == j + 1;
    }
  }

  /** No run starting in the open interval offers a block. */
  predicate NoOffer(b: Bitmap, use: Bitmap, from: int, to: int, blockLength: int, minSplitSize: int)
    requires |use| == |b|
  {
    forall s :: from < s < to && RunStart(b, s) ==> Offer(b, use, s, blockLength, minSplitSize) == None
  }

  /** The first run beginning in (from, to) that offers something offers this index. */
  predicate FirstOffer(b: Bitmap, use: Bitmap, from: int, to: int, blockLength: int, minSplitSize: int, index: nat)
    requires |use| == |b| && 0 <= from && to <= |b|
  {
    exists s :: from < s < to && RunStart(b, s)
                && Offer(b, use, s, blockLength, minSplitSize) == Some(index)
                && NoOffer(b, use, from, s, blockLength, minSplitSize)
  }

  /** A run behind a block in use that is too short to be split. */
  predicate TooShort(b: Bitmap, use: Bitmap, s: nat, blockLength: int, minSplitSize: int)
    requires |use| == |b| && 0 < s < |b|
  {
    use[s - 1] && (RunEnd(b, s) - s) * blockLength < minSplitSize
  }

  /** In the run from `s` block `i` should be taken: the first one if the run follows a block that
      is not in use, and else the one that completes the smallest part worth splitting off. */
  predicate Taken(b: Bitmap, use: Bitmap, s: nat, i: nat, blockLength: int, minSplitSize: int)
    requires |use| == |b| && 0 < s < |b|
  {
    && s <= i < RunEnd(b, s)
    && if !use[s - 1] then i == s
       else (i - s + 1) * blockLength >= minSplitSize && (i > s ==> (i - s) * blockLength < minSplitSize)
  }

  lemma OfferMeans(b: Bitmap, use: Bitmap, s: nat, blockLength: int, minSplitSize: int)
    requires |use| == |b| && RunStart(b, s) && blockLength >= 0
    ensures var o := Offer(b, use, s, blockLength, minSplitSize);
      && (o == None <==> TooShort(b, use, s, blockLength, minSplitSize))
      && (o.Some? ==> Taken(b, use, s, o.value, blockLength, minSplitSize))
  {
    FirstLongExactly(b, s, s, blockLength, minSplitSize);
    var o := FirstLong(b, s, s, blockLength, minSplitSize);
    if o.Some? && o.value > s {
      assert Span(s, o.value - 1, blockLength) < minSplitSize;
    }
  }

  /** What the search returns behind a start block that is not free. */
  lemma FirstOfferMeans(b: Bitmap, use: Bitmap, from: nat, to: nat, blockLength: int, minSplitSize: int, index: nat)
    requires |use| == |b| && to <= |b| && blockLength >= 0
    requires FirstOffer(b, use, from, to, blockLength, minSplitSize, index)
    ensures exists s: nat ::
      && from < s < to && RunStart(b, s) && Taken(b, use, s, index, blockLength, minSplitSize)
      && forall t: nat :: from < t < s && RunStart(b, t) ==> TooShort(b, use, t, blockLength, minSplitSize)
  {
    var s :| from < s < to && RunStart(b, s) && Offer(b, use, s, blockLength, minSplitSize) == Some(index)
             && NoOffer(b, use, from, s, blockLength, minSplitSize);
    OfferMeans(b, use, s, blockLength, minSplitSize);
    NoOfferMeans(b, use, from, s, blockLength, minSplitSize);
  }

  lemma NoOfferMeans(b: Bitmap, use: Bitmap, from: nat, to: nat, blockLength: int, minSplitSize: int)
    requires |use| == |b| && to <= |b| && blockLength >= 0
    requires NoOffer(b, use, from, to, blockLength, minSplitSize)
    ensures forall t: nat :: from < t < to && RunStart(b, t) ==> TooShort(b, use, t, blockLength, minSplitSize)
  {
    forall t: nat | from < t < to && RunStart(b, t)
      ensures TooShort(b, use, t, blockLength, minSplitSize)
    {
      OfferMeans(b, use, t, blockLength, minSplitSize);
    }
  }

  /** The in-order search returns the first block if it is free, and otherwise what the first
      run in (startIndex, lastIndex) that offers something offers; it fails exactly when
      there is no such run. */
  method GetInorderMissingUnusedIndex(startIndex: nat, lastIndex: nat, minSplitSize: int, b: Bitmap, use: Bitmap,
                                      blockLength: int)
    returns (found: bool, index: nat)
    requires Combined(b, use) && startIndex < |b| && lastIndex <= |b|
    ensures found ==> index < |b| && !b[index]
    ensures !b[startIndex] ==> found && index == startIndex
    ensures b[startIndex] && !found ==> NoOffer(b, use, startIndex, lastIndex, blockLength, minSplitSize)
    ensures b[startIndex] && found ==> FirstOffer(b, use, startIndex, lastIndex, blockLength, minSplitSize, index)
    ensures b[startIndex] && found && blockLength >= 0 ==>
      exists s: nat :: startIndex < s < lastIndex && RunStart(b, s)
        && Taken(b, use, s, index, blockLength, minSplitSize)
        && forall t: nat :: startIndex < t < s && RunStart(b, t) ==> TooShort(b, use, t, blockLength, minSplitSize)
    ensures b[startIndex] && !found && blockLength >= 0 ==>
      forall t: nat :: startIndex < t < lastIndex && RunStart(b, t) ==> TooShort(b, use, t, blockLength, minSplitSize)
  {
    found, index := SearchInorder(startIndex, lastIndex, minSplitSize, b, use, blockLength);
    if b[startIndex] && blockLength >= 0 {
      if found {
        FirstOfferMeans(b, use, startIndex, lastIndex, blockLength, minSplitSize, index);
      } else {
        NoOfferMeans(b, use, startIndex, lastIndex, blockLength, minSplitSize);
      }
    }
  }

  method SearchInorder(startIndex: nat, lastIndex: nat, minSplitSize: int, b: Bitmap, use: Bitmap, blockLength: int)
    returns (found: bool, index: nat)
    requires Combined(b, use) && startIndex < |b| && lastIndex <= |b|
    ensures found ==> index < |b| && !b[index]
    ensures !b[startIndex] ==> found && index == startIndex
    ensures b[startIndex] && !found ==> NoOffer(b, use, startIndex, lastIndex, blockLength, minSplitSize)
    ensures b[startIndex] && found ==> FirstOffer(b, use, startIndex, lastIndex, blockLength, minSplitSize, index)
  {
    if !b[startIndex] && !use[startIndex] {
      return true, startIndex;
    }
    var i := startIndex + 1;
    while i < lastIndex
      invariant startIndex < i && (i <= |b| ==> b[i - 1])
      invariant NoOffer(b, use, startIndex, i, blockLength, minSplitSize)
      decreases lastIndex - i
    {
      if !b[i] && !use[i] {
        assert RunStart(b, i);
        if !use[i - 1] && b[i - 1] {
          return true, i;
        }
        var j := i;
        while j < |b|
          invariant i <= j <= |b|
          invariant forall x :: i <= x < j ==> !b[x]
          invariant FirstLong(b, i, j, blockLength, minSplitSize) == FirstLong(b, i, i, blockLength, minSplitSize)
        {
          if b[j] || use[j] {
            break;
          }
          if (j - i + 1) * blockLength >= minSplitSize {
            return true, j;
          }
          j := j + 1;
        }
        assert forall s :: i < s <= j && RunStart(b, s) ==> s == i;
        i := j + 1;
      } else {
        i := i + 1;
      }
    }
    return false, 0;
  }

  /** When the start block is not free, the search succeeds if and only if some run starting
      in (startIndex, lastIndex) follows a block not in use or is at least `minSplitSize`
      bytes long. */
  lemma InorderSucceedsExactly(b: Bitmap, use: Bitmap, startIndex: nat, lastIndex: nat, blockLength: int,
                               minSplitSize: int)
    requires Combined(b, use) && startIndex < |b| && lastIndex <= |b| && blockLength >= 0
    ensures !NoOffer(b, use, startIndex, lastIndex, blockLength, minSplitSize) <==>
            exists s :: startIndex < s < lastIndex && RunStart(b, s)
                        && (!use[s - 1] || (RunEnd(b, s) - s) * blockLength >= minSplitSize)
  {
    forall s | startIndex < s < lastIndex && RunStart(b, s)
      ensures Offer(b, use, s, blockLength, minSplitSize).Some?
         <==> !use[s - 1] || (RunEnd(b, s) - s) * blockLength >= minSplitSize
    {
      if use[s - 1] {
        FirstLongExactly(b, s, s, blockLength, minSplitSize);
      }
    }
  }

  // ---------- geometric ----------

  function Power(base: real, n: nat): (p: real)
    requires base > 1.0
    ensures p >= 1.0
  {
    if n == 0 then 1.0 else Power(base, n - 1) * base
  }

  /** Where window `k` begins, counted from the offset: window 0 is the single block at the
      offset, window `k` spans the powers `k - 1` to `k` of the base. */
  function WindowStart(base: real, k: nat): (s: real)
    requires base > 1.0
    ensures s >= 0.0
  {
    if k == 0 then 0.0 else Power(base, k - 1)
  }

  /** The block a window selects: its first block that is free, unless one in use comes first. */
  function WindowPick(b: Bitmap, use: Bitmap, i: int, eoi: int): Option<nat>
    requires |use| == |b| && 0 <= i && eoi <= |b|
    decreases eoi - i
  {
    if i >= eoi || use[i] then None
    else if !b[i] then Some(i)
    else WindowPick(b, use, i + 1, eoi)
  }

  function Pick(b: Bitmap, use: Bitmap, base: real, offset: nat, k: nat): Option<nat>
    requires |use| == |b| && base > 1.0
  {
    WindowPick(b, use, WindowStart(base, k).Floor + offset, Min(|b|, Power(base, k).Floor + offset))
  }

  /** Windows outgrow any bound: Bernoulli's inequality. */
  lemma {:induction false} PowerGrows(base: real, e: real, n: nat)
    requires e > 0.0 && base == 1.0 + e
    ensures Power(base, n) >= 1.0 + n as real * e
  {
    if n > 0 {
      PowerGrows(base, e, n - 1);
      GrowsByOne(Power(base, n - 1), e, (n - 1) as real);
    }
  }

  lemma GrowsByOne(p: real, e: real, m: real)
    requires e > 0.0 && p >= 1.0 && p >= 1.0 + m * e
    ensures p * (1.0 + e) >= 1.0 + (m + 1.0) * e
  {
    assert p * (1.0 + e) == p + p * e;
    assert p * e >= 1.0 * e;
    assert (m + 1.0) * e == m * e + e;
  }

  lemma Quotient(a: real, e: real)
    requires a >= 0.0 && e > 0.0
    ensures a / e >= 0.0 && (a / e) * e == a
  {
    var q := a / e;
    assert q * e == a;
  }

  /** After this many windows the search has left the bitmap. */
  function Windows(base: real, blocks: nat): nat
    requires base > 1.0
  {
    Quotient(blocks as real, base - 1.0);
    (blocks as real / (base - 1.0)).Floor + 2
  }

  lemma WindowsEnd(base: real, blocks: nat, k: nat)
    requires base > 1.0 && k >= Windows(base, blocks)
    ensures WindowStart(base, k) >= blocks as real
  {
    var e := base - 1.0;
    var q := blocks as real / e;
    Quotient(blocks as real, e);
    PowerGrows(base, e, k - 1);
    var m := (k - 1) as real;
    assert m >= q;
    Outgrows(Power(base, k - 1), m, q, e, blocks as real);
  }

  lemma Outgrows(p: real, m: real, q: real, e: real, blocks: real)
    requires e > 0.0 && m >= q && q * e == blocks && p >= 1.0 + m * e
    ensures p >= blocks
  {
    assert (m - q) * e >= 0.0;
  }

  lemma StillInside(base: real, blocks: nat, k: nat)
    requires base > 1.0 && WindowStart(base, k) < blocks as real
    ensures k < Windows(base, blocks)
  {
    if k >= Windows(base, blocks) {
      WindowsEnd(base, blocks, k);
    }
  }

  lemma {:induction false} WindowPickIsFree(b: Bitmap, use: Bitmap, i: int, eoi: int)
    requires |use| == |b| && 0 <= i && eoi <= |b|
    ensures var o := WindowPick(b, use, i, eoi);
            o.Some? ==> i <= o.value < eoi && !b[o.value] && forall x :: i <= x < o.value ==> b[x] && !use[x]
    decreases eoi - i
  {
    if i < eoi && !use[i] && b[i] {
      WindowPickIsFree(b, use, i + 1, eoi);
    }
  }

  /** A window selects nothing exactly if each of its free blocks has one in use before it. */
  lemma {:induction false} WindowPickNone(b: Bitmap, use: Bitmap, i: int, eoi: int)
    requires Combined(b, use) && 0 <= i && eoi <= |b|
    ensures WindowPick(b, use, i, eoi) == None
       <==> forall x :: i <= x < eoi && !b[x] ==> exists y :: i <= y < x && use[y]
    decreases eoi - i
  {
    if i < eoi && !use[i] && b[i] {
      WindowPickNone(b, use, i + 1, eoi);
    }
  }

  /** The windows: the first one has length 1 and each other one begins where the one before it
      ends, and ends at `base` times that. */
  lemma WindowsGrow(base: real, k: nat)
    requires base > 1.0
    ensures WindowStart(base, 0) == 0.0 && Power(base, 0) == 1.0
    ensures WindowStart(base, k + 1) == Power(base, k) && Power(base, k + 1) == base * WindowStart(base, k + 1)
  {
  }

  lemma {:induction false} WindowsInOrder(base: real, j: nat, k: nat)
    requires base > 1.0 && j <= k
    ensures WindowStart(base, j) <= WindowStart(base, k)
    decreases k - j
  {
    if j < k {
      WindowsInOrder(base, j, k - 1);
      WindowGrows(base, k - 1);
    }
  }

  lemma WindowGrows(base: real, k: nat)
    requires base > 1.0
    ensures WindowStart(base, k) <= WindowStart(base, k + 1)
  {
    if k > 0 {
      Product(Power(base, k - 1), base);
    }
  }

  lemma Product(p: real, base: real)
    requires p >= 1.0 && base > 1.0
    ensures p * base >= p
  {
  }

  /** The windows leave no gap: every place is in one of them. */
  lemma {:induction false} WindowsCover(base: real, x: nat, m: nat) returns (k: nat)
    requires base > 1.0 && x < Power(base, m).Floor
    ensures k <= m && WindowStart(base, k).Floor <= x < Power(base, k).Floor
    decreases m
  {
    if m == 0 || x >= Power(base, m - 1).Floor {
      k := m;
    } else {
      k := WindowsCover(base, x, m - 1);
    }
  }

  /** When no window inside the bitmap selects anything, every free block at or behind the offset
      has a block in use before it, at or behind the offset. */
  lemma AllWindowsEmpty(b: Bitmap, use: Bitmap, base: real, offset: nat, window: nat, x: nat)
    requires Combined(b, use) && base > 1.0 && WindowStart(base, window) + offset as real >= |b| as real
    requires forall k :: 0 <= k < window ==> Pick(b, use, base, offset, k) == None
    requires offset <= x < |b| && !b[x]
    ensures exists y :: offset <= y < x && use[y]
  {
    var k := WindowOf(base, |b|, x - offset);
    NotPast(base, k, window, x - offset, |b| - offset);
    WindowPickNone(b, use, WindowStart(base, k).Floor + offset, Min(|b|, Power(base, k).Floor + offset));
    assert Pick(b, use, base, offset, k) == None;
    var y :| WindowStart(base, k).Floor + offset <= y < x && use[y];
  }

  lemma WindowOf(base: real, blocks: nat, x: nat) returns (k: nat)
    requires base > 1.0 && x < blocks
    ensures WindowStart(base, k).Floor <= x < Power(base, k).Floor
  {
    var m := Windows(base, blocks);
    WindowsEnd(base, blocks, m);
    WindowGrows(base, m);
    k := WindowsCover(base, x, m);
  }

  lemma NotPast(base: real, k: nat, window: nat, x: int, n: int)
    requires base > 1.0 && WindowStart(base, window) >= n as real && WindowStart(base, k).Floor <= x < n
    ensures k < window
  {
    if k >= window {
      WindowsInOrder(base, window, k);
    }
  }

  /** The scan of one window; the number of blocks stands for nothing selected. */
  method ScanWindow(b: Bitmap, use: Bitmap, from: nat, eoi: nat) returns (index: nat)
    requires |use| == |b| && eoi <= |b|
    ensures WindowPick(b, use, from, eoi) == if index < |b| then Some(index) else None
    ensures index < |b| ==> !b[index]
  {
    index := |b|;
    var i := from;
    while i < eoi
      invariant from <= i && index == |b|
      invariant WindowPick(b, use, i, eoi) == WindowPick(b, use, from, eoi)
      decreases eoi - i
    {
      if use[i] {
        break;
      } else if !b[i] {
        index := i;
        break;
      }
      i := i + 1;
    }
  }

  /** The geometric search selects what the first window that selects something selects, and
      falls back to the plain scan when no window in the bitmap does. For every base above 1
      it ends, and what it selects is free. */
  method GetGeomMissingUnusedIndex(minSplitSize: int, b: Bitmap, use: Bitmap, blockLength: int, base: real,
                                   offsetIndex: nat)
    returns (found: bool, index: nat, ghost window: nat)
    requires |use| == |b| && base > 1.0
    ensures found ==> index < |b| && !b[index]
    ensures forall k :: 0 <= k < window ==> Pick(b, use, base, offsetIndex, k) == None
    ensures var inside := WindowStart(base, window) + offsetIndex as real < |b| as real;
            if inside then found && Pick(b, use, base, offsetIndex, window) == Some(index)
            else
              && (found <==> PlainFinds(b, use, blockLength, minSplitSize))
              && (found ==> index in HintedPicks(b, use, blockLength, minSplitSize, 0))
    ensures var inside := WindowStart(base, window) + offsetIndex as real < |b| as real;
            if inside then
              && WindowStart(base, window).Floor + offsetIndex <= index < Power(base, window).Floor + offsetIndex
              && forall x :: WindowStart(base, window).Floor + offsetIndex <= x < index ==> b[x] && !use[x]
            else
              && (found ==> index in Selections(b, use, blockLength, minSplitSize, 0))
              && (Combined(b, use) ==>
                    forall x :: offsetIndex <= x < |b| && !b[x] ==> exists y :: offsetIndex <= y < x && use[y])
  {
    found, index, window := SearchWindows(minSplitSize, b, use, blockLength, base, offsetIndex);
    if WindowStart(base, window) + offsetIndex as real < |b| as real {
      WindowPickIsFree(b, use, WindowStart(base, window).Floor + offsetIndex,
                       Min(|b|, Power(base, window).Floor + offsetIndex));
    } else if Combined(b, use) {
      forall x | offsetIndex <= x < |b| && !b[x]
        ensures exists y :: offsetIndex <= y < x && use[y]
      {
        AllWindowsEmpty(b, use, base, offsetIndex, window, x);
      }
    }
  }

  method SearchWindows(minSplitSize: int, b: Bitmap, use: Bitmap, blockLength: int, base: real, offsetIndex: nat)
    returns (found: bool, index: nat, ghost window: nat)
    requires |use| == |b| && base > 1.0
    ensures found ==> index < |b| && !b[index]
    ensures forall k :: 0 <= k < window ==> Pick(b, use, base, offsetIndex, k) == None
    ensures var inside := WindowStart(base, window) + offsetIndex as real < |b| as real;
            if inside then found && Pick(b, use, base, offsetIndex, window) == Some(index)
            else
              (found, index) in Answers(b, use, blockLength, minSplitSize, 0)
  {
    var start, end := 0.0, 1.0;
    window := 0;
    while start + offsetIndex as real < |b| as real
      invariant start == WindowStart(base, window) && end == Power(base, window)
      invariant forall k :: 0 <= k < window ==> Pick(b, use, base, offsetIndex, k) == None
      invariant window <= Windows(base, |b|)
      decreases Windows(base, |b|) - window
    {
      StillInside(base, |b|, window);
      index := ScanWindow(b, use, start.Floor + offsetIndex, Min(|b|, end.Floor + offsetIndex));
      if index < |b| {
        return true, index, window;
      }
      start := end;
      end := end * base;
      window := window + 1;
    }
    found, index := GetSparseMissingUnusedIndex(minSplitSize, b, use, blockLength, 0);
  }

}
