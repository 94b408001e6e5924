/** The piece-selection searches of `src/BitfieldMan.cc`, over bitmaps as `bitfield::test`
    reads them. `b` is the combined bitmap of blocks that cannot be selected (retrieved, in
    use, ignored or filtered out) and `use` the bitmap of blocks in use. */
module BlockSearch {
  import opened Sequences

  // ---------- free runs ----------

  /** The first free index at or after `i`, or the number of blocks. */
  function NextFree(b: Bitmap, i: nat): (r: nat)
    requires i <= |b|
    ensures i <= r <= |b|
    ensures forall x :: i <= x < r ==> b[x]
    ensures r < |b| ==> !b[r]
    decreases |b| - i
  {
    if i < |b| && b[i] then NextFree(b, i + 1) else i
  }

  /** The end of the free run that `i` is in. */
  function RunEnd(b: Bitmap, i: nat): (r: nat)
    requires i <= |b|
    ensures i <= r <= |b|
    ensures forall x :: i <= x < r ==> !b[x]
    ensures r < |b| ==> b[r]
    decreases |b| - i
  {
    if i < |b| && !b[i] then RunEnd(b, i + 1) else i
  }

  method GetStartIndex(index: nat, b: Bitmap) returns (r: nat)
    ensures r == if index <= |b| then NextFree(b, index) else |b|
  {
    var i := index;
    while i < |b| && b[i]
      invariant index <= |b| ==> i <= |b| && NextFree(b, i) == NextFree(b, index)
    {
      i := i + 1;
    }
    return if |b| <= i then |b| else i;
  }

  method GetEndIndex(index: nat, b: Bitmap) returns (r: nat)
    requires index <= |b|
    ensures r == RunEnd(b, index)
  {
    r := index;
    while r < |b| && !b[r]
      invariant index <= r <= |b| && RunEnd(b, r) == RunEnd(b, index)
    {
      r := r + 1;
    }
  }

  // ---------- the sparse search ----------

  datatype Range = Range(startIndex: nat, endIndex: nat) {
    function Size(): int { endIndex - startIndex }

    function MidIndex(): int { (endIndex - startIndex) / 2 + startIndex }

    predicate Less(range: Range) { Size() < range.Size() }

    predicate Same(range: Range) { Size() == range.Size() }
  }

  /** The range considered for the run seen from `s`: halved if the block before it is in
      use, so that a new download starts in the middle of what another one is heading for. */
  function RangeAt(b: Bitmap, use: Bitmap, s: nat): (r: Range)
    requires |use| == |b| && s < |b| && !b[s]
    ensures s <= r.startIndex < r.endIndex <= |b| && !b[r.startIndex]
  {
    var e := RunEnd(b, s);
    if s > 0 && use[s - 1] then Range((e - s) / 2 + s, e) else Range(s, e)
  }

  /** Directly behind data that has been retrieved, or at the very start. */
  predicate Preferred(b: Bitmap, use: Bitmap, r: Range)
    requires |use| == |b| && r.startIndex <= |b|
  {
    r.startIndex == 0 || (b[r.startIndex - 1] && !use[r.startIndex - 1])
  }

  predicate LongEnough(r: Range, blockLength: int, minSplitSize: int) {
    r.Size() * blockLength >= minSplitSize
  }

  /** `s` is where one pass over `[from, limit)` meets a free run. The last run may begin
      behind `limit` if nothing but blocked indexes lie between. */
  predicate Met(b: Bitmap, from: nat, limit: nat, s: nat) {
    && from < limit && from <= s < |b| && !b[s]
    && (s == from || b[s - 1])
    && forall x :: limit - 1 <= x < s ==> b[x]
  }

  /** Runs are ranked by the length of their range; among equally long ones those behind
      retrieved data come first. */
  function Rank(b: Bitmap, use: Bitmap, s: nat): (n: int)
    requires |use| == |b| && s < |b| && !b[s]
    ensures n > 0
  {
    var r := RangeAt(b, use, s);
    2 * r.Size() + if Preferred(b, use, r) then 1 else 0
  }

  /** The order in which runs are chosen: by rank, then by position. */
  predicate NotWorse(b: Bitmap, use: Bitmap, s: nat, t: nat)
    requires |use| == |b| && s < |b| && !b[s] && t < |b| && !b[t]
  {
    Rank(b, use, t) < Rank(b, use, s) || (Rank(b, use, t) == Rank(b, use, s) && s <= t)
  }

  /** The runs one pass meets before index `i`. */
  function MetBefore(b: Bitmap, from: nat, limit: nat, i: nat): set<nat> {
    set t: nat | t < |b| && Met(b, from, limit, t) && t < i
  }

  /** The best of the runs in `runs`; there is at most one. */
  function BestOf(b: Bitmap, use: Bitmap, runs: set<nat>): set<nat>
    requires |use| == |b| && forall t :: t in runs ==> t < |b| && !b[t]
  {
    set s | s in runs && forall t :: t in runs ==> NotWorse(b, use, s, t)
  }

  /** The best run one pass meets. */
  function Best(b: Bitmap, use: Bitmap, from: nat, limit: nat): set<nat>
    requires |use| == |b|
  {
    BestOf(b, use, MetBefore(b, from, limit, |b|))
  }

  predicate Acceptable(b: Bitmap, use: Bitmap, s: nat, blockLength: int, minSplitSize: int)
    requires |use| == |b| && s < |b| && !b[s]
  {
    var r := RangeAt(b, use, s);
    Preferred(b, use, r) || LongEnough(r, blockLength, minSplitSize)
  }

  /** The run one pass selects, if any: its best run, provided that is acceptable. */
  function Picks(b: Bitmap, use: Bitmap, from: nat, limit: nat, blockLength: int, minSplitSize: int): set<nat>
    requires |use| == |b|
  {
    set s | s in Best(b, use, from, limit) && Acceptable(b, use, s, blockLength, minSplitSize)
  }

  /** Where a pass stands: at its beginning or at the end of a run. */
  predicate AtRunEnd(b: Bitmap, from: nat, i: nat) {
    i == from || (from < i <= |b| && !b[i - 1] && (i < |b| ==> b[i]))
  }

  /** From a run end the pass meets exactly the next run, and nothing inside it. */
  lemma MeetsNext(b: Bitmap, from: nat, limit: nat, i: nat)
    requires AtRunEnd(b, from, i) && i < limit && i <= |b| && NextFree(b, i) < |b|
    ensures var s := NextFree(b, i);
            MetBefore(b, from, limit, RunEnd(b, s)) == MetBefore(b, from, limit, i) + {s}
  {
    var s := NextFree(b, i);
    assert Met(b, from, limit, s);
    forall t: nat | Met(b, from, limit, t) && i <= t < RunEnd(b, s)
      ensures t == s
    {
    }
  }

  /** A pass that stops at a run end has met every run it should. */
  lemma MeetsNoMore(b: Bitmap, from: nat, limit: nat, i: nat)
    requires AtRunEnd(b, from, i) && (i >= limit || i >= |b| || NextFree(b, i) == |b|)
    ensures MetBefore(b, from, limit, i) == MetBefore(b, from, limit, |b|)
  {
    forall t: nat | Met(b, from, limit, t)
      ensures t < i
    {
    }
  }

  /** The comparison the source makes between the best range so far and the current one. */
  predicate IsBetter(b: Bitmap, use: Bitmap, currentRange: Range, maxRange: Range)
    requires |use| == |b| && currentRange.startIndex <= |b| && maxRange.startIndex <= |b|
  {
    maxRange.Less(currentRange) ||
    (maxRange.Same(currentRange) && maxRange.startIndex > 0 && currentRange.startIndex > 0 &&
     (!b[maxRange.startIndex - 1] || use[maxRange.startIndex - 1]) &&
     b[currentRange.startIndex - 1] && !use[currentRange.startIndex - 1])
  }

  /** That comparison is the comparison of ranks. */
  lemma IsBetterByRank(b: Bitmap, use: Bitmap, s: nat, t: nat)
    requires |use| == |b| && t < s < |b| && !b[s] && !b[t]
    ensures IsBetter(b, use, RangeAt(b, use, s), RangeAt(b, use, t)) <==> Rank(b, use, s) > Rank(b, use, t)
  {
  }

  /** A run met later replaces the best one when its rank is higher. */
  lemma KeepsBest(b: Bitmap, use: Bitmap, runs: set<nat>, best: nat, s: nat)
    requires |use| == |b| && forall t :: t in runs ==> t < |b| && !b[t]
    requires best in BestOf(b, use, runs) && best < s < |b| && !b[s]
    ensures (if Rank(b, use, s) > Rank(b, use, best) then s else best) in BestOf(b, use, runs + {s})
  {
  }

  lemma WinnerIsBest(b: Bitmap, use: Bitmap, runs: set<nat>, best: nat, s: nat, maxRange: Range)
    requires |use| == |b| && s < |b| && !b[s] && maxRange.startIndex <= |b|
    requires forall t :: t in runs ==> t < s && !b[t]
    requires runs == {} ==> maxRange == Range(0, 0)
    requires runs != {} ==> best in BestOf(b, use, runs) && maxRange == RangeAt(b, use, best)
    ensures (if IsBetter(b, use, RangeAt(b, use, s), maxRange) then s else best) in BestOf(b, use, runs + {s})
  {
    if runs != {} {
      KeepsBest(b, use, runs, best, s);
      IsBetterByRank(b, use, s, best);
    }
  }

  method CurrentRange(b: Bitmap, use: Bitmap, start: nat) returns (currentRange: Range)
    requires |use| == |b| && start < |b| && !b[start]
    ensures currentRange == RangeAt(b, use, start)
  {
    var end := GetEndIndex(start, b);
    currentRange := Range(start, end);
    if currentRange.startIndex > 0 {
      if use[currentRange.startIndex - 1] {
        currentRange := Range(currentRange.MidIndex(), end);
      }
    }
  }

  /** One pass of the search: `best` is the run it settles on. */
  method ScanPass(b: Bitmap, use: Bitmap, from: nat, limit: nat) returns (maxRange: Range, ghost best: nat)
    requires |use| == |b|
    ensures maxRange.Size() >= 0 && maxRange.startIndex <= |b|
    ensures maxRange.Size() == 0 ==> MetBefore(b, from, limit, |b|) == {}
    ensures maxRange.Size() > 0 ==> best in Best(b, use, from, limit) && maxRange == RangeAt(b, use, best)
  {
    maxRange := Range(0, 0);
    best := 0;
    var nextIndex := from;
    ghost var runs := MetBefore(b, from, limit, from);
    while nextIndex < limit
      invariant from <= nextIndex && AtRunEnd(b, from, nextIndex)
      invariant runs == MetBefore(b, from, limit, nextIndex)
      invariant runs == {} <==> maxRange == Range(0, 0)
      invariant runs != {} ==> best in BestOf(b, use, runs) && maxRange == RangeAt(b, use, best)
      decreases |b| - nextIndex
    {
      var start := GetStartIndex(nextIndex, b);
      if start == |b| {
        break;
      }
      var currentRange := CurrentRange(b, use, start);
      MeetsNext(b, from, limit, nextIndex);
      WinnerIsBest(b, use, runs, best, start, maxRange);
      runs := runs + {start};
      if IsBetter(b, use, currentRange, maxRange) {
        maxRange := currentRange;
        best := start;
      }
      nextIndex := currentRange.endIndex;
    }
    MeetsNoMore(b, from, limit, nextIndex);
  }

  /** The bitmap of selectable blocks excludes the blocks in use. */
  ghost predicate Combined(b: Bitmap, use: Bitmap) {
    |use| == |b| && forall i :: 0 <= i < |b| ==> use[i] ==> b[i]
  }

  /** The search in two passes: from the hint to the end, then from 0 to the hint. Any hint
      is allowed, also one that has never been set. What is returned can be selected. */
  method GetSparseMissingUnusedIndex(minSplitSize: int, b: Bitmap, use: Bitmap, blockLength: int, startIndex: nat)
    returns (found: bool, index: nat)
    requires |use| == |b|
    ensures found ==> index < |b| && !b[index]
    ensures found == HintedFinds(b, use, blockLength, minSplitSize, startIndex)
    ensures found ==> index in HintedPicks(b, use, blockLength, minSplitSize, startIndex)
    ensures found ==> index in Selections(b, use, blockLength, minSplitSize, startIndex)
    ensures !found ==> Selections(b, use, blockLength, minSplitSize, startIndex) == iset{}
    ensures (found, index) in Answers(b, use, blockLength, minSplitSize, startIndex)
  {
    found, index := SearchTwice(minSplitSize, b, use, blockLength, startIndex);
    if found {
      FoundIsSelected(b, use, blockLength, minSplitSize, startIndex, index);
    } else {
      NothingSelected(b, use, blockLength, minSplitSize, startIndex);
    }
  }

  method SearchTwice(minSplitSize: int, b: Bitmap, use: Bitmap, blockLength: int, startIndex: nat)
    returns (found: bool, index: nat)
    requires |use| == |b|
    ensures found ==> index < |b| && !b[index]
    ensures found == HintedFinds(b, use, blockLength, minSplitSize, startIndex)
    ensures found ==> index in HintedPicks(b, use, blockLength, minSplitSize, startIndex)
  {
    for pass := 0 to 2
      invariant pass >= 1 ==> Picks(b, use, startIndex, |b|, blockLength, minSplitSize) == {}
      invariant pass >= 2 ==> Picks(b, use, 0, startIndex, blockLength, minSplitSize) == {}
    {
      var from := if pass == 0 then startIndex else 0;
      var limit := if pass == 0 then |b| else startIndex;
      found, index := SelectInPass(minSplitSize, b, use, blockLength, from, limit);
      if found {
        return;
      }
    }
    return false, 0;
  }

  method SelectInPass(minSplitSize: int, b: Bitmap, use: Bitmap, blockLength: int, from: nat, limit: nat)
    returns (found: bool, index: nat)
    requires |use| == |b|
    ensures found ==> index < |b| && !b[index]
    ensures found <==> Picks(b, use, from, limit, blockLength, minSplitSize) != {}
    ensures found ==> exists s :: s in Picks(b, use, from, limit, blockLength, minSplitSize)
                                  && index == RangeAt(b, use, s).startIndex
  {
    var maxRange, best := ScanPass(b, use, from, limit);
    if maxRange.Size() > 0 {
      OnlyPick(b, use, from, limit, blockLength, minSplitSize, best);
      if maxRange.startIndex == 0 {
        return true, 0;
      } else {
        if (!use[maxRange.startIndex - 1] && b[maxRange.startIndex - 1]) ||
           (maxRange.endIndex - maxRange.startIndex) * blockLength >= minSplitSize {
          return true, maxRange.startIndex;
        }
      }
    }
    return false, 0;
  }

  lemma BestIsUnique(b: Bitmap, use: Bitmap, runs: set<nat>, s: nat, t: nat)
    requires |use| == |b| && forall t :: t in runs ==> t < |b| && !b[t]
    requires s in BestOf(b, use, runs) && t in BestOf(b, use, runs)
    ensures s == t
  {
    assert NotWorse(b, use, s, t) && NotWorse(b, use, t, s);
  }

  lemma {:induction false} BestExists(b: Bitmap, use: Bitmap, runs: set<nat>) returns (s: nat)
    requires |use| == |b| && runs != {} && forall t :: t in runs ==> t < |b| && !b[t]
    ensures s in BestOf(b, use, runs)
    decreases |runs|
  {
    var x :| x in runs;
    var rest := runs - {x};
    if rest == {} {
      assert runs == {x};
      s := x;
    } else {
      var m := BestExists(b, use, rest);
      assert forall t :: t in runs ==> t == x || t in rest;
      s := if NotWorse(b, use, x, m) then x else m;
    }
  }

  /** Of any runs exactly one is the best. */
  lemma ExactlyOneBest(b: Bitmap, use: Bitmap, runs: set<nat>)
    requires |use| == |b| && runs != {} && forall t :: t in runs ==> t < |b| && !b[t]
    ensures |BestOf(b, use, runs)| == 1
  {
    var s := BestExists(b, use, runs);
    forall t | t in BestOf(b, use, runs)
      ensures t == s
    {
      BestIsUnique(b, use, runs, s, t);
    }
    assert BestOf(b, use, runs) == {s};
  }

  /** The best run is the only one a pass can pick. */
  lemma OnlyPick(b: Bitmap, use: Bitmap, from: nat, limit: nat, blockLength: int, minSplitSize: int, s: nat)
    requires |use| == |b| && s in Best(b, use, from, limit)
    ensures Picks(b, use, from, limit, blockLength, minSplitSize)
         == if Acceptable(b, use, s, blockLength, minSplitSize) then {s} else {}
  {
    forall t | t in Best(b, use, from, limit)
      ensures t == s
    {
      BestIsUnique(b, use, MetBefore(b, from, limit, |b|), s, t);
    }
  }

  // ---------- what is selected, in terms of the bitmaps ----------

  /** The range of the run seen from `s` is considered from `i` on: from its middle, rounded down,
      if the block before it is in use, and else from its beginning. */
  predicate Cut(b: Bitmap, use: Bitmap, s: nat, i: nat)
    requires |use| == |b| && s < |b|
  {
    && s <= i
    && if s > 0 && use[s - 1] then 0 <= (RunEnd(b, s) - i) - (i - s) <= 1 else i == s
  }

  /** The block before is there, and not merely in use; or there is no block before. */
  predicate BehindRetrieved(b: Bitmap, use: Bitmap, i: nat)
    requires |use| == |b| && i <= |b|
  {
    i > 0 ==> b[i - 1] && !use[i - 1]
  }

  /** A range of `m` blocks from `i` on, in the run from `s`, is preferred to one of `n` blocks
      from `j` on, in the run from `t`: the longer one, or else the one behind retrieved data, or
      else the one further ahead. */
  predicate PreferredTo(b: Bitmap, use: Bitmap, s: nat, i: nat, m: int, t: nat, j: nat, n: int)
    requires |use| == |b| && i <= |b| && j <= |b|
  {
    || m > n
    || (m == n && BehindRetrieved(b, use, i) && !BehindRetrieved(b, use, j))
    || (m == n && BehindRetrieved(b, use, i) == BehindRetrieved(b, use, j) && s <= t)
  }

  /** A pass over `[from, limit)` should select block `i` of the run from `s`: its range is
      preferred to those of all runs met, and it is behind retrieved data or long enough. */
  ghost predicate Selected(b: Bitmap, use: Bitmap, from: nat, limit: nat, blockLength: int, minSplitSize: int,
                           s: nat, i: nat)
    requires |use| == |b|
  {
    && Met(b, from, limit, s) && Cut(b, use, s, i) && i < |b|
    && (forall t: nat, j: nat :: Met(b, from, limit, t) && Cut(b, use, t, j) && j < |b| ==>
          PreferredTo(b, use, s, i, RunEnd(b, s) - i, t, j, RunEnd(b, t) - j))
    && (BehindRetrieved(b, use, i) || (RunEnd(b, s) - i) * blockLength >= minSplitSize)
  }

  /** The search in two passes should select block `i` of the run from `s`. */
  ghost predicate SelectedFrom(b: Bitmap, use: Bitmap, blockLength: int, minSplitSize: int, hint: nat, s: nat, i: nat)
    requires |use| == |b|
  {
    || Selected(b, use, hint, |b|, blockLength, minSplitSize, s, i)
    || (&& Selected(b, use, 0, hint, blockLength, minSplitSize, s, i)
        && forall t: nat, j: nat :: !Selected(b, use, hint, |b|, blockLength, minSplitSize, t, j))
  }

  /** The blocks it should select; there is at most one. */
  ghost function Selections(b: Bitmap, use: Bitmap, blockLength: int, minSplitSize: int, hint: nat): iset<nat>
    requires |use| == |b|
  {
    iset i: nat | IsSelected(b, use, blockLength, minSplitSize, hint, i)
  }

  ghost predicate IsSelected(b: Bitmap, use: Bitmap, blockLength: int, minSplitSize: int, hint: nat, i: nat)
    requires |use| == |b|
  {
    exists s: nat :: SelectedFrom(b, use, blockLength, minSplitSize, hint, s, i)
  }

  /** What the search may answer: it finds something exactly when one of the passes picks a run,
      and then it is the block that should be selected. */
  ghost function Answers(b: Bitmap, use: Bitmap, blockLength: int, minSplitSize: int, hint: nat): iset<(bool, nat)>
    requires |use| == |b|
  {
    iset a: (bool, nat) |
      && a.0 == HintedFinds(b, use, blockLength, minSplitSize, hint)
      && (a.0 ==> a.1 in HintedPicks(b, use, blockLength, minSplitSize, hint))
      && (a.0 ==> a.1 in Selections(b, use, blockLength, minSplitSize, hint))
  }

  lemma CutIsStart(b: Bitmap, use: Bitmap, s: nat, i: nat)
    requires |use| == |b| && s < |b| && !b[s]
    ensures Cut(b, use, s, i) <==> i == RangeAt(b, use, s).startIndex
    ensures RangeAt(b, use, s).endIndex == RunEnd(b, s)
  {
  }

  lemma PreferredByRank(b: Bitmap, use: Bitmap, s: nat, t: nat)
    requires |use| == |b| && s < |b| && t < |b| && !b[s] && !b[t]
    ensures var p, q := RangeAt(b, use, s), RangeAt(b, use, t);
      NotWorse(b, use, s, t)
      <==> PreferredTo(b, use, s, p.startIndex, p.endIndex - p.startIndex, t, q.startIndex, q.endIndex - q.startIndex)
  {
  }

  /** A pass picks what it should select. */
  lemma PicksMean(b: Bitmap, use: Bitmap, from: nat, limit: nat, blockLength: int, minSplitSize: int, s: nat, i: nat)
    requires |use| == |b|
    ensures s in Picks(b, use, from, limit, blockLength, minSplitSize) && i == RangeAt(b, use, s).startIndex
       <==> Selected(b, use, from, limit, blockLength, minSplitSize, s, i)
  {
    if Met(b, from, limit, s) && i == RangeAt(b, use, s).startIndex {
      CutIsStart(b, use, s, i);
      forall t: nat | Met(b, from, limit, t)
        ensures Cut(b, use, t, RangeAt(b, use, t).startIndex)
      {
        CutIsStart(b, use, t, RangeAt(b, use, t).startIndex);
      }
      forall t: nat, j: nat | Met(b, from, limit, t) && Cut(b, use, t, j)
        ensures NotWorse(b, use, s, t)
           <==> PreferredTo(b, use, s, i, RunEnd(b, s) - i, t, j, RunEnd(b, t) - j)
      {
        CutIsStart(b, use, t, j);
        PreferredByRank(b, use, s, t);
      }
      assert s in MetBefore(b, from, limit, |b|);
    } else if Met(b, from, limit, s) {
      CutIsStart(b, use, s, i);
    }
  }

  lemma PassMeans(b: Bitmap, use: Bitmap, from: nat, limit: nat, blockLength: int, minSplitSize: int)
    requires |use| == |b|
    ensures Picks(b, use, from, limit, blockLength, minSplitSize) == {}
       <==> forall s: nat, i: nat :: !Selected(b, use, from, limit, blockLength, minSplitSize, s, i)
  {
    var picks := Picks(b, use, from, limit, blockLength, minSplitSize);
    forall s: nat, i: nat | Selected(b, use, from, limit, blockLength, minSplitSize, s, i)
      ensures s in picks
    {
      PicksMean(b, use, from, limit, blockLength, minSplitSize, s, i);
    }
    if picks != {} {
      var s :| s in picks;
      PicksMean(b, use, from, limit, blockLength, minSplitSize, s, RangeAt(b, use, s).startIndex);
    }
  }

  /** What the search in two passes finds is what it should select. */
  lemma FoundIsSelected(b: Bitmap, use: Bitmap, blockLength: int, minSplitSize: int, hint: nat, i: nat)
    requires |use| == |b| && i in HintedPicks(b, use, blockLength, minSplitSize, hint)
    ensures i in Selections(b, use, blockLength, minSplitSize, hint)
  {
    var first := Picks(b, use, hint, |b|, blockLength, minSplitSize);
    PassMeans(b, use, hint, |b|, blockLength, minSplitSize);
    if first != {} {
      var s :| s in first && i == RangeAt(b, use, s).startIndex;
      PicksMean(b, use, hint, |b|, blockLength, minSplitSize, s, i);
      assert SelectedFrom(b, use, blockLength, minSplitSize, hint, s, i);
    } else {
      var s :| s in Picks(b, use, 0, hint, blockLength, minSplitSize) && i == RangeAt(b, use, s).startIndex;
      PicksMean(b, use, 0, hint, blockLength, minSplitSize, s, i);
      assert SelectedFrom(b, use, blockLength, minSplitSize, hint, s, i);
    }
  }

  /** If it finds nothing, neither pass should select anything. */
  lemma NothingSelected(b: Bitmap, use: Bitmap, blockLength: int, minSplitSize: int, hint: nat)
    requires |use| == |b| && !HintedFinds(b, use, blockLength, minSplitSize, hint)
    ensures Selections(b, use, blockLength, minSplitSize, hint) == iset{}
  {
    PassMeans(b, use, hint, |b|, blockLength, minSplitSize);
    PassMeans(b, use, 0, hint, blockLength, minSplitSize);
  }

  // ---------- the hint against the plain scan ----------

  /** The plain scan of `[0, blocks)` finds something. */
  predicate PlainFinds(b: Bitmap, use: Bitmap, blockLength: int, minSplitSize: int)
    requires |use| == |b|
  {
    Picks(b, use, 0, |b|, blockLength, minSplitSize) != {}
  }

  /** The scan in two passes from the hint finds something. */
  predicate HintedFinds(b: Bitmap, use: Bitmap, blockLength: int, minSplitSize: int, hint: nat)
    requires |use| == |b|
  {
    || Picks(b, use, hint, |b|, blockLength, minSplitSize) != {}
    || Picks(b, use, 0, hint, blockLength, minSplitSize) != {}
  }

  /** What it finds: the index in the run that the first pass selects, or else the second. */
  function HintedPicks(b: Bitmap, use: Bitmap, blockLength: int, minSplitSize: int, hint: nat): set<nat>
    requires |use| == |b|
  {
    var first := Picks(b, use, hint, |b|, blockLength, minSplitSize);
    var picks := if first != {} then first else Picks(b, use, 0, hint, blockLength, minSplitSize);
    set s | s in picks :: RangeAt(b, use, s).startIndex
  }

  /** The hint lies behind the beginning of a free run. */
  predicate Inside(b: Bitmap, hint: nat) {
    0 < hint < |b| && !b[hint] && !b[hint - 1]
  }

  /** The rest of a run from the hint on hides every other run: it is longer than all of
      them (its own run counted after halving), too short to be split, and no longest run
      before the hint lies directly behind retrieved data. */
  predicate Hides(b: Bitmap, use: Bitmap, blockLength: int, minSplitSize: int, hint: nat)
    requires |use| == |b|
  {
    && Inside(b, hint)
    && !LongEnough(Range(hint, RunEnd(b, hint)), blockLength, minSplitSize)
    && (forall s :: s in MetBefore(b, 0, |b|, |b|) ==> RangeAt(b, use, s).Size() < RunEnd(b, hint) - hint)
    && (forall s :: s in Best(b, use, 0, hint) ==> !Preferred(b, use, RangeAt(b, use, s)))
  }

  /** The runs the two passes meet, compared with those of the plain scan. */
  lemma PassesMeet(b: Bitmap, hint: nat)
    ensures var all := MetBefore(b, 0, |b|, |b|);
            && MetBefore(b, hint, |b|, |b|)
               == (set s | s in all && s >= hint) + (if Inside(b, hint) then {hint} else {})
            && MetBefore(b, 0, hint, |b|) <= all
            && (forall s :: s in all && s < hint ==> s in MetBefore(b, 0, hint, |b|))
            && (Inside(b, hint) ==> forall s :: s in MetBefore(b, 0, hint, |b|) ==> s < hint)
  {
  }

  /** The best of all runs is the best of those a pass meets, if the pass meets it. */
  lemma BestOfFewer(b: Bitmap, use: Bitmap, few: set<nat>, all: set<nat>, s: nat)
    requires |use| == |b| && forall t :: t in all ==> t < |b| && !b[t]
    requires few <= all && s in few && s in BestOf(b, use, all)
    ensures s in BestOf(b, use, few)
  {
  }

  /** A hint that does not lie inside a free run loses nothing, nor does one inside a run
      whose best competitor lies before it. */
  lemma BestMetAgain(b: Bitmap, use: Bitmap, blockLength: int, minSplitSize: int, hint: nat, s: nat)
    requires |use| == |b| && s in Best(b, use, 0, |b|) && Acceptable(b, use, s, blockLength, minSplitSize)
    requires s < hint || !Inside(b, hint)
    ensures HintedFinds(b, use, blockLength, minSplitSize, hint)
  {
    PassesMeet(b, hint);
    var all := MetBefore(b, 0, |b|, |b|);
    if s < hint {
      BestOfFewer(b, use, MetBefore(b, 0, hint, |b|), all, s);
      assert s in Picks(b, use, 0, hint, blockLength, minSplitSize);
    } else {
      BestOfFewer(b, use, MetBefore(b, hint, |b|, |b|), all, s);
      assert s in Picks(b, use, hint, |b|, blockLength, minSplitSize);
    }
  }

  lemma {:induction false} SameRunEnd(b: Bitmap, i: nat, j: nat)
    requires i <= |b| && i <= j <= RunEnd(b, i)
    ensures RunEnd(b, j) == RunEnd(b, i)
    decreases j - i
  {
    if i < j {
      SameRunEnd(b, i + 1, j);
    }
  }

  /** From inside a run the first pass sees the rest of that run, which is not preferred. */
  lemma RankInside(b: Bitmap, use: Bitmap, hint: nat)
    requires Combined(b, use) && Inside(b, hint)
    ensures RangeAt(b, use, hint) == Range(hint, RunEnd(b, hint)) && !Preferred(b, use, RangeAt(b, use, hint))
    ensures Rank(b, use, hint) == 2 * (RunEnd(b, hint) - hint)
  {
  }

  lemma ShorterIsNotLong(r: Range, q: Range, blockLength: int, minSplitSize: int)
    requires blockLength >= 0 && r.Size() <= q.Size() && !LongEnough(q, blockLength, minSplitSize)
    ensures !LongEnough(r, blockLength, minSplitSize)
  {
    assert (q.Size() - r.Size()) * blockLength >= 0;
  }

  /** If the rest of the run hides everything, neither pass selects. */
  lemma HiddenIsLost(b: Bitmap, use: Bitmap, blockLength: int, minSplitSize: int, hint: nat)
    requires Combined(b, use) && blockLength >= 0 && Hides(b, use, blockLength, minSplitSize, hint)
    ensures !HintedFinds(b, use, blockLength, minSplitSize, hint)
  {
    PassesMeet(b, hint);
    RankInside(b, use, hint);
    var first := MetBefore(b, hint, |b|, |b|);
    assert hint in first;
    assert hint in Best(b, use, hint, |b|) by {
      forall t | t in first
        ensures NotWorse(b, use, hint, t)
      {
        if t != hint {
          assert RangeAt(b, use, t).Size() < RunEnd(b, hint) - hint;
        }
      }
    }
    OnlyPick(b, use, hint, |b|, blockLength, minSplitSize, hint);
    forall s | s in Best(b, use, 0, hint)
      ensures !Acceptable(b, use, s, blockLength, minSplitSize)
    {
      ShorterIsNotLong(RangeAt(b, use, s), Range(hint, RunEnd(b, hint)), blockLength, minSplitSize);
    }
  }

  /** If the first pass loses the best run to the rest of the hint's run, that rest is longer
      than every run. */
  lemma LostBehindHint(b: Bitmap, use: Bitmap, blockLength: int, minSplitSize: int, hint: nat, s: nat)
    requires Combined(b, use) && blockLength >= 0 && Inside(b, hint) && s >= hint
    requires s in Best(b, use, 0, |b|) && Acceptable(b, use, s, blockLength, minSplitSize)
    requires Picks(b, use, hint, |b|, blockLength, minSplitSize) == {}
    ensures !LongEnough(Range(hint, RunEnd(b, hint)), blockLength, minSplitSize)
    ensures RangeAt(b, use, s).Size() < RunEnd(b, hint) - hint
  {
    PassesMeet(b, hint);
    RankInside(b, use, hint);
    var all, first := MetBefore(b, 0, |b|, |b|), MetBefore(b, hint, |b|, |b|);
    assert !NotWorse(b, use, s, hint) by {
      assert s !in BestOf(b, use, first);
    }
    assert hint in BestOf(b, use, first) by {
      forall t | t in first
        ensures NotWorse(b, use, hint, t)
      {
        if t != hint {
          assert NotWorse(b, use, s, t);
        }
      }
    }
    OnlyPick(b, use, hint, |b|, blockLength, minSplitSize, hint);
    if RangeAt(b, use, s).Size() == RunEnd(b, hint) - hint {
      ShorterIsNotLong(RangeAt(b, use, s), Range(hint, RunEnd(b, hint)), blockLength, minSplitSize);
    }
  }

  /** A search that loses what the plain scan finds was misled by the rest of a run. */
  lemma LostIsHidden(b: Bitmap, use: Bitmap, blockLength: int, minSplitSize: int, hint: nat)
    requires Combined(b, use) && blockLength >= 0 && PlainFinds(b, use, blockLength, minSplitSize)
    requires !HintedFinds(b, use, blockLength, minSplitSize, hint)
    ensures Hides(b, use, blockLength, minSplitSize, hint)
  {
    var s :| s in Picks(b, use, 0, |b|, blockLength, minSplitSize);
    if s < hint || !Inside(b, hint) {
      BestMetAgain(b, use, blockLength, minSplitSize, hint, s);
      assert false;
    }
    LostBehindHint(b, use, blockLength, minSplitSize, hint, s);
    forall t | t in MetBefore(b, 0, |b|, |b|)
      ensures RangeAt(b, use, t).Size() < RunEnd(b, hint) - hint
    {
      assert NotWorse(b, use, s, t);
    }
    forall t | t in Best(b, use, 0, hint)
      ensures !Preferred(b, use, RangeAt(b, use, t))
    {
      assert t !in Picks(b, use, 0, hint, blockLength, minSplitSize);
    }
  }

  /** When the plain scan finds a run, the scan in two passes finds one too, unless the hint
      lies inside a free run whose rest hides every other run. */
  lemma HintIsCompleteExactly(b: Bitmap, use: Bitmap, blockLength: int, minSplitSize: int, hint: nat)
    requires Combined(b, use) && blockLength >= 0 && PlainFinds(b, use, blockLength, minSplitSize)
    ensures HintedFinds(b, use, blockLength, minSplitSize, hint) <==> !Hides(b, use, blockLength, minSplitSize, hint)
  {
    if Hides(b, use, blockLength, minSplitSize, hint) {
      HiddenIsLost(b, use, blockLength, minSplitSize, hint);
    } else if !HintedFinds(b, use, blockLength, minSplitSize, hint) {
      LostIsHidden(b, use, blockLength, minSplitSize, hint);
    }
  }

  /** The condition a caller can see at a glance: a hint that is not inside a free run, or is
      inside one that follows a block not in use, loses nothing. */
  lemma HintIsComplete(b: Bitmap, use: Bitmap, blockLength: int, minSplitSize: int, hint: nat, s: nat)
    requires Combined(b, use) && blockLength >= 0 && PlainFinds(b, use, blockLength, minSplitSize)
    requires Inside(b, hint) ==> s < hint && !b[s] && (s > 0 ==> b[s - 1] && !use[s - 1]) && RunEnd(b, s) >= hint
    ensures HintedFinds(b, use, blockLength, minSplitSize, hint)
  {
    HintIsCompleteExactly(b, use, blockLength, minSplitSize, hint);
    if Inside(b, hint) {
      SameRunEnd(b, s, hint);
      assert s in MetBefore(b, 0, |b|, |b|);
      assert RangeAt(b, use, s).Size() > RunEnd(b, hint) - hint;
    }
  }

  /** Twelve blocks of length 1, block 0 in use, block 7 retrieved, hint 2: the plain scan
      selects block 8, the scan from the hint nothing. */
  lemma HintLosesARun()
    ensures var use := seq(12, i => i == 0);
            var b := seq(12, i => i == 0 || i == 7);
            PlainFinds(b, use, 1, 10) && !HintedFinds(b, use, 1, 10, 2)
  {
    var use := seq(12, i => i == 0);
    var b := seq(12, i => i == 0 || i == 7);
    assert b[7] && forall x :: 1 <= x < 7 || 8 <= x < 12 ==> !b[x];
    assert RunEnd(b, 1) == 7 && RunEnd(b, 2) == 7 && RunEnd(b, 8) == 12;
    var all := MetBefore(b, 0, 12, 12);
    assert all == {1, 8};
    assert 8 in BestOf(b, use, all);
    assert 8 in Picks(b, use, 0, 12, 1, 10);
    var before := MetBefore(b, 0, 2, 12);
    PassesMeet(b, 2);
    assert before == {1};
    HintIsCompleteExactly(b, use, 1, 10, 2);
  }
}
