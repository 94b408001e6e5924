/** Flushing the write cache: `writeCache` of `src/AbstractSingleDiskAdaptor.cc` over the cells of
    `src/WrDiskCacheEntry.h`. A file is a map from offsets to bytes. */
module WriteCaches {
  import opened Integers

  type File = map<int, uint8>

  datatype Cell = Cell(goff: int, data: seq<uint8>, offset: nat, len: nat)

  /** A cell caches the bytes of `data` from `offset` on, `len` of them, for offset `goff`. */
  type DataCell = c: Cell | c.offset + c.len <= |c.data| witness Cell(0, [], 0, 0)

  function Bytes(c: DataCell): (r: seq<uint8>)
    ensures |r| == c.len
  {
    c.data[c.offset..c.offset + c.len]
  }

  /** A write that reaches the disk writer. */
  datatype Write = Write(offset: int, data: seq<uint8>)

  function End(w: Write): int {
    w.offset + |w.data|
  }

  /** The file with the data in place, byte by byte. */
  function Put(f: File, at: int, data: seq<uint8>): File
    decreases |data|
  {
    if data == [] then f else Put(f[at := data[0]], at + 1, data[1..])
  }

  function Apply(f: File, w: Write): File {
    Put(f, w.offset, w.data)
  }

  function ApplyAll(f: File, ws: seq<Write>): File
    decreases |ws|
  {
    if ws == [] then f else ApplyAll(Apply(f, ws[0]), ws[1..])
  }

  /** The cells written one by one. */
  function PerCell(cells: seq<DataCell>): (r: seq<Write>)
    ensures |r| == |cells|
  {
    if cells == [] then [] else [Write(cells[0].goff, Bytes(cells[0]))] + PerCell(cells[1..])
  }

  // ---------- runs ----------

  /** The number of cells at the front of which each begins where the one before it ends. */
  function RunLength(cells: seq<DataCell>): (n: nat)
    requires cells != []
    ensures 1 <= n <= |cells|
  {
    if |cells| > 1 && cells[1].goff == cells[0].goff + cells[0].len then 1 + RunLength(cells[1..]) else 1
  }

  function AllBytes(cells: seq<DataCell>): seq<uint8>
  {
    if cells == [] then [] else Bytes(cells[0]) + AllBytes(cells[1..])
  }

  /** One write for each run. */
  function Merged(cells: seq<DataCell>): seq<Write>
    decreases |cells|
  {
    if cells == [] then []
    else
      var n := RunLength(cells);
      [Write(cells[0].goff, AllBytes(cells[..n]))] + Merged(cells[n..])
  }

  /** The cells follow each other without a gap. */
  predicate Contiguous(cells: seq<DataCell>) {
    forall i :: 0 < i < |cells| ==> cells[i].goff == cells[i - 1].goff + cells[i - 1].len
  }

  lemma {:induction false} RunIsContiguous(cells: seq<DataCell>)
    requires cells != []
    ensures var n := RunLength(cells);
      Contiguous(cells[..n]) && (n < |cells| ==> cells[n].goff != cells[n - 1].goff + cells[n - 1].len)
  {
    if |cells| > 1 && cells[1].goff == cells[0].goff + cells[0].len {
      RunIsContiguous(cells[1..]);
      var n := RunLength(cells);
      assert cells[1..][..n - 1] == cells[..n][1..];
      OneMore(cells[..n]);
    }
  }

  lemma OneMore(run: seq<DataCell>)
    requires |run| > 1 && run[1].goff == run[0].goff + run[0].len && Contiguous(run[1..])
    ensures Contiguous(run)
  {
    forall i | 1 < i < |run|
      ensures run[i].goff == run[i - 1].goff + run[i - 1].len
    {
      assert run[1..][i - 1] == run[i] && run[1..][i - 2] == run[i - 1];
    }
  }

  /** A contiguous run ends where its last cell ends. */
  lemma {:induction false} RunEnd(cells: seq<DataCell>)
    requires cells != [] && Contiguous(cells)
    ensures End(Write(cells[0].goff, AllBytes(cells))) == cells[|cells| - 1].goff + cells[|cells| - 1].len
  {
    if |cells| > 1 {
      assert Contiguous(cells[1..]);
      RunEnd(cells[1..]);
      assert cells[1..][|cells| - 2] == cells[|cells| - 1];
    } else {
      assert AllBytes(cells[1..]) == [];
    }
  }

  /** Data can be put in two parts. */
  lemma {:induction false} PutTwo(f: File, at: int, x: seq<uint8>, y: seq<uint8>)
    ensures Put(Put(f, at, x), at + |x|, y) == Put(f, at, x + y)
    decreases |x|
  {
    if x == [] {
      assert x + y == y;
    } else {
      PutTwo(f[at := x[0]], at + 1, x[1..], y);
      assert (x + y)[1..] == x[1..] + y;
    }
  }

  lemma ApplyFirst(f: File, w: Write, ws: seq<Write>)
    ensures ApplyAll(f, [w] + ws) == ApplyAll(Apply(f, w), ws)
  {
    assert ([w] + ws)[1..] == ws;
  }

  lemma FirstCell(f: File, cells: seq<DataCell>)
    requires cells != []
    ensures ApplyAll(f, PerCell(cells))
         == ApplyAll(Apply(f, Write(cells[0].goff, Bytes(cells[0]))), PerCell(cells[1..]))
  {
    ApplyFirst(f, Write(cells[0].goff, Bytes(cells[0])), PerCell(cells[1..]));
  }

  /** One write of a contiguous run does what the writes of its cells do. */
  lemma {:induction false} RunApplies(f: File, cells: seq<DataCell>)
    requires cells != [] && Contiguous(cells)
    ensures ApplyAll(f, PerCell(cells)) == Apply(f, Write(cells[0].goff, AllBytes(cells)))
    decreases |cells|
  {
    var g := Apply(f, Write(cells[0].goff, Bytes(cells[0])));
    FirstCell(f, cells);
    if |cells| == 1 {
      OneCell(cells);
    } else {
      assert Contiguous(cells[1..]);
      RunApplies(g, cells[1..]);
      PutTwo(f, cells[0].goff, Bytes(cells[0]), AllBytes(cells[1..]));
    }
  }

  lemma OneCell(cells: seq<DataCell>)
    requires |cells| == 1
    ensures AllBytes(cells) == Bytes(cells[0])
  {
    assert AllBytes(cells[1..]) == [];
  }

  lemma {:induction false} ApplySplit(f: File, v: seq<Write>, w: seq<Write>)
    ensures ApplyAll(f, v + w) == ApplyAll(ApplyAll(f, v), w)
    decreases |v|
  {
    if v == [] {
      assert v + w == w;
    } else {
      assert (v + w)[1..] == v[1..] + w;
      ApplySplit(Apply(f, v[0]), v[1..], w);
    }
  }

  lemma {:induction false} PerCellSplit(a: seq<DataCell>, b: seq<DataCell>)
    ensures PerCell(a + b) == PerCell(a) + PerCell(b)
  {
    if a == [] {
      assert a + b == b;
    } else {
      PerCellSplit(a[1..], b);
      assert (a + b)[1..] == a[1..] + b;
      Associative([Write(a[0].goff, Bytes(a[0]))], PerCell(a[1..]), PerCell(b));
    }
  }

  // ---------- what merging keeps ----------

  lemma RunFirst(f: File, cells: seq<DataCell>, run: seq<DataCell>, rest: seq<DataCell>)
    requires cells != [] && run == cells[..RunLength(cells)] && rest == cells[RunLength(cells)..]
    ensures ApplyAll(f, PerCell(cells)) == ApplyAll(Apply(f, Write(cells[0].goff, AllBytes(run))), PerCell(rest))
  {
    RunIsContiguous(cells);
    RunApplies(f, run);
    PerCellSplit(run, rest);
    ApplySplit(f, PerCell(run), PerCell(rest));
    assert cells == run + rest;
  }

  /** The merged writes leave the file as the writes of the single cells do, for any cells in
      any order and any file. */
  lemma {:induction false} MergedMeansPerCell(f: File, cells: seq<DataCell>)
    ensures ApplyAll(f, Merged(cells)) == ApplyAll(f, PerCell(cells))
    decreases |cells|
  {
    if cells != [] {
      var n := RunLength(cells);
      var run, rest := cells[..n], cells[n..];
      var w := Write(cells[0].goff, AllBytes(run));
      MergedMeansPerCell(Apply(f, w), rest);
      ApplyFirst(f, w, Merged(rest));
      RunFirst(f, cells, run, rest);
    }
  }

  // ---------- what is in the file ----------

  /** The cell caches the byte at `x`. */
  predicate Caches(c: DataCell, x: int) {
    c.goff <= x < c.goff + c.len
  }

  function CachedByte(c: DataCell, x: int): uint8
    requires Caches(c, x)
  {
    c.data[c.offset + (x - c.goff)]
  }

  /** After the cells have been written, each byte is that of the last cell that caches it, or else
      what it was before. */
  ghost predicate HoldsCells(before: File, cells: seq<DataCell>, after: File) {
    HoldsCached(cells, after) && HoldsOthers(before, cells, after)
  }

  ghost predicate HoldsCached(cells: seq<DataCell>, after: File) {
    forall x, k :: 0 <= k < |cells| && Caches(cells[k], x) && (forall i :: k < i < |cells| ==> !Caches(cells[i], x))
      ==> x in after && after[x] == CachedByte(cells[k], x)
  }

  ghost predicate HoldsOthers(before: File, cells: seq<DataCell>, after: File) {
    forall x :: (forall i :: 0 <= i < |cells| ==> !Caches(cells[i], x))
      ==> (x in after <==> x in before) && (x in before ==> after[x] == before[x])
  }

  lemma {:induction false} PutAt(f: File, at: int, data: seq<uint8>, x: int)
    ensures if at <= x < at + |data| then x in Put(f, at, data) && Put(f, at, data)[x] == data[x - at]
            else (x in Put(f, at, data) <==> x in f) && (x in f ==> Put(f, at, data)[x] == f[x])
    decreases |data|
  {
    if data == [] {
    } else {
      PutAt(f[at := data[0]], at + 1, data[1..], x);
    }
  }

  lemma CellPut(f: File, c: DataCell, x: int)
    ensures var g := Apply(f, Write(c.goff, Bytes(c)));
      if Caches(c, x) then x in g && g[x] == CachedByte(c, x)
      else (x in g <==> x in f) && (x in f ==> g[x] == f[x])
  {
    PutAt(f, c.goff, Bytes(c), x);
  }

  lemma {:induction false} Untouched(f: File, cells: seq<DataCell>, x: int)
    requires forall i :: 0 <= i < |cells| ==> !Caches(cells[i], x)
    ensures var g := ApplyAll(f, PerCell(cells)); (x in g <==> x in f) && (x in f ==> g[x] == f[x])
    decreases |cells|
  {
    if cells == [] {
    } else {
      var g := Apply(f, Write(cells[0].goff, Bytes(cells[0])));
      FirstCell(f, cells);
      CellPut(f, cells[0], x);
      Untouched(g, cells[1..], x);
    }
  }

  lemma {:induction false} LastCounts(f: File, cells: seq<DataCell>, x: int, k: nat)
    requires k < |cells| && Caches(cells[k], x) && forall i :: k < i < |cells| ==> !Caches(cells[i], x)
    ensures var g := ApplyAll(f, PerCell(cells)); x in g && g[x] == CachedByte(cells[k], x)
    decreases |cells|
  {
    var g := Apply(f, Write(cells[0].goff, Bytes(cells[0])));
    FirstCell(f, cells);
    if k == 0 {
      CellPut(f, cells[0], x);
      Untouched(g, cells[1..], x);
    } else {
      LastCounts(g, cells[1..], x, k - 1);
    }
  }

  lemma CachedHeld(f: File, cells: seq<DataCell>)
    ensures HoldsCached(cells, ApplyAll(f, PerCell(cells)))
  {
    var g := ApplyAll(f, PerCell(cells));
    forall x, k | 0 <= k < |cells| && Caches(cells[k], x) && (forall i :: k < i < |cells| ==> !Caches(cells[i], x))
      ensures x in g && g[x] == CachedByte(cells[k], x)
    {
      LastCounts(f, cells, x, k);
    }
  }

  lemma OthersHeld(f: File, cells: seq<DataCell>)
    ensures HoldsOthers(f, cells, ApplyAll(f, PerCell(cells)))
  {
    var g := ApplyAll(f, PerCell(cells));
    forall x | forall i :: 0 <= i < |cells| ==> !Caches(cells[i], x)
      ensures (x in g <==> x in f) && (x in f ==> g[x] == f[x])
    {
      Untouched(f, cells, x);
    }
  }

  lemma PerCellHolds(f: File, cells: seq<DataCell>)
    ensures HoldsCells(f, cells, ApplyAll(f, PerCell(cells)))
  {
    CachedHeld(f, cells);
    OthersHeld(f, cells);
  }

  /** No write could have been merged with the one before it. */
  lemma {:induction false} MergedAsFarAsPossible(cells: seq<DataCell>, i: nat)
    requires 0 < i < |Merged(cells)|
    ensures Merged(cells)[i].offset != End(Merged(cells)[i - 1])
    decreases |cells|
  {
    var n := RunLength(cells);
    RunIsContiguous(cells);
    RunEnd(cells[..n]);
    assert Merged(cells) == [Write(cells[0].goff, AllBytes(cells[..n]))] + Merged(cells[n..]);
    if i > 1 {
      MergedAsFarAsPossible(cells[n..], i - 1);
    }
  }

  function Data(ws: seq<Write>): seq<uint8> {
    if ws == [] then [] else ws[0].data + Data(ws[1..])
  }

  lemma FirstOff<T>(a: seq<T>, b: seq<T>, whole: seq<T>)
    requires a != [] && whole == a + b
    ensures whole[0] == a[0] && whole[1..] == a[1..] + b
  {
  }

  lemma Associative<T>(x: seq<T>, y: seq<T>, z: seq<T>)
    ensures x + (y + z) == (x + y) + z
  {
  }

  lemma {:induction false} AllBytesSplit(a: seq<DataCell>, b: seq<DataCell>)
    ensures AllBytes(a + b) == AllBytes(a) + AllBytes(b)
  {
    if a == [] {
      assert a + b == b;
    } else {
      AllBytesSplit(a[1..], b);
      FirstOff(a, b, a + b);
      Associative(Bytes(a[0]), AllBytes(a[1..]), AllBytes(b));
    }
  }

  /** Every cached byte is written once, in the order of the cells. */
  lemma {:induction false} MergedWritesEachByteOnce(cells: seq<DataCell>)
    ensures Data(Merged(cells)) == AllBytes(cells)
    decreases |cells|
  {
    if cells != [] {
      var n := RunLength(cells);
      MergedWritesEachByteOnce(cells[n..]);
      AllBytesSplit(cells[..n], cells[n..]);
      assert cells == cells[..n] + cells[n..];
      assert Merged(cells)[1..] == Merged(cells[n..]);
    }
  }

  class SingleDiskAdaptor {
    var file: File
    /** The writes that have reached the disk writer. */
    ghost var writes: seq<Write>

    constructor ()
      ensures file == map[] && writes == []
    {
      file := map[];
      writes := [];
    }

    method WriteData(data: seq<uint8>, offset: int)
      modifies this
      ensures file == Apply(old(file), Write(offset, data))
      ensures writes == old(writes) + [Write(offset, data)]
    {
      file := Apply(file, Write(offset, data));
      writes := writes + [Write(offset, data)];
    }

    /** Writes each run of contiguous cells at once. */
    method WriteCache(cells: seq<DataCell>)
      modifies this
      ensures file == ApplyAll(old(file), PerCell(cells)) && HoldsCells(old(file), cells, file)
      ensures writes == old(writes) + Merged(cells)
    {
      ghost var done: seq<Write> := [];
      var it := 0;
      while it < |cells|
        invariant it <= |cells|
        invariant done + Merged(cells[it..]) == Merged(cells)
        invariant file == ApplyAll(old(file), done)
        invariant writes == old(writes) + done
      {
        var runIt := it;
        it := FindRun(cells, runIt);
        MergedNext(cells, runIt, it);
        ghost var w := Write(cells[runIt].goff, AllBytes(cells[runIt..it]));
        WriteRun(cells[runIt..it]);
        ApplyLast(old(file), done, w);
        Associative(done, [w], Merged(cells[it..]));
        Associative(old(writes), done, [w]);
        done := done + [w];
      }
      assert done + [] == done;
      MergedMeansPerCell(old(file), cells);
      PerCellHolds(old(file), cells);
    }

    /** A single cell is written directly, more of them from one buffer. */
    method WriteRun(run: seq<DataCell>)
      requires run != []
      modifies this
      ensures file == Apply(old(file), Write(run[0].goff, AllBytes(run)))
      ensures writes == old(writes) + [Write(run[0].goff, AllBytes(run))]
    {
      if |run| == 1 {
        OneCell(run);
        WriteData(Bytes(run[0]), run[0].goff);
      } else {
        var buf := Gather(run);
        WriteData(buf, run[0].goff);
      }
    }
  }

  lemma MergedNext(cells: seq<DataCell>, i: nat, j: nat)
    requires i < |cells| && j == i + RunLength(cells[i..])
    ensures Merged(cells[i..]) == [Write(cells[i].goff, AllBytes(cells[i..j]))] + Merged(cells[j..])
  {
    assert cells[i..][..j - i] == cells[i..j];
    assert cells[i..][j - i..] == cells[j..];
  }

  lemma ApplyLast(f: File, ws: seq<Write>, w: Write)
    ensures ApplyAll(f, ws + [w]) == Apply(ApplyAll(f, ws), w)
  {
    ApplySplit(f, ws, [w]);
    assert [w][1..] == [];
  }

  /** The end of the run that begins at `first`. */
  method FindRun(cells: seq<DataCell>, first: nat) returns (it: nat)
    requires first < |cells|
    ensures it == first + RunLength(cells[first..])
  {
    var end := cells[first].goff + cells[first].len;
    it := first + 1;
    while it < |cells| && cells[it].goff == end
      invariant first < it <= |cells|
      invariant end == cells[it - 1].goff + cells[it - 1].len
      invariant it - 1 + RunLength(cells[it - 1..]) == first + RunLength(cells[first..])
    {
      assert cells[it - 1..][1..] == cells[it..];
      end := end + cells[it].len;
      it := it + 1;
    }
  }

  /** Copies the cells of a run into one buffer. */
  method Gather(cells: seq<DataCell>) returns (buf: seq<uint8>)
    ensures buf == AllBytes(cells)
  {
    buf := [];
    assert cells[..0] == [];
    for j := 0 to |cells|
      invariant buf == AllBytes(cells[..j])
    {
      assert cells[..j + 1] == cells[..j] + [cells[j]];
      AllBytesSplit(cells[..j], [cells[j]]);
      OneCell([cells[j]]);
      buf := buf + Bytes(cells[j]);
    }
    assert cells[..|cells|] == cells;
  }
}
