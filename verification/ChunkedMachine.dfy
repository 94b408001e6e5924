/** The chunked transfer decoder of `src/ChunkedDecodingStreamFilter.cc`, one character at a
    time, and the message format of section 7.1 of RFC 9112 that it reads. */
module ChunkedMachine {
  import opened Integers
  import opened Sequences
  import opened Wrappers

  datatype Control =
    | PrevChunkSize
    | ChunkSize
    | ChunkExtension
    | PrevChunkSizeLf
    | ChunkData
    | PrevChunkCr
    | PrevChunkLf
    | PrevTrailer
    | Trailer
    | PrevTrailerLf
    | PrevEndLf
    | ChunksComplete

  /** The aborts of the source, by their message. */
  datatype Error =
    | BadChunkSize
    | TooBigChunkSize
    | MissingLfAfterSize
    | MissingCrAfterChunk
    | MissingLfAfterChunk
    | MissingLfAfterTrailer
    | MissingLfAtEnd

  /** `out` is what the delegate has received. */
  datatype Decoder = Decoder(state: Control, chunkSize: int, chunkRemaining: int, out: string)

  const FRESH: Decoder := Decoder(PrevChunkSize, 0, 0, "")

  predicate IsHex(c: char) {
    '0' <= c <= '9' || 'A' <= c <= 'F' || 'a' <= c <= 'f'
  }

  function HexDigit(c: char): (d: int)
    requires IsHex(c)
    ensures 0 <= d <= 15
  {
    if 'a' <= c <= 'f' then c as int - 'a' as int + 10
    else if 'A' <= c <= 'F' then c as int - 'A' as int + 10
    else c as int - '0' as int
  }

  /** The digits in their order, in lower and in upper case. */
  lemma HexDigitsInOrder(c: char)
    requires IsHex(c)
    ensures var d := HexDigit(c); "0123456789abcdef"[d] == c || "0123456789ABCDEF"[d] == c
  {
  }

  /** `chunkSize & 0x7800000000000000`: the four bits below the sign bit. */
  predicate TopBitsSet(size: int) {
    size / 0x0800_0000_0000_0000 % 16 != 0
  }

  datatype Outcome = Go(decoder: Decoder) | Throw(error: Error)

  function StepSize(d: Decoder, c: char): Outcome {
    if IsHex(c) then
      if TopBitsSet(d.chunkSize) then Throw(TooBigChunkSize)
      else Go(d.(chunkSize := d.chunkSize * 16 + HexDigit(c)))
    else if c == ';' then Go(d.(state := ChunkExtension))
    else if c == '\r' then Go(d.(state := PrevChunkSizeLf))
    else Throw(BadChunkSize)
  }

  /** Reads one character. The branch for a chunk of size zero in `PrevChunkLf` is that of
      the source. */
  function Step(d: Decoder, c: char): Outcome {
    match d.state
    case PrevChunkSize =>
      if IsHex(c) then Go(d.(chunkSize := HexDigit(c), state := ChunkSize)) else Throw(BadChunkSize)
    case ChunkSize => StepSize(d, c)
    case ChunkExtension => Go(if c == '\r' then d.(state := PrevChunkSizeLf) else d)
    case PrevChunkSizeLf =>
      if c != '\n' then Throw(MissingLfAfterSize)
      else Go(d.(chunkRemaining := d.chunkSize, state := if d.chunkSize == 0 then PrevTrailer else ChunkData))
    case ChunkData => Go(AfterData(d, [c]))
    case PrevChunkCr => if c == '\r' then Go(d.(state := PrevChunkLf)) else Throw(MissingCrAfterChunk)
    case PrevChunkLf =>
      if c != '\n' then Throw(MissingLfAfterChunk)
      else if d.chunkSize == 0 then Go(d.(state := PrevTrailer))
      else Go(d.(chunkSize := 0, chunkRemaining := 0, state := PrevChunkSize))
    case PrevTrailer => Go(d.(state := if c == '\r' then PrevEndLf else Trailer))
    case Trailer => Go(if c == '\r' then d.(state := PrevTrailerLf) else d)
    case PrevTrailerLf => if c == '\n' then Go(d.(state := PrevTrailer)) else Throw(MissingLfAfterTrailer)
    case PrevEndLf => if c == '\n' then Go(d.(state := ChunksComplete)) else Throw(MissingLfAtEnd)
    case ChunksComplete => Go(d)
  }

  /** Hands `slice` to the delegate. */
  function AfterData(d: Decoder, slice: string): Decoder {
    d.(out := d.out + slice,
       chunkRemaining := d.chunkRemaining - |slice|,
       state := if d.chunkRemaining == |slice| then PrevChunkCr else ChunkData)
  }

  /** What every reachable decoder satisfies. */
  predicate Wf(d: Decoder) {
    && 0 <= d.chunkRemaining <= d.chunkSize <= INT64_MAX
    && (d.state.ChunkData? ==> d.chunkRemaining > 0)
    && (d.state in {ChunkData, PrevChunkCr, PrevChunkLf} ==> d.chunkSize > 0)
    && (d.state in {PrevChunkSize, ChunkSize, ChunkExtension, PrevChunkSizeLf, PrevChunkCr, PrevChunkLf} ==>
          d.chunkRemaining == 0)
  }

  /** Testing four bits rejects a digit exactly when the longer size leaves int64. */
  lemma GuardIsExact(size: int, digit: int)
    requires 0 <= size <= INT64_MAX && 0 <= digit <= 15
    ensures TopBitsSet(size) <==> size * 16 + digit > INT64_MAX
  {
  }

  /** One call of `transform`: the decoder and the characters processed, or an abort with
      the decoder as it was when the offending character was met. */
  datatype Fed = Done(decoder: Decoder, processed: nat) | Abort(decoder: Decoder, error: Error)

  function Shift(n: nat, f: Fed): Fed {
    if f.Abort? then f else Done(f.decoder, f.processed + n)
  }

  function Feed(d: Decoder, data: string): Fed
    decreases |data|
  {
    if data == [] || d.state.ChunksComplete? then Done(d, 0)
    else
      match Step(d, data[0])
      case Throw(e) => Abort(d, e)
      case Go(d1) => Shift(1, Feed(d1, data[1..]))
  }

  /** Over every input: the chunk size stays within int64 and is positive wherever the
      decoder is inside or behind chunk data, so the zero-size branch behind chunk data is
      never taken; only a complete message leaves characters unprocessed. */
  lemma {:induction false} FeedWf(d: Decoder, data: string)
    requires Wf(d)
    ensures var f := Feed(d, data);
            && Wf(f.decoder)
            && (f.decoder.state.PrevChunkLf? ==> f.decoder.chunkSize > 0)
            && (f.Done? ==> f.processed <= |data|)
            && (f.Done? && f.processed < |data| ==> f.decoder.state.ChunksComplete?)
    decreases |data|
  {
    if data != [] && d.state != ChunksComplete {
      if Step(d, data[0]).Go? {
        FeedWf(Step(d, data[0]).decoder, data[1..]);
      }
    }
  }

  function FeedTwice(d: Decoder, a: string, b: string): Fed {
    match Feed(d, a)
    case Abort(d1, e) => Abort(d1, e)
    case Done(d1, n) => Shift(n, Feed(d1, b))
  }

  /** The stream may be cut between any two characters. */
  lemma {:induction false} SplitInvariance(d: Decoder, a: string, b: string)
    ensures Feed(d, a + b) == FeedTwice(d, a, b)
    decreases |a|
  {
    if a == [] {
      assert a + b == b;
    } else if d.state != ChunksComplete && Step(d, a[0]).Go? {
      assert (a + b)[1..] == a[1..] + b;
      SplitInvariance(Step(d, a[0]).decoder, a[1..], b);
    }
  }

  /** A sequence of `transform` calls, up to the first abort. */
  function FeedAll(d: Decoder, pieces: seq<string>): Fed
    decreases |pieces|
  {
    if pieces == [] then Done(d, 0)
    else
      match Feed(d, pieces[0])
      case Abort(d1, e) => Abort(d1, e)
      case Done(d1, n) => Shift(n, FeedAll(d1, pieces[1..]))
  }

  lemma {:induction false} AnyCutting(d: Decoder, pieces: seq<string>)
    ensures FeedAll(d, pieces) == Feed(d, Flatten(pieces))
    decreases |pieces|
  {
    if pieces != [] {
      SplitInvariance(d, pieces[0], Flatten(pieces[1..]));
      AnyCutting(Feed(d, pieces[0]).decoder, pieces[1..]);
    }
  }

  /** The decoder after all of `data`, if nothing in it is rejected or left over. */
  function Eat(d: Decoder, data: string): Option<Decoder>
    decreases |data|
  {
    if data == [] then Some(d)
    else if d.state.ChunksComplete? then None
    else
      match Step(d, data[0])
      case Throw(_) => None
      case Go(d1) => Eat(d1, data[1..])
  }

  lemma {:induction false} EatOn(d: Decoder, a: string, d1: Decoder, b: string, d2: Decoder, whole: string)
    requires Eat(d, a) == Some(d1) && Eat(d1, b) == Some(d2) && whole == a + b
    ensures Eat(d, whole) == Some(d2)
    decreases |a|
  {
    if a == [] {
      assert whole == b;
    } else {
      assert whole[1..] == a[1..] + b;
      EatOn(Step(d, a[0]).decoder, a[1..], d1, b, d2, whole[1..]);
    }
  }

  lemma EatOne(d: Decoder, c: char, d1: Decoder)
    requires d.state != ChunksComplete && Step(d, c) == Go(d1)
    ensures Eat(d, [c]) == Some(d1)
  {
    var data := [c];
    assert data[1..] == [] && Eat(d1, []) == Some(d1);
    assert Eat(d, data) == Eat(Step(d, data[0]).decoder, data[1..]);
  }

  lemma {:induction false} FeedAfter(d: Decoder, data: string, d1: Decoder, rest: string)
    requires Eat(d, data) == Some(d1)
    ensures Feed(d, data + rest) == Shift(|data|, Feed(d1, rest))
    decreases |data|
  {
    if data == [] {
      assert data + rest == rest;
    } else {
      assert (data + rest)[1..] == data[1..] + rest;
      FeedAfter(Step(d, data[0]).decoder, data[1..], d1, rest);
    }
  }

  /** Chunk data handed over in one slice or character by character is the same. */
  lemma {:induction false} DataSlice(d: Decoder, slice: string)
    requires d.state.ChunkData? && 0 < |slice| <= d.chunkRemaining
    ensures Eat(d, slice) == Some(AfterData(d, slice))
    decreases |slice|
  {
    var c, tail := slice[0], slice[1..];
    var d1 := AfterData(d, [c]);
    EatOne(d, c, d1);
    if tail == [] {
      assert slice == [c];
    } else {
      DataSlice(d1, tail);
      assert d.out + slice == d.out + [c] + tail;
      EatOn(d, [c], d1, tail, AfterData(d1, tail), slice);
    }
  }
}
