/** Messages in the chunked transfer coding (section 7.1 of RFC 9112) and the decoder of
    `src/ChunkedDecodingStreamFilter.cc`: it accepts exactly their encodings. */
module ChunkedMessage {
  import opened ChunkedMachine
  import opened Integers
  import opened Sequences
  import opened Wrappers

  /** A chunk-size line: hexadecimal digits and an optional extension. */
  datatype Header = Header(size: string, ext: Option<string>)

  datatype Chunk = Chunk(header: Header, data: string)

  datatype Message = Message(chunks: seq<Chunk>, last: Header, trailers: seq<string>)

  predicate AllHex(hs: string) {
    forall i :: 0 <= i < |hs| ==> IsHex(hs[i])
  }

  /** The number written by the digits `hs` after `acc`. */
  function HexAcc(acc: int, hs: string): (n: int)
    requires AllHex(hs)
    ensures acc >= 0 ==> n >= acc
    decreases |hs|
  {
    if hs == [] then acc else HexAcc(acc * 16 + HexDigit(hs[0]), hs[1..])
  }

  function Size(h: Header): int
    requires AllHex(h.size)
  {
    HexAcc(0, h.size)
  }

  predicate HeaderWf(h: Header) {
    && h.size != ""
    && AllHex(h.size)
    && Size(h) <= INT64_MAX
    && (h.ext.Some? ==> '\r' !in h.ext.value)
  }

  predicate ChunkWf(c: Chunk) {
    HeaderWf(c.header) && Size(c.header) == |c.data| > 0
  }

  predicate MessageWf(m: Message) {
    && (forall c :: c in m.chunks ==> ChunkWf(c))
    && HeaderWf(m.last) && Size(m.last) == 0
    && (forall t :: t in m.trailers ==> t != "" && '\r' !in t)
  }

  function EncodeExt(ext: Option<string>): string {
    if ext.Some? then ";" + ext.value else ""
  }

  function EncodeHeader(h: Header): string {
    h.size + (EncodeExt(h.ext) + "\r\n")
  }

  function EncodeChunk(c: Chunk): string {
    EncodeHeader(c.header) + (c.data + "\r\n")
  }

  function EncodeTrailers(ts: seq<string>): string {
    if ts == [] then "\r\n" else ts[0] + "\r\n" + EncodeTrailers(ts[1..])
  }

  function EncodeEnd(last: Header, trailers: seq<string>): string {
    EncodeHeader(last) + EncodeTrailers(trailers)
  }

  function Encode(m: Message): string
    decreases |m.chunks|
  {
    if m.chunks == [] then EncodeEnd(m.last, m.trailers)
    else EncodeChunk(m.chunks[0]) + Encode(m.(chunks := m.chunks[1..]))
  }

  /** The data a receiver should see. */
  function Body(chunks: seq<Chunk>): string {
    if chunks == [] then "" else chunks[0].data + Body(chunks[1..])
  }

  // ---------- every encoding is decoded ----------

  /** Size digits that stay within int64 are added to the chunk size. */
  lemma {:induction false} SizeDigits(d: Decoder, hs: string)
    requires d.state.ChunkSize? && d.chunkSize >= 0
    requires AllHex(hs) && HexAcc(d.chunkSize, hs) <= INT64_MAX
    ensures Eat(d, hs) == Some(d.(chunkSize := HexAcc(d.chunkSize, hs)))
    decreases |hs|
  {
    if hs != [] {
      GuardIsExact(d.chunkSize, HexDigit(hs[0]));
      var d1 := d.(chunkSize := d.chunkSize * 16 + HexDigit(hs[0]));
      assert Step(d, hs[0]) == Go(d1);
      SizeDigits(d1, hs[1..]);
    }
  }

  /** The first digit that leads outside int64 is the one that is rejected. */
  lemma {:induction false} SizeOverflow(d: Decoder, hs: string, rest: string)
    requires d.state.ChunkSize? && 0 <= d.chunkSize <= INT64_MAX
    requires AllHex(hs) && HexAcc(d.chunkSize, hs) > INT64_MAX
    ensures var f := Feed(d, hs + rest); f.Abort? && f.error == TooBigChunkSize
    decreases |hs|
  {
    GuardIsExact(d.chunkSize, HexDigit(hs[0]));
    var d1 := d.(chunkSize := d.chunkSize * 16 + HexDigit(hs[0]));
    assert (hs + rest)[1..] == hs[1..] + rest;
    if d1.chunkSize <= INT64_MAX {
      SizeOverflow(d1, hs[1..], rest);
    }
  }

  lemma {:induction false} SkipExtension(d: Decoder, ext: string)
    requires d.state.ChunkExtension? && '\r' !in ext
    ensures Eat(d, ext) == Some(d)
    decreases |ext|
  {
    if ext != [] {
      assert forall c :: c in ext[1..] ==> c in ext;
      SkipExtension(d, ext[1..]);
    }
  }

  lemma {:induction false} SkipTrailer(d: Decoder, t: string)
    requires d.state.Trailer? && '\r' !in t
    ensures Eat(d, t) == Some(d)
    decreases |t|
  {
    if t != [] {
      assert forall c :: c in t[1..] ==> c in t;
      SkipTrailer(d, t[1..]);
    }
  }

  /** What a size line of value `n` leads to. */
  function AfterHeader(d: Decoder, n: int): Decoder {
    d.(chunkSize := n, chunkRemaining := n, state := if n == 0 then PrevTrailer else ChunkData)
  }

  lemma ParseSize(d: Decoder, hs: string)
    requires d.state.PrevChunkSize? && hs != "" && AllHex(hs) && HexAcc(0, hs) <= INT64_MAX
    ensures Eat(d, hs) == Some(d.(state := ChunkSize, chunkSize := HexAcc(0, hs)))
  {
    var d1 := d.(chunkSize := HexDigit(hs[0]), state := ChunkSize);
    EatOne(d, hs[0], d1);
    SizeDigits(d1, hs[1..]);
    assert hs == [hs[0]] + hs[1..];
    EatOn(d, [hs[0]], d1, hs[1..], d.(state := ChunkSize, chunkSize := HexAcc(0, hs)), hs);
  }

  lemma ParseSizeEnd(d: Decoder, ext: Option<string>)
    requires d.state.ChunkSize? && (ext.Some? ==> '\r' !in ext.value)
    ensures Eat(d, EncodeExt(ext) + "\r\n") == Some(AfterHeader(d, d.chunkSize))
  {
    var d2 := d.(state := PrevChunkSizeLf);
    EatOne(d2, '\n', AfterHeader(d, d.chunkSize));
    if ext.Some? {
      var d1 := d.(state := ChunkExtension);
      EatOne(d, ';', d1);
      SkipExtension(d1, ext.value);
      EatOn(d, ";", d1, ext.value, d1, ";" + ext.value);
      EatOne(d1, '\r', d2);
      EatOn(d, ";" + ext.value, d1, "\r", d2, ";" + ext.value + "\r");
      EatOn(d, ";" + ext.value + "\r", d2, "\n", AfterHeader(d, d.chunkSize), ";" + ext.value + "\r\n");
    } else {
      EatOne(d, '\r', d2);
      EatOn(d, "\r", d2, "\n", AfterHeader(d, d.chunkSize), "" + "\r\n");
    }
  }

  lemma ParseHeader(d: Decoder, h: Header)
    requires d.state.PrevChunkSize? && HeaderWf(h)
    ensures Eat(d, EncodeHeader(h)) == Some(AfterHeader(d, Size(h)))
  {
    var d1 := d.(state := ChunkSize, chunkSize := Size(h));
    ParseSize(d, h.size);
    ParseSizeEnd(d1, h.ext);
    EatOn(d, h.size, d1, EncodeExt(h.ext) + "\r\n", AfterHeader(d, Size(h)),
          EncodeHeader(h));
  }

  lemma ParseChunk(d: Decoder, c: Chunk)
    requires d.state.PrevChunkSize? && ChunkWf(c)
    ensures Eat(d, EncodeChunk(c)) == Some(d.(out := d.out + c.data, chunkSize := 0, chunkRemaining := 0))
  {
    var d1 := AfterHeader(d, Size(c.header));
    ParseHeader(d, c.header);
    DataSlice(d1, c.data);
    var d2 := AfterData(d1, c.data);
    var d3 := d2.(state := PrevChunkLf);
    var d4 := d.(out := d.out + c.data, chunkSize := 0, chunkRemaining := 0);
    EatOne(d2, '\r', d3);
    EatOne(d3, '\n', d4);
    EatOn(d2, "\r", d3, "\n", d4, "\r\n");
    EatOn(d1, c.data, d2, "\r\n", d4, c.data + "\r\n");
    EatOn(d, EncodeHeader(c.header), d1, c.data + "\r\n", d4, EncodeChunk(c));
  }

  lemma ParseTrailer(d: Decoder, t: string)
    requires d.state.PrevTrailer? && t != "" && '\r' !in t
    ensures Eat(d, t + "\r\n") == Some(d)
  {
    var d1, d2 := d.(state := Trailer), d.(state := PrevTrailerLf);
    assert t[0] in t && forall c :: c in t[1..] ==> c in t;
    EatOne(d, t[0], d1);
    SkipTrailer(d1, t[1..]);
    assert t == [t[0]] + t[1..];
    EatOn(d, [t[0]], d1, t[1..], d1, t);
    EatOne(d1, '\r', d2);
    EatOne(d2, '\n', d);
    EatOn(d1, "\r", d2, "\n", d, "\r\n");
    EatOn(d, t, d1, "\r\n", d, t + "\r\n");
  }

  lemma {:induction false} ParseTrailers(d: Decoder, ts: seq<string>)
    requires d.state.PrevTrailer? && forall t :: t in ts ==> t != "" && '\r' !in t
    ensures Eat(d, EncodeTrailers(ts)) == Some(d.(state := ChunksComplete))
    decreases |ts|
  {
    if ts == [] {
      EatOne(d, '\r', d.(state := PrevEndLf));
      EatOne(d.(state := PrevEndLf), '\n', d.(state := ChunksComplete));
      EatOn(d, "\r", d.(state := PrevEndLf), "\n", d.(state := ChunksComplete), "\r\n");
    } else {
      assert ts[0] in ts && forall t :: t in ts[1..] ==> t in ts;
      ParseTrailer(d, ts[0]);
      ParseTrailers(d, ts[1..]);
      EatOn(d, ts[0] + "\r\n", d, EncodeTrailers(ts[1..]), d.(state := ChunksComplete), EncodeTrailers(ts));
    }
  }

  lemma ParseEnd(d: Decoder, m: Message)
    requires d.state.PrevChunkSize? && MessageWf(m) && m.chunks == []
    ensures Eat(d, Encode(m)) == Some(Decoder(ChunksComplete, 0, 0, d.out + Body([])))
  {
    ParseHeader(d, m.last);
    ParseTrailers(AfterHeader(d, 0), m.trailers);
    EatOn(d, EncodeHeader(m.last), AfterHeader(d, 0), EncodeTrailers(m.trailers),
          Decoder(ChunksComplete, 0, 0, d.out), Encode(m));
    assert d.out + Body([]) == d.out;
  }

  lemma {:induction false} ParseMessage(d: Decoder, m: Message)
    requires d.state.PrevChunkSize? && MessageWf(m)
    ensures Eat(d, Encode(m))
         == Some(Decoder(ChunksComplete, 0, 0, d.out + Body(m.chunks)))
    decreases |m.chunks|
  {
    if m.chunks == [] {
      ParseEnd(d, m);
    } else {
      var c, m1 := m.chunks[0], m.(chunks := m.chunks[1..]);
      assert c in m.chunks && forall x :: x in m1.chunks ==> x in m.chunks;
      var d1 := d.(out := d.out + c.data, chunkSize := 0, chunkRemaining := 0);
      ParseChunk(d, c);
      ParseMessage(d1, m1);
      assert d1.out + Body(m1.chunks) == d.out + Body(m.chunks);
      EatOn(d, EncodeChunk(c), d1, Encode(m1), Decoder(ChunksComplete, 0, 0, d.out + Body(m.chunks)), Encode(m));
    }
  }

  /** Every message is decoded to its body, and nothing behind it is processed. */
  lemma DecodesEncoding(m: Message, rest: string)
    requires MessageWf(m)
    ensures Feed(FRESH, Encode(m) + rest) == Done(Decoder(ChunksComplete, 0, 0, Body(m.chunks)), |Encode(m)|)
  {
    ParseMessage(FRESH, m);
    assert FRESH.out + Body(m.chunks) == Body(m.chunks);
    FeedAfter(FRESH, Encode(m), Decoder(ChunksComplete, 0, 0, Body(m.chunks)), rest);
  }

  /** The same for every way of cutting the stream into calls. */
  lemma DecodesPieces(m: Message, rest: string, pieces: seq<string>)
    requires MessageWf(m) && Flatten(pieces) == Encode(m) + rest
    ensures FeedAll(FRESH, pieces) == Done(Decoder(ChunksComplete, 0, 0, Body(m.chunks)), |Encode(m)|)
  {
    AnyCutting(FRESH, pieces);
    DecodesEncoding(m, rest);
  }

  /** For every run of size digits: it is refused as too big exactly when its value leaves
      int64, and otherwise its value becomes the chunk size. */
  lemma SizeBounds(hs: string, rest: string)
    requires hs != "" && AllHex(hs)
    ensures HexAcc(0, hs) > INT64_MAX ==>
              var f := Feed(FRESH, hs + rest); f.Abort? && f.error == TooBigChunkSize
    ensures HexAcc(0, hs) <= INT64_MAX ==>
              Eat(FRESH, hs) == Some(FRESH.(state := ChunkSize, chunkSize := HexAcc(0, hs)))
  {
    if HexAcc(0, hs) > INT64_MAX {
      var d1 := FRESH.(chunkSize := HexDigit(hs[0]), state := ChunkSize);
      EatOne(FRESH, hs[0], d1);
      SizeOverflow(d1, hs[1..], rest);
      FeedAfter(FRESH, [hs[0]], d1, hs[1..] + rest);
      assert hs + rest == [hs[0]] + (hs[1..] + rest);
    } else {
      ParseSize(FRESH, hs);
    }
  }

  // ---------- sizes as numbers ----------

  const LOWER: string := "0123456789abcdef"

  const UPPER: string := "0123456789ABCDEF"

  /** A number in hexadecimal notation with the given digits. */
  function Hexadecimal(n: nat, digits: string): (hs: string)
    requires |digits| == 16
    ensures hs != ""
  {
    if n < 16 then [digits[n]] else Hexadecimal(n / 16, digits) + [digits[n % 16]]
  }

  lemma DigitOfEither(digits: string, d: nat)
    requires digits in {LOWER, UPPER} && d < 16
    ensures IsHex(digits[d]) && HexDigit(digits[d]) == d
  {
    LowerDigit(d);
    UpperDigit(d);
  }

  lemma LowerDigit(d: nat)
    requires d < 16
    ensures IsHex("0123456789abcdef"[d]) && HexDigit("0123456789abcdef"[d]) == d
  {
  }

  lemma UpperDigit(d: nat)
    requires d < 16
    ensures IsHex("0123456789ABCDEF"[d]) && HexDigit("0123456789ABCDEF"[d]) == d
  {
  }

  lemma {:induction false} HexAppend(acc: int, hs: string, c: char)
    requires AllHex(hs) && IsHex(c)
    ensures AllHex(hs + [c]) && HexAcc(acc, hs + [c]) == HexAcc(acc, hs) * 16 + HexDigit(c)
    decreases |hs|
  {
    if hs == "" {
      assert hs + [c] == [c] && [c][1..] == "";
    } else {
      assert (hs + [c])[1..] == hs[1..] + [c];
      HexAppend(acc * 16 + HexDigit(hs[0]), hs[1..], c);
    }
  }

  lemma {:induction false} HexadecimalValue(n: nat, digits: string)
    requires digits in {LOWER, UPPER}
    ensures |digits| == 16 && AllHex(Hexadecimal(n, digits)) && HexAcc(0, Hexadecimal(n, digits)) == n
    decreases n
  {
    DigitOfEither(digits, n % 16);
    if n < 16 {
      HexAppend(0, "", digits[n]);
      assert "" + [digits[n]] == [digits[n]];
    } else {
      HexadecimalValue(n / 16, digits);
      HexAppend(0, Hexadecimal(n / 16, digits), digits[n % 16]);
    }
  }

  /** Data in one chunk, its length written in hexadecimal notation of either case. */
  lemma DecodesHexadecimal(data: string, digits: string, rest: string)
    requires 0 < |data| <= INT64_MAX && digits in {LOWER, UPPER}
    ensures |digits| == 16
    ensures var text := Hexadecimal(|data|, digits) + "\r\n" + data + "\r\n" + "0\r\n\r\n";
            Feed(FRESH, text + rest) == Done(Decoder(ChunksComplete, 0, 0, data), |text|)
  {
    var hs := Hexadecimal(|data|, digits);
    HexadecimalValue(|data|, digits);
    var m := Message([Chunk(Header(hs, None), data)], Header("0", None), []);
    assert HexAcc(0, "0") == 0;
    OneChunkWritten(hs, data, m);
    assert Body(m.chunks) == data;
    DecodesEncoding(m, rest);
  }

  lemma OneChunkWritten(hs: string, data: string, m: Message)
    requires m == Message([Chunk(Header(hs, None), data)], Header("0", None), [])
    ensures Encode(m) == hs + "\r\n" + data + "\r\n" + "0\r\n\r\n"
  {
    var last := m.(chunks := []);
    assert m.chunks[1..] == [];
    assert Encode(last) == "0\r\n\r\n";
    assert EncodeHeader(m.chunks[0].header) == hs + "\r\n";
  }

  // ---------- what is refused ----------

  lemma AbortsBehind(d: Decoder, text: string, d1: Decoder, c: char, rest: string, error: Error)
    requires Eat(d, text) == Some(d1) && d1.state != ChunksComplete && Step(d1, c) == Throw(error)
    ensures Feed(d, text + [c] + rest) == Abort(d1, error)
  {
    FeedAfter(d, text, d1, [c] + rest);
    assert text + [c] + rest == text + ([c] + rest);
  }

  /** Where a size is expected: something else, and a size followed by the wrong character. */
  lemma BadSizes(d: Decoder, hs: string, c: char, rest: string)
    requires d.state.PrevChunkSize? && AllHex(hs) && HexAcc(0, hs) <= INT64_MAX && !IsHex(c)
    requires hs != "" ==> c != ';' && c != '\r'
    ensures var f := Feed(d, hs + [c] + rest); f.Abort? && f.error == BadChunkSize && f.decoder.out == d.out
  {
    if hs == "" {
      AbortsBehind(d, "", d, c, rest, BadChunkSize);
    } else {
      ParseSize(d, hs);
      AbortsBehind(d, hs, d.(state := ChunkSize, chunkSize := HexAcc(0, hs)), c, rest, BadChunkSize);
    }
  }

  lemma SizeLineRead(d: Decoder, h: Header) returns (d1: Decoder)
    requires d.state.PrevChunkSize? && HeaderWf(h)
    ensures Eat(d, h.size + EncodeExt(h.ext) + "\r") == Some(d1)
    ensures d1 == d.(state := PrevChunkSizeLf, chunkSize := Size(h))
  {
    var d0 := d.(state := ChunkSize, chunkSize := Size(h));
    d1 := d0.(state := PrevChunkSizeLf);
    ParseSize(d, h.size);
    if h.ext.Some? {
      var d2 := d0.(state := ChunkExtension);
      EatOne(d0, ';', d2);
      SkipExtension(d2, h.ext.value);
      EatOn(d0, ";", d2, h.ext.value, d2, EncodeExt(h.ext));
      EatOne(d2, '\r', d1);
      EatOn(d, h.size, d0, EncodeExt(h.ext), d2, h.size + EncodeExt(h.ext));
      EatOn(d, h.size + EncodeExt(h.ext), d2, "\r", d1, h.size + EncodeExt(h.ext) + "\r");
    } else {
      assert h.size + EncodeExt(h.ext) == h.size;
      EatOne(d0, '\r', d1);
      EatOn(d, h.size, d0, "\r", d1, h.size + "\r");
    }
  }

  /** A size line ends with a line feed. */
  lemma NoLfAfterSize(d: Decoder, h: Header, c: char, rest: string)
    requires d.state.PrevChunkSize? && HeaderWf(h) && c != '\n'
    ensures var f := Feed(d, h.size + EncodeExt(h.ext) + "\r" + [c] + rest); f.Abort? && f.error == MissingLfAfterSize
  {
    var d1 := SizeLineRead(d, h);
    AbortsBehind(d, h.size + EncodeExt(h.ext) + "\r", d1, c, rest, MissingLfAfterSize);
  }

  lemma DataRead(d: Decoder, c: Chunk) returns (d1: Decoder)
    requires d.state.PrevChunkSize? && ChunkWf(c)
    ensures Eat(d, EncodeHeader(c.header) + c.data) == Some(d1)
    ensures d1.state.PrevChunkCr? && d1.out == d.out + c.data
  {
    var d0 := AfterHeader(d, Size(c.header));
    ParseHeader(d, c.header);
    DataSlice(d0, c.data);
    d1 := AfterData(d0, c.data);
    EatOn(d, EncodeHeader(c.header), d0, c.data, d1, EncodeHeader(c.header) + c.data);
  }

  /** The data of a chunk is followed by an end of line; what came of it has been handed over. */
  lemma NoLineAfterChunk(d: Decoder, k: Chunk, c: char, rest: string)
    requires d.state.PrevChunkSize? && ChunkWf(k)
    ensures c != '\r' ==>
      var f := Feed(d, EncodeHeader(k.header) + k.data + [c] + rest);
      f.Abort? && f.error == MissingCrAfterChunk && f.decoder.out == d.out + k.data
    ensures c != '\n' ==>
      var f := Feed(d, EncodeHeader(k.header) + k.data + "\r" + [c] + rest);
      f.Abort? && f.error == MissingLfAfterChunk && f.decoder.out == d.out + k.data
  {
    var d1 := DataRead(d, k);
    var text := EncodeHeader(k.header) + k.data;
    if c != '\r' {
      AbortsBehind(d, text, d1, c, rest, MissingCrAfterChunk);
    }
    if c != '\n' {
      var d2 := d1.(state := PrevChunkLf);
      EatOne(d1, '\r', d2);
      EatOn(d, text, d1, "\r", d2, text + "\r");
      AbortsBehind(d, text + "\r", d2, c, rest, MissingLfAfterChunk);
    }
  }

  /** So is every trailer, and the end of the message. */
  lemma NoLineAfterTrailer(d: Decoder, t: string, c: char, rest: string)
    requires d.state.PrevTrailer? && '\r' !in t && c != '\n'
    ensures var f := Feed(d, t + "\r" + [c] + rest);
      f.Abort? && f.error == if t == "" then MissingLfAtEnd else MissingLfAfterTrailer
  {
    if t == "" {
      EatOne(d, '\r', d.(state := PrevEndLf));
      assert t + "\r" == "\r";
      AbortsBehind(d, "\r", d.(state := PrevEndLf), c, rest, MissingLfAtEnd);
    } else {
      var d1, d2 := d.(state := Trailer), d.(state := PrevTrailerLf);
      assert t[0] in t && forall x :: x in t[1..] ==> x in t;
      EatOne(d, t[0], d1);
      SkipTrailer(d1, t[1..]);
      assert t == [t[0]] + t[1..];
      EatOn(d, [t[0]], d1, t[1..], d1, t);
      EatOne(d1, '\r', d2);
      EatOn(d, t, d1, "\r", d2, t + "\r");
      AbortsBehind(d, t + "\r", d2, c, rest, MissingLfAfterTrailer);
    }
  }

  // ---------- nothing else is accepted ----------

  predicate Completes(d: Decoder, data: string) {
    var f := Feed(d, data);
    f.Done? && f.decoder.state.ChunksComplete?
  }

  lemma CompletesOn(d: Decoder, data: string)
    requires Completes(d, data) && d.state != ChunksComplete
    ensures data != "" && Step(d, data[0]).Go? && Completes(Step(d, data[0]).decoder, data[1..])
  {
  }

  lemma {:induction false} RecoverDigits(d: Decoder, data: string) returns (k: nat)
    requires Completes(d, data) && d.state.ChunkSize? && 0 <= d.chunkSize <= INT64_MAX
    ensures k < |data| && AllHex(data[..k]) && HexAcc(d.chunkSize, data[..k]) <= INT64_MAX
    ensures !IsHex(data[k]) && Completes(d.(chunkSize := HexAcc(d.chunkSize, data[..k])), data[k..])
    decreases |data|
  {
    CompletesOn(d, data);
    if IsHex(data[0]) {
      GuardIsExact(d.chunkSize, HexDigit(data[0]));
      var d1, tail := Step(d, data[0]).decoder, data[1..];
      var j := RecoverDigits(d1, tail);
      k := j + 1;
      assert data[..k][1..] == tail[..j];
      assert data[..k][0] == data[0];
      assert tail[j..] == data[k..];
    } else {
      k := 0;
    }
  }

  lemma {:induction false} RecoverExtension(d: Decoder, data: string) returns (k: nat)
    requires Completes(d, data) && d.state.ChunkExtension?
    ensures k < |data| && '\r' !in data[..k] && data[k] == '\r'
    ensures Completes(d.(state := PrevChunkSizeLf), data[k + 1..])
    decreases |data|
  {
    CompletesOn(d, data);
    if data[0] == '\r' {
      k := 0;
    } else {
      var tail := data[1..];
      var j := RecoverExtension(d, tail);
      k := j + 1;
      assert data[..k] == [data[0]] + tail[..j];
      assert tail[j + 1..] == data[k + 1..];
    }
  }

  lemma {:induction false} RecoverTrailer(d: Decoder, data: string) returns (k: nat)
    requires Completes(d, data) && d.state.Trailer?
    ensures k < |data| && '\r' !in data[..k] && data[k] == '\r'
    ensures Completes(d.(state := PrevTrailerLf), data[k + 1..])
    decreases |data|
  {
    CompletesOn(d, data);
    if data[0] == '\r' {
      k := 0;
    } else {
      var tail := data[1..];
      var j := RecoverTrailer(d, tail);
      k := j + 1;
      assert data[..k] == [data[0]] + tail[..j];
      assert tail[j + 1..] == data[k + 1..];
    }
  }

  lemma RecoverSizeEnd(d: Decoder, data: string) returns (ext: Option<string>)
    requires Completes(d, data) && d.state.ChunkSize? && data != "" && !IsHex(data[0])
    ensures (ext.Some? ==> '\r' !in ext.value) && EncodeExt(ext) + "\r\n" <= data
    ensures Completes(AfterHeader(d, d.chunkSize), data[|EncodeExt(ext) + "\r\n"|..])
  {
    CompletesOn(d, data);
    var tail, d2 := data[1..], d.(state := PrevChunkSizeLf);
    if data[0] == ';' {
      var k := RecoverExtension(d.(state := ChunkExtension), tail);
      ext := Some(tail[..k]);
      CompletesOn(d2, tail[k + 1..]);
      assert EncodeExt(ext) + "\r\n" == data[..k + 3];
      assert tail[k + 1..][1..] == data[k + 3..];
    } else {
      ext := None;
      CompletesOn(d2, tail);
      assert EncodeExt(ext) + "\r\n" == data[..2];
      assert tail[1..] == data[2..];
    }
  }

  lemma RecoverSize(d: Decoder, data: string) returns (k: nat)
    requires Completes(d, data) && d.state.PrevChunkSize?
    ensures 0 < k < |data| && AllHex(data[..k]) && HexAcc(0, data[..k]) <= INT64_MAX && !IsHex(data[k])
    ensures Completes(d.(state := ChunkSize, chunkSize := HexAcc(0, data[..k])), data[k..])
  {
    CompletesOn(d, data);
    var j := RecoverDigits(Step(d, data[0]).decoder, data[1..]);
    k := j + 1;
    assert data[..k][1..] == data[1..][..j] && data[..k][0] == data[0];
    assert data[1..][j..] == data[k..];
  }

  lemma RecoverHeader(d: Decoder, data: string) returns (h: Header)
    requires Completes(d, data) && d.state.PrevChunkSize?
    ensures HeaderWf(h) && EncodeHeader(h) <= data
    ensures Completes(AfterHeader(d, Size(h)), data[|EncodeHeader(h)|..])
  {
    var k := RecoverSize(d, data);
    var ext := RecoverSizeEnd(d.(state := ChunkSize, chunkSize := HexAcc(0, data[..k])), data[k..]);
    h := Header(data[..k], ext);
    TwoParts(data, k, EncodeExt(ext) + "\r\n");
  }

  lemma TwoParts(data: string, k: nat, part: string)
    requires k <= |data| && part <= data[k..]
    ensures data[..k] + part <= data && data[k..][|part|..] == data[|data[..k] + part|..]
  {
  }

  lemma {:induction false} RecoverData(d: Decoder, data: string)
    requires Completes(d, data) && d.state.ChunkData? && d.chunkRemaining > 0
    ensures |data| >= d.chunkRemaining
    ensures Completes(AfterData(d, data[..d.chunkRemaining]), data[d.chunkRemaining..])
    decreases |data|
  {
    CompletesOn(d, data);
    var n := d.chunkRemaining;
    if n > 1 {
      var d1, tail := AfterData(d, [data[0]]), data[1..];
      RecoverData(d1, tail);
      assert d.out + data[..n] == d1.out + tail[..n - 1];
      assert tail[n - 1..] == data[n..];
    } else {
      assert data[..1] == [data[0]];
    }
  }

  lemma {:induction false} RecoverTrailers(d: Decoder, data: string) returns (ts: seq<string>)
    requires Completes(d, data) && d.state.PrevTrailer?
    ensures (forall t :: t in ts ==> t != "" && '\r' !in t) && EncodeTrailers(ts) <= data
    decreases |data|
  {
    CompletesOn(d, data);
    var tail := data[1..];
    if data[0] == '\r' {
      CompletesOn(d.(state := PrevEndLf), tail);
      assert data[..2] == "\r\n";
      ts := [];
    } else {
      var k := RecoverTrailer(d.(state := Trailer), tail);
      var after := tail[k + 1..];
      CompletesOn(d.(state := PrevTrailerLf), after);
      var ts1 := RecoverTrailers(d, after[1..]);
      var t := data[..k + 1];
      assert t == [data[0]] + tail[..k];
      ts := [t] + ts1;
      assert after[1..] == data[k + 3..];
      assert t + "\r\n" == data[..k + 3];
      assert EncodeTrailers(ts) == data[..k + 3] + EncodeTrailers(ts1);
    }
  }

  /** Behind the size line of a chunk that is not the last: its data and its line end. */
  lemma RecoverChunk(d: Decoder, h: Header, data: string) returns (c: Chunk, d1: Decoder)
    requires HeaderWf(h) && Size(h) > 0 && d.state.PrevChunkSize?
    requires EncodeHeader(h) <= data && Completes(AfterHeader(d, Size(h)), data[|EncodeHeader(h)|..])
    ensures c.header == h && ChunkWf(c) && EncodeChunk(c) <= data
    ensures d1.state.PrevChunkSize? && Completes(d1, data[|EncodeChunk(c)|..])
  {
    var d0, after, n := AfterHeader(d, Size(h)), data[|EncodeHeader(h)|..], Size(h);
    RecoverData(d0, after);
    var d2, rest := AfterData(d0, after[..n]), after[n..];
    CompletesOn(d2, rest);
    CompletesOn(d2.(state := PrevChunkLf), rest[1..]);
    c := Chunk(h, after[..n]);
    d1 := d2.(state := PrevChunkSize, chunkSize := 0, chunkRemaining := 0);
    assert rest[..2] == "\r\n" && rest[1..][1..] == rest[2..];
  }

  lemma {:induction false} RecoverMessage(d: Decoder, data: string) returns (m: Message)
    requires Completes(d, data) && d.state.PrevChunkSize?
    ensures MessageWf(m) && Encode(m) <= data
    decreases |data|
  {
    var h := RecoverHeader(d, data);
    if Size(h) == 0 {
      var ts := RecoverTrailers(AfterHeader(d, Size(h)), data[|EncodeHeader(h)|..]);
      m := Message([], h, ts);
    } else {
      var c, d1 := RecoverChunk(d, h, data);
      var m1 := RecoverMessage(d1, data[|EncodeChunk(c)|..]);
      m := m1.(chunks := [c] + m1.chunks);
      assert m.chunks[1..] == m1.chunks;
      assert Encode(m) == EncodeChunk(c) + Encode(m1);
    }
  }

  /** The decoder completes exactly on streams that begin with the encoding of a message,
      and then hands over the body of that message and processes no more than its encoding. */
  lemma AcceptsExactlyMessages(data: string)
    ensures Completes(FRESH, data) <==> exists m :: MessageWf(m) && Encode(m) <= data
    ensures forall m :: MessageWf(m) && Encode(m) <= data ==>
              Feed(FRESH, data) == Done(Decoder(ChunksComplete, 0, 0, Body(m.chunks)), |Encode(m)|)
  {
    forall m | MessageWf(m) && Encode(m) <= data
      ensures Feed(FRESH, data) == Done(Decoder(ChunksComplete, 0, 0, Body(m.chunks)), |Encode(m)|)
    {
      assert data == Encode(m) + data[|Encode(m)|..];
      DecodesEncoding(m, data[|Encode(m)|..]);
    }
    if Completes(FRESH, data) {
      var m := RecoverMessage(FRESH, data);
    }
  }
}
