/** `ChunkedDecodingStreamFilter` of `src/ChunkedDecodingStreamFilter.cc` with its fields and
    its bulk hand-over of chunk data. The delegate filter is modelled by what it receives. */
module ChunkedDecoder {
  import opened ChunkedMachine
  import opened Wrappers

  class ChunkedDecodingStreamFilter {
    var state: Control
    var chunkSize: int
    var chunkRemaining: int
    var bytesProcessed: nat
    var delegateInput: string

    ghost function View(): Decoder
      reads this
    {
      Decoder(state, chunkSize, chunkRemaining, delegateInput)
    }

    constructor ()
      ensures View() == FRESH
    {
      state := PrevChunkSize;
      chunkSize := 0;
      chunkRemaining := 0;
      bytesProcessed := 0;
      delegateInput := "";
    }

    method SizeCharacter(c: char) returns (error: Option<Error>)
      requires state.PrevChunkSize? || state.ChunkSize?
      modifies this
      ensures bytesProcessed == old(bytesProcessed)
      ensures error.None? ==> Step(old(View()), c) == Go(View())
      ensures error.Some? ==> Step(old(View()), c) == Throw(error.value) && View() == old(View())
    {
      if state == PrevChunkSize {
        if !IsHex(c) {
          return Some(BadChunkSize);
        }
        chunkSize := HexDigit(c);
        state := ChunkSize;
      } else if IsHex(c) {
        if chunkSize / 0x0800_0000_0000_0000 % 16 != 0 {
          return Some(TooBigChunkSize);
        }
        chunkSize := chunkSize * 16;
        chunkSize := chunkSize + HexDigit(c);
      } else if c == ';' {
        state := ChunkExtension;
      } else if c == '\r' {
        state := PrevChunkSizeLf;
      } else {
        return Some(BadChunkSize);
      }
      return None;
    }

    /** Every other character that is not chunk data. */
    method FramingCharacter(c: char) returns (error: Option<Error>)
      requires state != PrevChunkSize && state != ChunkSize && state != ChunkData && state != ChunksComplete
      modifies this
      ensures bytesProcessed == old(bytesProcessed)
      ensures error.None? ==> Step(old(View()), c) == Go(View())
      ensures error.Some? ==> Step(old(View()), c) == Throw(error.value) && View() == old(View())
    {
      error := None;
      if state == ChunkExtension {
        if c == '\r' {
          state := PrevChunkSizeLf;
        }
      } else if state == PrevChunkSizeLf {
        if c != '\n' {
          return Some(MissingLfAfterSize);
        }
        chunkRemaining := chunkSize;
        if chunkSize == 0 {
          state := PrevTrailer;
        } else {
          state := ChunkData;
        }
      } else if state == PrevChunkCr {
        if c != '\r' {
          return Some(MissingCrAfterChunk);
        }
        state := PrevChunkLf;
      } else if state == PrevChunkLf {
        if c != '\n' {
          return Some(MissingLfAfterChunk);
        }
        if chunkSize == 0 {
          state := PrevTrailer;
        } else {
          chunkSize, chunkRemaining := 0, 0;
          state := PrevChunkSize;
        }
      } else if state == PrevTrailer {
        if c == '\r' {
          state := PrevEndLf;
        } else {
          state := Trailer;
        }
      } else if state == Trailer {
        if c == '\r' {
          state := PrevTrailerLf;
        }
      } else if state == PrevTrailerLf {
        if c != '\n' {
          return Some(MissingLfAfterTrailer);
        }
        state := PrevTrailer;
      } else {
        if c != '\n' {
          return Some(MissingLfAtEnd);
        }
        state := ChunksComplete;
      }
    }

    /** One iteration of the loop of `Transform`. */
    method TransformStep(inbuf: string, i: nat) returns (next: nat, outlen: nat, error: Option<Error>)
      requires Wf(View()) && state != ChunksComplete && i < |inbuf|
      modifies this
      ensures Wf(View()) && bytesProcessed == old(bytesProcessed)
      ensures |delegateInput| == |old(delegateInput)| + outlen
      ensures error.None? ==> i < next <= |inbuf| && Eat(old(View()), inbuf[i..next]) == Some(View())
      ensures error.Some? ==> View() == old(View()) && Step(View(), inbuf[i]) == Throw(error.value)
    {
      ghost var d := View();
      outlen := 0;
      error := None;
      if state == ChunkData {
        var readlen := if chunkRemaining < |inbuf| - i then chunkRemaining else |inbuf| - i;
        next := i + readlen;
        DataSlice(d, inbuf[i..next]);
        delegateInput := delegateInput + inbuf[i..next];
        outlen := readlen;
        chunkRemaining := chunkRemaining - readlen;
        if chunkRemaining == 0 {
          state := PrevChunkCr;
        }
      } else {
        if state == PrevChunkSize || state == ChunkSize {
          error := SizeCharacter(inbuf[i]);
        } else {
          error := FramingCharacter(inbuf[i]);
        }
        next := i + 1;
        if error.None? {
          EatOne(d, inbuf[i], View());
          assert inbuf[i..next] == [inbuf[i]];
        }
      }
    }

    /** Decodes `inbuf`, handing chunk data to the delegate a slice at a time. An abort leaves
        `bytesProcessed` at zero; otherwise it counts what was processed, and `outlen` what
        the delegate received in this call. */
    method Transform(inbuf: string) returns (outlen: nat, error: Option<Error>)
      requires Wf(View())
      modifies this
      ensures Wf(View())
      ensures error.None? ==> Feed(old(View()), inbuf) == Done(View(), bytesProcessed)
      ensures error.Some? ==> Feed(old(View()), inbuf) == Abort(View(), error.value) && bytesProcessed == 0
      ensures |delegateInput| == |old(delegateInput)| + outlen
    {
      outlen := 0;
      error := None;
      var i := 0;
      bytesProcessed := 0;
      while i < |inbuf| && state != ChunksComplete
        invariant 0 <= i <= |inbuf| && Wf(View()) && bytesProcessed == 0 && error.None?
        invariant Eat(old(View()), inbuf[..i]) == Some(View())
        invariant |delegateInput| == |old(delegateInput)| + outlen
        decreases |inbuf| - i
      {
        ghost var d := View();
        var next, written;
        next, written, error := TransformStep(inbuf, i);
        outlen := outlen + written;
        if error.Some? {
          FeedAfter(old(View()), inbuf[..i], d, inbuf[i..]);
          assert inbuf[..i] + inbuf[i..] == inbuf;
          return;
        }
        assert inbuf[..i] + inbuf[i..next] == inbuf[..next];
        EatOn(old(View()), inbuf[..i], d, inbuf[i..next], View(), inbuf[..next]);
        i := next;
      }
      FeedAfter(old(View()), inbuf[..i], View(), inbuf[i..]);
      assert inbuf[..i] + inbuf[i..] == inbuf;
      bytesProcessed := bytesProcessed + i;
    }

    /** `finished()`, given what the delegate answers. */
    method Finished(delegateFinished: bool) returns (finished: bool)
      ensures finished <==> View().state.ChunksComplete? && delegateFinished
    {
      return state == ChunksComplete && delegateFinished;
    }
  }
}
