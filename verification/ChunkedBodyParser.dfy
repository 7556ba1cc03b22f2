/** The resumable chunked-body parser. It may stop at any input byte and at any output byte. */
module ChunkedBodies {
  import opened Octets
  import opened Buffers
  import opened Connections
  import opened Scanners
  import opened BodySinks
  import opened ChunkGrammar

  datatype ChunkState =
    | ParseChunkSize | ParseChunkSizeLf | ForwardChunkSize
    | ParseChunk | ForwardIncompleteChunk | ForwardCompleteChunk
    | ParseTrailerCr | ParseTrailerLf | ForwardTrailerCrlf

  /** Orders the states that consume no input, for termination. */
  function Rank(s: ChunkState): (r: nat) {
    match s
    case ForwardTrailerCrlf => 4
    case ForwardChunkSize => 3
    case ParseChunk => 2
    case ForwardIncompleteChunk => 1
    case ForwardCompleteChunk => 1
    case _ => 0
  }

  class ChunkedBodyParser {
    const sink: BodySink
    var state: ChunkState
    /** The size of the current chunk, as far as its digits have been read. */
    var size: nat
    var sizeLength: nat
    var spaces: nat
    /** How much of the current chunk has been read. */
    var got: nat

    /** The place in the grammar the concrete state stands for. */
    ghost function Phase(): (p: Phase)
      reads this
      ensures p != Bad
    {
      match state
      case ParseChunkSize => Size(size, sizeLength, spaces)
      case ParseChunkSizeLf => SizeLf(size)
      case ForwardChunkSize => AfterSize(size)
      case ParseChunk => Data(size, got)
      case ForwardIncompleteChunk => Data(size, got)
      case ForwardCompleteChunk => TrailerCr(size)
      case ParseTrailerCr => TrailerCr(size)
      case ParseTrailerLf => TrailerLf(size)
      case ForwardTrailerCrlf => AfterTrailer(size)
    }

    /** Output that has been decided but not yet accepted by the destination. */
    ghost function Queued(buf: ReadWriteBuffer): (q: Bytes)
      requires Inv(buf)
      reads this, buf, sink.chunkSize, sink.endline, sink.dest
    {
      match state
      case ForwardChunkSize => sink.chunkSize.Pending()
      case ForwardIncompleteChunk => buf.Pending()
      case ForwardCompleteChunk => buf.Pending()
      case ForwardTrailerCrlf => sink.endline.Pending()
      case _ => []
    }

    /** Everything the destination has been or will be given for the bytes read so far. */
    ghost function Total(buf: ReadWriteBuffer): (t: Bytes)
      requires Inv(buf)
      reads this, buf, sink.chunkSize, sink.endline, sink.dest
    {
      sink.dest.sent + Queued(buf)
    }

    ghost predicate InRange()
      reads this`size, this`sizeLength, this`spaces
    {
      sizeLength <= CHUNK_SIZE_LENGTH && size < Pow16(sizeLength) && spaces <= MAX_SPACES
    }

    ghost predicate Forwarding(buf: ReadWriteBuffer)
      reads this, buf, sink.dest
    {
      && buf.writePos <= buf.writeEnd == buf.processPos
      && (buf.writePos < buf.writeEnd || sink.dest.CanWrite())
    }

    /** The CR LF that will follow the chunk is still to be sent. */
    ghost predicate Rewound()
      reads sink.endline
    {
      sink.endline.writePos == 0
    }

    ghost predicate Inv(buf: ReadWriteBuffer)
      reads this, buf, sink.chunkSize, sink.endline, sink.dest
    {
      && buf.Valid() && sink.Valid() && sink.Foreign(buf) && InRange()
      && buf.writePos <= buf.processPos
      && match state
         case ParseChunkSize => got == 0
         case ParseChunkSizeLf => got == 0 && buf.writePos == buf.processPos
         case ForwardChunkSize => got == 0 && Rewound() && sink.chunkSize.Pending() != []
         case ParseChunk => got < size && Rewound() && sink.dest.CanWrite()
         case ForwardIncompleteChunk => got < size && Rewound() && Forwarding(buf) && buf.processPos == |buf.data|
         case ForwardCompleteChunk => Rewound() && Forwarding(buf)
         case ParseTrailerCr => Rewound() && buf.writePos == buf.processPos
         case ParseTrailerLf => Rewound() && buf.writePos == buf.processPos
         case ForwardTrailerCrlf => buf.writePos == buf.processPos && sink.endline.Pending() != []
    }

    /** Between calls a parser that waits to forward body bytes really has some. */
    ghost predicate AtRest(buf: ReadWriteBuffer)
      reads this, buf, sink.chunkSize, sink.endline, sink.dest
    {
      && Inv(buf)
      && (state == ForwardIncompleteChunk || state == ForwardCompleteChunk ==> buf.writePos < buf.writeEnd)
    }

    /** The parser has moved from phase p and total t, with the process position at k, by reading
        exactly the bytes from k to the process position. */
    ghost predicate Consumed(p: Phase, t: Bytes, k: nat, buf: ReadWriteBuffer)
      requires Inv(buf)
      reads this, buf, sink.chunkSize, sink.endline, sink.dest
    {
      && k <= buf.processPos
      && Phase() == After(p, buf.data[k..buf.processPos])
      && Total(buf) == t + Output(p, buf.data[k..buf.processPos])
    }

    /** The byte at the process position cannot continue a chunked body. */
    ghost predicate Refused(p: Phase, t: Bytes, k: nat, buf: ReadWriteBuffer)
      reads buf, sink.dest
    {
      && buf.Valid()
      && k <= buf.processPos < |buf.data|
      && After(p, buf.data[k..buf.processPos]) != Bad && After(p, buf.data[k..buf.processPos]) != Done
      && After(p, buf.data[k..buf.processPos + 1]) == Bad
      && sink.dest.sent <= t + Output(p, buf.data[k..buf.processPos])
    }

    /** The bytes from k to the process position end a body, and all of its re-encoding is out. */
    ghost predicate Finished(p: Phase, t: Bytes, k: nat, buf: ReadWriteBuffer)
      reads buf, sink.chunkSize, sink.endline, sink.dest
    {
      && buf.Valid() && sink.Valid() && sink.dest.CanWrite()
      && k <= buf.processPos == buf.writePos
      && After(p, buf.data[k..buf.processPos]) == Done
      && sink.dest.sent == t + Output(p, buf.data[k..buf.processPos])
    }

    /** What each status a call may return with promises. */
    ghost predicate Settled(s: Status, p: Phase, t: Bytes, k: nat, buf: ReadWriteBuffer)
      reads this, buf, sink.chunkSize, sink.endline, sink.dest
    {
      if s == Invalid || s == DataOverflow then Refused(p, t, k, buf)
      else if s == Complete then Finished(p, t, k, buf)
      else
        && AtRest(buf) && Consumed(p, t, k, buf)
        && (s == Incomplete ==> Phase() != Done && Queued(buf) == [] && buf.processPos == buf.writePos == |buf.data|)
        && (s == WriteIncomplete ==> Queued(buf) != [] && !sink.dest.CanWrite())
        && (s == IoFailure ==> !sink.dest.OpenForWrite())
    }

    constructor (sink: BodySink)
      ensures this.sink == sink && Phase() == START && InRange() && state == ParseChunkSize && got == 0
    {
      this.sink := sink;
      state, size, sizeLength, spaces, got := ParseChunkSize, 0, 0, 0, 0;
    }

    method Reset()
      modifies this
      ensures state == ParseChunkSize && Phase() == START && InRange() && got == 0
    {
      state, size, sizeLength, spaces, got := ParseChunkSize, 0, 0, 0, 0;
    }

    /** Reads digits and spaces up to the CR. */
    method ScanSize(buf: ReadWriteBuffer) returns (s: Status)
      requires buf.Valid() && InRange()
      modifies this`size, `sizeLength, `spaces, buf`processPos
      ensures buf.Valid() && InRange()
      ensures old(buf.processPos) <= buf.processPos
      ensures s in {Incomplete, Complete, Invalid, DataOverflow}
      ensures s == Incomplete ==> buf.processPos == |buf.data|
      ensures s == Incomplete ==>
        After(Size(old(size), old(sizeLength), old(spaces)), buf.data[old(buf.processPos)..buf.processPos])
        == Size(size, sizeLength, spaces)
      ensures s == Complete ==> old(buf.processPos) < buf.processPos && buf.data[buf.processPos - 1] == CR
      ensures forall i :: old(buf.processPos) <= i < buf.processPos && buf.data[i] == CR ==>
        s == Complete && i == buf.processPos - 1
      ensures s == Complete ==>
        After(Size(old(size), old(sizeLength), old(spaces)), buf.data[old(buf.processPos)..buf.processPos]) == SizeLf(size)
      ensures s == Invalid || s == DataOverflow ==> buf.processPos < |buf.data|
      ensures s == Invalid || s == DataOverflow ==>
        After(Size(old(size), old(sizeLength), old(spaces)), buf.data[old(buf.processPos)..buf.processPos]).Size?
      ensures s == Invalid || s == DataOverflow ==>
        After(Size(old(size), old(sizeLength), old(spaces)), buf.data[old(buf.processPos)..buf.processPos + 1]) == Bad
      ensures Output(Size(old(size), old(sizeLength), old(spaces)), buf.data[old(buf.processPos)..buf.processPos]) == []
    {
      hide After, Output;
      ghost var p, k := Size(size, sizeLength, spaces), buf.processPos;
      ReadNone(p, buf.data, k);
      while true
        invariant buf.Valid() && InRange() && k <= buf.processPos
        invariant forall i :: k <= i < buf.processPos ==> buf.data[i] != CR
        invariant After(p, buf.data[k..buf.processPos]) == Size(size, sizeLength, spaces)
        invariant Output(p, buf.data[k..buf.processPos]) == []
        decreases |buf.data| - buf.processPos
      {
        if buf.processPos >= |buf.data| {
          return Incomplete;
        }
        var ch := buf.data[buf.processPos];
        ReadSizeByte(p, buf.data, k, buf.processPos, size, sizeLength, spaces);
        if IsHex(ch) && spaces == 0 {
          if sizeLength >= CHUNK_SIZE_LENGTH {
            spaces := 0;
            return DataOverflow;
          }
          size := 16 * size + HexDigitValue(ch);
          buf.SetProcessPosition(buf.processPos + 1);
          sizeLength := sizeLength + 1;
        } else if ch == SP && spaces < MAX_SPACES {
          buf.SetProcessPosition(buf.processPos + 1);
          spaces := spaces + 1;
        } else if ch == CR {
          buf.SetProcessPosition(buf.processPos + 1);
          spaces := 0;
          return Complete;
        } else {
          spaces := 0;
          return Invalid;
        }
      }
    }

    method StepChunkSize(buf: ReadWriteBuffer, ghost p: Phase, ghost t: Bytes, ghost k: nat)
      returns (s: Status, more: bool)
      requires Inv(buf) && Consumed(p, t, k, buf) && state == ParseChunkSize
      modifies this, buf`processPos, buf`writePos, buf`writeEnd
      ensures old(buf.processPos) <= buf.processPos
      ensures more ==> Inv(buf) && Consumed(p, t, k, buf) && old(buf.processPos) < buf.processPos
      ensures !more ==> s != WriteIncomplete && s != IoFailure && s != Complete && Settled(s, p, t, k, buf)
    {
      hide InRange, Forwarding, After, Output, Next, Emit, SizeStep, SizeLine, Hex, Pow16;
      ghost var k1 := buf.processPos;
      s := ScanSize(buf);
      ReadSilent(p, buf.data, k, k1, buf.processPos);
      buf.SetWritePosition(buf.processPos);
      buf.SetWriteEndPosition(buf.processPos);
      more := s == Complete;
      if more {
        state := ParseChunkSizeLf;
      }
    }

    lemma SizePrints()
      requires InRange()
      ensures size < Pow16(CHUNK_SIZE_LENGTH)
    {
      SizeFits(size, sizeLength);
    }

    method StepChunkSizeLf(buf: ReadWriteBuffer, ghost p: Phase, ghost t: Bytes, ghost k: nat)
      returns (s: Status, more: bool)
      requires Inv(buf) && Consumed(p, t, k, buf) && state == ParseChunkSizeLf
      modifies this`state, buf`processPos, sink.chunkSize, sink.endline`writePos
      ensures old(buf.processPos) <= buf.processPos
      ensures more ==> Inv(buf) && Consumed(p, t, k, buf) && old(buf.processPos) < buf.processPos
      ensures !more ==> s != WriteIncomplete && s != IoFailure && s != Complete && Settled(s, p, t, k, buf)
    {
      hide Forwarding, After, Output, Next, Emit, Hex, Pow16, SizeLine, InRange;
      if buf.processPos < |buf.data| {
        ReadSizeLf(p, t, buf.data, k, buf.processPos, size);
      }
      s := ParseChar(buf, LF);
      more := s == Complete;
      if more {
        SizePrints();
        sink.SetChunkSize(size);
        state := ForwardChunkSize;
      }
    }

    method StepForwardChunkSize(buf: ReadWriteBuffer, ghost p: Phase, ghost t: Bytes, ghost k: nat)
      returns (s: Status, more: bool)
      requires Inv(buf) && Consumed(p, t, k, buf) && state == ForwardChunkSize
      modifies this`state, buf`writePos, sink.chunkSize`writePos
      modifies sink.dest`readyToWrite, sink.dest`state, sink.dest`sent, sink.dest`writeScript
      ensures s != IoFailure ==> sink.dest.state == old(sink.dest.state)
      ensures sink.dest.Honest(s == IoFailure)
      ensures more ==> s == Complete && Inv(buf) && Consumed(p, t, k, buf) && Rank(state) < Rank(old(state))
      ensures !more ==> (s == WriteIncomplete || s == IoFailure) && Settled(s, p, t, k, buf)
    {
      hide After, Output, Hex, Pow16, SizeLine;
      s := sink.Forward(sink.chunkSize);
      more := s == Complete;
      if more {
        if size > 0 {
          state := ParseChunk;
        } else {
          buf.SetWritePosition(buf.processPos);
          state := ParseTrailerCr;
        }
      } else if s == Incomplete {
        s := WriteIncomplete;
      }
    }

    method StepChunk(buf: ReadWriteBuffer, ghost p: Phase, ghost t: Bytes, ghost k: nat)
      requires Inv(buf) && Consumed(p, t, k, buf) && state == ParseChunk
      modifies this`state, this`got, buf`processPos, buf`writePos, buf`writeEnd
      ensures Inv(buf) && Consumed(p, t, k, buf)
      ensures old(buf.processPos) <= buf.processPos
      ensures state == ForwardIncompleteChunk || state == ForwardCompleteChunk
    {
      hide InRange, After, Output, Next, Emit, Hex, Pow16, SizeLine, BodySink.Valid;
      ghost var k1, n := buf.processPos, got;
      assert sink.dest.sent == t + Output(p, buf.data[k..k1]);
      buf.SetWritePosition(buf.processPos);
      var s, length := ParseNLengthBuffer(buf, got, size);
      ReadDataRun(p, t, buf.data, k, k1, buf.processPos, size, n);
      buf.SetWriteEndPosition(buf.processPos);
      got, state := length, if s == Complete then ForwardCompleteChunk else ForwardIncompleteChunk;
      assert Inv(buf) && Queued(buf) == buf.data[k1..buf.processPos];
    }

    method StepForwardIncomplete(buf: ReadWriteBuffer, ghost p: Phase, ghost t: Bytes, ghost k: nat)
      returns (s: Status)
      requires Inv(buf) && Consumed(p, t, k, buf) && state == ForwardIncompleteChunk
      modifies this`state, buf`writePos, buf`writeEnd
      modifies sink.dest`readyToWrite, sink.dest`state, sink.dest`sent, sink.dest`writeScript
      ensures s != IoFailure ==> sink.dest.state == old(sink.dest.state)
      ensures sink.dest.Honest(s == IoFailure)
      ensures (s == Incomplete || s == WriteIncomplete || s == IoFailure) && Settled(s, p, t, k, buf)
    {
      hide InRange, After, Output, Hex, Pow16;
      s := sink.SetBody(buf);
      if s == Complete {
        buf.SetWriteEndPosition(|buf.data|);
        s := Incomplete;
        state := ParseChunk;
      } else if s == Incomplete {
        s := WriteIncomplete;
      }
    }

    method StepForwardComplete(buf: ReadWriteBuffer, ghost p: Phase, ghost t: Bytes, ghost k: nat)
      returns (s: Status, more: bool)
      requires Inv(buf) && Consumed(p, t, k, buf) && state == ForwardCompleteChunk
      modifies this`state, buf`writePos, buf`writeEnd
      modifies sink.dest`readyToWrite, sink.dest`state, sink.dest`sent, sink.dest`writeScript
      ensures s != IoFailure ==> sink.dest.state == old(sink.dest.state)
      ensures sink.dest.Honest(s == IoFailure)
      ensures more ==> s == Complete && Inv(buf) && Consumed(p, t, k, buf) && Rank(state) < Rank(old(state))
      ensures !more ==> (s == WriteIncomplete || s == IoFailure) && Settled(s, p, t, k, buf)
    {
      hide InRange, After, Output, Hex, Pow16;
      s := sink.SetBody(buf);
      more := s == Complete;
      if more {
        buf.SetWriteEndPosition(|buf.data|);
        state := ParseTrailerCr;
      } else if s == Incomplete {
        s := WriteIncomplete;
      }
    }

    method StepTrailerCr(buf: ReadWriteBuffer, ghost p: Phase, ghost t: Bytes, ghost k: nat)
      returns (s: Status, more: bool)
      requires Inv(buf) && Consumed(p, t, k, buf) && state == ParseTrailerCr
      modifies this`state, buf`processPos, buf`writePos
      ensures old(buf.processPos) <= buf.processPos
      ensures more ==> Inv(buf) && Consumed(p, t, k, buf) && old(buf.processPos) < buf.processPos
      ensures !more ==> s != WriteIncomplete && s != IoFailure && s != Complete && Settled(s, p, t, k, buf)
    {
      hide InRange, Forwarding, After, Output, Next, Emit, Hex, Pow16, SizeLine;
      if buf.processPos < |buf.data| {
        ReadTrailerCr(p, buf.data, k, buf.processPos, size);
      }
      s := ParseChar(buf, CR);
      more := s == Complete;
      if more {
        buf.SetWritePosition(buf.processPos);
        state := ParseTrailerLf;
      }
    }

    method StepTrailerLf(buf: ReadWriteBuffer, ghost p: Phase, ghost t: Bytes, ghost k: nat)
      returns (s: Status, more: bool)
      requires Inv(buf) && Consumed(p, t, k, buf) && state == ParseTrailerLf
      modifies this`state, buf`processPos, buf`writePos
      ensures old(buf.processPos) <= buf.processPos
      ensures more ==> Inv(buf) && Consumed(p, t, k, buf) && old(buf.processPos) < buf.processPos
      ensures !more ==> s != WriteIncomplete && s != IoFailure && s != Complete && Settled(s, p, t, k, buf)
    {
      hide InRange, Forwarding, After, Output, Next, Emit, Hex, Pow16, SizeLine;
      if buf.processPos < |buf.data| {
        ReadTrailerLf(p, t, buf.data, k, buf.processPos, size);
      }
      s := ParseChar(buf, LF);
      more := s == Complete;
      if more {
        buf.SetWritePosition(buf.processPos);
        state := ForwardTrailerCrlf;
      }
    }

    method StepForwardTrailer(buf: ReadWriteBuffer, ghost p: Phase, ghost t: Bytes, ghost k: nat)
      returns (s: Status, more: bool)
      requires Inv(buf) && Consumed(p, t, k, buf) && state == ForwardTrailerCrlf
      modifies this, sink.endline`writePos
      modifies sink.dest`readyToWrite, sink.dest`state, sink.dest`sent, sink.dest`writeScript
      ensures s != IoFailure ==> sink.dest.state == old(sink.dest.state)
      ensures sink.dest.Honest(s == IoFailure)
      ensures more ==> s == Complete && Inv(buf) && Consumed(p, t, k, buf) && Rank(state) < Rank(old(state))
      ensures !more ==> s != Invalid && s != DataOverflow && s != Incomplete && Settled(s, p, t, k, buf)
    {
      hide Forwarding, After, Output, Hex, Pow16;
      s := sink.Forward(sink.endline);
      more := s == Complete && size > 0;
      if s == Complete {
        if size == 0 {
          var nullBuffer := new ReadWriteBuffer(0);
          var ignored := sink.SetBody(nullBuffer);
        } else {
          Reset();
        }
      } else if s == Incomplete {
        s := WriteIncomplete;
      }
    }

    /** Reads as much of a chunked body as the buffer holds and the destination accepts. However
        the stream is cut and whenever writes fall short, what has been sent and what is queued
        add up to the reference re-encoding of exactly the bytes read. */
    method ParseBody(buf: ReadWriteBuffer) returns (s: Status)
      requires AtRest(buf)
      modifies this, buf`processPos, buf`writePos, buf`writeEnd, sink.chunkSize, sink.endline`writePos
      modifies sink.dest`readyToWrite, sink.dest`state, sink.dest`sent, sink.dest`writeScript
      ensures Settled(s, old(Phase()), old(Total(buf)), old(buf.processPos), buf)
      ensures s != IoFailure ==> sink.dest.state == old(sink.dest.state)
      ensures sink.dest.Honest(s == IoFailure)
    {
      hide After, Output, Hex, Pow16, Queued;
      ghost var p, t, k := Phase(), Total(buf), buf.processPos;
      ReadNone(p, buf.data, k);
      var more := true;
      s := Incomplete;
      while more
        invariant buf.data == old(buf.data)
        invariant more ==> Inv(buf) && Consumed(p, t, k, buf)
        invariant !more ==> Settled(s, p, t, k, buf)
        invariant buf.processPos <= |buf.data|
        invariant (!more && s == IoFailure) || sink.dest.state == old(sink.dest.state)
        invariant sink.dest.Honest(!more && s == IoFailure)
        decreases more, |buf.data| - buf.processPos, Rank(state)
      {
        match state {
          case ParseChunkSize => s, more := StepChunkSize(buf, p, t, k);
          case ParseChunkSizeLf => s, more := StepChunkSizeLf(buf, p, t, k);
          case ForwardChunkSize => s, more := StepForwardChunkSize(buf, p, t, k);
          case ParseChunk => StepChunk(buf, p, t, k);
          case ForwardIncompleteChunk => s := StepForwardIncomplete(buf, p, t, k); more := false;
          case ForwardCompleteChunk => s, more := StepForwardComplete(buf, p, t, k);
          case ParseTrailerCr => s, more := StepTrailerCr(buf, p, t, k);
          case ParseTrailerLf => s, more := StepTrailerLf(buf, p, t, k);
          case ForwardTrailerCrlf => s, more := StepForwardTrailer(buf, p, t, k);
        }
      }
    }
  }
}
