/** Drives one direction of a proxied connection: reads when the buffer is free, lets the stream
    handler work, and waits for the next event. */
module Proxies {
  import opened Octets
  import opened Buffers
  import opened Connections
  import opened HeaderHandlers
  import opened MessageBuffers
  import opened LengthBodies
  import opened ChunkedBodies
  import opened HeaderParsers
  import opened HeaderWriters
  import opened BodySinks
  import opened StreamHandlers
  import opened StreamGrammar
  import H = HeaderGrammar

  ghost predicate Apart(src: Connection, h: StreamHandler) {
    !src.buffer.isStatic && src != h.sink.dest
  }

  ghost predicate Ready(src: Connection, h: StreamHandler)
    reads h.message, h.Footprint(src.buffer)
  {
    h.Inv(src.buffer) && Apart(src, h)
  }

  /** A buffer that may be refilled holds nothing unread and nothing to send, and a fresh buffer
      leaves the handler where it was. */
  lemma RefillIsSafe(src: Connection, h: StreamHandler)
    requires h.Wired()
    ensures Ready(src, h) && src.buffer.FullyWritten() ==> src.buffer.Unread() == []
  {
  }

  /** The first read of script has delivered what it could of rest. */
  ghost predicate Delivered(src: Connection, script: seq<ReadOutcome>, rest: Bytes)
    reads src, src.buffer
  {
    match FirstRead(script)
    case Deliver(n) =>
      && |src.buffer.data| == Min(n, Min(src.buffer.capacity, |rest|)) && (src.buffer.data != [] ==> src.CanRead())
      && src.buffer.processPos == src.buffer.writePos == 0
    case _ => true
  }

  /** Reading more input changes neither the handler's place nor what it still has to send, and
      loses no byte. A buffer that is not fully written stays as it is; in particular one that ends
      inside a start line. */
  method Refill(src: Connection, h: StreamHandler) returns (s: NetStatus)
    requires Apart(src, h) && (h.Inv(src.buffer) || h.Stalled(src.buffer))
    modifies src`readyToRead, src`state, src`incoming, src`readScript
    modifies src.buffer`data, src.buffer`processPos, src.buffer`writePos, src.buffer`writeEnd
    ensures old(h.Inv(src.buffer)) ==>
      && Ready(src, h)
      && h.Place(src.buffer) == old(h.Place(src.buffer)) && h.Queued(src.buffer) == old(h.Queued(src.buffer))
    ensures src.buffer.Valid() && src.buffer.Unread() + src.incoming == old(src.buffer.Unread() + src.incoming)
    ensures |src.readScript| <= |old(src.readScript)|
    ensures (old(src.Sound()) ==> src.Sound()) && (old(src.Eager()) ==> src.Eager()) && (old(src.Willing()) ==> src.Willing())
    ensures src.CanRead() && old(src.buffer.FullyWritten()) ==> |src.readScript| < |old(src.readScript)|
    ensures !old(src.buffer.FullyWritten()) ==> unchanged(src, src.buffer)
    ensures old(h.Stalled(src.buffer)) ==> unchanged(src, src.buffer) && h.Stalled(src.buffer)
    ensures old(src.CanRead()) && old(src.buffer.FullyWritten()) ==> Delivered(src, old(src.readScript), old(src.incoming))
  {
    hide After, Output, BodyPlace, AfterChunk, MessageBuffer.Valid, HeaderParser.Fresh, HeaderParser.AtRest, HeaderParser.Phase;
    hide HeaderWriter.Valid, HeaderWriter.Left, HeaderWriter.Separators, HeaderHandler.Kind, BodySink.Valid;
    hide ChunkedBodyParser.Phase, ChunkedBodyParser.InRange, HeaderParser.InStartTokens, Connection.Sound, Connection.Eager, Connection.Willing, Connection.Accepting, Connection.Unfailing;
    h.StalledIsParsing(src.buffer);
    s := src.NonBlockingRead();
  }

  /** The whole of the stream so far: fed has been read, the rest waits in the buffer or with the
      operating system; sent and queued output are what fed calls for. */
  ghost predicate OnTrack(src: Connection, h: StreamHandler, stream: Bytes, fed: Bytes)
    reads src, h.message, h.Footprint(src.buffer)
  {
    && Ready(src, h) && src.buffer.Valid()
    && stream == fed + (src.buffer.Unread() + src.incoming)
    && h.Place(src.buffer) == After(h.R(), START, fed)
    && h.sink.dest.sent + h.Queued(src.buffer) == Output(h.R(), START, fed)
    && !After(h.R(), START, stream).Unframed?
  }

  /** Nothing is held back: what the bytes read so far call for has all been sent, and bytes are
      left in the buffer only for a message that waits for its slot in the pipeline. */
  ghost predicate Caught(src: Connection, h: StreamHandler, fed: Bytes)
    reads src, src.buffer, h, h.sink.dest
  {
    && h.sink.dest.sent == Output(h.R(), START, fed)
    && (h.state == StartMessage || src.buffer.processPos == |src.buffer.data|)
  }

  /** Some byte of the stream broke the protocol; only output due before it was sent. */
  ghost predicate Rejected(h: StreamHandler, stream: Bytes)
    reads h.sink.dest
  {
    After(h.R(), START, stream) == Refused && h.sink.dest.sent <= Output(h.R(), START, stream)
  }

  /** A start line was cut short by the end of the buffer. Everything before it was sent, and
      since the cursors stay in front of it the buffer cannot be refilled. */
  ghost predicate CutOff(src: Connection, h: StreamHandler, stream: Bytes, fed: Bytes)
    reads src, src.buffer, h, h.sink.dest
  {
    && src.buffer.Valid() && !src.buffer.FullyWritten() && h.state == ParseHeader
    && stream == fed + (src.buffer.Unread() + src.incoming)
    && After(h.R(), START, fed) == START && h.sink.dest.sent == Output(h.R(), START, fed)
    && H.InStartLine(H.After(h.R(), H.START, src.buffer.Unread()))
  }

  /** A cut start line that has not been refused: the handler will read it over again. */
  ghost predicate Halted(src: Connection, h: StreamHandler, stream: Bytes, fed: Bytes)
    reads src, h.message, h.Footprint(src.buffer)
  {
    && CutOff(src, h, stream, fed) && h.Stalled(src.buffer) && Apart(src, h)
    && !After(h.R(), START, stream).Unframed?
  }

  /** Nothing that was read has gone astray. */
  ghost predicate Serving(src: Connection, h: StreamHandler, stream: Bytes, fed: Bytes)
    reads src, h.message, h.Footprint(src.buffer)
  {
    OnTrack(src, h, stream, fed) || Halted(src, h, stream, fed)
  }

  /** Serving is in one of two ways, never in both. */
  lemma EitherWay(src: Connection, h: StreamHandler, stream: Bytes, fed: Bytes)
    ensures Halted(src, h, stream, fed) ==>
      h.Stalled(src.buffer) && !OnTrack(src, h, stream, fed) && h.state == ParseHeader && !src.buffer.FullyWritten()
    ensures OnTrack(src, h, stream, fed) ==> !h.Stalled(src.buffer)
    ensures Serving(src, h, stream, fed) ==> Apart(src, h)
  {
    h.StalledIsNotResting(src.buffer);
  }

  /** A response for which the pipeline has no request yet waits in the buffer of a source that
      could be read. */
  predicate Stuck(src: Connection, h: StreamHandler)
    reads src, src.buffer, h
  {
    && h.message.rules.stream == H.Response && h.state == StartMessage && h.slots == 0
    && !src.buffer.FullyWritten() && src.CanRead()
  }

  /** An upper bound for the turns that may still make progress without an event. */
  ghost function Effort(src: Connection, h: StreamHandler): (n: nat)
    reads src, h.message, h.Footprint(src.buffer)
  {
    var most := 3 * H.MAX_FIELD_LENGTH;
    (most + 3) * |src.readScript| +
    if h.Stalled(src.buffer) then (if h.parser.LineRank() <= most then most - h.parser.LineRank() else 0)
    else if src.buffer.FullyWritten() then most + 1
    else most + 2
  }

  /** Reading d from k to n, on top of fed, stays on the stream. */
  lemma FeedOn(r: H.Rules, stream: Bytes, fed: Bytes, d: Bytes, k: nat, n: nat, rest: Bytes, t: Bytes)
    requires k <= n <= |d| && stream == fed + (d[k..] + rest) && t == Output(r, START, fed)
    ensures stream == fed + d[k..n] + (d[n..] + rest)
    ensures After(r, START, fed + d[k..n]) == After(r, After(r, START, fed), d[k..n])
    ensures Output(r, START, fed + d[k..n]) == t + Output(r, After(r, START, fed), d[k..n])
  {
    hide After, Output;
    ReadInPieces(r, START, fed, d[k..n]);
    assert d[k..] == d[k..n] + d[n..];
  }

  /** What the unread bytes would do is part of what the stream would do. */
  lemma FramedAhead(r: H.Rules, stream: Bytes, fed: Bytes, unread: Bytes, rest: Bytes)
    requires stream == fed + (unread + rest) && !After(r, START, stream).Unframed?
    ensures !After(r, After(r, START, fed), unread).Unframed?
  {
    hide After, Output;
    ReadInPieces(r, START, fed, unread + rest);
    FramedPrefix(r, After(r, START, fed), unread, rest);
  }

  lemma RefusalIsFinal(r: H.Rules, a: Bytes, b: Bytes)
    requires After(r, START, a) == Refused
    ensures After(r, START, a + b) == Refused && Output(r, START, a + b) == Output(r, START, a)
  {
    hide After, Output;
    ReadInPieces(r, START, a, b);
    Absorbing(r, Refused, b);
  }

  /** Before the handler worked, fed had been read and buffer d stood at k. */
  ghost predicate Was(r: H.Rules, stream: Bytes, fed: Bytes, p: Place, t: Bytes, d: Bytes, k: nat, rest: Bytes) {
    && k <= |d| && stream == fed + (d[k..] + rest)
    && p == After(r, START, fed) && t == Output(r, START, fed) && !After(r, START, stream).Unframed?
  }

  /** What the handler has read since. */
  ghost function Read(src: Connection, fed: Bytes, k: nat): (fed': Bytes)
    reads src, src.buffer
  {
    if k <= src.buffer.processPos <= |src.buffer.data| then fed + src.buffer.data[k..src.buffer.processPos] else fed
  }

  lemma StaysOnTrack(src: Connection, h: StreamHandler, stream: Bytes, fed: Bytes, p: Place, t: Bytes, k: nat)
    requires Was(h.R(), stream, fed, p, t, src.buffer.data, k, src.incoming) && !src.buffer.isStatic && src != h.sink.dest
    ensures h.Inv(src.buffer) && h.Consumed(p, t, k, src.buffer) ==> OnTrack(src, h, stream, Read(src, fed, k))
  {
    hide After, Output, StreamHandler.Inv, StreamHandler.Place, StreamHandler.Queued;
    h.StandsValid(src.buffer);
    if h.Inv(src.buffer) && h.Consumed(p, t, k, src.buffer) {
      FeedOn(h.R(), stream, fed, src.buffer.data, k, src.buffer.processPos, src.incoming, t);
      assert src.buffer.Unread() == src.buffer.data[src.buffer.processPos..];
    }
  }

  /** A handler that reports it is done with the buffer holds nothing back. */
  lemma HoldsNothingBack(src: Connection, h: StreamHandler, stream: Bytes, fed: Bytes, p: Place, t: Bytes, k: nat)
    requires Was(h.R(), stream, fed, p, t, src.buffer.data, k, src.incoming) && h.Settled(NetComplete, p, t, k, src.buffer)
    ensures (h.SplitStart(p, t, k, src.buffer) && h.Stalled(src.buffer)) || Caught(src, h, Read(src, fed, k))
  {
    hide After, Output, StreamHandler.Inv, StreamHandler.Place, StreamHandler.Queued, StreamHandler.SplitStart;
    hide StreamHandler.Stalled;
    if !h.SplitStart(p, t, k, src.buffer) || !h.Stalled(src.buffer) {
      h.StandsValid(src.buffer);
      FeedOn(h.R(), stream, fed, src.buffer.data, k, src.buffer.processPos, src.incoming, t);
      if h.state == StartMessage {
        h.WhenStarting(src.buffer);
      }
    }
  }

  lemma IsCutOff(src: Connection, h: StreamHandler, stream: Bytes, fed: Bytes, p: Place, t: Bytes, k: nat)
    requires Was(h.R(), stream, fed, p, t, src.buffer.data, k, src.incoming)
    ensures h.SplitStart(p, t, k, src.buffer) ==> CutOff(src, h, stream, Read(src, fed, k))
  {
    hide After, Output, H.After;
    if h.SplitStart(p, t, k, src.buffer) {
      FeedOn(h.R(), stream, fed, src.buffer.data, k, src.buffer.processPos, src.incoming, t);
      assert src.buffer.Unread() == src.buffer.data[src.buffer.processPos..];
    }
  }

  lemma IsRejected(src: Connection, h: StreamHandler, stream: Bytes, fed: Bytes, p: Place, t: Bytes, k: nat, n: nat)
    requires Was(h.R(), stream, fed, p, t, src.buffer.data, k, src.incoming)
    ensures h.RefusedBy(p, t, k, n, src.buffer) ==> Rejected(h, stream)
  {
    hide After, Output;
    if h.RefusedBy(p, t, k, n, src.buffer) {
      var d := src.buffer.data;
      FeedOn(h.R(), stream, fed, d, k, n, src.incoming, t);
      RefusalIsFinal(h.R(), fed + d[k..n], d[n..] + src.incoming);
    }
  }

  /** What a round of work that ended with status s leaves behind. */
  ghost predicate Worked(s: NetStatus, src: Connection, h: StreamHandler, stream: Bytes, fed: Bytes)
    reads src, h.message, h.Footprint(src.buffer)
  {
    match s
    case NetComplete =>
      Halted(src, h, stream, fed) ||
      (OnTrack(src, h, stream, fed) && Caught(src, h, fed) &&
       (!src.buffer.FullyWritten() ==> h.state == StartMessage && h.slots == 0 && h.R().stream == H.Response))
    case NetIncomplete =>
      && OnTrack(src, h, stream, fed)
      && if h.state == StartMessage then h.slots == 0 && h.R().stream == H.Request else !h.sink.dest.CanWrite()
    case DestClosed => OnTrack(src, h, stream, fed) && h.state != StartMessage
    case Deny => h.state != StartMessage && (CutOff(src, h, stream, fed) || Rejected(h, stream))
    case _ => false
  }

  /** What a handler that has settled promises about the stream. */
  lemma SettledIsWorked(s: NetStatus, src: Connection, h: StreamHandler, stream: Bytes, fed: Bytes, p: Place, t: Bytes, k: nat)
    requires Was(h.R(), stream, fed, p, t, src.buffer.data, k, src.incoming) && Apart(src, h) && h.Settled(s, p, t, k, src.buffer)
    ensures Worked(s, src, h, stream, Read(src, fed, k))
    ensures k <= src.buffer.processPos || s == Deny
  {
    hide After, Output, StreamHandler.Inv, StreamHandler.Place, StreamHandler.Queued, StreamHandler.Parts;
    hide StreamHandler.SplitStart, StreamHandler.RefusedBy, StreamHandler.Stalled, OnTrack, CutOff, Caught;
    StaysOnTrack(src, h, stream, fed, p, t, k);
    IsCutOff(src, h, stream, fed, p, t, k);
    SplitStands(src, h, p, t, k);
    if s == NetComplete {
      HoldsNothingBack(src, h, stream, fed, p, t, k);
    }
    forall n: nat {
      IsRejected(src, h, stream, fed, p, t, k, n);
    }
  }

  lemma SplitStands(src: Connection, h: StreamHandler, p: Place, t: Bytes, k: nat)
    ensures h.SplitStart(p, t, k, src.buffer) ==> k <= src.buffer.processPos
  {
  }

  /** Lets the handler work on what the buffer holds. */
  method Work(src: Connection, h: StreamHandler, ghost stream: Bytes, ghost fed: Bytes, ghost foot: set<object>)
    returns (s: NetStatus, ghost fed': Bytes)
    requires Serving(src, h, stream, fed) && foot == h.Footprint(src.buffer)
    modifies h.Footprint(src.buffer)
    ensures fresh(h.message.Repr - old(h.message.Repr))
    ensures src.incoming == old(src.incoming) && src.readScript == old(src.readScript)
    ensures src.readyToRead == old(src.readyToRead) && src.state == old(src.state)
    ensures s != DestClosed ==> h.sink.dest.state == old(h.sink.dest.state)
    ensures h.sink.dest.Honest(s == DestClosed)
    ensures Worked(s, src, h, stream, fed')
    ensures old(Halted(src, h, stream, fed)) ==>
      && fed' == fed && h.sink.dest.sent == old(h.sink.dest.sent)
      && (s == Deny || (s == NetComplete && Halted(src, h, stream, fed) &&
            old(h.parser.LineRank()) < h.parser.LineRank() <= 3 * H.MAX_FIELD_LENGTH))
    ensures old(h.state) == StartMessage && old(h.slots) == 0 ==> unchanged(foot)
  {
    hide Connection.Accepting, Connection.Unfailing, Connection.Sound;
    hide After, Output, StreamHandler.Inv, StreamHandler.Place, StreamHandler.Queued, StreamHandler.Stalled;
    hide StreamHandler.Settled, StreamHandler.SplitStart, StreamHandler.Retried, Worked, HeaderParser.LineRank;
    hide OnTrack, CutOff, Was;
    ghost var buf, k := src.buffer, src.buffer.processPos;
    ghost var p, t := START, h.sink.dest.sent;
    EitherWay(src, h, stream, fed);
    if OnTrack(src, h, stream, fed) {
      p, t := PlaceOnTrack(src, h, stream, fed);
    } else {
      WasHalted(src, h, stream, fed);
    }
    s := h.ProcessData(src.buffer, foot);
    fed' := Read(src, fed, k);
    SettledIsWorked(s, src, h, stream, fed, p, t, k);
    if old(Halted(src, h, stream, fed)) {
      StaysHalted(s, src, h, stream, fed, t, old(h.parser.LineRank()));
    }
  }

  /** Where a stream on track stands before the handler works on it. */
  lemma PlaceOnTrack(src: Connection, h: StreamHandler, stream: Bytes, fed: Bytes) returns (p: Place, t: Bytes)
    requires OnTrack(src, h, stream, fed)
    ensures h.Inv(src.buffer) && h.Framed(src.buffer) && Apart(src, h)
    ensures p == h.Place(src.buffer) && t == h.sink.dest.sent + h.Queued(src.buffer)
    ensures Was(h.R(), stream, fed, p, t, src.buffer.data, src.buffer.processPos, src.incoming)
  {
    hide After, Output, StreamHandler.Inv, StreamHandler.Place, StreamHandler.Queued;
    p, t := h.Place(src.buffer), h.sink.dest.sent + h.Queued(src.buffer);
    FramedAhead(h.R(), stream, fed, src.buffer.Unread(), src.incoming);
  }

  lemma WasHalted(src: Connection, h: StreamHandler, stream: Bytes, fed: Bytes)
    requires Halted(src, h, stream, fed)
    ensures h.Stalled(src.buffer) && Apart(src, h)
    ensures Was(h.R(), stream, fed, START, h.sink.dest.sent, src.buffer.data, src.buffer.processPos, src.incoming)
  {
    hide After, Output, H.After;
  }

  /** Reading a cut start line again moves nothing. */
  lemma StaysHalted(s: NetStatus, src: Connection, h: StreamHandler, stream: Bytes, fed: Bytes, t: Bytes, rank: nat)
    requires Was(h.R(), stream, fed, START, t, src.buffer.data, src.buffer.processPos, src.incoming) && Apart(src, h)
    requires h.Retried(s, rank, src.buffer) && h.sink.dest.sent == t
    ensures Read(src, fed, src.buffer.processPos) == fed
    ensures s == Deny || (s == NetComplete && Halted(src, h, stream, fed) && rank < h.parser.LineRank() <= 3 * H.MAX_FIELD_LENGTH)
  {
    hide After, Output, H.After, HeaderParser.LineRank, HeaderParser.InStartTokens, HeaderParser.Phase, MessageBuffer.Valid;
    ReadNone(h.R(), START);
    assert src.buffer.data[src.buffer.processPos..src.buffer.processPos] == [];
    if s != Deny {
      assert h.SplitStart(START, h.sink.dest.sent, src.buffer.processPos, src.buffer);
      assert src.buffer.Unread() == src.buffer.data[src.buffer.processPos..];
    }
  }

  /** Reads from a connected source. */
  method FillUp(src: Connection, h: StreamHandler, ghost stream: Bytes, ghost fed: Bytes)
    requires Serving(src, h, stream, fed)
    modifies src`readyToRead, src`state, src`incoming, src`readScript
    modifies src.buffer`data, src.buffer`processPos, src.buffer`writePos, src.buffer`writeEnd
    ensures Serving(src, h, stream, fed) && |src.readScript| <= |old(src.readScript)|
    ensures (old(src.Sound()) ==> src.Sound()) && (old(src.Eager()) ==> src.Eager()) && (old(src.Willing()) ==> src.Willing())
    ensures OnTrack(src, h, stream, fed) == old(OnTrack(src, h, stream, fed))
    ensures src.CanRead() && old(src.buffer.FullyWritten()) ==> |src.readScript| < |old(src.readScript)|
    ensures !old(src.buffer.FullyWritten()) ==> unchanged(src, src.buffer)
    ensures old(src.CanRead()) && old(src.buffer.FullyWritten()) ==> Delivered(src, old(src.readScript), old(src.incoming))
  {
    hide After, Output, StreamHandler.Inv, StreamHandler.Place, StreamHandler.Queued, StreamHandler.Stalled;
    EitherWay(src, h, stream, fed);
    if src.state != NotConnected && src.state != Connecting {
      ghost var halted := Halted(src, h, stream, fed);
      var ignored := Refill(src, h);
      if halted {
        assert CutOff(src, h, stream, fed);
      } else {
        assert OnTrack(src, h, stream, fed);
      }
      EitherWay(src, h, stream, fed);
    }
  }

  /** One turn of the serving loop: read, then work. It changes nothing, and yet the loop would go
      round again, if and only if it found the stream stuck. In every other turn after which the
      loop goes round, it has come closer to its end. */
  method Turn(src: Connection, h: StreamHandler, ghost stream: Bytes, ghost fed: Bytes, ghost foot: set<object>)
    returns (s: NetStatus, ghost fed': Bytes)
    requires Serving(src, h, stream, fed) && foot == h.Footprint(src.buffer)
    modifies h.Footprint(src.buffer), src
    ensures fresh(h.message.Repr - old(h.message.Repr))
    ensures Worked(s, src, h, stream, fed')
    ensures s != DestClosed ==> h.sink.dest.state == old(h.sink.dest.state)
    ensures h.sink.dest.Honest(s == DestClosed)
    ensures (old(src.Sound()) ==> src.Sound()) && (old(src.Eager()) ==> src.Eager()) && (old(src.Willing()) ==> src.Willing())
    ensures old(Halted(src, h, stream, fed)) ==>
      && fed' == fed && h.sink.dest.sent == old(h.sink.dest.sent)
      && src.CanRead() == old(src.CanRead()) && (s == Deny || (s == NetComplete && Halted(src, h, stream, fed)))
    ensures s == NetComplete && src.CanRead() && unchanged(src) && unchanged(foot) <==> old(Stuck(src, h))
    ensures s == NetComplete && src.CanRead() && !Stuck(src, h) ==> Effort(src, h) < old(Effort(src, h))
  {
    hide Connection.Accepting, Connection.Unfailing, Connection.Sound;
    hide After, Output, StreamHandler.Inv, StreamHandler.Place, StreamHandler.Queued, StreamHandler.Stalled;
    hide HeaderParser.LineRank, OnTrack, Halted, Caught, CutOff, Rejected, Connection.Sound, Connection.Eager, Connection.Willing, Connection.Accepting, Connection.Unfailing;
    EitherWay(src, h, stream, fed);
    FillUp(src, h, stream, fed);
    EitherWay(src, h, stream, fed);
    s, fed' := Work(src, h, stream, fed, foot);
    EitherWay(src, h, stream, fed');
  }

  /** How serving a stream may pause or end. Spinning stands for a loop that goes round for ever. */
  datatype Pause = Waiting | SourceFinished | DestinationGone | Denied | Spinning

  /** What an event may bring that serving waits for: a slot in the pipeline, room at the
      destination, or input. Then nothing that could be sent is held back. */
  ghost predicate Awaits(src: Connection, h: StreamHandler, stream: Bytes, fed: Bytes)
    reads src, h.message, h.Footprint(src.buffer)
  {
    || (h.R().stream == H.Request && h.state == StartMessage && h.slots == 0)
    || (h.state != StartMessage && !h.sink.dest.CanWrite())
    || (!src.CanRead() && !Ended(src) && (Caught(src, h, fed) || Halted(src, h, stream, fed)))
  }

  /** Nothing more can be read from the source. */
  predicate Ended(src: Connection)
    reads src
  {
    src.state == ReadShut || src.state == HungUp
  }

  /** What serving a stream may have come to. */
  ghost predicate Relayed(pause: Pause, src: Connection, h: StreamHandler, stream: Bytes, fed: Bytes)
    reads src, h.message, h.Footprint(src.buffer)
  {
    match pause
    case Waiting => Serving(src, h, stream, fed) && Awaits(src, h, stream, fed)
    case SourceFinished =>
      && Serving(src, h, stream, fed) && Ended(src)
      && (Caught(src, h, fed) || Halted(src, h, stream, fed))
    case DestinationGone => OnTrack(src, h, stream, fed)
    case Denied => CutOff(src, h, stream, fed) || Rejected(h, stream)
    case Spinning => OnTrack(src, h, stream, fed) && Caught(src, h, fed) && Stuck(src, h)
  }

  /** Serves the stream until it must wait or is over, or finds that it would go round for ever. */
  method HandleStream(src: Connection, h: StreamHandler, ghost stream: Bytes, ghost fed: Bytes)
    returns (pause: Pause, ghost fed': Bytes)
    requires Serving(src, h, stream, fed)
    modifies h.Footprint(src.buffer), src
    ensures fresh(h.message.Repr - old(h.message.Repr))
    ensures Relayed(pause, src, h, stream, fed')
    ensures (old(src.Sound()) ==> src.Sound()) && (old(src.Eager()) ==> src.Eager()) && (old(src.Willing()) ==> src.Willing())
    ensures pause == Spinning <==> Stuck(src, h)
    ensures pause != DestinationGone ==> h.sink.dest.state == old(h.sink.dest.state)
    ensures h.sink.dest.Honest(pause == DestinationGone)
    ensures old(Halted(src, h, stream, fed)) ==>
      && fed' == fed && h.sink.dest.sent == old(h.sink.dest.sent)
      && (pause == Denied || !old(src.CanRead()))
  {
    hide Connection.Accepting, Connection.Unfailing, Connection.Sound;
    hide After, Output, StreamHandler.Inv, StreamHandler.Place, StreamHandler.Queued, StreamHandler.Stalled;
    hide OnTrack, Caught, Effort, CutOff, Halted, Connection.Eager, Connection.Willing;
    fed' := fed;
    while true
      invariant fresh(h.message.Repr - old(h.message.Repr))
      invariant Serving(src, h, stream, fed') && h.sink.dest.state == old(h.sink.dest.state)
      invariant h.sink.dest.Honest(false)
      invariant (old(src.Sound()) ==> src.Sound()) && (old(src.Eager()) ==> src.Eager()) && (old(src.Willing()) ==> src.Willing())
      invariant old(Halted(src, h, stream, fed)) ==>
        && Halted(src, h, stream, fed) && fed' == fed
        && h.sink.dest.sent == old(h.sink.dest.sent) && src.CanRead() == old(src.CanRead())
      decreases Effort(src, h)
    {
      var s: NetStatus;
      s, fed' := Turn(src, h, stream, fed', h.Footprint(src.buffer));
      if s == Deny {
        return Denied, fed';
      }
      if s == DestClosed {
        return DestinationGone, fed';
      }
      if s == NetIncomplete {
        return Waiting, fed';
      }
      if !src.CanRead() {
        return (if Ended(src) then SourceFinished else Waiting), fed';
      }
      EitherWay(src, h, stream, fed');
      if h.state == StartMessage && !src.buffer.FullyWritten() {
        return Spinning, fed';
      }
    }
  }

  /** What the poller may report between two rounds of work. */
  datatype Event = Readable | Writable | SourceConnected | DestConnected | SlotsGranted(n: nat)

  /** Not connected yet. */
  predicate Idle(c: Connection)
    reads c`state
  {
    c.state == NotConnected || c.state == Connecting
  }

  /** A destination that becomes readier leaves the handler where it was. */
  method WakeDest(src: Connection, h: StreamHandler, connected: bool)
    requires Apart(src, h) && (h.Inv(src.buffer) || h.Stalled(src.buffer))
    modifies h.sink.dest`readyToWrite, h.sink.dest`state
    ensures old(h.Inv(src.buffer)) ==>
      && Ready(src, h)
      && h.Place(src.buffer) == old(h.Place(src.buffer)) && h.Queued(src.buffer) == old(h.Queued(src.buffer))
    ensures old(h.Stalled(src.buffer)) ==> h.Stalled(src.buffer)
    ensures old(MayOpen(h.sink.dest)) ==> MayOpen(h.sink.dest)
    ensures if connected then h.sink.dest.readyToWrite == old(h.sink.dest.readyToWrite) && !Idle(h.sink.dest)
            else h.sink.dest.readyToWrite && h.sink.dest.state == old(h.sink.dest.state)
    ensures !old(Idle(h.sink.dest)) ==> h.sink.dest.state == old(h.sink.dest.state)
    ensures old(Idle(h.sink.dest)) && connected ==> h.sink.dest.state == Connected
  {
    hide After, Output, H.After, BodyPlace, AfterChunk, MessageBuffer.Valid, HeaderParser.Fresh, HeaderParser.AtRest, HeaderParser.Phase;
    hide HeaderWriter.Valid, HeaderWriter.Left, HeaderWriter.Separators, HeaderHandler.Kind, BodySink.Valid;
    hide ChunkedBodyParser.Phase, ChunkedBodyParser.InRange, HeaderParser.InStartTokens;
    if !connected {
      h.sink.dest.readyToWrite := true;
    } else if Idle(h.sink.dest) {
      h.sink.dest.state := Connected;
    }
  }

  /** So does a pipeline that has slots again. */
  method GrantSlots(src: Connection, h: StreamHandler, n: nat)
    requires Apart(src, h) && (h.Inv(src.buffer) || h.Stalled(src.buffer))
    modifies h`slots
    ensures old(h.Inv(src.buffer)) ==>
      && Ready(src, h)
      && h.Place(src.buffer) == old(h.Place(src.buffer)) && h.Queued(src.buffer) == old(h.Queued(src.buffer))
    ensures old(h.Stalled(src.buffer)) ==> h.Stalled(src.buffer)
    ensures h.slots == old(h.slots) + n
  {
    hide After, Output, H.After, BodyPlace, AfterChunk, MessageBuffer.Valid, HeaderParser.Fresh, HeaderParser.AtRest, HeaderParser.Phase;
    hide HeaderWriter.Valid, HeaderWriter.Left, HeaderWriter.Separators, HeaderHandler.Kind, BodySink.Valid;
    hide ChunkedBodyParser.Phase, ChunkedBodyParser.InRange, HeaderParser.InStartTokens;
    h.slots := h.slots + n;
  }

  /** A destination that is open for writing or may still become so. */
  predicate MayOpen(dest: Connection)
    reads dest
  {
    dest.OpenForWrite() || Idle(dest)
  }

  /** What each event makes readier, and that it leaves the rest as it was. */
  twostate predicate Woken(src: Connection, dest: Connection, h: StreamHandler, e: Event)
    reads src, dest, h
  {
    && src.readyToRead == (old(src.readyToRead) || e == Readable)
    && src.state == (if e == SourceConnected && old(Idle(src)) then Connected else old(src.state))
    && dest.readyToWrite == (old(dest.readyToWrite) || e == Writable)
    && dest.state == (if e == DestConnected && old(Idle(dest)) then Connected else old(dest.state))
    && h.slots == old(h.slots) + if e.SlotsGranted? then e.n else 0
  }

  /** An event at the source. */
  method WakeSource(src: Connection, h: StreamHandler, connected: bool, ghost stream: Bytes, ghost fed: Bytes)
    requires Serving(src, h, stream, fed)
    modifies src`readyToRead, src`state
    ensures Serving(src, h, stream, fed) && (Halted(src, h, stream, fed) <==> old(Halted(src, h, stream, fed)))
    ensures Woken(src, h.sink.dest, h, if connected then SourceConnected else Readable)
    ensures (old(src.Sound()) ==> src.Sound()) && (old(src.Eager()) ==> src.Eager()) && (old(src.Willing()) ==> src.Willing())
  {
    hide After, Output, StreamHandler.Inv, StreamHandler.Place, StreamHandler.Queued, StreamHandler.Stalled;
    EitherWay(src, h, stream, fed);
    ghost var halted := Halted(src, h, stream, fed);
    assert src !in h.Footprint(src.buffer);
    if connected {
      src.state := if Idle(src) then Connected else src.state;
    } else {
      src.readyToRead := true;
    }
    assert if halted then CutOff(src, h, stream, fed) else OnTrack(src, h, stream, fed);
    EitherWay(src, h, stream, fed);
  }

  /** An event at the destination or in the pipeline. */
  method WakeFarSide(src: Connection, h: StreamHandler, e: Event, ghost stream: Bytes, ghost fed: Bytes)
    requires Serving(src, h, stream, fed) && e != Readable && e != SourceConnected
    modifies h.sink.dest`readyToWrite, h.sink.dest`state, h`slots
    ensures Serving(src, h, stream, fed) && (Halted(src, h, stream, fed) <==> old(Halted(src, h, stream, fed)))
    ensures Woken(src, h.sink.dest, h, e) && h.sink.dest.Honest(false)
  {
    hide After, Output, StreamHandler.Inv, StreamHandler.Place, StreamHandler.Queued, StreamHandler.Stalled;
    EitherWay(src, h, stream, fed);
    ghost var halted := Halted(src, h, stream, fed);
    match e {
      case Writable =>
        WakeDest(src, h, false);
      case DestConnected =>
        WakeDest(src, h, true);
      case SlotsGranted(n) =>
        GrantSlots(src, h, n);
    }
    assert if halted then CutOff(src, h, stream, fed) else OnTrack(src, h, stream, fed);
    EitherWay(src, h, stream, fed);
  }

  /** An event makes connections and pipeline readier than they were; it moves no byte. */
  method Wake(src: Connection, h: StreamHandler, e: Event, ghost stream: Bytes, ghost fed: Bytes)
    requires Serving(src, h, stream, fed)
    modifies src`readyToRead, src`state, h.sink.dest`readyToWrite, h.sink.dest`state, h`slots
    ensures Serving(src, h, stream, fed) && (Halted(src, h, stream, fed) <==> old(Halted(src, h, stream, fed)))
    ensures Woken(src, h.sink.dest, h, e) && h.sink.dest.Honest(false)
    ensures old(MayOpen(h.sink.dest)) ==> MayOpen(h.sink.dest)
    ensures (old(src.Sound()) ==> src.Sound()) && (old(src.Eager()) ==> src.Eager()) && (old(src.Willing()) ==> src.Willing())
  {
    hide After, Output, OnTrack, Halted, CutOff;
    EitherWay(src, h, stream, fed);
    match e {
      case Readable =>
        WakeSource(src, h, false, stream, fed);
      case SourceConnected =>
        WakeSource(src, h, true, stream, fed);
      case _ =>
        WakeFarSide(src, h, e, stream, fed);
    }
  }

  lemma OutputGrows(r: H.Rules, a: Bytes, b: Bytes)
    ensures Output(r, START, a) <= Output(r, START, a + b)
  {
    ReadInPieces(r, START, a, b);
  }

  /** However serving ended, only a prefix of the stream's canonical output was sent. */
  lemma NeverTooMuch(src: Connection, h: StreamHandler, stream: Bytes, fed: Bytes)
    ensures Serving(src, h, stream, fed) || CutOff(src, h, stream, fed) ==> h.sink.dest.sent <= Output(h.R(), START, stream)
    ensures forall pause :: Relayed(pause, src, h, stream, fed) ==> h.sink.dest.sent <= Output(h.R(), START, stream)
  {
    hide After, Output, StreamHandler.Inv, StreamHandler.Place, StreamHandler.Queued;
    OutputGrows(h.R(), fed, if src.buffer.Valid() then src.buffer.Unread() + src.incoming else []);
  }

  /** Once the source has nothing left and the buffer is used up, the stream has been relayed in
      full. */
  lemma AllDelivered(src: Connection, h: StreamHandler, stream: Bytes, fed: Bytes)
    requires src.incoming == [] && src.buffer.processPos == |src.buffer.data|
    ensures Serving(src, h, stream, fed) && Caught(src, h, fed) ==> h.sink.dest.sent == Output(h.R(), START, stream)
    ensures !Halted(src, h, stream, fed)
    ensures Relayed(SourceFinished, src, h, stream, fed) ==> h.sink.dest.sent == Output(h.R(), START, stream)
  {
    hide After, Output, StreamHandler.Inv, StreamHandler.Place, StreamHandler.Queued;
    if OnTrack(src, h, stream, fed) && Caught(src, h, fed) {
      assert src.buffer.Unread() + src.incoming == [];
      assert stream == fed;
    }
  }

  lemma WaitingIsServing(src: Connection, h: StreamHandler, stream: Bytes, fed: Bytes)
    ensures Relayed(Waiting, src, h, stream, fed) ==> Serving(src, h, stream, fed)
  {
  }

  lemma SoundEnd(src: Connection, h: StreamHandler, stream: Bytes, fed: Bytes)
    ensures src.Sound() && Relayed(SourceFinished, src, h, stream, fed) ==> src.incoming == []
  {
  }

  /** One event, and the serving it allows. */
  method Round(src: Connection, h: StreamHandler, e: Event, ghost stream: Bytes, ghost fed: Bytes)
    returns (pause: Pause, ghost fed': Bytes)
    requires Serving(src, h, stream, fed)
    modifies h.Footprint(src.buffer), src
    ensures fresh(h.message.Repr - old(h.message.Repr))
    ensures Relayed(pause, src, h, stream, fed') && (pause == Spinning <==> Stuck(src, h))
    ensures old(MayOpen(h.sink.dest)) && pause != DestinationGone ==> MayOpen(h.sink.dest)
    ensures (old(src.Sound()) ==> src.Sound()) && (old(src.Eager()) ==> src.Eager()) && (old(src.Willing()) ==> src.Willing())
    ensures old(src.Eager()) && e == Readable ==> src.Willing()
    ensures h.sink.dest.Honest(pause == DestinationGone)
  {
    hide After, Output, StreamHandler.Inv, StreamHandler.Place, StreamHandler.Queued;
    hide OnTrack, CutOff, Caught, Halted, Stuck, Awaits, Ended, Relayed, Connection.Sound, Connection.Eager, Connection.Accepting, Connection.Unfailing;
    Wake(src, h, e, stream, fed);
    pause, fed' := HandleStream(src, h, stream, fed);
  }

  /** Round after round, until the stream must not go on. */
  method ServeEvents(src: Connection, h: StreamHandler, events: seq<Event>, ghost stream: Bytes, ghost fed: Bytes)
    returns (pause: Pause, ghost fed': Bytes)
    requires Serving(src, h, stream, fed)
    modifies h.Footprint(src.buffer), src
    ensures if events == [] then pause == Waiting && Serving(src, h, stream, fed') else
      Relayed(pause, src, h, stream, fed') && (pause == Spinning <==> Stuck(src, h))
    ensures old(MayOpen(h.sink.dest)) && pause != DestinationGone ==> MayOpen(h.sink.dest)
    ensures (old(src.Sound()) ==> src.Sound()) && h.sink.dest.Honest(pause == DestinationGone)
    ensures old(src.Eager()) && pause == Waiting && Readable in events ==> src.Willing()
  {
    hide After, Output, StreamHandler.Inv, StreamHandler.Place, StreamHandler.Queued;
    hide OnTrack, CutOff, Caught, Halted, Stuck, Awaits, Ended, Relayed;
    hide Connection.Sound, Connection.Eager, Connection.Willing, Connection.Accepting, Connection.Unfailing;
    pause, fed' := Waiting, fed;
    for i := 0 to |events|
      invariant fresh(h.message.Repr - old(h.message.Repr))
      invariant Serving(src, h, stream, fed') && pause == Waiting
      invariant old(MayOpen(h.sink.dest)) ==> MayOpen(h.sink.dest)
      invariant (old(src.Sound()) ==> src.Sound()) && (old(src.Eager()) ==> src.Eager()) && h.sink.dest.Honest(false)
      invariant old(src.Eager()) && Readable in events[..i] ==> src.Willing()
      invariant i > 0 ==> Relayed(pause, src, h, stream, fed') && !Stuck(src, h)
    {
      pause, fed' := Round(src, h, events[i], stream, fed');
      if pause != Waiting {
        return;
      }
      WaitingIsServing(src, h, stream, fed');
    }
  }

  /** Serves a new stream through any series of events, any short reads and writes, and any slots
      in the pipeline. Whatever happens, what the destination has received is a prefix of the
      canonical re-encoding of the stream, cut off only where serving was cut off; and it is the
      whole of it when the source has ended and the buffer is used up. A source whose reads do not
      fail is not taken for ended before it has been read to its end, and one whose reads never
      block is read, once an event has said that it can be, until something else holds the stream
      up. A destination is given up only when a write fails, and taken for busy only when a write
      would block. */
  method Relay(src: Connection, dest: Connection, rules: H.Rules, slots: nat, events: seq<Event>)
    returns (h: StreamHandler, pause: Pause, ghost fed: Bytes)
    requires src != dest && src.buffer.Valid() && !src.buffer.isStatic && src.buffer.data == []
    requires dest.sent == [] && !After(rules, START, src.incoming).Unframed?
    modifies src, src.buffer, dest
    ensures h.R() == rules && h.sink.dest == dest
    ensures events != [] ==> Relayed(pause, src, h, old(src.incoming), fed)
    ensures events != [] ==> (pause == Spinning <==> Stuck(src, h))
    ensures old(MayOpen(dest)) && pause != DestinationGone ==> MayOpen(dest)
    ensures dest.sent <= Output(rules, START, old(src.incoming))
    ensures pause == SourceFinished && src.incoming == [] && src.buffer.processPos == |src.buffer.data| ==>
      dest.sent == Output(rules, START, old(src.incoming))
    ensures old(src.Sound()) && pause == SourceFinished ==> src.incoming == []
    ensures old(src.Eager()) && pause == Waiting && Readable in events ==> src.Willing()
    ensures dest.Honest(pause == DestinationGone)
  {
    hide After, Output, StreamHandler.Inv, StreamHandler.Place, StreamHandler.Queued;
    hide OnTrack, CutOff, Caught, Halted, Stuck, Awaits, Ended, Relayed, MayOpen;
    hide Connection.Sound, Connection.Eager, Connection.Willing, Connection.Accepting, Connection.Unfailing;
    ghost var stream := src.incoming;
    h := Begin(src, dest, rules, slots);
    fed := [];
    pause, fed := ServeEvents(src, h, events, stream, fed);
    NeverTooMuch(src, h, stream, fed);
    if src.incoming == [] && src.buffer.processPos == |src.buffer.data| {
      AllDelivered(src, h, stream, fed);
    }
    SoundEnd(src, h, stream, fed);
  }

  method Begin(src: Connection, dest: Connection, rules: H.Rules, slots: nat) returns (h: StreamHandler)
    requires src != dest && src.buffer.Valid() && !src.buffer.isStatic && src.buffer.data == []
    requires dest.sent == [] && !After(rules, START, src.incoming).Unframed?
    ensures h.R() == rules && h.sink.dest == dest && fresh(h.message.Repr) && h.state == StartMessage && h.slots == slots
    ensures fresh(h.Footprint(src.buffer) - {src.buffer, dest})
    ensures OnTrack(src, h, src.incoming, [])
  {
    hide After, Output, StreamHandler.Inv, StreamHandler.Place, StreamHandler.Queued, MessageBuffer.Valid;
    h := new StreamHandler(dest, rules, slots);
    h.WhenStarting(src.buffer);
    ReadNone(rules, START);
  }

  lemma OneByteIsFramed(r: H.Rules, b: byte)
    ensures !After(r, START, [b]).Unframed?
  {
    ReadMore(r, START, [], b);
    ReadNone(r, START);
    assert [] + [b] == [b];
  }

  /** A server that answers before any request was forwarded to it: one byte can be read. */
  method EarlyByte(rules: H.Rules) returns (src: Connection, h: StreamHandler)
    requires rules.stream == H.Response
    ensures fresh(src) && fresh(h) && fresh(src.buffer) && fresh(h.Footprint(src.buffer)) && h.R() == rules
    ensures OnTrack(src, h, [72], []) && src.CanRead() && src.buffer.FullyWritten()
    ensures src.incoming == [72] && src.readScript == [Deliver(1)] && src.buffer.capacity == 1
    ensures h.state == StartMessage && h.slots == 0
  {
    hide After, Output, OnTrack;
    OneByteIsFramed(rules, 72);
    src := new Connection(1, [72], [Deliver(1)], []);
    var dest := new Connection(1, [], [], []);
    src.state, src.readyToRead := Connected, true;
    h := Begin(src, dest, rules, 0);
  }

  /** A run that spins: once the byte has been read, a turn changes nothing, and so does every turn
      after it. */
  method ResponseSpins(rules: H.Rules) returns (src: Connection, h: StreamHandler, s: NetStatus)
    requires rules.stream == H.Response
    ensures fresh(src) && fresh(h) && h.R() == rules
    ensures Stuck(src, h) && s == NetComplete
  {
    hide After, Output, OnTrack, Halted, Worked, StreamHandler.Stalled;
    src, h := EarlyByte(rules);
    ghost var fed := [];
    ghost var foot := h.Footprint(src.buffer);
    assert src.buffer in foot && h in foot;
    FillUp(src, h, [72], fed);
    s, fed := Work(src, h, [72], fed, foot);
    assert Stuck(src, h);
    WorkedOnce(s, src, h, [72], fed);
    s, fed := Turn(src, h, [72], fed, h.Footprint(src.buffer));
  }

  lemma WorkedOnce(s: NetStatus, src: Connection, h: StreamHandler, stream: Bytes, fed: Bytes)
    requires Worked(s, src, h, stream, fed) && Stuck(src, h)
    ensures Serving(src, h, stream, fed)
  {
  }
}
