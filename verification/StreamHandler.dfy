/** The stream handler: takes one direction of a connection through message after message,
    header and body, resuming wherever input or output stopped it. */
module StreamHandlers {
  import opened Octets
  import opened Buffers
  import opened Connections
  import opened Scanners
  import opened BodySinks
  import opened MessageBuffers
  import opened HeaderHandlers
  import opened HeaderParsers
  import opened HeaderWriters
  import opened LengthBodies
  import opened ChunkedBodies
  import opened StreamGrammar
  import H = HeaderGrammar
  import C = ChunkGrammar

  datatype MessageState = StartMessage | ParseHeader | PushHeader | ParseBody

  /** Places in the stream at which a start line cut short by the end of the buffer begins. */
  ghost predicate CutShort(r: H.Rules, p: StreamGrammar.Place, d: Bytes, k: nat, m: nat) {
    && k <= m < |d| && After(r, p, d[k..m]) == START
    && H.InStartLine(H.After(r, H.START, d[m..]))
  }

  /** The parser has read what the stream reader has, and the unread bytes stay framed. */
  ghost predicate InStep(parser: HeaderParser, buf: ReadWriteBuffer, p: StreamGrammar.Place, k: nat)
    reads parser, parser.handler, parser.handler.message, parser.handler.message.Repr, buf
  {
    && parser.AtRest() && buf.Valid() && k <= buf.processPos
    && After(parser.R(), p, buf.data[k..buf.processPos]) == Head(parser.Phase())
    && !After(parser.R(), Head(parser.Phase()), buf.Unread()).Unframed?
  }

  /** The parser has read the unread bytes, all of them inside a start line, and is about to read
      them again. */
  ghost predicate Behind(parser: HeaderParser, buf: ReadWriteBuffer, p: StreamGrammar.Place, k: nat)
    reads parser, parser.handler, parser.handler.message, parser.handler.message.Repr, buf
  {
    && parser.InStartTokens() && buf.Valid() && k <= buf.processPos
    && CutShort(parser.R(), p, buf.data, k, buf.processPos)
  }

  /** What running the header parser on buf from m on did, in terms of the whole stream: the start
      line was cut, or the header was completed, paused or refused. */
  ghost predicate HeaderOutcome(s: Status, cut: bool, parser: HeaderParser, buf: ReadWriteBuffer,
                              p: StreamGrammar.Place, t: Bytes, k: nat, m: nat, rank: nat)
    reads parser, parser.handler, parser.handler.message, parser.handler.message.Repr, buf
  {
    && buf.Valid() && k <= m <= buf.processPos == buf.writePos && parser.handler.Valid()
    && buf !in parser.handler.message.Repr
    && var r, n := parser.R(), buf.processPos;
       if cut then
         && s in {Incomplete, Invalid, DataOverflow} && n == m && CutShort(r, p, buf.data, k, m)
         && (s == Incomplete ==> Behind(parser, buf, p, k) && rank < parser.LineRank())
       else match s
         case Complete =>
           && m < n && !parser.handler.HasPartial() && parser.StatusKnown()
           && After(r, p, buf.data[k..n]) == BodyPlace(H.BodyOf(r.stream, parser.handler.Closed()))
           && t + Output(r, p, buf.data[k..n]) == t + Output(r, p, buf.data[k..m]) + H.Print(parser.handler.Closed())
         case Incomplete =>
           && parser.AtRest() && n == |buf.data| && After(r, p, buf.data[k..n]) == Head(parser.Phase())
           && t + Output(r, p, buf.data[k..n]) == t + Output(r, p, buf.data[k..m])
         case Invalid => DeniedAfter(r, p, t, buf.data, k, m)
         case DataOverflow => DeniedAfter(r, p, t, buf.data, k, m)
         case _ => false
  }

  ghost predicate DeniedAfter(r: H.Rules, p: StreamGrammar.Place, t: Bytes, d: Bytes, k: nat, m: nat)
    requires k <= m <= |d|
  {
    && After(r, p, d[k..|d|]) == Refused
    && t + Output(r, p, d[k..|d|]) == t + Output(r, p, d[k..m])
  }

  /** A parser that was behind stays so, or is refused. */
  lemma ReadBehind(s: Status, parser: HeaderParser, buf: ReadWriteBuffer,
                   p: StreamGrammar.Place, t: Bytes, k: nat, m: nat, h: H.Phase)
    requires H.ShortStart(h) && parser.Result(s, buf, h, m) && buf.processPos == m && s != Complete
    requires k <= m && CutShort(parser.R(), p, buf.data, k, m)
    ensures HeaderOutcome(s, true, parser, buf, p, t, k, m, H.StartRank(h))
  {
    hide After, Output, H.After, MessageBuffer.Valid, MessageBuffer.AllUnsent, HeaderHandler.Valid;
    H.CutIsNotFinished(parser.R(), h, buf.data[m..]);
    parser.StartIsFresh();
  }

  lemma ReadInStep(s: Status, parser: HeaderParser, buf: ReadWriteBuffer,
                   p: StreamGrammar.Place, t: Bytes, k: nat, m: nat, h: H.Phase)
    requires k <= m && parser.Result(s, buf, h, m) && m <= |buf.data| && Open(h)
    requires H.InStartLine(h) ==> h == H.START
    requires After(parser.R(), p, buf.data[k..m]) == Head(h)
    requires !H.After(parser.R(), h, buf.data[m..]).Folded?
    ensures HeaderOutcome(s, H.InStartLine(h) && parser.Split(s, buf, h, m) && m < |buf.data|, parser, buf, p, t, k, m,
                        H.StartRank(h))
  {
    hide After, Output, H.After, H.Print, H.BodyOf, BodyPlace, H.StartRank;
    hide MessageBuffer.Valid, MessageBuffer.AllUnsent;
    var r, d := parser.R(), buf.data;
    parser.StartIsFresh();
    H.NothingPasses(r.stream);
    if m == |d| {
      H.ReadNone(r, h, d, m);
      assert d[m..] == d[m..m];
    }
    if H.InStartLine(h) && parser.Split(s, buf, h, m) && m < |d| {
      H.CutIsNotFinished(r, H.START, d[m..]);
    } else if s == Complete {
      HeaderCompleted(r, p, t, d, k, m, buf.processPos, h, parser.handler.Closed());
    } else if s == Incomplete {
      HeaderPaused(r, p, t, d, k, m, h);
    } else {
      HeaderDenied(r, p, t, d, k, m, h);
    }
  }

  lemma OutcomeBounds(s: Status, cut: bool, parser: HeaderParser, buf: ReadWriteBuffer,
                      p: StreamGrammar.Place, t: Bytes, k: nat, m: nat, rank: nat)
    requires HeaderOutcome(s, cut, parser, buf, p, t, k, m, rank)
    ensures buf.Valid() && m <= buf.processPos == buf.writePos && parser.handler.Valid()
    ensures buf !in parser.handler.message.Repr && s in {Complete, Incomplete, Invalid, DataOverflow}
  {
  }

  /** Runs the header parser. */
  method ReadHeader(parser: HeaderParser, buf: ReadWriteBuffer,
                    ghost p: StreamGrammar.Place, ghost t: Bytes, ghost k: nat)
    returns (s: Status, ghost cut: bool)
    requires InStep(parser, buf, p, k) || Behind(parser, buf, p, k)
    requires buf !in parser.handler.message.Repr
    modifies parser, parser.handler, parser.handler.message, parser.handler.message.Repr
    modifies buf`processPos, buf`writePos
    ensures fresh(parser.handler.message.Repr - old(parser.handler.message.Repr))
    ensures HeaderOutcome(s, cut, parser, buf, p, t, k, old(buf.processPos), old(parser.LineRank()))
    ensures old(Behind(parser, buf, p, k)) ==> cut
  {
    BeforeReading(parser, buf, p, k);
    ghost var m, h := buf.processPos, parser.Phase();
    ghost var behind := Behind(parser, buf, p, k);
    assert buf.data[m..] == buf.Unread();
    hide After, Output, H.After, HeaderOutcome, HeaderParser.Result, MessageBuffer.Valid, HeaderHandler.Valid;
    hide InStep, HeaderParser.AtRest, HeaderParser.InStartTokens, HeaderParser.Phase;
    s := parser.ParseHeaders(buf);
    if behind {
      cut := true;
      ReadBehind(s, parser, buf, p, t, k, m, h);
    } else {
      cut := H.InStartLine(h) && parser.Split(s, buf, h, m) && m < |buf.data|;
      ReadInStep(s, parser, buf, p, t, k, m, h);
    }
  }

  /** What the header parser may count on, and what the lemmas above need. */
  lemma BeforeReading(parser: HeaderParser, buf: ReadWriteBuffer, p: StreamGrammar.Place, k: nat)
    requires InStep(parser, buf, p, k) || Behind(parser, buf, p, k)
    ensures parser.AtRest() || parser.InStartTokens()
    ensures var r, h, u := parser.R(), parser.Phase(), buf.Unread();
      && k <= buf.processPos && !H.After(r, h, u).Folded?
      && parser.LineRank() == H.StartRank(h)
      && (Behind(parser, buf, p, k) ==>
            H.InStartLine(h) && H.ShortStart(h) && LF !in u && CutShort(r, p, buf.data, k, buf.processPos))
      && (!Behind(parser, buf, p, k) ==>
            && Open(h) && (H.InStartLine(h) ==> h == H.START)
            && After(r, p, buf.data[k..buf.processPos]) == Head(h))
  {
    hide After, Output, H.After, MessageBuffer.Valid, MessageBuffer.AllUnsent;
    var r, h, u := parser.R(), parser.Phase(), buf.Unread();
    parser.WhereItStands();
    parser.StartIsFresh();
    assert u == buf.data[buf.processPos..];
    if Behind(parser, buf, p, k) {
      H.CutIsNotFinished(r, h, u);
    } else if H.After(r, h, u).Folded? {
      HeaderFolded(r, h, u);
    }
  }

  class StreamHandler {
    const sink: BodySink
    const message: MessageBuffer
    const handler: HeaderHandler
    const parser: HeaderParser
    const writer: HeaderWriter
    const lengthParser: ContentLengthBodyParser
    const chunkParser: ChunkedBodyParser
    var state: MessageState
    /** How the body parser was told to frame the current body. */
    var encoding: BodyEncoding
    /** How many more messages the pipeline has slots for: free places, for a stream of requests;
        leading requests that were forwarded, for a stream of responses. */
    var slots: nat

    ghost function R(): (r: H.Rules) {
      message.rules
    }

    /** The objects are wired to each other as the constructors wire them. */
    ghost predicate Wired() {
      && handler.message == message && writer.message == message && parser.handler == handler
      && writer.dest == sink.dest && lengthParser.sink == sink && chunkParser.sink == sink
    }

    ghost function Separators(): (s: set<ReadWriteBuffer>) {
      {writer.spaceBuf, writer.endlineBuf, writer.fieldSep}
    }

    ghost function SinkBuffers(): (s: set<ReadWriteBuffer>) {
      {sink.chunkSize, sink.endline}
    }

    /** No buffer plays two parts. */
    ghost predicate Apart(buf: ReadWriteBuffer)
      reads message
    {
      && buf !in message.Repr && buf !in Separators() && buf !in SinkBuffers()
      && message.Repr !! Separators() && message.Repr !! SinkBuffers() && Separators() !! SinkBuffers()
    }

    ghost function Footprint(buf: ReadWriteBuffer): (s: set<object>)
      reads message
    {
      {this, message, handler, parser, writer, lengthParser, chunkParser, sink.dest, buf,
       writer.spaceBuf, writer.endlineBuf, writer.fieldSep, sink.chunkSize, sink.endline} + message.Repr
    }

    ghost predicate Parts(buf: ReadWriteBuffer)
      reads message, message.Repr, buf, Separators(), SinkBuffers()
    {
      && Wired() && Apart(buf) && buf.Valid() && buf.writePos <= buf.processPos
      && message.Valid() && writer.Separators() && sink.Valid()
    }

    /** Nothing of a message has been read yet, and the buffer is marked as far as it is read. */
    ghost predicate Idle(buf: ReadWriteBuffer)
      requires Wired()
      reads message, Footprint(buf)
    {
      parser.Fresh() && buf.writePos == buf.processPos
    }

    ghost predicate Parsing(buf: ReadWriteBuffer)
      requires Wired()
      reads message, Footprint(buf)
    {
      parser.AtRest() && buf.writePos == buf.processPos
    }

    ghost predicate Pushing(buf: ReadWriteBuffer)
      requires Wired()
      reads message, Footprint(buf)
    {
      && writer.Valid() && buf.writePos == buf.processPos
      && handler.Kind() == H.BodyOf(R().stream, message.contents)
    }

    ghost predicate InBody(buf: ReadWriteBuffer)
      requires Wired()
      reads message, Footprint(buf)
    {
      match encoding
      case NoEncoding => buf.writePos == buf.processPos
      case ContentLengthEncoding => lengthParser.AtRest(buf)
      case ChunkedEncoding => chunkParser.AtRest(buf)
      case EndConnection => false
    }

    /** What holds between calls. */
    ghost predicate Inv(buf: ReadWriteBuffer)
      reads message, Footprint(buf)
    {
      && Parts(buf)
      && match state
         case StartMessage => Idle(buf)
         case ParseHeader => Parsing(buf)
         case PushHeader => Pushing(buf)
         case ParseBody => InBody(buf)
    }

    /** Where in the stream the bytes read so far have led. */
    ghost function Place(buf: ReadWriteBuffer): (p: StreamGrammar.Place)
      requires Inv(buf)
      reads message, Footprint(buf)
    {
      match state
      case StartMessage => START
      case ParseHeader => Head(parser.Phase())
      case PushHeader => BodyPlace(handler.Kind())
      case ParseBody =>
        match encoding
        case NoEncoding => START
        case ContentLengthEncoding => BodyPlace(H.Length(lengthParser.contentLength - lengthParser.current))
        case ChunkedEncoding => AfterChunk(chunkParser.Phase())
    }

    /** Output that has been decided but not yet accepted by the destination. */
    ghost function Queued(buf: ReadWriteBuffer): (q: Bytes)
      requires Inv(buf)
      reads message, Footprint(buf)
    {
      match state
      case StartMessage => []
      case ParseHeader => []
      case PushHeader => writer.Left()
      case ParseBody =>
        match encoding
        case NoEncoding => []
        case ContentLengthEncoding => lengthParser.Queued(buf)
        case ChunkedEncoding => chunkParser.Queued(buf)
    }

    /** From place p with total t, the handler has read exactly the bytes from k to the process
        position, and what it has sent and queued is what they call for. */
    ghost predicate Consumed(p: StreamGrammar.Place, t: Bytes, k: nat, buf: ReadWriteBuffer)
      requires Inv(buf)
      reads message, Footprint(buf)
    {
      && k <= buf.processPos
      && Place(buf) == After(R(), p, buf.data[k..buf.processPos])
      && sink.dest.sent + Queued(buf) == t + Output(R(), p, buf.data[k..buf.processPos])
    }

    /** The unread bytes neither fold a header line nor announce an unframed body. */
    ghost predicate Framed(buf: ReadWriteBuffer)
      requires Inv(buf)
      reads message, Footprint(buf)
    {
      !After(R(), Place(buf), buf.Unread()).Unframed?
    }

    /** The stream is refused at byte n of the buffer, and only what came before it was forwarded. */
    ghost predicate RefusedBy(p: StreamGrammar.Place, t: Bytes, k: nat, n: nat, buf: ReadWriteBuffer)
      reads buf, sink.dest
    {
      && k <= n <= |buf.data| && After(R(), p, buf.data[k..n]) == Refused
      && sink.dest.sent <= t + Output(R(), p, buf.data[k..n])
    }

    /** The buffer ends inside the start line that begins at the process position. The cursors
        stay in front of it, so the buffer will not be refilled. */
    ghost predicate SplitStart(p: StreamGrammar.Place, t: Bytes, k: nat, buf: ReadWriteBuffer)
      reads message, Footprint(buf)
    {
      && Parts(buf) && state == ParseHeader && k <= buf.processPos == buf.writePos < |buf.data|
      && After(R(), p, buf.data[k..buf.processPos]) == START
      && H.InStartLine(H.After(R(), H.START, buf.data[buf.processPos..]))
      && sink.dest.sent == t + Output(R(), p, buf.data[k..buf.processPos])
    }

    /** The handler was left inside such a start line and will read it again from its first byte. */
    ghost predicate Stalled(buf: ReadWriteBuffer)
      reads message, Footprint(buf)
    {
      && SplitStart(START, sink.dest.sent, buf.processPos, buf)
      && parser.InStartTokens() && parser.Phase() != H.START
    }

    /** At rest after exactly the bytes from k, or left inside the start line that follows them. */
    ghost predicate Going(p: StreamGrammar.Place, t: Bytes, k: nat, buf: ReadWriteBuffer)
      reads message, Footprint(buf)
    {
      (Inv(buf) && Consumed(p, t, k, buf)) || (Stalled(buf) && SplitStart(p, t, k, buf))
    }

    /** Reading a cut start line again does not finish it: it is refused, or has come closer to
        the limits of its tokens. */
    ghost predicate Retried(s: NetStatus, rank: nat, buf: ReadWriteBuffer)
      reads message, Footprint(buf)
    {
      s == Deny || (s == NetComplete && Stalled(buf) && rank < parser.LineRank() <= 3 * H.MAX_FIELD_LENGTH)
    }

    /** A stalled handler is not in any of its resting states. */
    lemma StalledIsNotResting(buf: ReadWriteBuffer)
      ensures Stalled(buf) ==> !Inv(buf)
    {
      parser.StartIsFresh();
    }

    constructor (dest: Connection, rules: H.Rules, slots: nat)
      ensures Wired() && sink.dest == dest && R() == rules && state == StartMessage && this.slots == slots
      ensures message.Valid() && writer.Separators() && sink.Valid() && parser.Fresh()
      ensures fresh(message.Repr) && fresh(Separators()) && fresh(SinkBuffers())
      ensures fresh(message) && fresh(handler) && fresh(parser) && fresh(writer)
      ensures fresh(lengthParser) && fresh(chunkParser)
      ensures message.Repr !! Separators() && message.Repr !! SinkBuffers() && Separators() !! SinkBuffers()
    {
      hide MessageBuffer.Valid, MessageBuffer.AllUnsent, HeaderHandler.Valid, HeaderHandler.Closed, HeaderHandler.HasPartial;
      hide HeaderParser.Fresh, BodySink.Valid, HeaderWriter.Separators;
      var sink' := new BodySink(dest);
      var message' := new MessageBuffer(rules);
      var handler' := new HeaderHandler(message');
      sink, message, handler := sink', message', handler';
      parser := new HeaderParser(handler');
      writer := new HeaderWriter(dest, message');
      lengthParser := new ContentLengthBodyParser(sink');
      chunkParser := new ChunkedBodyParser(sink');
      state, encoding, this.slots := StartMessage, NoEncoding, slots;
    }

    // What Inv, Place and Queued amount to in each state.

    lemma WhenStarting(buf: ReadWriteBuffer)
      requires state == StartMessage
      ensures Inv(buf) <==> Parts(buf) && Idle(buf)
      ensures Inv(buf) ==> Place(buf) == START && Queued(buf) == []
    {
    }

    lemma WhenParsing(buf: ReadWriteBuffer)
      requires state == ParseHeader
      ensures Inv(buf) <==> Parts(buf) && Parsing(buf)
      ensures Inv(buf) ==> Place(buf) == Head(parser.Phase()) && Queued(buf) == []
    {
    }

    lemma WhenPushing(buf: ReadWriteBuffer)
      requires state == PushHeader
      ensures Inv(buf) <==> Parts(buf) && Pushing(buf)
      ensures Inv(buf) ==> Place(buf) == BodyPlace(handler.Kind()) && Queued(buf) == writer.Left()
    {
    }

    lemma WhenBodiless(buf: ReadWriteBuffer)
      requires state == ParseBody && encoding == NoEncoding
      ensures Inv(buf) <==> Parts(buf) && buf.writePos == buf.processPos
      ensures Inv(buf) ==> Place(buf) == START && Queued(buf) == []
    {
    }

    lemma WhenLength(buf: ReadWriteBuffer)
      requires state == ParseBody && encoding == ContentLengthEncoding
      ensures Inv(buf) <==> Parts(buf) && lengthParser.AtRest(buf)
      ensures Inv(buf) ==>
        && Place(buf) == BodyPlace(H.Length(lengthParser.contentLength - lengthParser.current))
        && Queued(buf) == lengthParser.Queued(buf)
    {
    }

    lemma WhenChunked(buf: ReadWriteBuffer)
      requires state == ParseBody && encoding == ChunkedEncoding
      ensures Inv(buf) <==> Parts(buf) && chunkParser.AtRest(buf)
      ensures Inv(buf) ==> Place(buf) == AfterChunk(chunkParser.Phase()) && Queued(buf) == chunkParser.Queued(buf)
    {
    }

    /** The pipeline grants the next message its slot, if it has one. */
    method SetCurrentPipelineData() returns (granted: bool)
      modifies this`slots
      ensures granted <==> old(slots) > 0
      ensures slots == if granted then old(slots) - 1 else old(slots)
    {
      granted := slots > 0;
      slots := if granted then slots - 1 else slots;
    }

    method StepStart(buf: ReadWriteBuffer, ghost p: StreamGrammar.Place, ghost t: Bytes, ghost k: nat)
      returns (s: NetStatus, more: bool)
      requires Inv(buf) && Consumed(p, t, k, buf) && state == StartMessage
      modifies this`state, this`slots
      ensures Inv(buf) && Consumed(p, t, k, buf)
      ensures more <==> old(slots) > 0
      ensures more ==> state == ParseHeader && s != DestClosed
      ensures !more ==> Settled(s, p, t, k, buf) && state == StartMessage && slots == 0
      ensures !more ==> s == if R().stream == H.Request then NetIncomplete else NetComplete
    {
      hide After, Output, Inv, Place, Queued, MessageBuffer.Valid;
      WhenStarting(buf);
      more := SetCurrentPipelineData();
      s := if message.rules.stream == H.Request then NetIncomplete else NetComplete;
      if more {
        state := ParseHeader;
        WhenParsing(buf);
      } else {
        WhenStarting(buf);
      }
    }

    /** Starts printing the header that has just been read. */
    method BeginPush(buf: ReadWriteBuffer)
      requires Parts(buf) && handler.Valid() && !handler.HasPartial() && parser.StatusKnown()
      requires buf.writePos == buf.processPos
      modifies this`state, writer`state, writer`current, writer.spaceBuf, writer.endlineBuf, writer.fieldSep
      ensures unchanged(buf)
      ensures Inv(buf) && state == PushHeader && Queued(buf) == H.Print(message.contents)
      ensures Place(buf) == BodyPlace(H.BodyOf(R().stream, message.contents))
    {
      hide After, Output, H.Print, H.BodyOf, BodyPlace, MessageBuffer.Valid, MessageBuffer.AllUnsent, Inv, Place, Queued;
      handler.KindIsBody();
      writer.Reset();
      state := PushHeader;
      WhenPushing(buf);
    }

    /** The rest of the handler is untouched by reading a header. */
    method ReadMessage(buf: ReadWriteBuffer, ghost p: StreamGrammar.Place, ghost t: Bytes, ghost k: nat)
      returns (parsed: Status, ghost cut: bool)
      requires Parts(buf) && state == ParseHeader && k <= buf.processPos
      requires InStep(parser, buf, p, k) || Behind(parser, buf, p, k)
      modifies parser, handler, message, message.Repr, buf`processPos, buf`writePos
      ensures fresh(message.Repr - old(message.Repr)) && old(buf.processPos) <= buf.processPos && buf.data == old(buf.data)
      ensures Parts(buf) && handler.Valid() && buf.writePos == buf.processPos
      ensures HeaderOutcome(parsed, cut, parser, buf, p, t, k, old(buf.processPos), old(parser.LineRank()))
      ensures old(Behind(parser, buf, p, k)) ==> cut
    {
      hide After, Output, H.After, InStep, Behind, HeaderOutcome;
      hide MessageBuffer.Valid, HeaderParser.AtRest, HeaderParser.Phase, HeaderWriter.Separators, BodySink.Valid;
      parsed, cut := ReadHeader(parser, buf, p, t, k);
      OutcomeBounds(parsed, cut, parser, buf, p, t, k, old(buf.processPos), old(parser.LineRank()));
    }

    method StepHeader(buf: ReadWriteBuffer, ghost p: StreamGrammar.Place, ghost t: Bytes, ghost k: nat)
      returns (s: NetStatus, more: bool)
      requires Going(p, t, k, buf) && (Inv(buf) ==> Framed(buf)) && state == ParseHeader
      modifies this`state, parser, handler, message, message.Repr, buf`processPos, buf`writePos
      modifies writer`state, writer`current, writer.spaceBuf, writer.endlineBuf, writer.fieldSep
      ensures fresh(message.Repr - old(message.Repr)) && old(buf.processPos) <= buf.processPos && buf.data == old(buf.data)
      ensures more ==> Inv(buf) && Consumed(p, t, k, buf) && state == PushHeader && old(buf.processPos) < buf.processPos
      ensures s != DestClosed
      ensures !more ==> Settled(s, p, t, k, buf) && state == ParseHeader
      ensures old(Stalled(buf)) ==>
        !more && Retried(s, old(parser.LineRank()), buf) && buf.processPos == old(buf.processPos) && sink.dest.sent == old(sink.dest.sent)
    {
      hide After, Output, H.After, H.Print, H.BodyOf, BodyPlace, Inv, Place, Queued, Going, Framed, Settled, Retried;
      hide InStep, Behind, Stalled, HeaderOutcome, HeaderParser.LineRank;
      hide HeaderHandler.Valid, MessageBuffer.Valid, HeaderWriter.Separators, BodySink.Valid;
      WhenReading(p, t, k, buf);
      var parsed: Status;
      ghost var cut: bool;
      ghost var m, rank := buf.processPos, parser.LineRank();
      parsed, cut := ReadMessage(buf, p, t, k);
      more := parsed == Complete;
      s := if parsed == Incomplete then NetComplete else Deny;
      HeaderRead(parsed, cut, p, t, k, m, rank, buf);
      if more {
        BeginPush(buf);
      }
    }

    /** What reading a header leaves the handler with. */
    lemma HeaderRead(parsed: Status, cut: bool, p: StreamGrammar.Place, t: Bytes, k: nat, m: nat, rank: nat, buf: ReadWriteBuffer)
      requires Parts(buf) && state == ParseHeader && k <= m <= |buf.data|
      requires HeaderOutcome(parsed, cut, parser, buf, p, t, k, m, rank)
      requires t + Output(R(), p, buf.data[k..m]) == sink.dest.sent
      ensures cut ==> parsed != Complete && Retried(if parsed == Incomplete then NetComplete else Deny, rank, buf)
      ensures cut ==> buf.processPos == m
      ensures parsed != Complete ==> Settled(if parsed == Incomplete then NetComplete else Deny, p, t, k, buf)
      ensures parsed == Complete ==>
        && m < buf.processPos <= |buf.data| && !handler.HasPartial() && parser.StatusKnown()
        && After(R(), p, buf.data[k..buf.processPos]) == BodyPlace(H.BodyOf(R().stream, message.contents))
        && t + Output(R(), p, buf.data[k..buf.processPos]) == sink.dest.sent + H.Print(message.contents)
    {
      hide After, Output, H.After, H.Print, H.BodyOf, BodyPlace, Inv, Place, Queued, InStep, Behind;
      hide MessageBuffer.Valid, HeaderParser.AtRest, HeaderParser.Phase, HeaderWriter.Separators, BodySink.Valid;
      IsStalled(p, t, k, buf);
      WhenParsing(buf);
      LimitedRank(buf);
      if parsed == Complete {
        handler.KindIsBody();
      } else if !cut && parsed == Incomplete {
        assert Inv(buf) && sink.dest.sent + Queued(buf) == sink.dest.sent;
      } else if !cut {
        assert RefusedBy(p, t, k, |buf.data|, buf);
      } else {
        assert SplitStart(p, t, k, buf);
      }
    }

    lemma LimitedRank(buf: ReadWriteBuffer)
      ensures Stalled(buf) ==> parser.LineRank() <= 3 * H.MAX_FIELD_LENGTH
    {
      parser.StartIsFresh();
    }

    /** A handler about to read a header is in step with the stream, or behind it in a start line. */
    lemma WhenReading(p: StreamGrammar.Place, t: Bytes, k: nat, buf: ReadWriteBuffer)
      requires Going(p, t, k, buf) && (Inv(buf) ==> Framed(buf)) && state == ParseHeader
      ensures Parts(buf) && k <= buf.processPos
      ensures t + Output(R(), p, buf.data[k..buf.processPos]) == sink.dest.sent
      ensures InStep(parser, buf, p, k) || Behind(parser, buf, p, k)
      ensures Stalled(buf) ==> Behind(parser, buf, p, k)
    {
      hide After, Output, H.After;
      StalledIsNotResting(buf);
    }

    lemma IsStalled(p: StreamGrammar.Place, t: Bytes, k: nat, buf: ReadWriteBuffer)
      ensures SplitStart(p, t, k, buf) && Behind(parser, buf, p, k) && parser.LineRank() > 0 ==> Stalled(buf)
    {
      hide After, Output, H.After;
      if SplitStart(p, t, k, buf) && Behind(parser, buf, p, k) && parser.LineRank() > 0 {
        ReadNone(R(), START);
        assert buf.data[buf.processPos..buf.processPos] == [];
      }
    }

    /** Hands the stream over to the body parser the header calls for. */
    method BeginBody(buf: ReadWriteBuffer)
      requires Parts(buf) && buf.writePos == buf.processPos && sink.dest.CanWrite()
      requires handler.Kind() != H.UntilClose
      modifies this`state, this`encoding, lengthParser, chunkParser
      ensures Inv(buf) && state == ParseBody && Place(buf) == BodyPlace(handler.Kind()) && Queued(buf) == []
    {
      hide After, Output, BodyPlace, Inv, Place, Queued, MessageBuffer.Valid, HeaderWriter.Separators;
      lengthParser.Reset(handler.messageSize);
      chunkParser.Reset();
      state, encoding := ParseBody, handler.encoding;
      match encoding {
        case NoEncoding => WhenBodiless(buf); KindPlace();
        case ContentLengthEncoding => WhenLength(buf);
        case ChunkedEncoding => WhenChunked(buf); KindPlace();
      }
    }

    lemma KindPlace()
      ensures BodyPlace(H.NoBody) == START && BodyPlace(H.Chunked) == AfterChunk(C.START)
    {
    }

    lemma FramedKind(buf: ReadWriteBuffer)
      ensures Inv(buf) && Framed(buf) && state == PushHeader ==> handler.Kind() != H.UntilClose
    {
      if Inv(buf) && handler.Kind() == H.UntilClose {
        Absorbing(R(), Unframed, buf.Unread());
      }
    }

    /** Prints the header to the destination as far as it goes. */
    method StepPush(buf: ReadWriteBuffer, ghost p: StreamGrammar.Place, ghost t: Bytes, ghost k: nat)
      returns (s: NetStatus, more: bool)
      requires Inv(buf) && Consumed(p, t, k, buf) && Framed(buf) && state == PushHeader
      modifies this`state, this`encoding, lengthParser, chunkParser
      modifies writer`state, writer`current, writer.spaceBuf, writer.endlineBuf, writer.fieldSep, message.Repr`writePos
      modifies sink.dest`readyToWrite, sink.dest`state, sink.dest`sent, sink.dest`writeScript
      ensures Inv(buf) && Consumed(p, t, k, buf) && buf.data == old(buf.data) && buf.processPos == old(buf.processPos)
      ensures more ==> state == ParseBody && s != DestClosed
      ensures !more ==> Settled(s, p, t, k, buf) && state == PushHeader
      ensures s != DestClosed ==> sink.dest.state == old(sink.dest.state)
      ensures sink.dest.Honest(s == DestClosed)
    {
      hide Connection.Accepting, Connection.Unfailing;
      hide After, Output, BodyPlace, H.BodyOf, Inv, Place, Queued, HeaderWriter.Separators, BodySink.Valid;
      hide MessageBuffer.Valid, HeaderWriter.Left, HeaderWriter.Valid;
      FramedKind(buf);
      WhenPushing(buf);
      s := writer.WriteHeader();
      more := s == NetComplete;
      if more {
        BeginBody(buf);
      } else {
        WhenPushing(buf);
      }
    }

    /** Makes the header side ready for the next message. */
    method ResetHeader(buf: ReadWriteBuffer)
      requires Parts(buf) && buf.writePos == buf.processPos
      modifies parser, handler, message, message.Repr
      ensures Parts(buf) && Idle(buf) && message.Repr == old(message.Repr)
    {
      hide MessageBuffer.Valid, HeaderWriter.Separators, BodySink.Valid;
      hide HeaderHandler.Valid, HeaderHandler.Closed, HeaderHandler.HasPartial;
      parser.Reset();
      handler.Reset();
    }

    /** The message is over: everything is made ready for the next. */
    method CompleteMessage(buf: ReadWriteBuffer)
      requires Parts(buf) && buf.writePos == buf.processPos
      modifies this`state, this`encoding, parser, handler, message, message.Repr, sink.chunkSize, lengthParser, chunkParser
      ensures Inv(buf) && state == StartMessage && Place(buf) == START && Queued(buf) == []
      ensures message.Repr == old(message.Repr) && unchanged(buf)
    {
      hide After, Output, Inv, Place, Queued, MessageBuffer.Valid, HeaderWriter.Separators, Idle;
      sink.ResetChunkSize();
      state, encoding := StartMessage, NoEncoding;
      lengthParser.Reset(0);
      chunkParser.Reset();
      ResetHeader(buf);
      WhenStarting(buf);
    }

    /** A body has been read and forwarded to its end. */
    ghost predicate BodyOver(p: StreamGrammar.Place, t: Bytes, k: nat, buf: ReadWriteBuffer)
      reads message, Footprint(buf)
    {
      && Parts(buf) && k <= buf.processPos == buf.writePos
      && After(R(), p, buf.data[k..buf.processPos]) == START
      && sink.dest.sent == t + Output(R(), p, buf.data[k..buf.processPos])
    }

    /** A body has been read as far as the buffer or the destination allow. */
    ghost predicate BodyPaused(parsed: Status, p: StreamGrammar.Place, t: Bytes, k: nat, buf: ReadWriteBuffer)
      reads message, Footprint(buf)
    {
      && Inv(buf) && Consumed(p, t, k, buf) && state == ParseBody
      && (parsed == Incomplete ==> Queued(buf) == [] && buf.processPos == buf.writePos == |buf.data|)
      && (parsed == WriteIncomplete ==> Queued(buf) != [] && !sink.dest.CanWrite())
      && (parsed == IoFailure ==> !sink.dest.OpenForWrite())
    }

    method StepLength(buf: ReadWriteBuffer, ghost p: StreamGrammar.Place, ghost t: Bytes, ghost k: nat)
      returns (parsed: Status)
      requires Inv(buf) && Consumed(p, t, k, buf) && state == ParseBody && encoding == ContentLengthEncoding
      modifies lengthParser, buf`processPos, buf`writePos, buf`writeEnd
      modifies sink.dest`readyToWrite, sink.dest`state, sink.dest`sent, sink.dest`writeScript
      ensures old(buf.processPos) <= buf.processPos
      ensures parsed in {Complete, Incomplete, WriteIncomplete, IoFailure}
      ensures parsed == Complete ==> BodyOver(p, t, k, buf)
      ensures parsed != Complete ==> BodyPaused(parsed, p, t, k, buf)
      ensures parsed != IoFailure ==> sink.dest.state == old(sink.dest.state)
      ensures sink.dest.Honest(parsed == IoFailure)
    {
      hide Connection.Accepting, Connection.Unfailing;
      hide After, Output, BodyPlace, Inv, Place, Queued, MessageBuffer.Valid, HeaderWriter.Separators;
      WhenLength(buf);
      ghost var m, left := buf.processPos, lengthParser.contentLength - lengthParser.current;
      parsed := lengthParser.ParseContentLengthBody(buf);
      LengthRead(R(), p, t, buf.data, k, m, buf.processPos, left);
      WhenLength(buf);
      if parsed == Complete {
        LengthOver();
      }
    }

    lemma LengthOver()
      ensures BodyPlace(H.Length(0)) == START
    {
    }

    lemma ChunkOver()
      ensures AfterChunk(C.Done) == START
    {
    }

    method StepChunked(buf: ReadWriteBuffer, ghost p: StreamGrammar.Place, ghost t: Bytes, ghost k: nat)
      returns (parsed: Status)
      requires Inv(buf) && Consumed(p, t, k, buf) && state == ParseBody && encoding == ChunkedEncoding
      modifies chunkParser, sink.chunkSize, sink.endline`writePos, buf`processPos, buf`writePos, buf`writeEnd
      modifies sink.dest`readyToWrite, sink.dest`state, sink.dest`sent, sink.dest`writeScript
      ensures old(buf.processPos) <= buf.processPos && buf.data == old(buf.data)
      ensures parsed == Complete ==> BodyOver(p, t, k, buf)
      ensures parsed in {Incomplete, WriteIncomplete, IoFailure} ==> BodyPaused(parsed, p, t, k, buf)
      ensures parsed == Invalid || parsed == DataOverflow ==> RefusedBy(p, t, k, buf.processPos + 1, buf)
      ensures parsed != IoFailure ==> sink.dest.state == old(sink.dest.state)
      ensures sink.dest.Honest(parsed == IoFailure)
    {
      hide Connection.Accepting, Connection.Unfailing;
      hide After, Output, C.After, C.Output, AfterChunk, Inv, Place, Queued, MessageBuffer.Valid, HeaderWriter.Separators;
      hide ChunkedBodyParser.Queued, ChunkedBodyParser.Phase, ChunkedBodyParser.InRange, ChunkedBodyParser.Forwarding;
      WhenChunked(buf);
      ghost var m, c := buf.processPos, chunkParser.Phase();
      parsed := chunkParser.ParseBody(buf);
      if parsed == Invalid || parsed == DataOverflow {
        ChunkDenied(R(), p, t, buf.data, k, m, buf.processPos, c);
      } else if parsed == Complete {
        ChunkRead(R(), p, t, buf.data, k, m, buf.processPos, c);
        ChunkOver();
      } else {
        ChunkRead(R(), p, t, buf.data, k, m, buf.processPos, c);
        WhenChunked(buf);
      }
    }

    lemma BodyIsFramed(buf: ReadWriteBuffer)
      ensures Inv(buf) && state == ParseBody ==> encoding != EndConnection
    {
    }

    lemma OverBeforeItBegan(p: StreamGrammar.Place, t: Bytes, k: nat, buf: ReadWriteBuffer)
      ensures Inv(buf) && Consumed(p, t, k, buf) && state == ParseBody && encoding == NoEncoding ==> BodyOver(p, t, k, buf)
    {
    }

    /** Forwards the body, if there is one, as far as it goes. */
    method ParseBodyPart(buf: ReadWriteBuffer, ghost p: StreamGrammar.Place, ghost t: Bytes, ghost k: nat)
      returns (parsed: Status)
      requires Inv(buf) && Consumed(p, t, k, buf) && state == ParseBody
      modifies lengthParser, chunkParser, sink.chunkSize, sink.endline`writePos
      modifies buf`processPos, buf`writePos, buf`writeEnd
      modifies sink.dest`readyToWrite, sink.dest`state, sink.dest`sent, sink.dest`writeScript
      ensures old(buf.processPos) <= buf.processPos && buf.data == old(buf.data)
      ensures parsed == Complete ==> BodyOver(p, t, k, buf)
      ensures parsed in {Incomplete, WriteIncomplete, IoFailure} ==> BodyPaused(parsed, p, t, k, buf)
      ensures parsed == Invalid || parsed == DataOverflow ==> RefusedBy(p, t, k, buf.processPos + 1, buf)
      ensures parsed != IoFailure ==> sink.dest.state == old(sink.dest.state)
      ensures sink.dest.Honest(parsed == IoFailure)
    {
      BodyIsFramed(buf);
      hide Connection.Accepting, Connection.Unfailing;
      hide After, Output, Inv, Place, Queued, Parts, Consumed, BodyOver, BodyPaused, RefusedBy;
      match encoding {
        case NoEncoding =>
          OverBeforeItBegan(p, t, k, buf);
          parsed := Complete;
        case ContentLengthEncoding => parsed := StepLength(buf, p, t, k);
        case ChunkedEncoding => parsed := StepChunked(buf, p, t, k);
      }
    }

    method StepBody(buf: ReadWriteBuffer, ghost p: StreamGrammar.Place, ghost t: Bytes, ghost k: nat)
      returns (s: NetStatus, more: bool)
      requires Inv(buf) && Consumed(p, t, k, buf) && state == ParseBody
      modifies this`state, this`encoding, parser, handler, message, message.Repr
      modifies lengthParser, chunkParser, sink.chunkSize, sink.endline`writePos
      modifies buf`processPos, buf`writePos, buf`writeEnd
      modifies sink.dest`readyToWrite, sink.dest`state, sink.dest`sent, sink.dest`writeScript
      ensures message.Repr == old(message.Repr) && old(buf.processPos) <= buf.processPos && buf.data == old(buf.data)
      ensures more ==> Inv(buf) && Consumed(p, t, k, buf) && state == StartMessage && s != DestClosed
      ensures !more ==> Settled(s, p, t, k, buf) && state == ParseBody
      ensures s != DestClosed ==> sink.dest.state == old(sink.dest.state)
      ensures sink.dest.Honest(s == DestClosed)
    {
      hide Connection.Accepting, Connection.Unfailing;
      hide After, Output, Inv, Place, Queued, Parts, RefusedBy;
      var parsed := ParseBodyPart(buf, p, t, k);
      more := parsed == Complete;
      s := match parsed
        case Invalid => Deny
        case DataOverflow => Deny
        case Incomplete => NetComplete
        case WriteIncomplete => NetIncomplete
        case IoFailure => DestClosed
        case Complete => NetComplete;
      if more {
        CompleteMessage(buf);
      }
    }

    /** What each status a call may return with promises. */
    ghost predicate Settled(s: NetStatus, p: StreamGrammar.Place, t: Bytes, k: nat, buf: ReadWriteBuffer)
      reads message, Footprint(buf)
    {
      match s
      case Deny => state != StartMessage && (SplitStart(p, t, k, buf) || (exists n: nat :: RefusedBy(p, t, k, n, buf)))
      case NetComplete =>
        (SplitStart(p, t, k, buf) && Stalled(buf)) ||
        (Inv(buf) && Consumed(p, t, k, buf) &&
         if state == StartMessage then R().stream == H.Response && slots == 0
         else Queued(buf) == [] && buf.processPos == buf.writePos == |buf.data|)
      case NetIncomplete =>
        && Inv(buf) && Consumed(p, t, k, buf)
        && if state == StartMessage then R().stream == H.Request && slots == 0 else !sink.dest.CanWrite()
      case DestClosed => Inv(buf) && Consumed(p, t, k, buf) && !sink.dest.OpenForWrite() && state != StartMessage
      case _ => false
    }

    static function Rank(s: MessageState): (r: nat) {
      match s
      case PushHeader => 3
      case ParseBody => 2
      case StartMessage => 1
      case ParseHeader => 0
    }

    lemma StillFramed(p: StreamGrammar.Place, t: Bytes, k: nat, buf: ReadWriteBuffer)
      requires k <= |buf.data| && !After(R(), p, buf.data[k..|buf.data|]).Unframed?
      ensures Inv(buf) && Consumed(p, t, k, buf) ==> Framed(buf)
    {
      hide After, Output, Inv, Place, Queued;
      if Inv(buf) && Consumed(p, t, k, buf) {
        StandsValid(buf);
        ReadOn(R(), p, t, buf.data, k, buf.processPos, |buf.data|);
        assert buf.Unread() == buf.data[buf.processPos..|buf.data|];
      }
    }

    lemma StandsValid(buf: ReadWriteBuffer)
      ensures Inv(buf) ==> buf.Valid()
    {
    }

    /** One turn of the state machine. */
    method Step(buf: ReadWriteBuffer, ghost p: StreamGrammar.Place, ghost t: Bytes, ghost k: nat, ghost foot: set<object>)
      returns (s: NetStatus, more: bool)
      requires Going(p, t, k, buf)
      requires Inv(buf) ==> k <= |buf.data| && !After(R(), p, buf.data[k..|buf.data|]).Unframed?
      modifies Footprint(buf)
      ensures fresh(message.Repr - old(message.Repr)) && buf.data == old(buf.data)
      ensures more ==> Inv(buf) && Consumed(p, t, k, buf) && s != DestClosed
      ensures more ==> buf.processPos > old(buf.processPos) ||
                       (buf.processPos == old(buf.processPos) && Rank(state) < Rank(old(state)))
      ensures !more ==> Settled(s, p, t, k, buf)
      ensures s != DestClosed ==> sink.dest.state == old(sink.dest.state)
      ensures sink.dest.Honest(s == DestClosed)
      ensures old(Stalled(buf)) ==>
        !more && Retried(s, old(parser.LineRank()), buf) && buf.processPos == old(buf.processPos) && sink.dest.sent == old(sink.dest.sent)
      ensures old(state) == StartMessage && old(slots) == 0 ==> !more && unchanged(foot)
    {
      hide Connection.Accepting, Connection.Unfailing;
      hide After, Output, Inv, Place, Queued, Consumed, Settled, Framed, Stalled, SplitStart, Retried;
      if Inv(buf) {
        StillFramed(p, t, k, buf);
      }
      StalledIsNotResting(buf);
      StalledIsParsing(buf);
      match state {
        case StartMessage => s, more := StepStart(buf, p, t, k);
        case ParseHeader => s, more := StepHeader(buf, p, t, k);
        case PushHeader => s, more := StepPush(buf, p, t, k);
        case ParseBody => s, more := StepBody(buf, p, t, k);
      }
    }

    lemma StalledIsParsing(buf: ReadWriteBuffer)
      ensures Stalled(buf) ==> state == ParseHeader && buf.Valid() && |buf.data| > 0 && !buf.FullyWritten()
    {
    }

    /** Takes the stream as far as the buffer, the destination and the pipeline allow. */
    method ProcessData(buf: ReadWriteBuffer, ghost foot: set<object>) returns (s: NetStatus)
      requires ((Inv(buf) && Framed(buf)) || Stalled(buf)) && foot == Footprint(buf)
      modifies Footprint(buf)
      ensures fresh(message.Repr - old(message.Repr)) && buf.data == old(buf.data)
      ensures old(Inv(buf)) ==>
        Settled(s, old(Place(buf)), old(sink.dest.sent) + old(Queued(buf)), old(buf.processPos), buf)
      ensures old(Stalled(buf)) ==>
        && Settled(s, START, old(sink.dest.sent), old(buf.processPos), buf)
        && Retried(s, old(parser.LineRank()), buf)
        && buf.processPos == old(buf.processPos) && sink.dest.sent == old(sink.dest.sent)
      ensures s != DestClosed ==> sink.dest.state == old(sink.dest.state)
      ensures sink.dest.Honest(s == DestClosed)
      ensures old(state) == StartMessage && old(slots) == 0 ==> unchanged(foot)
    {
      hide Connection.Accepting, Connection.Unfailing;
      hide After, Output, Inv, Place, Queued, Consumed, Settled, Stalled, SplitStart, Retried, HeaderParser.LineRank;
      StalledIsNotResting(buf);
      StalledIsParsing(buf);
      ghost var p, t, k := START, sink.dest.sent, buf.processPos;
      if Inv(buf) {
        p, t := Place(buf), sink.dest.sent + Queued(buf);
        StandsValid(buf);
        NothingRead(buf);
        assert buf.Unread() == buf.data[k..|buf.data|];
      } else {
        StalledHere(buf);
      }
      if |buf.data| == 0 && state == ParseHeader {
        NothingToParse(buf);
        return NetComplete;
      }
      var more := true;
      s := NetComplete;
      ghost var first := true;
      while more
        invariant fresh(message.Repr - old(message.Repr)) && buf.data == old(buf.data)
        invariant more && !first ==> buf.processPos <= |buf.data| && Inv(buf) && Consumed(p, t, k, buf)
        invariant first ==> more && Going(p, t, k, buf) && unchanged(foot)
        invariant !more ==> Settled(s, p, t, k, buf)
        invariant !first && old(Stalled(buf)) ==>
          !more && Retried(s, old(parser.LineRank()), buf) && buf.processPos == k && sink.dest.sent == t
        invariant !first && old(state) == StartMessage && old(slots) == 0 ==> !more && unchanged(foot)
        invariant (!more && s == DestClosed) || sink.dest.state == old(sink.dest.state)
        invariant sink.dest.Honest(!more && s == DestClosed)
        decreases more, first, |buf.data| - buf.processPos, Rank(state)
      {
        s, more := Step(buf, p, t, k, foot);
        first := false;
        if more {
          StandsValid(buf);
        }
      }
    }

    lemma StalledHere(buf: ReadWriteBuffer)
      ensures Stalled(buf) ==> SplitStart(START, sink.dest.sent, buf.processPos, buf)
    {
    }

    lemma NothingToParse(buf: ReadWriteBuffer)
      ensures Inv(buf) && |buf.data| == 0 && state == ParseHeader ==>
        Settled(NetComplete, Place(buf), sink.dest.sent + Queued(buf), buf.processPos, buf)
    {
      NothingRead(buf);
      if state == ParseHeader {
        WhenParsing(buf);
      }
    }

    lemma NothingRead(buf: ReadWriteBuffer)
      ensures Inv(buf) ==> Consumed(Place(buf), sink.dest.sent + Queued(buf), buf.processPos, buf)
    {
      hide After, Output, Place, Queued;
      if Inv(buf) {
        assert buf.data[buf.processPos..buf.processPos] == [];
        ReadNone(R(), Place(buf));
      }
    }
  }
}
