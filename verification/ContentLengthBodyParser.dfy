/** The resumable parser of a body whose length is announced. */
module LengthBodies {
  import opened Octets
  import opened Buffers
  import opened Connections
  import opened Scanners
  import opened BodySinks

  datatype LengthState = MessageBodyParse | IncompleteForward | CompleteForward

  class ContentLengthBodyParser {
    const sink: BodySink
    var state: LengthState
    var contentLength: nat
    /** How much of the body has been read. */
    var current: nat

    ghost predicate Inv(buf: ReadWriteBuffer)
      reads this, buf, sink.chunkSize, sink.endline, sink.dest
    {
      && buf.Valid() && sink.Valid() && sink.Foreign(buf)
      && buf.writePos <= buf.processPos
      && current <= contentLength
      && (state == MessageBodyParse ==> sink.dest.CanWrite() && (current < contentLength || current == 0))
      && (state == IncompleteForward ==> current < contentLength && buf.processPos == |buf.data|)
      && (state == CompleteForward ==> current == contentLength)
      && (state != MessageBodyParse ==> buf.writePos <= buf.writeEnd == buf.processPos)
      && (state != MessageBodyParse ==> buf.writePos < buf.writeEnd || sink.dest.CanWrite())
    }

    /** Between calls a parser that waits to forward body bytes really has some. */
    ghost predicate AtRest(buf: ReadWriteBuffer)
      reads this, buf, sink.chunkSize, sink.endline, sink.dest
    {
      Inv(buf) && (state != MessageBodyParse ==> buf.writePos < buf.writeEnd)
    }

    ghost function Queued(buf: ReadWriteBuffer): (q: Bytes)
      requires Inv(buf)
      reads this, buf, sink.chunkSize, sink.endline, sink.dest
    {
      if state == MessageBodyParse then [] else buf.Pending()
    }

    /** The bytes read since the process position was k, and no others, have been added to what
        the destination has been or will be given. */
    ghost predicate Consumed(n: nat, t: Bytes, k: nat, buf: ReadWriteBuffer)
      requires Inv(buf)
      reads this, buf, sink.chunkSize, sink.endline, sink.dest
    {
      && k <= buf.processPos && current == n + (buf.processPos - k)
      && sink.dest.sent + Queued(buf) == t + buf.data[k..buf.processPos]
    }

    ghost predicate Settled(s: Status, n: nat, t: Bytes, k: nat, buf: ReadWriteBuffer)
      reads this, buf, sink.chunkSize, sink.endline, sink.dest
    {
      && Inv(buf) && Consumed(n, t, k, buf)
      && s in {Complete, Incomplete, WriteIncomplete, IoFailure}
      && (s == Complete ==> current == contentLength && Queued(buf) == [] && buf.writePos == buf.processPos && sink.dest.CanWrite())
      && (s == Incomplete ==> current < contentLength && Queued(buf) == [] && buf.processPos == buf.writePos == |buf.data|)
      && (s == WriteIncomplete ==> Queued(buf) != [] && !sink.dest.CanWrite())
      && (s == IoFailure ==> !sink.dest.OpenForWrite())
      && (s != Complete ==> AtRest(buf))
    }

    constructor (sink: BodySink)
      ensures this.sink == sink && state == MessageBodyParse && contentLength == current == 0
    {
      this.sink := sink;
      state, contentLength, current := MessageBodyParse, 0, 0;
    }

    method Reset(messageSize: nat)
      modifies this
      ensures state == MessageBodyParse && contentLength == messageSize && current == 0
    {
      state, contentLength, current := MessageBodyParse, messageSize, 0;
    }

    method StepParse(buf: ReadWriteBuffer, ghost n: nat, ghost t: Bytes, ghost k: nat)
      requires Inv(buf) && Consumed(n, t, k, buf) && state == MessageBodyParse
      modifies this`state, this`current, buf`processPos, buf`writePos, buf`writeEnd
      ensures Inv(buf) && Consumed(n, t, k, buf) && state != MessageBodyParse
    {
      ghost var k1 := buf.processPos;
      assert sink.dest.sent == t + buf.data[k..k1];
      buf.SetWritePosition(buf.processPos);
      var s, length := ParseNLengthBuffer(buf, current, contentLength);
      JoinSlices(buf.data, k, k1, buf.processPos);
      Assoc(t, buf.data[k..k1], buf.data[k1..buf.processPos]);
      buf.SetWriteEndPosition(buf.processPos);
      current, state := length, if s == Complete then CompleteForward else IncompleteForward;
    }

    method StepForward(buf: ReadWriteBuffer, ghost n: nat, ghost t: Bytes, ghost k: nat) returns (s: Status)
      requires Inv(buf) && Consumed(n, t, k, buf) && state != MessageBodyParse
      modifies this`state, buf`writePos
      modifies sink.dest`readyToWrite, sink.dest`state, sink.dest`sent, sink.dest`writeScript
      ensures Settled(s, n, t, k, buf)
      ensures s != IoFailure ==> sink.dest.state == old(sink.dest.state)
      ensures sink.dest.Honest(s == IoFailure)
    {
      s := sink.SetBody(buf);
      if s == Complete && state == IncompleteForward {
        state := MessageBodyParse;
        s := Incomplete;
      } else if s == Incomplete {
        s := WriteIncomplete;
      }
    }

    /** Forwards the body bytes the buffer holds, never reading past the announced length. */
    method ParseContentLengthBody(buf: ReadWriteBuffer) returns (s: Status)
      requires AtRest(buf)
      modifies this`state, this`current, buf`processPos, buf`writePos, buf`writeEnd
      modifies sink.dest`readyToWrite, sink.dest`state, sink.dest`sent, sink.dest`writeScript
      ensures Settled(s, old(current), old(sink.dest.sent) + old(Queued(buf)), old(buf.processPos), buf)
      ensures s != IoFailure ==> sink.dest.state == old(sink.dest.state)
      ensures sink.dest.Honest(s == IoFailure)
    {
      ghost var n, t, k := current, sink.dest.sent + Queued(buf), buf.processPos;
      var processed := false;
      s := Invalid;
      while !processed
        invariant buf.data == old(buf.data)
        invariant !processed ==> Inv(buf) && Consumed(n, t, k, buf) && sink.dest.state == old(sink.dest.state)
        invariant processed ==> Settled(s, n, t, k, buf)
        invariant s != IoFailure ==> sink.dest.state == old(sink.dest.state)
        invariant sink.dest.Honest(processed && s == IoFailure)
        decreases !processed, state == MessageBodyParse
      {
        if state == MessageBodyParse {
          StepParse(buf, n, t, k);
        } else {
          s := StepForward(buf, n, t, k);
          processed := true;
        }
      }
    }
  }
}
