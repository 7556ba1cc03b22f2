/** The sink half of the stream handler: where a body parser hands its bytes to the destination. */
module BodySinks {
  import opened Octets
  import opened Buffers
  import opened Connections
  import opened ChunkGrammar
  import opened Scanners

  function ConvertProxyStatus(s: NetStatus): (r: Status)
    ensures r == Complete <==> s == NetComplete
    ensures r == Incomplete <==> s == NetIncomplete
    ensures r == IoFailure <==> s == DestClosed || s == SrcClosed
    ensures r != WriteIncomplete && r != DataOverflow
  {
    match s
    case DestClosed => IoFailure
    case NetComplete => Complete
    case NetIncomplete => Incomplete
    case SrcClosed => IoFailure
    case _ => Invalid
  }

  class BodySink {
    const dest: Connection
    /** Holds the size line of the chunk being forwarded. */
    const chunkSize: ReadWriteBuffer
    /** A cursor over the constant CR LF. */
    const endline: ReadWriteBuffer

    ghost predicate Valid()
      reads chunkSize, endline
    {
      && chunkSize.Valid() && !chunkSize.isStatic && chunkSize.capacity == CHUNK_SIZE_LENGTH + 2
      && chunkSize.writePos <= chunkSize.writeEnd
      && endline.Valid() && endline.isStatic && endline.data == ENDLINE && endline.writeEnd == |ENDLINE|
    }

    /** A body buffer that is neither of the sink's own. */
    ghost predicate Foreign(buf: ReadWriteBuffer) {
      buf != chunkSize && buf != endline
    }

    constructor (dest: Connection)
      ensures Valid() && this.dest == dest && fresh(chunkSize) && fresh(endline)
    {
      this.dest := dest;
      chunkSize := new ReadWriteBuffer(CHUNK_SIZE_LENGTH + 2);
      endline := new ReadWriteBuffer.Static(ENDLINE);
    }

    method SetBody(buf: ReadWriteBuffer) returns (s: Status)
      requires Valid() && Foreign(buf) && buf.Valid() && buf.writePos <= buf.writeEnd
      modifies dest`readyToWrite, dest`state, dest`sent, dest`writeScript, buf`writePos
      ensures Valid() && buf.Valid() && old(buf.writePos) <= buf.writePos <= buf.writeEnd
      ensures dest.sent + buf.Pending() == old(dest.sent) + old(buf.Pending())
      ensures s == Complete || s == Incomplete || s == IoFailure
      ensures s == Complete ==> buf.writePos == buf.writeEnd && dest.CanWrite()
      ensures s == Incomplete ==> !dest.CanWrite() && (old(dest.CanWrite() || buf.writePos < buf.writeEnd) ==> buf.writePos < buf.writeEnd)
      ensures s == IoFailure ==> !dest.OpenForWrite() && buf.writePos < buf.writeEnd
      ensures s != IoFailure ==> dest.state == old(dest.state)
      ensures dest.Honest(s == IoFailure)
      ensures old(buf.writePos) == buf.writeEnd ==> s == if old(dest.CanWrite()) then Complete else Incomplete
    {
      hide Connection.Accepting, Connection.Unfailing, Connection.WriteStory;
      var net := dest.NonBlockingWrite(buf);
      JoinSlices(buf.data, old(buf.writePos), buf.writePos, buf.writeEnd);
      s := ConvertProxyStatus(net);
    }

    /** Prints the size line and rewinds the CR LF that will follow the chunk. */
    method SetChunkSize(size: nat)
      requires Valid() && size < Pow16(CHUNK_SIZE_LENGTH)
      modifies chunkSize`data, chunkSize`processPos, chunkSize`writePos, chunkSize`writeEnd, endline`writePos
      ensures Valid() && chunkSize.Pending() == SizeLine(size) && endline.Pending() == ENDLINE
    {
      HexLength(size, CHUNK_SIZE_LENGTH);
      chunkSize.SetWorking(Hex(size) + ENDLINE);
      endline.SetWritePosition(0);
    }

    method ResetChunkSize()
      requires Valid()
      modifies chunkSize
      ensures Valid()
    {
      chunkSize.Reset();
    }

    /** Forwards one of the sink's own buffers. */
    method Forward(own: ReadWriteBuffer) returns (s: Status)
      requires Valid() && (own == chunkSize || own == endline)
      modifies dest`readyToWrite, dest`state, dest`sent, dest`writeScript, own`writePos
      ensures Valid()
      ensures dest.sent + own.Pending() == old(dest.sent) + old(own.Pending())
      ensures s == Complete || s == Incomplete || s == IoFailure
      ensures s == Complete ==> own.Pending() == [] && dest.CanWrite()
      ensures s == Incomplete ==> !dest.CanWrite() && (old(dest.CanWrite() || own.Pending() != []) ==> own.Pending() != [])
      ensures s == IoFailure ==> !dest.OpenForWrite() && own.Pending() != []
      ensures s != IoFailure ==> dest.state == old(dest.state)
      ensures dest.Honest(s == IoFailure)
    {
      hide Connection.Accepting, Connection.Unfailing, Connection.WriteStory;
      var net := dest.NonBlockingWrite(own);
      JoinSlices(own.data, old(own.writePos), own.writePos, own.writeEnd);
      s := ConvertProxyStatus(net);
    }
  }
}
