/** A non-blocking socket (`connection`). The operating system is an arbitrary script of
    outcomes: any short read, any short write, EAGAIN, EINTR or an error, in any order. */
module Connections {
  import opened Octets
  import opened Buffers

  datatype NetStatus =
    | NetComplete | NetIncomplete | ConnectionFailed | SrcClosed | DestClosed | Deny

  datatype LinkState = NotConnected | Connected | Connecting | ReadShut | WriteShut | HungUp

  /** What one `write` call does: accepts up to n bytes, or fails. */
  datatype WriteOutcome = Accept(n: nat) | WriteEagain | WriteEintr | WriteError

  /** What one `read` call does: delivers up to n bytes (none at end of stream), or fails. */
  datatype ReadOutcome = Deliver(n: nat) | ReadEagain | ReadEintr | ReadError

  /** An exhausted script means the kernel would block. */
  function FirstRead(script: seq<ReadOutcome>): (o: ReadOutcome) {
    if script == [] then ReadEagain else script[0]
  }

  function Min(a: nat, b: nat): (m: nat)
    ensures m <= a && m <= b && (m == a || m == b)
  {
    if a <= b then a else b
  }

  class Connection {
    const buffer: ReadWriteBuffer
    var readyToRead: bool
    var readyToWrite: bool
    var state: LinkState

    /** Bytes the peer has sent that no `read` has returned yet. */
    var incoming: Bytes
    /** Bytes the kernel has accepted for the peer, in order. */
    var sent: Bytes
    var readScript: seq<ReadOutcome>
    var writeScript: seq<WriteOutcome>

    constructor (bufferLength: nat, incoming: Bytes, readScript: seq<ReadOutcome>, writeScript: seq<WriteOutcome>)
      ensures fresh(buffer) && buffer.Valid() && !buffer.isStatic && buffer.capacity == bufferLength
      ensures buffer.data == [] && buffer.processPos == buffer.writePos == 0
      ensures !readyToRead && !readyToWrite && state == NotConnected && sent == []
      ensures this.incoming == incoming && this.readScript == readScript && this.writeScript == writeScript
    {
      buffer := new ReadWriteBuffer(bufferLength);
      readyToRead, readyToWrite, state := false, false, NotConnected;
      this.incoming, sent := incoming, [];
      this.readScript, this.writeScript := readScript, writeScript;
    }

    /** No read fails or closes the source before its peer has said everything, and the source has
        not been closed before that. */
    ghost predicate Sound()
      reads this
    {
      && buffer.capacity > 0
      && (forall i :: 0 <= i < |readScript| ==> readScript[i] != ReadError && readScript[i] != Deliver(0))
      && (state == ReadShut || state == HungUp ==> incoming == [])
    }

    /** No read of the script would block. */
    ghost predicate Eager()
      reads this`readScript
    {
      forall i :: 0 <= i < |readScript| ==> readScript[i] != ReadEagain
    }

    /** And the source has been told that it can be read, unless the script has come to its end. */
    ghost predicate Willing()
      reads this`readScript, this`readyToRead
    {
      Eager() && (readyToRead || readScript == [])
    }

    /** No write of the script would block, and the destination has been told that it can be written,
        unless the script has come to its end. */
    ghost predicate Accepting()
      reads this`writeScript, this`readyToWrite
    {
      && (forall i :: 0 <= i < |writeScript| ==> writeScript[i] != WriteEagain)
      && (readyToWrite || writeScript == [])
    }

    /** No write of the script fails. */
    ghost predicate Unfailing()
      reads this`writeScript
    {
      forall i :: 0 <= i < |writeScript| ==> writeScript[i] != WriteError
    }

    /** A destination is given up only when a write has failed, and taken for busy only when a write
        would have blocked. */
    twostate predicate Honest(gone: bool)
      reads this
    {
      && (old(Accepting()) ==> Accepting())
      && (old(Unfailing()) ==> Unfailing() && !gone)
    }

    predicate OpenForRead()
      reads this`state
    {
      state == Connected || state == WriteShut
    }

    predicate OpenForWrite()
      reads this`state
    {
      state == Connected || state == ReadShut
    }

    predicate CanRead()
      reads this`state, this`readyToRead
    {
      readyToRead && OpenForRead()
    }

    predicate CanWrite()
      reads this`state, this`readyToWrite
    {
      readyToWrite && OpenForWrite()
    }

    /** The first test of the original is overruled by the `else` of its second: shutting the
        write side of a read-shut socket leaves it WRITE_SHUT. */
    method SetState(next: LinkState)
      modifies this`state
      ensures state == if next == ReadShut && old(state) == WriteShut then HungUp else next
    {
      if next == WriteShut && state == ReadShut {
        state := HungUp;
      }
      if next == ReadShut && state == WriteShut {
        state := HungUp;
      } else {
        state := next;
      }
    }

    /** The `write` system call: accepts a prefix of `bytes`, or nothing. An exhausted script
        means the kernel would block. */
    method OsWrite(bytes: Bytes) returns (o: WriteOutcome)
      modifies this`sent, `writeScript
      ensures o.Accept? ==> o.n <= |bytes| && sent == old(sent) + bytes[..o.n]
      ensures !o.Accept? ==> sent == old(sent)
      ensures if old(writeScript) == [] then o == WriteEagain && writeScript == [] else
        && writeScript == old(writeScript)[1..]
        && o == match old(writeScript)[0]
           case Accept(n) => Accept(Min(n, |bytes|))
           case other => other
    {
      if writeScript == [] {
        return WriteEagain;
      }
      o, writeScript := writeScript[0], writeScript[1..];
      if o.Accept? {
        o := Accept(Min(o.n, |bytes|));
        sent := sent + bytes[..o.n];
      }
    }

    /** The `read` system call: delivers a prefix of the peer's bytes that fits `size`. */
    method OsRead(size: nat) returns (o: ReadOutcome, bytes: Bytes)
      modifies this`incoming, `readScript
      ensures bytes + incoming == old(incoming)
      ensures if o.Deliver? then |bytes| == o.n <= size else bytes == []
      ensures if old(readScript) == [] then o == ReadEagain && readScript == [] else
        && readScript == old(readScript)[1..]
        && o == match old(readScript)[0]
           case Deliver(n) => Deliver(Min(n, Min(size, |old(incoming)|)))
           case other => other
    {
      if readScript == [] {
        return ReadEagain, [];
      }
      o, readScript := readScript[0], readScript[1..];
      bytes := [];
      if o.Deliver? {
        o := Deliver(Min(o.n, Min(size, |incoming|)));
        bytes, incoming := incoming[..o.n], incoming[o.n..];
      }
    }

    /** Refills the buffer, but only once every byte in it has been written or marked as such.
        No byte of the stream is lost or repeated: what the buffer gains, `incoming` loses. Only an
        error, or a read that delivers nothing, closes the source; a read that would block makes it
        wait, and an interrupted one changes nothing. */
    method NonBlockingRead() returns (s: NetStatus)
      requires buffer.Valid() && !buffer.isStatic
      modifies this`readyToRead, `state, `incoming, `readScript,
               buffer`data, buffer`processPos, buffer`writePos, buffer`writeEnd
      ensures buffer.Valid()
      ensures s == NetComplete || s == SrcClosed
      ensures !old(CanRead()) || !old(buffer.FullyWritten()) ==>
                && unchanged(buffer)
                && incoming == old(incoming) && readScript == old(readScript)
                && readyToRead == old(readyToRead) && state == old(state) && s == NetComplete
      ensures old(CanRead()) && old(buffer.FullyWritten()) ==>
                && buffer.data + incoming == old(incoming)
                && buffer.processPos == buffer.writePos == 0 && buffer.writeEnd == |buffer.data|
      ensures buffer.data == [] || s == NetComplete
      ensures OpenForWrite() <== old(OpenForWrite())
      ensures s == SrcClosed ==> !OpenForRead()
      ensures |readScript| <= |old(readScript)|
      ensures s == NetComplete && CanRead() && old(buffer.FullyWritten()) ==> |readScript| < |old(readScript)|
      ensures old(CanRead()) && old(buffer.FullyWritten()) ==>
        && readScript == (if old(readScript) == [] then [] else old(readScript)[1..])
        && var shut := if old(state) == WriteShut then HungUp else ReadShut;
           match FirstRead(old(readScript))
           case Deliver(n) =>
             && |buffer.data| == Min(n, Min(buffer.capacity, |old(incoming)|)) && readyToRead
             && if buffer.data == [] then s == SrcClosed && state == shut else s == NetComplete && state == old(state)
           case ReadEagain => s == NetComplete && buffer.data == [] && state == old(state) && !readyToRead
           case ReadEintr => s == NetComplete && buffer.data == [] && state == old(state) && readyToRead
           case ReadError => s == SrcClosed && buffer.data == [] && state == shut && readyToRead
      ensures (old(Sound()) ==> Sound()) && (old(Eager()) ==> Eager()) && (old(Willing()) ==> Willing())
    {
      s := NetComplete;
      if !CanRead() {
        return;
      }
      if !buffer.FullyWritten() {
        return;
      }
      buffer.Reset();
      var outcome, bytes := OsRead(buffer.capacity);
      match outcome {
        case Deliver(count) =>
          if count == 0 {
            SetState(ReadShut);
            return SrcClosed;
          }
          buffer.SetWorking(bytes);
        case ReadEagain =>
          readyToRead := false;
        case ReadEintr =>
        case ReadError =>
          SetState(ReadShut);
          return SrcClosed;
      }
    }

    /** Of the outcomes in script, which of them the write calls met and what the last one did: only
        an error closes the destination, and only a call that would block makes it wait. */
    ghost predicate WriteStory(s: NetStatus, script: seq<WriteOutcome>, ready: bool)
      reads this
    {
      && |writeScript| <= |script| && writeScript == script[|script| - |writeScript|..]
      && var met := |script| - |writeScript|;
         && (forall i :: 0 <= i < met - 1 ==> script[i].Accept? || script[i] == WriteEintr)
         && (!ready ==> met == 0 && s == NetIncomplete)
         && (ready ==> match s
               case NetComplete => met > 0 ==> script[met - 1].Accept? || script[met - 1] == WriteEintr
               case NetIncomplete => if met > 0 then script[met - 1] == WriteEagain || met == |script| else script == []
               case DestClosed => met > 0 && script[met - 1] == WriteError
               case _ => false)
    }

    /** Writes until everything up to the end marker is out, the kernel would block, or the
        peer is gone. An open, ready socket reports NetIncomplete only while bytes are pending. */
    method NonBlockingWrite(buf: ReadWriteBuffer) returns (s: NetStatus)
      requires buf.Valid() && buf.writePos <= buf.writeEnd
      modifies this`readyToWrite, `state, `sent, `writeScript, buf`writePos
      ensures buf.Valid() && old(buf.writePos) <= buf.writePos <= buf.writeEnd
      ensures sent == old(sent) + buf.data[old(buf.writePos)..buf.writePos]
      ensures s == NetComplete || s == NetIncomplete || s == DestClosed
      ensures s == NetComplete ==> buf.writePos == buf.writeEnd && CanWrite() && state == old(state)
      ensures s == NetIncomplete ==> !CanWrite() && state == old(state)
      ensures s == NetIncomplete && (old(CanWrite()) || old(buf.writePos) < buf.writeEnd) ==> buf.writePos < buf.writeEnd
      ensures s == DestClosed ==> !OpenForWrite() && buf.writePos < buf.writeEnd
      ensures old(buf.writePos) == buf.writeEnd ==> s == if old(CanWrite()) then NetComplete else NetIncomplete
      ensures WriteStory(s, old(writeScript), old(CanWrite()))
      ensures s == DestClosed ==> state == WriteShut && readyToWrite
      ensures Honest(s == DestClosed)
      ensures s == NetIncomplete && old(CanWrite()) ==> !readyToWrite
    {
      ghost var script, met, start := writeScript, 0, buf.writePos;
      while true
        invariant buf.Valid() && start <= buf.writePos <= buf.writeEnd
        invariant sent == old(sent) + buf.data[start..buf.writePos]
        invariant state == old(state) && readyToWrite == old(readyToWrite)
        invariant buf.writePos == buf.writeEnd ==> start == buf.writeEnd
        invariant met <= |script| && writeScript == script[met..] && (met > 0 ==> CanWrite())
        invariant forall i :: 0 <= i < met ==> script[i].Accept? || script[i] == WriteEintr
        decreases |writeScript|
      {
        if !CanWrite() {
          return NetIncomplete;
        }
        if buf.writePos == buf.writeEnd {
          return NetComplete;
        }
        var outcome := WriteOnce(buf, start, old(sent));
        met := if met < |script| then met + 1 else met;
        match outcome {
          case Accept(_) =>
            if buf.writePos == buf.writeEnd {
              return NetComplete;
            }
          case WriteEintr =>
          case WriteEagain =>
            readyToWrite := false;
            return NetIncomplete;
          case WriteError =>
            SetState(WriteShut);
            return DestClosed;
        }
      }
    }

    /** One call, and the write position moved past what it accepted. */
    method WriteOnce(buf: ReadWriteBuffer, ghost start: nat, ghost before: Bytes) returns (o: WriteOutcome)
      requires buf.Valid() && start <= buf.writePos < buf.writeEnd
      requires sent == before + buf.data[start..buf.writePos]
      modifies this`sent, this`writeScript, buf`writePos
      ensures buf.Valid() && old(buf.writePos) <= buf.writePos <= buf.writeEnd
      ensures sent == before + buf.data[start..buf.writePos]
      ensures !o.Accept? ==> buf.writePos == old(buf.writePos)
      ensures if old(writeScript) == [] then o == WriteEagain && writeScript == [] else
        && writeScript == old(writeScript)[1..]
        && if old(writeScript)[0].Accept? then o.Accept? else o == old(writeScript)[0]
    {
      o := OsWrite(buf.data[buf.writePos..buf.writeEnd]);
      if o.Accept? {
        JoinSlices(buf.data, start, buf.writePos, buf.writePos + o.n);
        assert buf.data[buf.writePos..buf.writeEnd][..o.n] == buf.data[buf.writePos..buf.writePos + o.n];
        buf.SetWritePosition(buf.writePos + o.n);
      }
    }
  }
}
