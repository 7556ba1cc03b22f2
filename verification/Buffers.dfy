/** The cursor buffer every stage of the proxy shares (`read_write_buffer`). */
module Buffers {
  import opened Octets

  /** A run of a vector: where it starts and how long it is. */
  datatype View = View(start: nat, length: nat) {
    /** The run lies within the bytes d. */
    predicate Shows(d: Bytes) {
      start + length <= |d|
    }

    function Of(d: Bytes): (s: Bytes)
      requires Shows(d)
    {
      d[start..start + length]
    }
  }

  class ReadWriteBuffer {
    /** The size of the backing vector. */
    const capacity: nat
    /** A static buffer is a view of a constant string; `reset` rewinds it instead of emptying it. */
    const isStatic: bool
    /** The first `working_length_` bytes of the vector. */
    var data: Bytes
    /** Bytes before this position have been parsed. */
    var processPos: nat
    /** Bytes before this position have been written out, or need not be. */
    var writePos: nat
    /** The next write stops here. */
    var writeEnd: nat

    ghost predicate Valid()
      reads this
    {
      && |data| <= capacity
      && processPos <= |data|
      && writePos <= |data|
      && writeEnd <= |data|
      && (isStatic ==> |data| == capacity)
    }

    constructor (capacity: nat)
      ensures Valid() && this.capacity == capacity && !isStatic
      ensures data == [] && processPos == writePos == writeEnd == 0
    {
      this.capacity := capacity;
      isStatic := false;
      data := [];
      processPos, writePos, writeEnd := 0, 0, 0;
    }

    constructor Static(text: Bytes)
      ensures Valid() && isStatic && data == text
      ensures processPos == writePos == 0 && writeEnd == |text|
    {
      capacity := |text|;
      isStatic := true;
      data := text;
      processPos, writePos, writeEnd := 0, 0, |text|;
    }

    /** The bytes the next write would send. */
    ghost function Pending(): (p: Bytes)
      requires Valid() && writePos <= writeEnd
      reads this
    {
      data[writePos..writeEnd]
    }

    /** The bytes no parser has looked at yet. */
    ghost function Unread(): (u: Bytes)
      requires Valid()
      reads this
    {
      data[processPos..]
    }

    predicate FullyWritten()
      reads this
    {
      writePos >= |data|
    }

    predicate FitsInBuffer(size: nat)
      reads this
    {
      |data| + size <= capacity
    }

    /** What `get_const_buffer` hands out: a view of the backing vector. */
    function GetConstBuffer(): (v: View)
      reads this
    {
      View(writePos, writeEnd)
    }

    /** The view is the bytes still to be written exactly when none has been written yet: its
        length is the end position, wherever it starts. */
    lemma ViewIsPending()
      requires Valid() && writePos <= writeEnd
      ensures GetConstBuffer().Shows(data) && GetConstBuffer().Of(data) == Pending() <==> writePos == 0
    {
    }

    method Reset()
      requires Valid()
      modifies this`data, `processPos, `writePos, `writeEnd
      ensures Valid()
      ensures data == if isStatic then old(data) else []
      ensures processPos == writePos == 0 && writeEnd == |data|
    {
      if !isStatic {
        data := [];
      }
      writeEnd := |data|;
      processPos, writePos := 0, 0;
    }

    /** Fills a non-static buffer, as a socket read or `snprintf` does, and rewinds its cursors. */
    method SetWorking(bytes: Bytes)
      requires Valid() && !isStatic && |bytes| <= capacity
      modifies this`data, `processPos, `writePos, `writeEnd
      ensures Valid() && data == bytes
      ensures processPos == writePos == 0 && writeEnd == |bytes|
    {
      data := bytes;
      processPos, writePos, writeEnd := 0, 0, |bytes|;
    }

    method AppendFromBuffer(bytes: Bytes)
      requires Valid() && !isStatic && FitsInBuffer(|bytes|)
      modifies this`data, `writeEnd
      ensures Valid() && data == old(data) + bytes && writeEnd == |data|
    {
      data := data + bytes;
      writeEnd := |data|;
    }

    method SetProcessPosition(p: nat)
      requires Valid() && p <= |data|
      modifies this`processPos
      ensures Valid() && processPos == p
    {
      processPos := p;
    }

    method SetWritePosition(p: nat)
      requires Valid() && p <= |data|
      modifies this`writePos
      ensures Valid() && writePos == p
    {
      writePos := p;
    }

    method SetWriteEndPosition(p: nat)
      requires Valid() && p <= |data|
      modifies this`writeEnd
      ensures Valid() && writeEnd == p
    {
      writeEnd := p;
    }
  }
}
