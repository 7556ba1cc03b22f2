/** The scanning primitives of `http.cpp` that work on a cursor buffer. */
module Scanners {
  import opened Octets
  import opened Buffers
  import opened Connections
  import HeaderGrammar

  datatype Status = Complete | Incomplete | WriteIncomplete | Invalid | DataOverflow | IoFailure

  method ParseChar(buf: ReadWriteBuffer, c: byte) returns (s: Status)
    requires buf.Valid()
    modifies buf`processPos
    ensures buf.Valid()
    ensures s == Complete <==> old(buf.processPos) < |buf.data| && buf.data[old(buf.processPos)] == c
    ensures s == Incomplete <==> old(buf.processPos) == |buf.data|
    ensures s == Complete || s == Incomplete || s == Invalid
    ensures buf.processPos == old(buf.processPos) + if s == Complete then 1 else 0
  {
    if buf.processPos >= |buf.data| {
      return Incomplete;
    }
    if buf.data[buf.processPos] == c {
      buf.SetProcessPosition(buf.processPos + 1);
      return Complete;
    }
    return Invalid;
  }

  /** Takes what the buffer holds of a run of maxLength bytes, of which currentLength are
      already taken. */
  method ParseNLengthBuffer(buf: ReadWriteBuffer, currentLength: nat, maxLength: nat)
    returns (s: Status, length: nat)
    requires buf.Valid() && currentLength <= maxLength
    modifies buf`processPos
    ensures buf.Valid()
    ensures length - currentLength == buf.processPos - old(buf.processPos) >= 0
    ensures length <= maxLength
    ensures s == if length < maxLength then Incomplete else Complete
    ensures s == Incomplete ==> buf.processPos == |buf.data|
  {
    var added := Min(|buf.data| - buf.processPos, maxLength - currentLength);
    length := currentLength + added;
    buf.SetProcessPosition(buf.processPos + added);
    s := if length < maxLength then Incomplete else Complete;
  }

  /** None of the bytes from a to b ends a token or is a control character. */
  ghost predicate Plain(d: Bytes, a: nat, b: nat, delimiters: set<byte>)
    requires a <= b <= |d|
  {
    forall i :: a <= i < b ==> d[i] !in delimiters && !HeaderGrammar.IsCtl(d[i])
  }

  /** Scans a token whose first currentLength bytes came in earlier buffers. The end offset is
      one past the delimiter, or the end of the buffer, or unmoved when the token is refused. */
  method ParseToken(buf: ReadWriteBuffer, begin: nat, currentLength: nat, maxLength: nat, delimiters: set<byte>)
    returns (s: Status, end: nat, length: nat)
    requires buf.Valid() && begin <= |buf.data| && currentLength < maxLength
    ensures s == Complete ==>
      && begin < end <= |buf.data| && buf.data[end - 1] in delimiters
      && Plain(buf.data, begin, end - 1, delimiters)
      && length == currentLength + (end - 1 - begin) < maxLength
    ensures s == Incomplete ==>
      && end == |buf.data| && Plain(buf.data, begin, end, delimiters)
      && length == currentLength + (end - begin) < maxLength
    ensures s == Invalid ==> exists i {:trigger Plain(buf.data, begin, i, delimiters)} ::
      && begin <= i < |buf.data| && Plain(buf.data, begin, i, delimiters)
      && buf.data[i] !in delimiters && HeaderGrammar.IsCtl(buf.data[i])
      && currentLength + (i - begin) < maxLength
    ensures s == DataOverflow ==>
      && begin + (maxLength - currentLength) <= |buf.data|
      && Plain(buf.data, begin, begin + (maxLength - currentLength), delimiters)
    ensures s == Complete || s == Incomplete || s == Invalid || s == DataOverflow
    ensures s == Invalid || s == DataOverflow ==> end == begin
  {
    var i := begin;
    length, end := currentLength, begin;
    while i < |buf.data| && length < maxLength
      invariant begin <= i <= |buf.data|
      invariant length == currentLength + (i - begin) <= maxLength
      invariant Plain(buf.data, begin, i, delimiters)
    {
      if buf.data[i] in delimiters {
        return Complete, i + 1, length;
      }
      if HeaderGrammar.IsCtl(buf.data[i]) {
        return Invalid, begin, length;
      }
      i, length := i + 1, length + 1;
    }
    if length >= maxLength {
      return DataOverflow, begin, length;
    }
    return Incomplete, i, length;
  }

  /** Tests the byte at an offset without moving the buffer's own cursors. */
  method ParseCharAt(buf: ReadWriteBuffer, begin: nat, c: byte) returns (s: Status, end: nat)
    requires buf.Valid() && begin <= |buf.data|
    ensures s == Complete <==> begin < |buf.data| && buf.data[begin] == c
    ensures s == Incomplete <==> begin == |buf.data|
    ensures s == Complete || s == Incomplete || s == Invalid
    ensures end == begin + if s == Complete then 1 else 0
  {
    if begin >= |buf.data| {
      return Incomplete, begin;
    }
    if buf.data[begin] == c {
      return Complete, begin + 1;
    }
    return Invalid, begin;
  }

  /** Skips spaces. Despite its parameter the original never skips any other white space. */
  method ParseEqual(buf: ReadWriteBuffer, begin: nat, currentLength: nat, maxLength: nat)
    returns (s: Status, end: nat, length: nat)
    requires buf.Valid() && begin <= |buf.data| && currentLength < maxLength
    ensures s == Complete || s == Incomplete ==>
      && begin <= end <= |buf.data| && length == currentLength + (end - begin) < maxLength
      && (forall i :: begin <= i < end ==> buf.data[i] == SP)
    ensures s == Complete ==> end < |buf.data| && buf.data[end] != SP
    ensures s == Incomplete ==> end == |buf.data|
    ensures s == DataOverflow ==>
      && begin + (maxLength - currentLength) <= |buf.data|
      && (forall i :: begin <= i < begin + (maxLength - currentLength) ==> buf.data[i] == SP)
    ensures s == Complete || s == Incomplete || s == DataOverflow
    ensures s == DataOverflow ==> end == begin
  {
    var i := begin;
    length := currentLength;
    while i < |buf.data| && length < maxLength
      invariant begin <= i <= |buf.data|
      invariant length == currentLength + (i - begin) <= maxLength
      invariant forall j :: begin <= j < i ==> buf.data[j] == SP
    {
      if buf.data[i] != SP {
        return Complete, i, length;
      }
      i, length := i + 1, length + 1;
    }
    if length >= maxLength {
      return DataOverflow, begin, length;
    }
    return Incomplete, i, length;
  }
}
