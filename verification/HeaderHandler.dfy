/** Receives the pieces the header parser cuts out of the stream, stores them, and decides as it
    goes how the body will be framed. */
module HeaderHandlers {
  import opened Octets
  import opened Buffers
  import opened Connections
  import opened Scanners
  import opened HeaderGrammar
  import opened MessageBuffers

  datatype CompareResult = Substring | Equal | NotEqual

  datatype BodyEncoding = NoEncoding | ChunkedEncoding | EndConnection | ContentLengthEncoding

  /** Compares ignoring ASCII case. Substring means that one text is a proper prefix of the
      other, whichever of the two it is. */
  method CompareNoCase(a: Bytes, text: Bytes) returns (r: CompareResult)
    ensures r == Equal <==> EqualNoCase(a, text)
    ensures r == Substring <==> Lower(a) < Lower(text) || Lower(text) < Lower(a)
  {
    var i := 0;
    while i < |a| && i < |text|
      invariant 0 <= i <= |a| && i <= |text|
      invariant Lower(a)[..i] == Lower(text)[..i]
    {
      if ToLower(a[i]) != ToLower(text[i]) {
        assert Lower(a)[i] != Lower(text)[i];
        return NotEqual;
      }
      i := i + 1;
    }
    if i == |a| && i == |text| {
      return Equal;
    }
    return Substring;
  }

  /** A complete request token must name a known method. A partial one passes when one of the two
      texts properly begins with the other: the comparison does not tell which is the longer, so
      GETX passes and GET does not. */
  method MatchMethod(token: Bytes, complete: bool) returns (ok: bool)
    ensures complete ==> (ok <==> KnownMethod(token))
    ensures !complete ==> (ok <==> PartialPasses(Request, token))
  {
    for i := 0 to |METHODS|
      invariant complete ==> forall j :: 0 <= j < i ==> !EqualNoCase(token, METHODS[j])
      invariant !complete ==> forall j :: 0 <= j < i ==>
        !(Lower(token) < Lower(METHODS[j])) && !(Lower(METHODS[j]) < Lower(token))
    {
      var r := CompareNoCase(token, METHODS[i]);
      if r == (if complete then Equal else Substring) {
        return true;
      }
    }
    assert METHODS[0] == GET && METHODS[1] == POST && METHODS[2] == HEAD;
    return false;
  }

  lemma DigitsHaveNoCase(s: Bytes)
    ensures EqualNoCase(s, NOT_MODIFIED) <==> s == NOT_MODIFIED
  {
    if EqualNoCase(s, NOT_MODIFIED) {
      forall i | 0 <= i < |s|
        ensures s[i] == NOT_MODIFIED[i]
      {
        assert Lower(s)[i] == Lower(NOT_MODIFIED)[i];
      }
    }
  }

  /** The framing a handler has settled on agrees with the fields seen, in whatever order they came. */
  ghost predicate Agrees(stream: StreamType, encoding: BodyEncoding, size: nat, fs: seq<Field>) {
    if AnyChunked(fs) then encoding == ChunkedEncoding
    else if AnyLength(fs) then encoding == ContentLengthEncoding && size == Atoi(LastLength(fs))
    else encoding == if stream == Request then NoEncoding else EndConnection
  }

  lemma OneMoreField(fs: seq<Field>, f: Field)
    ensures AnyChunked(fs + [f]) <==> AnyChunked(fs) || IsChunkedField(f)
    ensures AnyLength(fs + [f]) <==> AnyLength(fs) || IsLengthField(f)
    ensures AnyHost(fs + [f]) <==> AnyHost(fs) || IsHostField(f)
    ensures IsLengthField(f) ==> LastLength(fs + [f]) == f.value
    ensures AnyLength(fs) && !IsLengthField(f) ==> LastLength(fs + [f]) == LastLength(fs)
  {
    var gs := fs + [f];
    assert gs[..|fs|] == fs;
    assert gs[|fs|] == f;
    assert forall i :: 0 <= i < |fs| ==> gs[i] == fs[i];
  }

  /** What one more field does to the framing settled on so far. */
  function Rescan(encoding: BodyEncoding, size: nat, f: Field): (r: (BodyEncoding, nat)) {
    if IsLengthField(f) then
      if encoding == ChunkedEncoding then (encoding, size) else (ContentLengthEncoding, Atoi(f.value))
    else if IsChunkedField(f) then (ChunkedEncoding, size)
    else (encoding, size)
  }

  /** Scanning the fields one by one keeps the framing in agreement with all of them. */
  lemma RescanAgrees(stream: StreamType, encoding: BodyEncoding, size: nat, fs: seq<Field>, f: Field)
    requires Agrees(stream, encoding, size, fs)
    ensures var (e, n) := Rescan(encoding, size, f); Agrees(stream, e, n, fs + [f])
  {
    OneMoreField(fs, f);
    LengthIsNotCoding(f);
  }

  /** The two header names are different, so no field both announces a length and a coding. */
  lemma LengthIsNotCoding(f: Field)
    ensures !(IsLengthField(f) && EqualNoCase(f.name, TRANSFER_ENCODING))
  {
    assert |Lower(CONTENT_LENGTH)| != |Lower(TRANSFER_ENCODING)|;
  }

  class HeaderHandler {
    const message: MessageBuffer
    var currentField: nat
    var messageSize: nat
    var haveHost: bool
    /** Set by a 304 response, which never has a body. */
    var ignoreBody: bool
    var encoding: BodyEncoding

    /** The message without the field still being received. */
    ghost function Closed(): (m: Message)
      requires currentField <= |message.contents.fields|
      reads this, message
    {
      message.contents.(fields := message.contents.fields[..currentField])
    }

    ghost function PartialName(): (n: Bytes)
      reads this, message
    {
      if currentField < |message.contents.fields| then message.contents.fields[currentField].name else []
    }

    ghost function PartialValue(): (v: Bytes)
      reads this, message
    {
      if currentField < |message.contents.fields| then message.contents.fields[currentField].value else []
    }

    ghost predicate HasPartial()
      reads this, message
    {
      |message.contents.fields| == currentField + 1
    }

    ghost predicate Valid()
      reads this, message, message.Repr
    {
      && message.Valid() && message.AllUnsent()
      && currentField <= |message.contents.fields| <= currentField + 1
      && haveHost == AnyHost(Closed().fields)
      && (if ignoreBody then encoding == NoEncoding
          else Agrees(message.rules.stream, encoding, messageSize, Closed().fields))
    }

    /** Stored text respects the capacities, so a token in progress fits so far. */
    lemma Bounds()
      requires Valid()
      ensures |message.contents.fields| == |message.headers| <= message.rules.maxFields
      ensures |message.contents.line1| <= message.rules.maxLine1
      ensures |message.contents.line2| <= message.rules.maxLine2
      ensures |message.contents.line3| <= message.rules.maxLine3
      ensures |PartialName()| <= message.rules.maxName && |PartialValue()| <= message.rules.maxValue
    {
    }

    /** The framing the handler has settled on. */
    function Kind(): (k: BodyKind)
      reads this
    {
      match encoding
      case NoEncoding => NoBody
      case ChunkedEncoding => Chunked
      case ContentLengthEncoding => Length(messageSize)
      case EndConnection => UntilClose
    }

    /** Once all fields are in, the framing is the one the whole message calls for. */
    lemma KindIsBody()
      requires Valid() && !HasPartial()
      requires ignoreBody == (message.rules.stream == Response && message.contents.line2 == NOT_MODIFIED)
      ensures Closed() == message.contents && Kind() == BodyOf(message.rules.stream, message.contents)
    {
      assert message.contents.fields[..currentField] == message.contents.fields;
    }

    constructor (message: MessageBuffer)
      requires message.Valid() && message.AllUnsent() && message.contents == Message([], [], [], [])
      ensures Valid() && this.message == message && !ignoreBody
      ensures Closed() == Message([], [], [], []) && !HasPartial()
    {
      this.message := message;
      currentField, messageSize, haveHost, ignoreBody := 0, 0, false, false;
      encoding := if message.rules.stream == Request then NoEncoding else EndConnection;
    }

    method Reset()
      requires message.Valid()
      modifies this, message, message.Repr
      ensures Valid() && message.Valid() && message.Repr == old(message.Repr)
      ensures Closed() == Message([], [], [], []) && !HasPartial() && !ignoreBody
    {
      currentField, messageSize, haveHost, ignoreBody := 0, 0, false, false;
      encoding := if message.rules.stream == Request then NoEncoding else EndConnection;
      message.Reset();
    }

    method StartLineToken1(bytes: Bytes, complete: bool) returns (s: Status)
      requires Valid()
      modifies message, message.Repr
      ensures Valid() && message.Repr == old(message.Repr)
      ensures s == Complete || s == Invalid || s == DataOverflow
      ensures |old(Closed()).line1| + |bytes| > message.rules.maxLine1 <==> s == DataOverflow
      ensures s != DataOverflow ==> Closed() == old(Closed()).(line1 := old(Closed()).line1 + bytes)
      ensures HasPartial() == old(HasPartial())
      ensures complete && s != DataOverflow ==>
        (s == Complete <==> message.rules.stream == Response || KnownMethod(Closed().line1))
      ensures !complete && s != DataOverflow ==>
        (s == Complete <==> PartialPasses(message.rules.stream, Closed().line1))
    {
      var ok := message.AppendToLine1(bytes);
      if !ok {
        return DataOverflow;
      }
      if message.rules.stream == Response {
        return Complete;
      }
      var known := MatchMethod(message.line1.data, complete);
      s := if known then Complete else Invalid;
    }

    method StartLineToken2(bytes: Bytes, complete: bool) returns (s: Status)
      requires Valid() && currentField == 0 && !HasPartial() && !ignoreBody
      modifies this`ignoreBody, this`encoding, message, message.Repr
      ensures Valid() && message.Repr == old(message.Repr)
      ensures s == Complete || s == DataOverflow
      ensures |old(Closed()).line2| + |bytes| > message.rules.maxLine2 <==> s == DataOverflow
      ensures s == Complete ==> Closed() == old(Closed()).(line2 := old(Closed()).line2 + bytes)
      ensures HasPartial() == old(HasPartial())
      ensures s == Complete ==>
        ignoreBody == (complete && message.rules.stream == Response && Closed().line2 == NOT_MODIFIED)
    {
      var ok := message.AppendToLine2(bytes);
      if !ok {
        return DataOverflow;
      }
      if complete && message.rules.stream == Response {
        DigitsHaveNoCase(message.line2.data);
        var r := CompareNoCase(message.line2.data, NOT_MODIFIED);
        if r == Equal {
          encoding, ignoreBody := NoEncoding, true;
        }
      }
      return Complete;
    }

    method StartLineToken3(bytes: Bytes, complete: bool) returns (s: Status)
      requires Valid()
      modifies message, message.Repr
      ensures Valid() && message.Repr == old(message.Repr)
      ensures s == Complete || s == DataOverflow
      ensures |old(Closed()).line3| + |bytes| > message.rules.maxLine3 <==> s == DataOverflow
      ensures s == Complete ==> Closed() == old(Closed()).(line3 := old(Closed()).line3 + bytes)
      ensures HasPartial() == old(HasPartial())
    {
      var ok := message.AppendToLine3(bytes);
      s := if ok then Complete else DataOverflow;
    }

    method SetFieldName(bytes: Bytes, complete: bool) returns (s: Status)
      requires Valid()
      modifies message, message.Repr
      ensures Valid() && fresh(message.Repr - old(message.Repr))
      ensures s == Complete || s == DataOverflow
      ensures s == Complete <==>
        && (old(HasPartial()) || currentField < message.rules.maxFields)
        && |old(PartialName())| + |bytes| <= message.rules.maxName
      ensures Closed() == old(Closed())
      ensures s == Complete ==> HasPartial() && PartialName() == old(PartialName()) + bytes
      ensures s == Complete ==> PartialValue() == old(PartialValue())
    {
      hide Agrees, AnyHost;
      ghost var closed := Closed();
      if |message.headers| == currentField {
        if currentField >= message.rules.maxFields {
          return DataOverflow;
        }
        message.AddField();
      }
      assert Closed() == closed;
      var ok := message.AppendToName(currentField, bytes);
      assert Closed() == closed;
      s := if ok then Complete else DataOverflow;
    }

    method SetFieldValue(bytes: Bytes, complete: bool) returns (s: Status)
      requires Valid() && HasPartial()
      modifies this, message, message.Repr
      ensures Valid() && message.Repr == old(message.Repr) && ignoreBody == old(ignoreBody)
      ensures s == Complete || s == DataOverflow
      ensures s == Complete <==> |old(PartialValue())| + |bytes| <= message.rules.maxValue
      ensures s == Complete && complete ==>
        !HasPartial() && Closed() == AddField(old(Closed()), old(PartialName()), old(PartialValue()) + bytes)
      ensures !(s == Complete && complete) ==> HasPartial() && Closed() == old(Closed())
      ensures s == Complete && !complete ==>
        PartialName() == old(PartialName()) && PartialValue() == old(PartialValue()) + bytes
    {
      hide Agrees, AnyHost;
      ghost var closed := Closed();
      var ok := message.AppendToValue(currentField, bytes);
      assert Closed() == closed;
      if !ok {
        return DataOverflow;
      }
      if complete {
        CloseField();
      }
      return Complete;
    }

    /** The field being received is complete: take it into account and move on to the next. */
    method CloseField()
      requires Valid() && HasPartial()
      modifies this
      ensures Valid() && !HasPartial() && ignoreBody == old(ignoreBody)
      ensures Closed() == AddField(old(Closed()), old(PartialName()), old(PartialValue()))
    {
      hide Agrees, Rescan, AnyHost, AnyChunked, AnyLength, IsHostField, IsChunkedField, IsLengthField;
      ghost var fs, f := Closed().fields, message.contents.fields[currentField];
      if !ignoreBody {
        RescanAgrees(message.rules.stream, encoding, messageSize, fs, f);
      }
      OneMoreField(fs, f);
      ScanField();
      assert message.contents.fields[..currentField + 1] == fs + [f];
      currentField := currentField + 1;
    }

    method ScanField()
      requires Valid() && HasPartial()
      modifies this`haveHost, this`encoding, this`messageSize
      ensures haveHost == (old(haveHost) || IsHostField(message.contents.fields[currentField]))
      ensures (encoding, messageSize) == if ignoreBody then (old(encoding), old(messageSize))
        else Rescan(old(encoding), old(messageSize), message.contents.fields[currentField])
    {
      hide Agrees, AnyHost, EqualNoCase, Atoi;
      var h := message.headers[currentField];
      if !haveHost {
        var r := CompareNoCase(h.name.data, HOST);
        haveHost := r == Equal;
      }
      if ignoreBody {
        return;
      }
      var isLength := CompareNoCase(h.name.data, CONTENT_LENGTH);
      if isLength == Equal {
        if encoding != ChunkedEncoding {
          encoding := ContentLengthEncoding;
          messageSize := Atoi(h.value.data);
        }
      } else {
        var isCoding := CompareNoCase(h.name.data, TRANSFER_ENCODING);
        if isCoding == Equal {
          var isChunked := CompareNoCase(h.value.data, CHUNKED);
          if isChunked == Equal {
            encoding := ChunkedEncoding;
          }
        }
      }
    }

    method EndFields() returns (s: Status)
      requires Valid() && !HasPartial()
      ensures s == if Acceptable(message.rules.stream, Closed()) then Complete else Invalid
    {
      assert Closed() == message.contents;
      if message.rules.stream == Request {
        var r := CompareNoCase(message.line3.data, HTTP_1_1);
        if r == Equal && !haveHost {
          return Invalid;
        }
      }
      return Complete;
    }
  }
}
