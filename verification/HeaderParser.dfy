/** The header parser. Its field section may stop at any byte and go on in the next buffer. Its
    start line may not: when the buffer ends inside it, the parser keeps its place in the line but
    puts the cursors back in front of it, and reads the same bytes again from there. */
module HeaderParsers {
  import opened Octets
  import opened Buffers
  import opened Connections
  import opened Scanners
  import opened HeaderGrammar
  import opened MessageBuffers
  import opened HeaderHandlers

  datatype StatusLineState = StatusLineToken1 | StatusLineToken2 | StatusLineToken3 | StatusLineLf

  datatype ParseState =
    | StatusLine | EndHeadersCr | EndHeadersLf | FieldName
    | FieldValueLeadingLws | FieldValueLwsLf | FieldValueLws | FieldValueContent

  /** ParseToken, told in terms of the reference reader: p is the phase the token is in. */
  method ScanToken(buf: ReadWriteBuffer, begin: nat, currentLength: nat, delimiter: byte,
                   ghost r: Rules, ghost p0: Phase, ghost k: nat, ghost p: Phase)
    returns (s: Status, end: nat, length: nat)
    requires buf.Valid() && Tracks(r, p0, buf.data, k, begin, p)
    requires Collecting(p) && |p.acc| <= Capacity(r, p) && Delimiter(p) == delimiter
    requires Used(p) == currentLength < MAX_FIELD_LENGTH
    requires Roomy(r, p) || begin < |buf.data|
    ensures s == Complete || s == Incomplete || s == Invalid || s == DataOverflow
    ensures s == Complete ==> begin < end <= |buf.data| && currentLength + (end - 1 - begin) < MAX_FIELD_LENGTH
    ensures s == Complete && Roomy(r, p) ==>
      After(r, p0, buf.data[k..end]) == Next(r, Collect(r, p, buf.data[begin..end - 1]), delimiter)
    ensures s == Incomplete ==>
      end == |buf.data| && length == currentLength + (end - begin) < MAX_FIELD_LENGTH
    ensures s == Incomplete && Roomy(r, p) ==> After(r, p0, buf.data[k..]) == Collect(r, p, buf.data[begin..])
    ensures s == Invalid || s == DataOverflow || !Roomy(r, p) ==> After(r, p0, buf.data[k..]) == Bad
    ensures s == Invalid || s == DataOverflow ==> end == begin
  {
    hide After, Next, Collect, IsCtl;
    s, end, length := ParseToken(buf, begin, currentLength, MAX_FIELD_LENGTH, {delimiter});
    ghost var d := buf.data;
    if !Roomy(r, p) {
      NoRoom(r, p0, d, k, begin, p);
    } else if s == Complete {
      TokenComplete(r, p0, d, k, begin, p, end);
    } else if s == Incomplete {
      TokenIncomplete(r, p0, d, k, begin, p);
    } else if s == Invalid {
      ghost var i :| begin <= i < |d| && Plain(d, begin, i, {delimiter}) && d[i] != delimiter && IsCtl(d[i]);
      TokenControl(r, p0, d, k, begin, p, i);
    } else {
      var n := begin + (MAX_FIELD_LENGTH - currentLength);
      assert Collect(r, p, d[begin..n]) == Bad;
      TokenTooLong(r, p0, d, k, begin, p, n);
    }
  }

  /** ParseEqual, told in terms of the reference reader. */
  method ScanSpaces(buf: ReadWriteBuffer, begin: nat, currentLength: nat,
                    ghost r: Rules, ghost p0: Phase, ghost k: nat, ghost m: Message, ghost name: Bytes)
    returns (s: Status, end: nat, length: nat)
    requires buf.Valid() && currentLength < MAX_FIELD_LENGTH
    requires Tracks(r, p0, buf.data, k, begin, LeadingSpace(m, name, currentLength))
    ensures s == Complete || s == Incomplete || s == DataOverflow
    ensures begin <= end <= |buf.data|
    ensures s != DataOverflow ==> length < MAX_FIELD_LENGTH
    ensures s == Complete ==> Tracks(r, p0, buf.data, k, end, Value(m, name, length, []))
    ensures s == Incomplete ==>
      end == |buf.data| && After(r, p0, buf.data[k..]) == LeadingSpace(m, name, length)
    ensures s == DataOverflow ==> After(r, p0, buf.data[k..]) == Bad
  {
    hide After, Next;
    ghost var d := buf.data;
    s, end, length := ParseEqual(buf, begin, currentLength, MAX_FIELD_LENGTH);
    if s == Complete {
      SpacesComplete(r, p0, d, k, begin, m, name, currentLength, end);
    } else if s == Incomplete {
      SpacesRead(r, p0, d, k, begin, m, name, currentLength, end);
      assert d[k..] == d[k..end];
    } else {
      SpacesRead(r, p0, d, k, begin, m, name, currentLength, begin + (MAX_FIELD_LENGTH - currentLength));
    }
  }

  class HeaderParser {
    const handler: HeaderHandler
    var state: ParseState
    var statusState: StatusLineState
    /** How much of the length limit the token being read has used. */
    var currentLength: nat

    ghost function R(): (r: Rules) {
      handler.message.rules
    }

    /** The phase of the reference reader the concrete state stands for. */
    ghost function Phase(): (p: Phase)
      requires handler.currentField <= |handler.message.contents.fields|
      requires |handler.PartialValue()| <= currentLength || state != FieldValueContent
      reads this, handler, handler.message
    {
      var m := handler.Closed();
      match state
      case StatusLine =>
        (match statusState
         case StatusLineToken1 => Token1(m.line1)
         case StatusLineToken2 => Token2(m.line1, m.line2)
         case StatusLineToken3 => Token3(m.line1, m.line2, m.line3)
         case StatusLineLf => StartLf(m))
      case EndHeadersCr => LineStart(m)
      case EndHeadersLf => EndLf(m)
      case FieldName => Name(m, handler.PartialName())
      case FieldValueLeadingLws => LeadingSpace(m, handler.PartialName(), currentLength)
      case FieldValueContent =>
        Value(m, handler.PartialName(), currentLength - |handler.PartialValue()|, handler.PartialValue())
      case FieldValueLwsLf => ValueLf(m)
      case FieldValueLws => AfterLine(m)
    }

    /** The flag a 304 response sets is right once its status code is known. */
    ghost predicate StatusKnown()
      reads handler, handler.message
    {
      handler.ignoreBody == (R().stream == Response && handler.message.contents.line2 == NOT_MODIFIED)
    }

    /** A parser somewhere in the field section. */
    ghost predicate InFields()
      reads this, handler, handler.message, handler.message.Repr
    {
      && handler.Valid() && StatusKnown() && currentLength < MAX_FIELD_LENGTH
      && match state
         case StatusLine => false
         case FieldName => currentLength == |handler.PartialName()| && handler.PartialValue() == []
         case FieldValueLeadingLws => handler.HasPartial() && handler.PartialValue() == []
         case FieldValueContent => handler.HasPartial() && |handler.PartialValue()| <= currentLength
         case _ => currentLength == 0 && !handler.HasPartial()
    }

    /** A parser that has read nothing yet. */
    ghost predicate Fresh()
      reads this, handler, handler.message, handler.message.Repr
    {
      && handler.Valid() && !handler.ignoreBody && !handler.HasPartial()
      && handler.Closed() == Message([], [], [], [])
      && state == StatusLine && statusState == StatusLineToken1 && currentLength == 0
    }

    /** A parser at the first byte of a token of the start line, or left inside one. */
    ghost predicate InStartTokens()
      reads this, handler, handler.message, handler.message.Repr
    {
      var m := handler.message.contents;
      && handler.Valid() && handler.currentField == 0 && m.fields == [] && state == StatusLine
      && currentLength < MAX_FIELD_LENGTH
      && match statusState
         case StatusLineToken1 =>
           && m.line2 == m.line3 == [] && !handler.ignoreBody && currentLength == |m.line1|
           && PartialPasses(R().stream, m.line1)
         case StatusLineToken2 => m.line3 == [] && !handler.ignoreBody && currentLength == |m.line2|
         case StatusLineToken3 => StatusKnown() && currentLength == |m.line3|
         case StatusLineLf => StatusKnown()
    }

    /** How far the parser has come in the start line. */
    ghost function LineRank(): (n: nat)
      reads this, handler, handler.message, handler.message.Repr
    {
      if InStartTokens() then StartRank(Phase()) else 0
    }

    /** At the start of the start line such a parser has read nothing. */
    lemma StartIsFresh()
      ensures Fresh() <==> InStartTokens() && Phase() == START
      ensures InStartTokens() ==> InStartLine(Phase()) && ShortStart(Phase())
    {
      NothingPasses(R().stream);
    }

    /** The states a parser may be left in between two buffers. */
    ghost predicate AtRest()
      reads this, handler, handler.message, handler.message.Repr
    {
      Fresh() || (InFields() && (state == FieldName ==> handler.HasPartial()))
    }

    /** In the field section, the concrete state stands for what was read of buf from k to off. */
    ghost predicate Live(buf: ReadWriteBuffer, p0: Phase, k: nat, off: nat)
      reads this, handler, handler.message, handler.message.Repr, buf
    {
      && InFields() && buf.Valid() && buf !in handler.message.Repr
      && (state == FieldName && !handler.HasPartial() ==> off < |buf.data|)
      && Tracks(R(), p0, buf.data, k, off, Phase())
      && (state == EndHeadersLf ==> After(R(), p0, buf.data[k..off]) == Phase())
    }

    /** What a status promises about the bytes of buf from k on, with the parser stopped at off. */
    ghost predicate Outcome(s: Status, buf: ReadWriteBuffer, p0: Phase, k: nat, off: nat)
      reads this, handler, handler.message, handler.message.Repr, buf`data
    {
      && handler.Valid() && k <= off <= |buf.data|
      && (s == Complete ==>
            && !handler.HasPartial() && StatusKnown() && k < off
            && After(R(), p0, buf.data[k..off]) == Done(handler.Closed())
            && After(R(), p0, buf.data[k..off - 1]) == EndLf(handler.Closed()))
      && (s == Incomplete ==>
            && off == |buf.data| && AtRest() && !Fresh()
            && After(R(), p0, buf.data[k..]) == Phase())
      && (s == Invalid || s == DataOverflow ==> After(R(), p0, buf.data[k..]) == Bad)
      && s != WriteIncomplete && s != IoFailure
    }

    constructor (handler: HeaderHandler)
      requires handler.Valid() && !handler.ignoreBody && !handler.HasPartial()
      requires handler.Closed() == Message([], [], [], [])
      ensures Fresh() && this.handler == handler
    {
      this.handler := handler;
      state, statusState, currentLength := StatusLine, StatusLineToken1, 0;
    }

    method Reset()
      modifies this
      ensures state == StatusLine && statusState == StatusLineToken1 && currentLength == 0
    {
      statusState := StatusLineToken1;
      TransitionToState(StatusLine);
    }

    method TransitionToState(next: ParseState)
      modifies this`state, this`currentLength
      ensures state == next && currentLength == 0
    {
      state, currentLength := next, 0;
    }

    method StepEndHeadersCr(buf: ReadWriteBuffer, off: nat, ghost p0: Phase, ghost k: nat)
      returns (s: Status, end: nat, more: bool)
      requires Live(buf, p0, k, off) && state == EndHeadersCr
      modifies this`state, this`currentLength
      ensures off <= end
      ensures more ==> Live(buf, p0, k, end) && (off < end || state == FieldName)
      ensures !more ==> Outcome(s, buf, p0, k, end)
    {
      hide After, NameStep, ValueStep, AnyHost, Agrees, Acceptable, MessageBuffer.Valid, MessageBuffer.AllUnsent;
      handler.Bounds();
      s, end := ParseCharAt(buf, off, CR);
      if s == Incomplete {
        assert buf.data[k..] == buf.data[k..off];
        return s, end, false;
      }
      TrackOne(R(), p0, buf.data, k, off, Phase());
      TransitionToState(if s == Complete then EndHeadersLf else FieldName);
      more := true;
    }

    method StepEndHeadersLf(buf: ReadWriteBuffer, off: nat, ghost p0: Phase, ghost k: nat)
      returns (s: Status, end: nat)
      requires Live(buf, p0, k, off) && state == EndHeadersLf
      ensures off <= end
      ensures Outcome(s, buf, p0, k, end)
    {
      hide After, NameStep, ValueStep, AnyHost, Agrees, Acceptable, MessageBuffer.Valid, MessageBuffer.AllUnsent;
      handler.Bounds();
      s, end := ParseCharAt(buf, off, LF);
      if s == Incomplete {
        assert buf.data[k..] == buf.data[k..off];
        return;
      }
      TrackOne(R(), p0, buf.data, k, off, Phase());
      RefusedAtEnd(R(), p0, buf.data, k, off + 1);
      assert buf.data[k..|buf.data|] == buf.data[k..];
      if s == Complete {
        s := handler.EndFields();
      }
    }

    /** The field name ends at the colon before offset end. */
    method CloseName(buf: ReadWriteBuffer, off: nat, end: nat, ghost p0: Phase, ghost k: nat)
      returns (s: Status)
      requires InFields() && state == FieldName && buf.Valid() && buf !in handler.message.Repr
      requires k <= off < end <= |buf.data| && currentLength + (end - 1 - off) < MAX_FIELD_LENGTH
      requires Roomy(R(), Phase()) ==>
        After(R(), p0, buf.data[k..end]) == Next(R(), Collect(R(), Phase(), buf.data[off..end - 1]), COLON)
      requires !Roomy(R(), Phase()) ==> After(R(), p0, buf.data[k..]) == Bad
      modifies this`state, this`currentLength, handler.message, handler.message.Repr
      ensures fresh(handler.message.Repr - old(handler.message.Repr))
      ensures s == Complete || s == DataOverflow
      ensures s == Complete ==> Live(buf, p0, k, end)
      ensures s == DataOverflow ==> handler.Valid() && After(R(), p0, buf.data[k..]) == Bad
    {
      hide After, IsCtl, AnyHost, Agrees, MessageBuffer.Valid, MessageBuffer.AllUnsent;
      handler.Bounds();
      s := handler.SetFieldName(buf.data[off..end - 1], true);
      if s == Complete {
        TransitionToState(FieldValueLeadingLws);
      } else {
        RefusedAtEnd(R(), p0, buf.data, k, end);
        assert buf.data[k..|buf.data|] == buf.data[k..];
      }
    }

    /** The buffer ends inside the field name. */
    method HoldName(buf: ReadWriteBuffer, off: nat, length: nat, ghost p0: Phase, ghost k: nat)
      returns (s: Status)
      requires InFields() && state == FieldName && buf.Valid() && buf !in handler.message.Repr
      requires k <= off <= |buf.data| && length == currentLength + (|buf.data| - off) < MAX_FIELD_LENGTH
      requires Roomy(R(), Phase()) ==> After(R(), p0, buf.data[k..]) == Collect(R(), Phase(), buf.data[off..])
      requires !Roomy(R(), Phase()) ==> After(R(), p0, buf.data[k..]) == Bad
      modifies this`currentLength, handler.message, handler.message.Repr
      ensures fresh(handler.message.Repr - old(handler.message.Repr))
      ensures Outcome(s, buf, p0, k, |buf.data|) && s != Complete
    {
      hide After, IsCtl, AnyHost, Agrees, MessageBuffer.Valid, MessageBuffer.AllUnsent;
      handler.Bounds();
      currentLength := length;
      s := handler.SetFieldName(buf.data[off..], false);
      if s == Complete {
        s := Incomplete;
      }
    }

    method StepFieldName(buf: ReadWriteBuffer, off: nat, ghost p0: Phase, ghost k: nat)
      returns (s: Status, end: nat, more: bool)
      requires Live(buf, p0, k, off) && state == FieldName
      modifies this`state, this`currentLength, handler.message, handler.message.Repr
      ensures fresh(handler.message.Repr - old(handler.message.Repr))
      ensures off <= end
      ensures more ==> Live(buf, p0, k, end) && off < end
      ensures !more ==> Outcome(s, buf, p0, k, end) && s != Complete
    {
      hide After, IsCtl, AnyHost, Agrees, MessageBuffer.Valid, MessageBuffer.AllUnsent;
      handler.Bounds();
      var length;
      s, end, length := ScanToken(buf, off, currentLength, COLON, R(), p0, k, Phase());
      more := false;
      if s == Complete {
        s := CloseName(buf, off, end, p0, k);
        more := s == Complete;
      } else if s == Incomplete {
        s := HoldName(buf, off, length, p0, k);
      }
    }

    method StepLeadingLws(buf: ReadWriteBuffer, off: nat, ghost p0: Phase, ghost k: nat)
      returns (s: Status, end: nat, more: bool)
      requires Live(buf, p0, k, off) && state == FieldValueLeadingLws
      modifies this`state, this`currentLength
      ensures off <= end
      ensures more ==> Live(buf, p0, k, end) && state == FieldValueContent
      ensures !more ==> Outcome(s, buf, p0, k, end) && s != Complete
    {
      hide After, Next, AnyHost, Agrees, MessageBuffer.Valid, MessageBuffer.AllUnsent;
      var length;
      s, end, length := ScanSpaces(buf, off, currentLength, R(), p0, k, handler.Closed(), handler.PartialName());
      more := s == Complete;
      if more {
        state, currentLength := FieldValueContent, length;
      } else if s == Incomplete {
        currentLength := length;
      }
    }

    method CloseValue(buf: ReadWriteBuffer, off: nat, end: nat, ghost p0: Phase, ghost k: nat)
      returns (s: Status)
      requires InFields() && state == FieldValueContent && buf.Valid() && buf !in handler.message.Repr
      requires k <= off < end <= |buf.data| && currentLength + (end - 1 - off) < MAX_FIELD_LENGTH
      requires After(R(), p0, buf.data[k..end]) == Next(R(), Collect(R(), Phase(), buf.data[off..end - 1]), CR)
      modifies this`state, this`currentLength, handler, handler.message, handler.message.Repr
      ensures handler.message.Repr == old(handler.message.Repr)
      ensures s == Complete || s == DataOverflow
      ensures s == Complete ==> Live(buf, p0, k, end)
      ensures s == DataOverflow ==> handler.Valid() && After(R(), p0, buf.data[k..]) == Bad
    {
      hide After, IsCtl, AnyHost, Agrees, MessageBuffer.Valid, MessageBuffer.AllUnsent;
      handler.Bounds();
      s := handler.SetFieldValue(buf.data[off..end - 1], true);
      TransitionToState(FieldValueLwsLf);
      if s != Complete {
        RefusedAtEnd(R(), p0, buf.data, k, end);
        assert buf.data[k..|buf.data|] == buf.data[k..];
      }
    }

    method HoldValue(buf: ReadWriteBuffer, off: nat, length: nat, ghost p0: Phase, ghost k: nat)
      returns (s: Status)
      requires InFields() && state == FieldValueContent && buf.Valid() && buf !in handler.message.Repr
      requires k <= off <= |buf.data| && length == currentLength + (|buf.data| - off) < MAX_FIELD_LENGTH
      requires After(R(), p0, buf.data[k..]) == Collect(R(), Phase(), buf.data[off..])
      modifies this`currentLength, handler, handler.message, handler.message.Repr
      ensures handler.message.Repr == old(handler.message.Repr)
      ensures Outcome(s, buf, p0, k, |buf.data|) && s != Complete
    {
      hide After, IsCtl, AnyHost, Agrees, MessageBuffer.Valid, MessageBuffer.AllUnsent;
      handler.Bounds();
      currentLength := length;
      s := handler.SetFieldValue(buf.data[off..], false);
      if s == Complete {
        s := Incomplete;
      }
    }

    method StepContent(buf: ReadWriteBuffer, off: nat, ghost p0: Phase, ghost k: nat)
      returns (s: Status, end: nat, more: bool)
      requires Live(buf, p0, k, off) && state == FieldValueContent
      modifies this`state, this`currentLength, handler, handler.message, handler.message.Repr
      ensures handler.message.Repr == old(handler.message.Repr)
      ensures off <= end
      ensures more ==> Live(buf, p0, k, end) && off < end
      ensures !more ==> Outcome(s, buf, p0, k, end) && s != Complete
    {
      hide After, IsCtl, AnyHost, Agrees, MessageBuffer.Valid, MessageBuffer.AllUnsent;
      handler.Bounds();
      var length;
      s, end, length := ScanToken(buf, off, currentLength, CR, R(), p0, k, Phase());
      more := false;
      if s == Complete {
        s := CloseValue(buf, off, end, p0, k);
        more := s == Complete;
      } else if s == Incomplete {
        s := HoldValue(buf, off, length, p0, k);
      }
    }

    method StepLwsLf(buf: ReadWriteBuffer, off: nat, ghost p0: Phase, ghost k: nat)
      returns (s: Status, end: nat, more: bool)
      requires Live(buf, p0, k, off) && state == FieldValueLwsLf
      modifies this`state, this`currentLength
      ensures off <= end
      ensures more ==> Live(buf, p0, k, end) && off < end
      ensures !more ==> Outcome(s, buf, p0, k, end) && s != Complete
    {
      hide After, NameStep, ValueStep, AnyHost, Agrees, MessageBuffer.Valid, MessageBuffer.AllUnsent;
      s, end := ParseCharAt(buf, off, LF);
      more := s == Complete;
      if s == Incomplete {
        assert buf.data[k..] == buf.data[k..off];
        return;
      }
      TrackOne(R(), p0, buf.data, k, off, Phase());
      if more {
        TransitionToState(FieldValueLws);
      } else {
        RefusedAtEnd(R(), p0, buf.data, k, off + 1);
        assert buf.data[k..|buf.data|] == buf.data[k..];
      }
    }

    /** After a field line: spaces would continue it, which is outside this model. */
    method StepLws(buf: ReadWriteBuffer, off: nat, ghost p0: Phase, ghost k: nat)
      returns (s: Status, end: nat, more: bool)
      requires Live(buf, p0, k, off) && state == FieldValueLws
      requires !After(R(), p0, buf.data[k..]).Folded?
      modifies this`state, this`currentLength
      ensures end == off
      ensures more ==> Live(buf, p0, k, end) && state == EndHeadersCr
      ensures !more ==> Outcome(s, buf, p0, k, end) && s != Complete
    {
      hide After, NameStep, ValueStep, AnyHost, Agrees, MessageBuffer.Valid, MessageBuffer.AllUnsent;
      if off < |buf.data| && buf.data[off] == SP {
        FoldIsFolded(R(), p0, buf.data, k, off, handler.Closed());
      }
      s, end, currentLength := ParseEqual(buf, off, currentLength, MAX_FIELD_LENGTH);
      more := s == Complete;
      if more {
        TransitionToState(EndHeadersCr);
      } else {
        assert buf.data[k..] == buf.data[k..off];
      }
    }

    /** In the start line, which was in phase p0 at k, with the tokens before off delivered. */
    ghost predicate InStart(buf: ReadWriteBuffer, p0: Phase, k: nat, off: nat)
      reads this, handler, handler.message, handler.message.Repr, buf
    {
      && InStartTokens() && buf.Valid() && buf !in handler.message.Repr && k <= off <= |buf.data|
      && After(R(), p0, buf.data[k..off]) == Phase()
    }

    /** How a start line that is not complete by the end of the buffer is reported. A partial
        request method may be refused although its bytes are in order. */
    ghost predicate StartOutcome(s: Status, buf: ReadWriteBuffer, p0: Phase, k: nat)
      reads this, handler, handler.message, handler.message.Repr, buf
    {
      && handler.Valid() && buf.Valid() && buf !in handler.message.Repr && k <= |buf.data|
      && var q := After(R(), p0, buf.data[k..]);
         match s
         case Incomplete => InStartTokens() && q == Phase()
         case Invalid => q == Bad || (q.Token1? && !PartialPasses(R().stream, q.acc))
         case DataOverflow => q == Bad
         case _ => false
    }

    /** Delivers the end of token 1. */
    method CloseToken1(buf: ReadWriteBuffer, off: nat, end: nat, ghost p0: Phase, ghost k: nat) returns (s: Status)
      requires InStart(buf, p0, k, off) && statusState == StatusLineToken1 && off < end <= |buf.data|
      requires After(R(), p0, buf.data[k..end]) == Next(R(), Collect(R(), Phase(), buf.data[off..end - 1]), SP)
      requires currentLength + (end - 1 - off) < MAX_FIELD_LENGTH
      modifies this`statusState, this`currentLength, handler, handler.message, handler.message.Repr
      ensures handler.message.Repr == old(handler.message.Repr)
      ensures s == Complete ==> InStart(buf, p0, k, end) && statusState == StatusLineToken2
      ensures s != Complete ==> StartOutcome(s, buf, p0, k)
    {
      hide After, IsCtl, AnyHost, Agrees, KnownMethod, MessageBuffer.Valid, MessageBuffer.AllUnsent;
      handler.Bounds();
      s := handler.StartLineToken1(buf.data[off..end - 1], true);
      RefusedAtEnd(R(), p0, buf.data, k, end);
      assert buf.data[k..|buf.data|] == buf.data[k..];
      if s == Complete {
        statusState, currentLength := StatusLineToken2, 0;
      }
    }

    /** Delivers what the buffer holds of token 1. */
    method HoldToken1(buf: ReadWriteBuffer, off: nat, length: nat, ghost p0: Phase, ghost k: nat) returns (s: Status)
      requires InStart(buf, p0, k, off) && statusState == StatusLineToken1
      requires After(R(), p0, buf.data[k..]) == Collect(R(), Phase(), buf.data[off..])
      requires length == currentLength + (|buf.data| - off) < MAX_FIELD_LENGTH
      modifies this`currentLength, handler, handler.message, handler.message.Repr
      ensures handler.message.Repr == old(handler.message.Repr)
      ensures s != Complete && StartOutcome(s, buf, p0, k)
    {
      hide After, IsCtl, AnyHost, Agrees, KnownMethod, MessageBuffer.Valid, MessageBuffer.AllUnsent;
      handler.Bounds();
      currentLength := length;
      s := handler.StartLineToken1(buf.data[off..], false);
      if s == Complete {
        s := Incomplete;
      }
    }

    method StepToken1(buf: ReadWriteBuffer, off: nat, ghost p0: Phase, ghost k: nat) returns (s: Status, end: nat)
      requires InStart(buf, p0, k, off) && statusState == StatusLineToken1
      modifies this`statusState, this`currentLength, handler, handler.message, handler.message.Repr
      ensures handler.message.Repr == old(handler.message.Repr)
      ensures s == Complete ==> InStart(buf, p0, k, end) && off < end && statusState == StatusLineToken2
      ensures s != Complete ==> StartOutcome(s, buf, p0, k) && off <= end <= |buf.data|
    {
      hide After, Next, Collect, IsCtl, AnyHost, Agrees, PartialPasses, MessageBuffer.Valid, MessageBuffer.AllUnsent;
      handler.Bounds();
      var length;
      s, end, length := ScanToken(buf, off, currentLength, SP, R(), p0, k, Phase());
      if s == Complete {
        s := CloseToken1(buf, off, end, p0, k);
      } else if s == Incomplete {
        s := HoldToken1(buf, off, length, p0, k);
      } else {
        s := Invalid;
      }
    }

    /** Delivers the end of token 2. */
    method CloseToken2(buf: ReadWriteBuffer, off: nat, end: nat, ghost p0: Phase, ghost k: nat) returns (s: Status)
      requires InStart(buf, p0, k, off) && statusState == StatusLineToken2 && off < end <= |buf.data|
      requires After(R(), p0, buf.data[k..end]) == Next(R(), Collect(R(), Phase(), buf.data[off..end - 1]), SP)
      requires currentLength + (end - 1 - off) < MAX_FIELD_LENGTH
      modifies this`statusState, this`currentLength, handler, handler.message, handler.message.Repr
      ensures handler.message.Repr == old(handler.message.Repr)
      ensures s == Complete ==> InStart(buf, p0, k, end) && statusState == StatusLineToken3
      ensures s != Complete ==> StartOutcome(s, buf, p0, k)
    {
      hide After, IsCtl, AnyHost, Agrees, KnownMethod, PartialPasses, MessageBuffer.Valid, MessageBuffer.AllUnsent;
      handler.Bounds();
      s := handler.StartLineToken2(buf.data[off..end - 1], true);
      RefusedAtEnd(R(), p0, buf.data, k, end);
      assert buf.data[k..|buf.data|] == buf.data[k..];
      if s == Complete {
        statusState, currentLength := StatusLineToken3, 0;
      }
    }

    /** Delivers what the buffer holds of token 2. */
    method HoldToken2(buf: ReadWriteBuffer, off: nat, length: nat, ghost p0: Phase, ghost k: nat) returns (s: Status)
      requires InStart(buf, p0, k, off) && statusState == StatusLineToken2
      requires After(R(), p0, buf.data[k..]) == Collect(R(), Phase(), buf.data[off..])
      requires length == currentLength + (|buf.data| - off) < MAX_FIELD_LENGTH
      modifies this`currentLength, handler, handler.message, handler.message.Repr
      ensures handler.message.Repr == old(handler.message.Repr)
      ensures s != Complete && StartOutcome(s, buf, p0, k)
    {
      hide After, IsCtl, AnyHost, Agrees, KnownMethod, PartialPasses, MessageBuffer.Valid, MessageBuffer.AllUnsent;
      handler.Bounds();
      currentLength := length;
      s := handler.StartLineToken2(buf.data[off..], false);
      if s == Complete {
        s := Incomplete;
      }
    }

    method StepToken2(buf: ReadWriteBuffer, off: nat, ghost p0: Phase, ghost k: nat) returns (s: Status, end: nat)
      requires InStart(buf, p0, k, off) && statusState == StatusLineToken2
      modifies this`statusState, this`currentLength, handler, handler.message, handler.message.Repr
      ensures handler.message.Repr == old(handler.message.Repr)
      ensures s == Complete ==> InStart(buf, p0, k, end) && off < end && statusState == StatusLineToken3
      ensures s != Complete ==> StartOutcome(s, buf, p0, k) && off <= end <= |buf.data|
    {
      hide After, Next, Collect, IsCtl, AnyHost, Agrees, PartialPasses, MessageBuffer.Valid, MessageBuffer.AllUnsent;
      handler.Bounds();
      var length;
      s, end, length := ScanToken(buf, off, currentLength, SP, R(), p0, k, Phase());
      if s == Complete {
        s := CloseToken2(buf, off, end, p0, k);
      } else if s == Incomplete {
        s := HoldToken2(buf, off, length, p0, k);
      } else {
        s := Invalid;
      }
    }

    /** Delivers the end of token 3. */
    method CloseToken3(buf: ReadWriteBuffer, off: nat, end: nat, ghost p0: Phase, ghost k: nat) returns (s: Status)
      requires InStart(buf, p0, k, off) && statusState == StatusLineToken3 && off < end <= |buf.data|
      requires After(R(), p0, buf.data[k..end]) == Next(R(), Collect(R(), Phase(), buf.data[off..end - 1]), CR)
      requires currentLength + (end - 1 - off) < MAX_FIELD_LENGTH
      modifies this`statusState, this`currentLength, handler, handler.message, handler.message.Repr
      ensures handler.message.Repr == old(handler.message.Repr)
      ensures s == Complete ==> InStart(buf, p0, k, end) && statusState == StatusLineLf
      ensures s != Complete ==> StartOutcome(s, buf, p0, k)
    {
      hide After, IsCtl, AnyHost, Agrees, KnownMethod, PartialPasses, MessageBuffer.Valid, MessageBuffer.AllUnsent;
      handler.Bounds();
      s := handler.StartLineToken3(buf.data[off..end - 1], true);
      RefusedAtEnd(R(), p0, buf.data, k, end);
      assert buf.data[k..|buf.data|] == buf.data[k..];
      if s == Complete {
        statusState, currentLength := StatusLineLf, 0;
      }
    }

    /** Delivers what the buffer holds of token 3. */
    method HoldToken3(buf: ReadWriteBuffer, off: nat, length: nat, ghost p0: Phase, ghost k: nat) returns (s: Status)
      requires InStart(buf, p0, k, off) && statusState == StatusLineToken3
      requires After(R(), p0, buf.data[k..]) == Collect(R(), Phase(), buf.data[off..])
      requires length == currentLength + (|buf.data| - off) < MAX_FIELD_LENGTH
      modifies this`currentLength, handler, handler.message, handler.message.Repr
      ensures handler.message.Repr == old(handler.message.Repr)
      ensures s != Complete && StartOutcome(s, buf, p0, k)
    {
      hide After, IsCtl, AnyHost, Agrees, KnownMethod, PartialPasses, MessageBuffer.Valid, MessageBuffer.AllUnsent;
      handler.Bounds();
      currentLength := length;
      s := handler.StartLineToken3(buf.data[off..], false);
      if s == Complete {
        s := Incomplete;
      }
    }

    method StepToken3(buf: ReadWriteBuffer, off: nat, ghost p0: Phase, ghost k: nat) returns (s: Status, end: nat)
      requires InStart(buf, p0, k, off) && statusState == StatusLineToken3
      modifies this`statusState, this`currentLength, handler, handler.message, handler.message.Repr
      ensures handler.message.Repr == old(handler.message.Repr)
      ensures s == Complete ==> InStart(buf, p0, k, end) && off < end && statusState == StatusLineLf
      ensures s != Complete ==> StartOutcome(s, buf, p0, k) && off <= end <= |buf.data|
    {
      hide After, Next, Collect, IsCtl, AnyHost, Agrees, PartialPasses, MessageBuffer.Valid, MessageBuffer.AllUnsent;
      handler.Bounds();
      var length;
      s, end, length := ScanToken(buf, off, currentLength, CR, R(), p0, k, Phase());
      if s == Complete {
        s := CloseToken3(buf, off, end, p0, k);
      } else if s == Incomplete {
        s := HoldToken3(buf, off, length, p0, k);
      } else {
        s := Invalid;
      }
    }

    method StepStatusLf(buf: ReadWriteBuffer, off: nat, ghost p0: Phase, ghost k: nat) returns (s: Status, end: nat)
      requires InStart(buf, p0, k, off) && statusState == StatusLineLf
      ensures s == Complete ==> end == off + 1 <= |buf.data| && buf.data[off] == LF
      ensures s != Complete ==> StartOutcome(s, buf, p0, k) && off <= end <= |buf.data|
    {
      hide After, NameStep, ValueStep, AnyHost, Agrees, MessageBuffer.Valid, MessageBuffer.AllUnsent;
      s, end := ParseCharAt(buf, off, LF);
      if s == Incomplete {
        assert buf.data[k..] == buf.data[k..off];
      } else {
        ReadNext(R(), p0, buf.data, k, off);
        RefusedAtEnd(R(), p0, buf.data, k, off + 1);
        assert buf.data[k..|buf.data|] == buf.data[k..];
      }
    }

    /** The start line that was in phase p0 at k ended just before off. */
    ghost predicate StartRead(buf: ReadWriteBuffer, p0: Phase, k: nat, off: nat)
      reads this, handler, handler.message, handler.message.Repr, buf
    {
      && k < off <= |buf.data| && InStart(buf, p0, k, off - 1) && statusState == StatusLineLf
      && buf.data[off - 1] == LF
    }

    /** Reads a start line, or goes on with one. */
    method ParseStatusLine(buf: ReadWriteBuffer) returns (s: Status)
      requires InStartTokens() && buf.Valid() && buf !in handler.message.Repr
      modifies this`statusState, this`currentLength, handler, handler.message, handler.message.Repr
      modifies buf`processPos, buf`writePos
      ensures handler.message.Repr == old(handler.message.Repr)
      ensures s == Complete ==> StartRead(buf, old(Phase()), old(buf.processPos), buf.processPos)
      ensures s != Complete ==> StartOutcome(s, buf, old(Phase()), old(buf.processPos))
    {
      hide After, Next, AnyHost, Agrees, MessageBuffer.Valid, MessageBuffer.AllUnsent;
      ghost var p0, k := Phase(), buf.processPos;
      var off: nat, done := buf.processPos, false;
      s := Complete;
      ReadNone(R(), p0, buf.data, k);
      while !done
        invariant handler.message.Repr == old(handler.message.Repr)
        invariant buf.data == old(buf.data) && buf.Valid() && off <= |buf.data|
        invariant !done ==> InStart(buf, p0, k, off)
        invariant done && s == Complete ==> StartRead(buf, p0, k, off)
        invariant done && s != Complete ==> StartOutcome(s, buf, p0, k)
        decreases !done, |buf.data| - off
      {
        match statusState {
          case StatusLineToken1 => s, off := StepToken1(buf, off, p0, k); done := s != Complete;
          case StatusLineToken2 => s, off := StepToken2(buf, off, p0, k); done := s != Complete;
          case StatusLineToken3 => s, off := StepToken3(buf, off, p0, k); done := s != Complete;
          case StatusLineLf => s, off := StepStatusLf(buf, off, p0, k); done := true;
        }
      }
      buf.SetProcessPosition(off);
      buf.SetWritePosition(off);
    }

    /** Orders the states that consume no input, for termination. */
    static function Rank(s: ParseState): (r: nat) {
      match s
      case FieldValueLws => 2
      case EndHeadersCr => 1
      case FieldValueLeadingLws => 1
      case _ => 0
    }

    /** The buffer ends inside the start line, and its cursors are where they were. The line is
        refused if it is a partial method that does not pass, and left as it is otherwise. */
    ghost predicate Split(s: Status, buf: ReadWriteBuffer, p0: Phase, k: nat)
      reads this, handler, handler.message, handler.message.Repr, buf
    {
      && handler.Valid() && k <= |buf.data| && k == buf.processPos
      && var q := After(R(), p0, buf.data[k..]);
         && InStartLine(q)
         && if q.Token1? && !PartialPasses(R().stream, q.acc) then s == Invalid
            else s == Incomplete && InStartTokens() && q == Phase()
    }

    /** What a call that found the parser in phase p0 and the buffer at k may return. */
    ghost predicate Result(s: Status, buf: ReadWriteBuffer, p0: Phase, k: nat)
      reads this, handler, handler.message, handler.message.Repr, buf
    {
      && buf.Valid() && buf !in handler.message.Repr && buf.writePos == buf.processPos
      && ((InStartLine(p0) && Split(s, buf, p0, k)) || Outcome(s, buf, p0, k, buf.processPos))
    }

    /** A start line is cut, that is, left where it is or refused although its bytes are in order,
        if and only if the unread bytes end inside it. */
    lemma CutExactly(s: Status, buf: ReadWriteBuffer, p0: Phase, k: nat)
      requires InStartLine(p0) && k <= |buf.data| && Result(s, buf, p0, k)
      ensures var q := After(R(), p0, buf.data[k..]);
        (s == Incomplete && buf.processPos == k) || (s != Complete && s != Incomplete && q != Bad) <==> InStartLine(q)
    {
      hide After;
      assert buf.data[k..|buf.data|] == buf.data[k..];
      ReadNone(R(), p0, buf.data, k);
      if Outcome(s, buf, p0, k, buf.processPos) {
        StartIsFresh();
        RefusedAtEnd(R(), p0, buf.data, k, buf.processPos);
      }
    }

    method ParseFields(buf: ReadWriteBuffer, begin: nat, ghost p0: Phase, ghost k: nat)
      returns (s: Status, off: nat)
      requires Live(buf, p0, k, begin) && !After(R(), p0, buf.data[k..]).Folded?
      modifies this`state, this`currentLength, handler, handler.message, handler.message.Repr
      ensures fresh(handler.message.Repr - old(handler.message.Repr))
      ensures begin <= off <= |buf.data|
      ensures buf !in handler.message.Repr && Outcome(s, buf, p0, k, off)
    {
      hide After, Next, AnyHost, Agrees, MessageBuffer.Valid, MessageBuffer.AllUnsent;
      var more := true;
      s, off := Complete, begin;
      while more
        invariant fresh(handler.message.Repr - old(handler.message.Repr))
        invariant buf !in handler.message.Repr && begin <= off <= |buf.data|
        invariant more ==> Live(buf, p0, k, off)
        invariant !more ==> Outcome(s, buf, p0, k, off)
        decreases more, |buf.data| - off, Rank(state)
      {
        match state {
          case EndHeadersCr => s, off, more := StepEndHeadersCr(buf, off, p0, k);
          case EndHeadersLf => s, off := StepEndHeadersLf(buf, off, p0, k); more := false;
          case FieldName => s, off, more := StepFieldName(buf, off, p0, k);
          case FieldValueLeadingLws => s, off, more := StepLeadingLws(buf, off, p0, k);
          case FieldValueLwsLf => s, off, more := StepLwsLf(buf, off, p0, k);
          case FieldValueLws => s, off, more := StepLws(buf, off, p0, k);
          case FieldValueContent => s, off, more := StepContent(buf, off, p0, k);
          case StatusLine =>
            assert false;
        }
      }
    }

    lemma StartStopped(s: Status, buf: ReadWriteBuffer, p0: Phase, k: nat)
      requires InStartLine(p0) && buf.processPos == buf.writePos == k && StartOutcome(s, buf, p0, k)
      ensures Result(s, buf, p0, k)
    {
      hide After, MessageBuffer.Valid, MessageBuffer.AllUnsent;
      StartIsFresh();
    }

    /** A parser that has not left the start line is at one of its tokens. */
    lemma WhereItStands()
      requires AtRest() || InStartTokens()
      ensures handler.Valid() && (state == StatusLine <==> InStartTokens())
      ensures InStartTokens() <==> InStartLine(Phase())
      ensures state != StatusLine ==> InFields() && (state == FieldName ==> handler.HasPartial())
    {
      StartIsFresh();
    }

    /** Reads a header, or as much of it as the buffer holds. */
    method ParseHeaders(buf: ReadWriteBuffer) returns (s: Status)
      requires (AtRest() || InStartTokens()) && buf.Valid() && buf !in handler.message.Repr
      requires !After(R(), Phase(), buf.Unread()).Folded?
      modifies this`state, this`statusState, this`currentLength, handler, handler.message, handler.message.Repr
      modifies buf`processPos, buf`writePos
      ensures fresh(handler.message.Repr - old(handler.message.Repr))
      ensures Result(s, buf, old(Phase()), old(buf.processPos))
      ensures InStartLine(old(Phase())) ==> var q := After(R(), old(Phase()), old(buf.Unread()));
        ((s == Incomplete && buf.processPos == old(buf.processPos)) || (s != Complete && s != Incomplete && q != Bad)
         <==> InStartLine(q))
      ensures InStartLine(old(Phase())) && LF !in old(buf.Unread()) ==> s != Complete && buf.processPos == old(buf.processPos)
    {
      hide After, NameStep, ValueStep, AnyHost, Agrees, MessageBuffer.Valid, MessageBuffer.AllUnsent;
      WhereItStands();
      hide InStartTokens, AtRest, StartOutcome, Result, Phase;
      ghost var p0, k, d := Phase(), buf.processPos, buf.data;
      var off := buf.processPos;
      if state == StatusLine {
        s := ParseStatusLine(buf);
        if s != Complete {
          buf.SetProcessPosition(off);
          buf.SetWritePosition(off);
          StartStopped(s, buf, p0, k);
          CutExactly(s, buf, p0, k);
          return;
        }
        off := buf.processPos;
        assert d[k..][off - 1 - k] == LF;
        BeginFields(buf, p0, k);
      } else {
        ReadNone(R(), p0, d, k);
      }
      s := FinishHeaders(buf, off, p0, k);
      if InStartLine(p0) {
        CutExactly(s, buf, p0, k);
      }
    }

    method BeginFields(buf: ReadWriteBuffer, ghost p0: Phase, ghost k: nat)
      requires StartRead(buf, p0, k, buf.processPos)
      modifies this`state, this`currentLength
      ensures Live(buf, p0, k, buf.processPos)
    {
      hide After, NameStep, ValueStep, AnyHost, Agrees, MessageBuffer.Valid, MessageBuffer.AllUnsent;
      ReadNext(R(), p0, buf.data, k, buf.processPos - 1);
      TransitionToState(EndHeadersCr);
    }

    method FinishHeaders(buf: ReadWriteBuffer, begin: nat, ghost p0: Phase, ghost k: nat) returns (s: Status)
      requires Live(buf, p0, k, begin) && !After(R(), p0, buf.data[k..]).Folded?
      modifies this`state, this`currentLength, handler, handler.message, handler.message.Repr
      modifies buf`processPos, buf`writePos
      ensures fresh(handler.message.Repr - old(handler.message.Repr))
      ensures Result(s, buf, p0, k)
    {
      hide Outcome, After, Next, AnyHost, Agrees, MessageBuffer.Valid, MessageBuffer.AllUnsent;
      var off: nat;
      s, off := ParseFields(buf, begin, p0, k);
      buf.SetProcessPosition(off);
      buf.SetWritePosition(off);
    }
  }
}
