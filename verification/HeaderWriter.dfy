/** The resumable header printer. It may stop at any output byte. */
module HeaderWriters {
  import opened Octets
  import opened Buffers
  import opened Connections
  import opened HeaderGrammar
  import opened MessageBuffers

  /** The places a resumable printer may stop at, in the order it visits them. */
  datatype WriteState =
    | StartLineToken1 | StartLineSeparator1 | StartLineToken2 | StartLineSeparator2
    | StartLineToken3 | StartLineEnd
    | FieldName | FieldValueSeparator | FieldValue | FieldSeparator
    | EndFields

  /** What place st prints, for field i where that matters. */
  function TextAt(m: Message, st: WriteState, i: nat): (s: Bytes)
    requires Fits(m, st, i)
  {
    match st
    case StartLineToken1 => m.line1
    case StartLineSeparator1 => SPACE
    case StartLineToken2 => m.line2
    case StartLineSeparator2 => SPACE
    case StartLineToken3 => m.line3
    case StartLineEnd => ENDLINE
    case FieldName => m.fields[i].name
    case FieldValueSeparator => FIELD_SEP
    case FieldValue => m.fields[i].value
    case FieldSeparator => ENDLINE
    case EndFields => ENDLINE
  }

  /** Whether place st makes sense for field i. */
  predicate Fits(m: Message, st: WriteState, i: nat) {
    match st
    case FieldName => i < |m.fields|
    case FieldValueSeparator => i < |m.fields|
    case FieldValue => i < |m.fields|
    case FieldSeparator => i < |m.fields|
    case EndFields => i == |m.fields|
    case _ => i == 0
  }

  /** What remains to be printed after place st is done. */
  function TextAfter(m: Message, st: WriteState, i: nat): (s: Bytes)
    requires Fits(m, st, i)
  {
    var tail := PrintFields(m.fields) + ENDLINE;
    match st
    case StartLineToken1 => SPACE + (m.line2 + (SPACE + (m.line3 + (ENDLINE + tail))))
    case StartLineSeparator1 => m.line2 + (SPACE + (m.line3 + (ENDLINE + tail)))
    case StartLineToken2 => SPACE + (m.line3 + (ENDLINE + tail))
    case StartLineSeparator2 => m.line3 + (ENDLINE + tail)
    case StartLineToken3 => ENDLINE + tail
    case StartLineEnd => tail
    case FieldName => FIELD_SEP + (m.fields[i].value + (ENDLINE + (PrintFields(m.fields[i + 1..]) + ENDLINE)))
    case FieldValueSeparator => m.fields[i].value + (ENDLINE + (PrintFields(m.fields[i + 1..]) + ENDLINE))
    case FieldValue => ENDLINE + (PrintFields(m.fields[i + 1..]) + ENDLINE)
    case FieldSeparator => PrintFields(m.fields[i + 1..]) + ENDLINE
    case EndFields => []
  }

  /** The place after st, for field i. */
  function Following(st: WriteState, i: nat, n: nat): (r: (WriteState, nat))
    requires st != EndFields
  {
    match st
    case StartLineToken1 => (StartLineSeparator1, i)
    case StartLineSeparator1 => (StartLineToken2, i)
    case StartLineToken2 => (StartLineSeparator2, i)
    case StartLineSeparator2 => (StartLineToken3, i)
    case StartLineToken3 => (StartLineEnd, i)
    case StartLineEnd => if i == n then (EndFields, i) else (FieldName, i)
    case FieldName => (FieldValueSeparator, i)
    case FieldValueSeparator => (FieldValue, i)
    case FieldValue => (FieldSeparator, i)
    case FieldSeparator => if i + 1 == n then (EndFields, i + 1) else (FieldName, i + 1)
  }

  lemma PrintedFromStart(m: Message)
    ensures m.line1 + TextAfter(m, StartLineToken1, 0) == Print(m)
  {
  }

  lemma PrintedFromField(m: Message, i: nat)
    requires i <= |m.fields|
    ensures PrintFields(m.fields[i..]) + ENDLINE
         == if i == |m.fields| then ENDLINE else m.fields[i].name + TextAfter(m, FieldName, i)
  {
    if i < |m.fields| {
      assert m.fields[i..][0] == m.fields[i] && m.fields[i..][1..] == m.fields[i + 1..];
    }
  }

  lemma PrintedAtEnd(m: Message)
    ensures TextAfter(m, EndFields, |m.fields|) == []
  {
  }

  /** Going on to the next place loses nothing and repeats nothing. */
  lemma NothingSkipped(m: Message, st: WriteState, i: nat)
    requires Fits(m, st, i) && st != EndFields
    ensures var (st', i') := Following(st, i, |m.fields|);
            TextAfter(m, st, i) == TextAt(m, st', i') + TextAfter(m, st', i')
  {
    if st == StartLineEnd {
      PrintedFromField(m, 0);
      assert m.fields[0..] == m.fields;
    } else if st == FieldSeparator {
      PrintedFromField(m, i + 1);
    }
  }

  class HeaderWriter {
    const dest: Connection
    const message: MessageBuffer
    const spaceBuf: ReadWriteBuffer
    const endlineBuf: ReadWriteBuffer
    const fieldSep: ReadWriteBuffer
    var state: WriteState
    /** The field being printed. */
    var current: nat

    ghost predicate Separator(b: ReadWriteBuffer, text: Bytes)
      reads b
    {
      b.Valid() && b.isStatic && b.data == text && b.writeEnd == |text|
    }

    ghost predicate Separators()
      reads spaceBuf, endlineBuf, fieldSep
    {
      Separator(spaceBuf, SPACE) && Separator(endlineBuf, ENDLINE) && Separator(fieldSep, FIELD_SEP)
    }

    ghost predicate Placed()
      reads this, message
    {
      Fits(message.contents, state, current)
    }

    /** Numbers the places in the order they are printed. */
    ghost function Here(): (n: nat)
      reads this, message
    {
      match state
      case StartLineToken1 => 0
      case StartLineSeparator1 => 1
      case StartLineToken2 => 2
      case StartLineSeparator2 => 3
      case StartLineToken3 => 4
      case StartLineEnd => 5
      case FieldName => 6 + 4 * current
      case FieldValueSeparator => 7 + 4 * current
      case FieldValue => 8 + 4 * current
      case FieldSeparator => 9 + 4 * current
      case EndFields => 6 + 4 * |message.contents.fields|
    }

    /** Nothing beyond place number h has been printed yet. */
    ghost predicate AheadOf(h: nat)
      requires message.Valid()
      reads message, message.Repr
    {
      && (h < 2 ==> Unsent(message.line2))
      && (h < 4 ==> Unsent(message.line3))
      && (forall j :: 0 <= j < |message.headers| ==>
            && (h < 6 + 4 * j ==> Unsent(message.headers[j].name))
            && (h < 8 + 4 * j ==> Unsent(message.headers[j].value)))
    }

    /** Where the bytes of the current place are. */
    function CurrentBuffer(): (b: ReadWriteBuffer)
      requires state == FieldName || state == FieldValue ==> current < |message.headers|
      reads this, message
    {
      match state
      case StartLineToken1 => message.line1
      case StartLineSeparator1 => spaceBuf
      case StartLineToken2 => message.line2
      case StartLineSeparator2 => spaceBuf
      case StartLineToken3 => message.line3
      case StartLineEnd => endlineBuf
      case FieldName => message.headers[current].name
      case FieldValueSeparator => fieldSep
      case FieldValue => message.headers[current].value
      case FieldSeparator => endlineBuf
      case EndFields => endlineBuf
    }

    ghost predicate Valid()
      reads this, message, message.Repr, spaceBuf, endlineBuf, fieldSep
    {
      && message.Valid() && Separators() && Placed() && AheadOf(Here())
      && message.Repr !! {spaceBuf, endlineBuf, fieldSep}
      && CurrentBuffer().writeEnd == |CurrentBuffer().data|
    }

    /** Everything that has not been sent yet. */
    ghost function Left(): (s: Bytes)
      requires Valid()
      reads this, message, message.Repr, spaceBuf, endlineBuf, fieldSep
    {
      CurrentBuffer().Pending() + TextAfter(message.contents, state, current)
    }

    constructor (dest: Connection, message: MessageBuffer)
      ensures this.dest == dest && this.message == message
      ensures fresh(spaceBuf) && fresh(endlineBuf) && fresh(fieldSep)
      ensures Separators()
    {
      this.dest, this.message := dest, message;
      spaceBuf := new ReadWriteBuffer.Static(SPACE);
      endlineBuf := new ReadWriteBuffer.Static(ENDLINE);
      fieldSep := new ReadWriteBuffer.Static(FIELD_SEP);
      state, current := StartLineToken1, 0;
    }

    /** The buffer being printed is none of those still to come. */
    lemma LaterBuffersDiffer()
      requires Valid()
      ensures var b := CurrentBuffer();
        && b.Valid() && b.writePos <= b.writeEnd
        && (b in message.Repr || b == spaceBuf || b == endlineBuf || b == fieldSep)
        && (Here() < 2 ==> b != message.line2) && (Here() < 4 ==> b != message.line3)
        && (forall j :: 0 <= j < |message.headers| ==>
              && (Here() < 6 + 4 * j ==> message.headers[j].name != b)
              && (Here() < 8 + 4 * j ==> message.headers[j].value != b))
    {
    }

    /** A place further on than all that was printed has its whole text left. */
    lemma PlaceAhead(h: nat)
      requires message.Valid() && Placed()
      ensures Separators() && AheadOf(h) && h < Here() && spaceBuf.writePos == endlineBuf.writePos == fieldSep.writePos == 0 ==>
        Unsent(CurrentBuffer())
    {
    }

    lemma AheadGrows(h: nat)
      requires message.Valid() && AheadOf(h) && h <= Here()
      ensures AheadOf(Here())
    {
    }

    lemma LeftWhenUnsent()
      requires Valid() && Unsent(CurrentBuffer())
      ensures Left() == TextAt(message.contents, state, current) + TextAfter(message.contents, state, current)
    {
    }

    method ResetSeparators()
      requires Separators()
      modifies spaceBuf, endlineBuf, fieldSep
      ensures Separators() && spaceBuf.writePos == endlineBuf.writePos == fieldSep.writePos == 0
    {
      spaceBuf.Reset();
      endlineBuf.Reset();
      fieldSep.Reset();
    }

    method Reset()
      requires message.Valid() && message.AllUnsent() && Separators()
      requires message.Repr !! {spaceBuf, endlineBuf, fieldSep}
      modifies this`state, this`current, spaceBuf, endlineBuf, fieldSep
      ensures Valid() && Left() == Print(message.contents)
    {
      hide TextAfter, Print;
      state, current := StartLineToken1, 0;
      ResetSeparators();
      LeftWhenUnsent();
      PrintedFromStart(message.contents);
    }

    /** Moves to the next place, whose text is still unsent. */
    method Move()
      requires Valid() && state != EndFields
      modifies this`state, this`current, spaceBuf, endlineBuf, fieldSep
      ensures Valid() && Unsent(CurrentBuffer())
      ensures (state, current) == Following(old(state), old(current), |message.contents.fields|)
      ensures Here() > old(Here())
    {
      hide CurrentBuffer, MessageBuffer.Valid, AheadOf;
      ghost var h := Here();
      message.SameFields();
      ResetSeparators();
      var (next, field) := Following(state, current, |message.headers|);
      state, current := next, field;
      PlaceAhead(h);
      AheadGrows(h);
    }

    /** The current place is done: go on to the next one. */
    method Advance()
      requires Valid() && CurrentBuffer().Pending() == [] && state != EndFields
      modifies this`state, this`current, spaceBuf, endlineBuf, fieldSep
      ensures Valid() && Left() == old(Left())
      ensures Here() > old(Here())
    {
      hide TextAt, TextAfter, Print, Following, AheadOf, Separators, MessageBuffer.Valid;
      NothingSkipped(message.contents, state, current);
      assert Left() == TextAfter(message.contents, state, current);
      Move();
      LeftWhenUnsent();
    }

    /** Prints as much of the header as the destination accepts. Whenever it stops, what has been
        sent and what is left add up to the printed message. */
    method WriteHeader() returns (s: NetStatus)
      requires Valid()
      modifies this`state, this`current, spaceBuf, endlineBuf, fieldSep, message.Repr`writePos
      modifies dest`readyToWrite, dest`state, dest`sent, dest`writeScript
      ensures s != NetComplete ==> Valid() && dest.sent + Left() == old(dest.sent) + old(Left())
      ensures s == NetComplete ==> dest.sent == old(dest.sent) + old(Left()) && dest.CanWrite()
      ensures message.Valid() && Separators()
      ensures s == NetComplete || s == NetIncomplete || s == DestClosed
      ensures s == NetIncomplete ==> !dest.CanWrite()
      ensures s == DestClosed ==> !dest.OpenForWrite()
      ensures s != DestClosed ==> dest.state == old(dest.state)
      ensures dest.Honest(s == DestClosed)
    {
      hide TextAt, TextAfter, Print, Following, AheadOf, Separators, MessageBuffer.Valid;
      hide Connection.Accepting, Connection.Unfailing;
      while true
        invariant Valid() && dest.sent + Left() == old(dest.sent) + old(Left())
        invariant dest.state == old(dest.state) && dest.Honest(false)
        decreases 6 + 4 * |message.contents.fields| - Here()
      {
        s := WriteCurrent();
        if s != NetComplete {
          return;
        }
        if state == EndFields {
          assert Left() == [] by {
            PrintedAtEnd(message.contents);
          }
          ResetSeparators();
          return;
        }
        Advance();
      }
    }

    /** Prints a whole message in as many rounds as the destination needs; before each round the
        destination may have become ready again. The bytes sent never differ from those of the
        one-shot printer. */
    method WriteInRounds(ready: seq<bool>) returns (s: NetStatus, oneShot: seq<Bytes>)
      requires message.Valid() && message.AllUnsent() && Separators()
      requires message.Repr !! {spaceBuf, endlineBuf, fieldSep}
      modifies this`state, this`current, spaceBuf, endlineBuf, fieldSep, message.Repr`writePos
      modifies dest`readyToWrite, dest`state, dest`sent, dest`writeScript
      ensures dest.sent <= old(dest.sent) + Concat(oneShot)
      ensures s == NetComplete ==> dest.sent == old(dest.sent) + Concat(oneShot)
    {
      hide Print, Concat, Left, Valid, Separators, MessageBuffer.Valid, MessageBuffer.AllUnsent;
      oneShot := message.GetConstBuffers();
      Reset();
      s := NetIncomplete;
      for i := 0 to |ready|
        invariant Valid() && dest.sent + Left() == old(dest.sent) + Concat(oneShot)
        invariant s == NetIncomplete
      {
        dest.readyToWrite := dest.readyToWrite || ready[i];
        s := WriteHeader();
        if s != NetIncomplete {
          break;
        }
      }
    }

    method WriteCurrent() returns (s: NetStatus)
      requires Valid()
      modifies spaceBuf`writePos, endlineBuf`writePos, fieldSep`writePos, message.Repr`writePos
      modifies dest`readyToWrite, dest`state, dest`sent, dest`writeScript
      ensures Valid() && dest.sent + Left() == old(dest.sent) + old(Left())
      ensures s == NetComplete || s == NetIncomplete || s == DestClosed
      ensures s == NetComplete ==> CurrentBuffer().Pending() == [] && dest.CanWrite()
      ensures s == NetIncomplete ==> !dest.CanWrite()
      ensures s == DestClosed ==> !dest.OpenForWrite()
      ensures s != DestClosed ==> dest.state == old(dest.state)
      ensures dest.Honest(s == DestClosed)
    {
      hide TextAt, TextAfter, Print, Following, CurrentBuffer, Here;
      hide Connection.Accepting, Connection.Unfailing, Connection.WriteStory;
      LaterBuffersDiffer();
      var b := CurrentBuffer();
      ghost var sent, queue, rest := dest.sent, b.Pending(), TextAfter(message.contents, state, current);
      s := dest.NonBlockingWrite(b);
      JoinSlices(b.data, old(b.writePos), b.writePos, b.writeEnd);
      assert dest.sent + b.Pending() == sent + queue;
      Assoc(dest.sent, b.Pending(), rest);
      Assoc(sent, queue, rest);
    }
  }
}
