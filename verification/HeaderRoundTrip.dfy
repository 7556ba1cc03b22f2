/** Printing a header and reading it back. */
module HeaderRoundTrips {
  import opened Octets
  import opened HeaderGrammar

  ghost predicate Clean(s: Bytes, delimiter: byte) {
    forall i :: 0 <= i < |s| ==> s[i] != delimiter && !IsCtl(s[i])
  }

  predicate NoLeadingSpace(s: Bytes) {
    s == [] || s[0] != SP
  }

  /** Text that a token with this delimiter and capacity can hold. */
  ghost predicate TokenText(s: Bytes, delimiter: byte, capacity: nat) {
    Clean(s, delimiter) && |s| <= capacity && |s| < MAX_FIELD_LENGTH
  }

  /** What the reader can make of a field line. */
  ghost predicate FieldText(r: Rules, f: Field) {
    TokenText(f.name, COLON, r.maxName) && TokenText(f.value, CR, r.maxValue) && NoLeadingSpace(f.value)
  }

  /** What the reader can make of a header. */
  ghost predicate Readable(r: Rules, m: Message) {
    && TokenText(m.line1, SP, r.maxLine1) && (r.stream == Request ==> KnownMethod(m.line1))
    && TokenText(m.line2, SP, r.maxLine2) && TokenText(m.line3, CR, r.maxLine3)
    && ReadableFields(r, m)
  }

  ghost predicate ReadableFields(r: Rules, m: Message) {
    && |m.fields| <= r.maxFields
    && (forall i :: 0 <= i < |m.fields| ==> FieldText(r, m.fields[i]))
    && (forall i :: 1 <= i < |m.fields| ==> NoLeadingSpace(m.fields[i].name))
  }

  /** The printer puts a space in front of a value, and that space counts towards the limit. */
  predicate RoomForSpace(f: Field) {
    1 + |f.value| < MAX_FIELD_LENGTH
  }

  ghost predicate AllHaveRoom(fs: seq<Field>) {
    forall i :: 0 <= i < |fs| ==> RoomForSpace(fs[i])
  }

  // ------------------------------------------------------------------ the reader yields readable text

  ghost predicate PhaseText(r: Rules, p: Phase) {
    match p
    case Token1(acc) => TokenText(acc, SP, r.maxLine1)
    case Token2(l1, acc) => StartText(r, l1) && TokenText(acc, SP, r.maxLine2)
    case Token3(l1, l2, acc) => StartText(r, l1) && TokenText(l2, SP, r.maxLine2) && TokenText(acc, CR, r.maxLine3)
    case StartLf(m) => Readable(r, m) && m.fields == []
    case LineStart(m) => Readable(r, m) && m.fields == []
    case EndLf(m) => Readable(r, m)
    case Name(m, acc) => Readable(r, m) && NameText(r, m, acc) && acc != []
    case LeadingSpace(m, name, _) => Readable(r, m) && NameText(r, m, name)
    case Value(m, name, _, acc) => Readable(r, m) && NameText(r, m, name) && TokenText(acc, CR, r.maxValue) && NoLeadingSpace(acc) && acc != []
    case ValueLf(m) => Readable(r, m) && m.fields != []
    case AfterLine(m) => Readable(r, m) && m.fields != []
    case Done(m) => Readable(r, m) && Acceptable(r.stream, m)
    case Bad => true
    case Folded => true
  }

  ghost predicate StartText(r: Rules, l1: Bytes) {
    TokenText(l1, SP, r.maxLine1) && (r.stream == Request ==> KnownMethod(l1))
  }

  ghost predicate NameText(r: Rules, m: Message, name: Bytes) {
    |m.fields| < r.maxFields && TokenText(name, COLON, r.maxName) && (m.fields == [] || NoLeadingSpace(name))
  }

  lemma Grown(acc: Bytes, used: nat, capacity: nat, delimiter: byte, b: byte)
    requires Clean(acc, delimiter) && Grows(acc, used, capacity, b) && |acc| <= used && b != delimiter
    ensures TokenText(acc + [b], delimiter, capacity)
  {
  }

  lemma FieldAdded(r: Rules, m: Message, name: Bytes, value: Bytes)
    requires Readable(r, m) && NameText(r, m, name) && TokenText(value, CR, r.maxValue) && NoLeadingSpace(value)
    ensures Readable(r, AddField(m, name, value))
  {
  }

  lemma NameKept(r: Rules, m: Message, acc: Bytes, b: byte)
    requires Readable(r, m)
    requires acc != [] ==> NameText(r, m, acc)
    requires acc == [] && m.fields != [] ==> b != SP
    ensures PhaseText(r, NameStep(r, m, acc, b))
  {
    if |m.fields| < r.maxFields && b != COLON && Grows(acc, |acc|, r.maxName, b) {
      Grown(acc, |acc|, r.maxName, COLON, b);
    }
  }

  lemma ValueKept(r: Rules, m: Message, name: Bytes, skipped: nat, acc: Bytes, b: byte)
    requires Readable(r, m) && NameText(r, m, name) && TokenText(acc, CR, r.maxValue) && NoLeadingSpace(acc)
    requires acc == [] ==> b != SP
    ensures PhaseText(r, ValueStep(r, m, name, skipped, acc, b))
  {
    if b == CR {
      FieldAdded(r, m, name, acc);
    } else if Grows(acc, skipped + |acc|, r.maxValue, b) {
      Grown(acc, skipped + |acc|, r.maxValue, CR, b);
    }
  }

  lemma TokenKept(r: Rules, p: Phase, b: byte)
    requires PhaseText(r, p) && (p.Token1? || p.Token2? || p.Token3?)
    ensures PhaseText(r, Next(r, p, b))
  {
    if b != Delimiter(p) && Grows(p.acc, |p.acc|, Capacity(r, p), b) {
      Grown(p.acc, |p.acc|, Capacity(r, p), Delimiter(p), b);
    }
  }

  lemma TextKept(r: Rules, p: Phase, b: byte)
    requires PhaseText(r, p)
    ensures PhaseText(r, Next(r, p, b))
  {
    match p {
      case Token1(_) => TokenKept(r, p, b);
      case Token2(_, _) => TokenKept(r, p, b);
      case Token3(_, _, _) => TokenKept(r, p, b);
      case LineStart(m) => NameKept(r, m, [], b);
      case Name(m, acc) => NameKept(r, m, acc, b);
      case LeadingSpace(m, name, skipped) =>
        if b != SP {
          ValueKept(r, m, name, skipped, [], b);
        }
      case Value(m, name, skipped, acc) => ValueKept(r, m, name, skipped, acc, b);
      case AfterLine(m) =>
        if b != SP && b != CR {
          NameKept(r, m, [], b);
        }
      case _ =>
    }
  }

  /** Whatever the reader has collected is readable text. */
  lemma {:induction false} ReaderYieldsText(r: Rules, s: Bytes)
    ensures PhaseText(r, After(r, START, s))
  {
    if s != [] {
      var front, b := s[..|s| - 1], s[|s| - 1];
      ReaderYieldsText(r, front);
      Reader(r).ReadMore(START, front, b);
      assert s == front + [b];
      TextKept(r, After(r, START, front), b);
    }
  }

  // ------------------------------------------------------------------ reading what was printed

  lemma ReadToken(r: Rules, p: Phase, text: Bytes)
    requires Collecting(p) && p.acc == [] && TokenText(text, Delimiter(p), Capacity(r, p))
    requires p.Name? ==> |p.m.fields| < r.maxFields
    requires p.Value? ==> p.skipped < MAX_FIELD_LENGTH
    ensures After(r, p, text + [Delimiter(p)]) ==
      if p.Value? && p.skipped + |text| >= MAX_FIELD_LENGTH then Bad
      else Next(r, p.(acc := text), Delimiter(p))
  {
    ReadDelimited(r, p, text);
    assert [] + text == text;
  }

  lemma ReadStartLine(r: Rules, m: Message)
    requires Readable(r, m)
    ensures After(r, START, PrintStart(m)) == LineStart(m.(fields := []))
  {
    hide After;
    var a, b, c := m.line1 + [SP], m.line2 + [SP], m.line3 + [CR];
    ReadToken(r, START, m.line1);
    ReadToken(r, Token2(m.line1, []), m.line2);
    ReadToken(r, Token3(m.line1, m.line2, []), m.line3);
    ReadOne(r, StartLf(m.(fields := [])), LF);
    ReadInPieces(r, START, a, b);
    ReadInPieces(r, START, a + b, c);
    ReadInPieces(r, START, a + b + c, [LF]);
    assert PrintStart(m) == a + b + c + [LF];
  }

  /** The name of a field line, from the start of the line to its first separator byte. */
  lemma ReadFieldName(r: Rules, p: Phase, m: Message, name: Bytes)
    requires p == LineStart(m) || (p == AfterLine(m) && NoLeadingSpace(name))
    requires |m.fields| < r.maxFields && TokenText(name, COLON, r.maxName)
    ensures After(r, p, name + [COLON]) == LeadingSpace(m, name, 0)
  {
    var s := name + [COLON];
    SameFromHere(r, p, Name(m, []), s);
    ReadToken(r, Name(m, []), name);
  }

  lemma ReadFieldValue(r: Rules, m: Message, name: Bytes, skipped: nat, value: Bytes)
    requires TokenText(value, CR, r.maxValue) && NoLeadingSpace(value) && skipped < MAX_FIELD_LENGTH
    ensures After(r, LeadingSpace(m, name, skipped), value + [CR])
         == if skipped + |value| < MAX_FIELD_LENGTH then ValueLf(AddField(m, name, value)) else Bad
  {
    SameFromHere(r, LeadingSpace(m, name, skipped), Value(m, name, skipped, []), value + [CR]);
    ReadToken(r, Value(m, name, skipped, []), value);
  }

  lemma ReadFieldLine(r: Rules, p: Phase, m: Message, f: Field)
    requires p == LineStart(m) || (p == AfterLine(m) && NoLeadingSpace(f.name))
    requires |m.fields| < r.maxFields && FieldText(r, f)
    ensures After(r, p, PrintField(f)) == if RoomForSpace(f) then AfterLine(AddField(m, f.name, f.value)) else Bad
  {
    hide After;
    var a, b := f.name + [COLON], f.value + [CR];
    ReadFieldName(r, p, m, f.name);
    ReadOne(r, LeadingSpace(m, f.name, 0), SP);
    ReadInPieces(r, p, a, [SP]);
    ReadFieldValue(r, m, f.name, 1, f.value);
    ReadInPieces(r, p, a + [SP], b);
    var q := After(r, p, a + [SP] + b);
    ReadOne(r, q, LF);
    ReadInPieces(r, p, a + [SP] + b, [LF]);
    assert PrintField(f) == a + [SP] + b + [LF];
  }

  /** The lines of several fields, after those m already has. */
  lemma {:induction false} ReadFieldLines(r: Rules, p: Phase, m: Message, fs: seq<Field>)
    requires p == if m.fields == [] then LineStart(m) else AfterLine(m)
    requires ReadableFields(r, m.(fields := m.fields + fs))
    ensures After(r, p, PrintFields(fs)) ==
      if !AllHaveRoom(fs) then Bad
      else if m.fields + fs == [] then LineStart(m)
      else AfterLine(m.(fields := m.fields + fs))
    decreases |fs|
  {
    hide After;
    if fs == [] {
      ReadNone(r, p, [], 0);
      assert m.fields + fs == m.fields;
    } else {
      var f, rest := fs[0], fs[1..];
      var all := m.fields + fs;
      assert all[|m.fields|] == f;
      ReadFieldLine(r, p, m, f);
      ReadInPieces(r, p, PrintField(f), PrintFields(rest));
      if RoomForSpace(f) {
        var m' := AddField(m, f.name, f.value);
        assert m'.fields + rest == all;
        ReadFieldLines(r, AfterLine(m'), m', rest);
        assert AllHaveRoom(fs) <==> AllHaveRoom(rest) by {
          assert fs == [f] + rest;
        }
      } else {
        Absorbing(r, Bad, PrintFields(rest));
      }
    }
  }

  /** Reading back a printed header up to the end of its fields. */
  lemma ReadPrintedFields(r: Rules, m: Message)
    requires Readable(r, m)
    ensures var q := After(r, START, PrintStart(m) + PrintFields(m.fields));
            if AllHaveRoom(m.fields) then q == LineStart(m) || q == AfterLine(m) else q == Bad
  {
    hide After, Readable, PrintStart, PrintFields;
    var start := m.(fields := []);
    ReadableHasFields(r, m);
    ReadStartLine(r, m);
    assert start.fields + m.fields == m.fields;
    ReadFieldLines(r, LineStart(start), start, m.fields);
    ReadInPieces(r, START, PrintStart(m), PrintFields(m.fields));
  }

  /** Reading back a printed header that consists of readable text. */
  lemma ReadPrinted(r: Rules, m: Message)
    requires Readable(r, m)
    ensures After(r, START, Print(m)) == if AllHaveRoom(m.fields) && Acceptable(r.stream, m) then Done(m) else Bad
    ensures AllHaveRoom(m.fields) ==> After(r, START, Print(m)[..|Print(m)| - 1]) == EndLf(m)
  {
    hide After, Readable, PrintStart, PrintFields, Acceptable, AllHaveRoom;
    var s := PrintStart(m) + PrintFields(m.fields);
    var q := After(r, START, s);
    ReadPrintedFields(r, m);
    ReadInPieces(r, START, s, ENDLINE);
    ReadEndOfFields(r, q, m);
    ReadInPieces(r, START, s, [CR]);
    ReadOne(r, q, CR);
    assert Print(m)[..|Print(m)| - 1] == s + [CR];
  }

  lemma ReadableHasFields(r: Rules, m: Message)
    requires Readable(r, m)
    ensures ReadableFields(r, m)
  {
  }

  lemma ReadEndOfFields(r: Rules, q: Phase, m: Message)
    requires q == Bad || q == LineStart(m) || q == AfterLine(m)
    ensures After(r, q, ENDLINE) == if q != Bad && Acceptable(r.stream, m) then Done(m) else Bad
  {
    ReadOne(r, q, CR);
    ReadOne(r, Next(r, q, CR), LF);
    ReadInPieces(r, q, [CR], [LF]);
    assert ENDLINE == [CR] + [LF];
  }

  /** Printing a message and reading the result gives the same message back exactly when the
      message is readable text, leaves room for the printed space, and is acceptable. */
  lemma RoundTrip(r: Rules, m: Message)
    ensures After(r, START, Print(m)) == Done(m)
        <==> Readable(r, m) && AllHaveRoom(m.fields) && Acceptable(r.stream, m)
  {
    hide After, Readable, Acceptable, AllHaveRoom;
    ReaderYieldsText(r, Print(m));
    assert Readable(r, m) || After(r, START, Print(m)) != Done(m);
    if Readable(r, m) {
      ReadPrinted(r, m);
    }
  }

  /** The reader stops at the final LF: bytes that follow the header do not matter to it. */
  lemma RoundTripWithMore(r: Rules, m: Message, more: Bytes)
    requires Readable(r, m) && AllHaveRoom(m.fields) && Acceptable(r.stream, m)
    ensures After(r, START, Print(m) + more) == Done(m)
    ensures After(r, START, Print(m)[..|Print(m)| - 1]) == EndLf(m)
  {
    hide After, Readable, Acceptable, AllHaveRoom, PrintStart, PrintFields;
    ReadPrinted(r, m);
    ReadInPieces(r, START, Print(m), more);
    Absorbing(r, Done(m), more);
  }

  /** What one header reads as, another proxy of the same rules reads the same way after it was
      printed, unless a value fills the limit and the printed space no longer fits. */
  lemma Reprinted(r: Rules, s: Bytes, m: Message)
    requires After(r, START, s) == Done(m)
    ensures After(r, START, Print(m)) == Done(m) <==> AllHaveRoom(m.fields)
  {
    hide After, Readable, AllHaveRoom, Acceptable;
    ReaderYieldsText(r, s);
    RoundTrip(r, m);
  }

  /** The exception is real: a field line without a space after its colon and a value of 511 bytes
      is accepted, but its printed form is not. */
  lemma TightValueIsNotReprinted(r: Rules, m: Message, name: Bytes, value: Bytes)
    requires Readable(r, m) && m.fields == [] && r.maxFields > 0
    requires Acceptable(r.stream, AddField(m, name, value))
    requires FieldText(r, Field(name, value)) && |value| == MAX_FIELD_LENGTH - 1
    ensures var m' := AddField(m, name, value);
      && After(r, START, PrintStart(m) + (name + [COLON] + value + ENDLINE) + ENDLINE) == Done(m')
      && After(r, START, Print(m')) == Bad
  {
    hide After, PrintStart, Acceptable;
    var m', p := AddField(m, name, value), LineStart(m);
    var a, b := name + [COLON], value + [CR];
    ReadStartLine(r, m);
    ReadFieldName(r, p, m, name);
    ReadFieldValue(r, m, name, 0, value);
    ReadInPieces(r, p, a, b);
    ReadOne(r, ValueLf(m'), LF);
    ReadInPieces(r, p, a + b, [LF]);
    assert name + [COLON] + value + ENDLINE == a + b + [LF];
    ReadInPieces(r, START, PrintStart(m), a + b + [LF]);
    ReadInPieces(r, START, PrintStart(m) + (a + b + [LF]), ENDLINE);
    ReadEndOfFields(r, AfterLine(m'), m');
    FieldAdded(r, m, name, value);
    assert !RoomForSpace(m'.fields[0]);
    ReadPrinted(r, m');
  }
}
