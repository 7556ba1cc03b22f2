/** The body lengths a header may announce, told by the numerals that announce them. */
module ContentLengths {
  import opened Octets
  import opened Numerals
  import opened Names
  import H = HeaderGrammar
  import opened StreamGrammar
  import opened StreamTheorems

  /** Blank, tab, line feed, vertical tab, form feed and carriage return. */
  const WHITE: set<byte> := {32, 9, 10, 11, 12, 13}
  const DECIMALS: set<byte> := {48, 49, 50, 51, 52, 53, 54, 55, 56, 57}

  predicate AllWhite(s: Bytes) {
    forall i :: 0 <= i < |s| ==> s[i] in WHITE
  }

  /** A text that announces n: white space, a numeral of n, and then nothing that is a digit. */
  ghost predicate Announces(value: Bytes, n: nat) {
    exists ws: Bytes, s: Bytes, rest: Bytes :: Parted(value, ws, s, rest, n)
  }

  ghost predicate Parted(value: Bytes, ws: Bytes, s: Bytes, rest: Bytes, n: nat) {
    && value == ws + s + rest && AllWhite(ws) && Numeral(s, n, Ten)
    && (rest == [] || rest[0] !in DECIMALS)
  }

  lemma {:induction false} SkipWhite(ws: Bytes, s: Bytes)
    requires AllWhite(ws) && s != [] && s[0] !in WHITE
    ensures H.SkipSpace(ws + s) == s
  {
    if ws == [] {
      assert ws + s == s;
    } else {
      SkipWhite(ws[1..], s);
      assert (ws + s)[1..] == ws[1..] + s;
    }
  }

  /** What reading on from acc makes of further decimal places. */
  function ReadFrom(acc: nat, places: seq<nat>): (n: nat) {
    if places == [] then acc else 10 * ReadFrom(acc, places[..|places| - 1]) + places[|places| - 1]
  }

  lemma {:induction false} ReadFromNothing(places: seq<nat>)
    ensures ReadFrom(0, places) == ValueOf(places, Ten)
  {
    if places != [] {
      ReadFromNothing(places[..|places| - 1]);
    }
  }

  lemma {:induction false} ReadFirst(acc: nat, places: seq<nat>)
    requires places != []
    ensures ReadFrom(acc, places) == ReadFrom(10 * acc + places[0], places[1..])
  {
    var front := places[..|places| - 1];
    if front != [] {
      ReadFirst(acc, front);
      assert places[1..][..|places| - 2] == front[1..];
    } else {
      assert places[1..] == [] && ReadFrom(acc, front) == acc;
    }
  }

  lemma DecimalsAreDigits(b: byte)
    ensures IsDigit(b) <==> b in DECIMALS
    ensures b in DECIMALS ==> b !in WHITE && b != 43 && b != 45
  {
  }

  /** Every byte of a decimal numeral is a digit of its place. */
  lemma PlaceOf(s: Bytes, places: seq<nat>, i: nat)
    requires (forall i :: 0 <= i < |places| ==> places[i] < 10) && Written(s, places) && i < |s|
    ensures IsDigit(s[i]) && s[i] - 48 == places[i]
  {
    DecimalDigitTable(s[i], places[i]);
  }

  lemma {:induction false} DigitsOfNumeral(s: Bytes, places: seq<nat>, rest: Bytes, acc: nat)
    requires |s| == |places| && forall i :: 0 <= i < |s| ==> IsDigit(s[i]) && s[i] - 48 == places[i]
    requires rest == [] || !IsDigit(rest[0])
    ensures H.Digits(s + rest, acc) == ReadFrom(acc, places)
  {
    if s == [] {
      assert s + rest == rest;
    } else {
      DigitsOfNumeral(s[1..], places[1..], rest, 10 * acc + places[0]);
      ReadFirst(acc, places);
      assert (s + rest)[1..] == s[1..] + rest;
    }
  }

  lemma NumeralDigits(s: Bytes, n: nat, rest: Bytes)
    requires Numeral(s, n, Ten) && (rest == [] || rest[0] !in DECIMALS)
    ensures s != [] && s[0] in DECIMALS && H.Digits(s + rest, 0) == n
  {
    var k: nat :| Written(s, Zeros(k) + Places(n, Ten));
    var places := Zeros(k) + Places(n, Ten);
    assert |s| == |places| && places != [];
    forall i | 0 <= i < |s| ensures IsDigit(s[i]) && s[i] - 48 == places[i] {
      PlaceOf(s, places, i);
    }
    hide Written, Places, Zeros, ValueOf, ReadFrom, H.Digits;
    if rest != [] {
      DecimalsAreDigits(rest[0]);
    }
    DecimalsAreDigits(s[0]);
    DigitsOfNumeral(s, places, rest, 0);
    ReadFromNothing(places);
    ZerosAhead(k, Places(n, Ten), Ten);
    PlacesValue(n, Ten);
  }

  /** The number read from a text is the one it announces, in 32 bits; a sign may come first. */
  lemma AtoiOfNumeral(ws: Bytes, s: Bytes, rest: Bytes, n: nat)
    requires AllWhite(ws) && Numeral(s, n, Ten) && (rest == [] || rest[0] !in DECIMALS)
    ensures n < 0x1_0000_0000 ==> H.Atoi(ws + (s + rest)) == n && H.Atoi(ws + ([43] + (s + rest))) == n
    ensures 0 < n < 0x1_0000_0000 ==> H.Atoi(ws + ([45] + (s + rest))) == 0x1_0000_0000 - n
  {
    hide Numeral, H.Digits, H.SkipSpace;
    NumeralDigits(s, n, rest);
    DecimalsAreDigits(s[0]);
    assert (s + rest)[0] == s[0];
    SkipWhite(ws, s + rest);
    SkipWhite(ws, [43] + (s + rest));
    SkipWhite(ws, [45] + (s + rest));
    assert ([43] + (s + rest))[1..] == s + rest && ([45] + (s + rest))[1..] == s + rest;
  }

  lemma AnnouncedIsRead(value: Bytes, n: nat)
    requires Announces(value, n) && n < 0x1_0000_0000
    ensures H.Atoi(value) == n
  {
    var ws: Bytes, s: Bytes, rest: Bytes :| Parted(value, ws, s, rest, n);
    AtoiOfNumeral(ws, s, rest, n);
    assert value == ws + (s + rest);
  }

  /** Some field announces a length or the chunked coding, by the names the standard gives them. */
  ghost predicate NamesLength(fs: seq<H.Field>) {
    exists i :: 0 <= i < |fs| && Spells(fs[i].name, Ascii("content-length"))
  }

  ghost predicate NamesChunked(fs: seq<H.Field>) {
    exists i :: 0 <= i < |fs| && Spells(fs[i].name, Ascii("transfer-encoding")) && Spells(fs[i].value, Ascii("chunked"))
  }

  /** The fields announce the length n, and no coding. */
  ghost predicate FieldsAnnounce(fs: seq<H.Field>, n: nat) {
    && NamesLength(fs) && !NamesChunked(fs)
    && forall i :: 0 <= i < |fs| && Spells(fs[i].name, Ascii("content-length")) ==> Announces(fs[i].value, n)
  }

  lemma NamedFields(fs: seq<H.Field>)
    ensures H.AnyLength(fs) <==> NamesLength(fs)
    ensures H.AnyChunked(fs) <==> NamesChunked(fs)
    ensures forall i :: 0 <= i < |fs| ==> (H.IsLengthField(fs[i]) <==> Spells(fs[i].name, Ascii("content-length")))
  {
    hide H.IsLengthField, H.IsChunkedField, Spells;
    forall i | 0 <= i < |fs|
      ensures H.IsLengthField(fs[i]) <==> Spells(fs[i].name, Ascii("content-length"))
      ensures H.IsChunkedField(fs[i]) <==>
        Spells(fs[i].name, Ascii("transfer-encoding")) && Spells(fs[i].value, Ascii("chunked"))
    {
      NamesAreTheStandards([], fs[i]);
    }
  }

  /** How a message frames its body, by the names and numerals in its header. */
  lemma FramedAsNamed(stream: H.StreamType, m: H.Message, n: nat)
    ensures stream == H.Response && m.line2 == Ascii("304") ==> H.BodyOf(stream, m) == H.NoBody
    ensures !(stream == H.Response && m.line2 == Ascii("304")) ==>
      && (NamesChunked(m.fields) ==> H.BodyOf(stream, m) == H.Chunked)
      && (FieldsAnnounce(m.fields, n) && n < 0x1_0000_0000 ==> H.BodyOf(stream, m) == H.Length(n))
      && (!NamesChunked(m.fields) && !NamesLength(m.fields) ==>
            H.BodyOf(stream, m) == if stream == H.Request then H.NoBody else H.UntilClose)
  {
    NamedFields(m.fields);
    NamesAreTheStandards([], H.Field([], []));
    hide NamesChunked, NamesLength, Spells, Announces, H.AnyLength, H.AnyChunked, H.IsLengthField, H.Atoi;
    if FieldsAnnounce(m.fields, n) && n < 0x1_0000_0000 {
      LastIsOneOfThem(m.fields);
      var i :| 0 <= i < |m.fields| && H.IsLengthField(m.fields[i]) && m.fields[i].value == H.LastLength(m.fields);
      AnnouncedIsRead(m.fields[i].value, n);
    }
  }

  /** A header that announces n bytes, followed by n bytes, is one message: it leads to the start of
      the next one and comes out printed, with exactly those bytes after it. */
  lemma RelayAnnounced(r: H.Rules, head: Bytes, m: H.Message, bytes: Bytes)
    requires HeadSays(r, head, m) && !(r.stream == H.Response && m.line2 == Ascii("304"))
    requires FieldsAnnounce(m.fields, |bytes|) && |bytes| < 0x1_0000_0000
    ensures WellFramed(r, Item(head, m, Counted(bytes)))
    ensures After(r, START, head + bytes) == START && Output(r, START, head + bytes) == H.Print(m) + bytes
  {
    hide After, Output, HeadSays, FieldsAnnounce, H.BodyOf, H.Print;
    FramedAsNamed(r.stream, m, |bytes|);
    RelayItem(r, Item(head, m, Counted(bytes)));
  }

  /** One byte more or less is not such a message. */
  lemma OnlyAnnouncedFits(r: H.Rules, head: Bytes, m: H.Message, bytes: Bytes, n: nat)
    requires !(r.stream == H.Response && m.line2 == Ascii("304"))
    requires FieldsAnnounce(m.fields, n) && n < 0x1_0000_0000 && HeadSays(r, head, m)
    ensures WellFramed(r, Item(head, m, Counted(bytes))) <==> |bytes| == n
  {
    hide HeadSays, FieldsAnnounce, H.BodyOf;
    FramedAsNamed(r.stream, m, n);
  }
}
