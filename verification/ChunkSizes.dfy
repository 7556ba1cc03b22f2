/** The chunk sizes a body may name, told by the numerals that name them. */
module ChunkSizes {
  import opened Octets
  import opened Numerals
  import opened Buffers
  import opened Scanners
  import opened ChunkGrammar
  import opened ChunkedBodies

  /** A chunk is well formed if and only if its size line is a numeral of the number of its data
      bytes, of at most eight digits in either case, or is empty for an empty chunk. */
  lemma WellFormedIff(c: Chunk)
    ensures WellFormed(c) <==>
      && |c.numeral| <= 8 && c.spaces <= 256
      && (Numeral(c.numeral, |c.data|, Sixteen) || (c.numeral == [] && c.data == []))
  {
    if c.numeral != [] {
      HexValueIff(c.numeral, |c.data|);
    }
  }

  /** Any numeral of n, spelled in at most eight digits of either case, takes the reader through the
      size line to the place where exactly n bytes of data follow. */
  lemma SizeTextIsRead(s: Bytes, n: nat, spaces: nat, data: Bytes)
    requires Numeral(s, n, Sixteen) && |s| <= 8 && spaces <= 256 && |data| == n
    ensures After(START, s + Spaces(spaces) + [CR]) == SizeLf(n)
    ensures After(START, s + Spaces(spaces) + [CR, LF]) == if n == 0 then TrailerCr(0) else Data(n, 0)
    ensures After(START, s + Spaces(spaces) + [CR, LF] + data) == TrailerCr(n)
  {
    var line := s + Spaces(spaces);
    ReadSizePart(s, n, spaces);
    hide After, Numeral;
    if n > 0 {
      ReadOn(line + [CR, LF], data);
      ReadData(n, 0, data);
    } else {
      assert line + [CR, LF] + data == line + [CR, LF];
    }
  }

  lemma ReadSizePart(s: Bytes, n: nat, spaces: nat)
    requires Numeral(s, n, Sixteen) && |s| <= 8 && spaces <= 256
    ensures After(START, s + Spaces(spaces) + [CR]) == SizeLf(n)
    ensures After(START, s + Spaces(spaces) + [CR, LF]) == if n == 0 then TrailerCr(0) else Data(n, 0)
  {
    HexValueIff(s, n);
    hide Numeral, HexValue, Spaces, Next, SizeStep;
    var line := s + Spaces(spaces);
    ReadNumeral(s);
    ReadSpaces(n, |s|, spaces);
    READER.ReadInPieces(START, s, Spaces(spaces));
    SizeEnds(line, n, |s|, spaces);
  }

  lemma SizeEnds(line: Bytes, n: nat, digits: nat, spaces: nat)
    requires After(START, line) == Size(n, digits, spaces)
    ensures After(START, line + [CR]) == SizeLf(n)
    ensures After(START, line + [CR, LF]) == if n == 0 then TrailerCr(0) else Data(n, 0)
  {
    READER.ReadMore(START, line, CR);
    READER.ReadMore(START, line + [CR], LF);
    assert line + [CR, LF] == line + [CR] + [LF];
  }

  lemma ReadOn(line: Bytes, data: Bytes)
    ensures After(START, line + data) == After(After(START, line), data)
  {
    READER.ReadInPieces(START, line, data);
  }

  /** So does the scanner, which stops right after the carriage return with the size n. */
  method ScanSizeText(parser: ChunkedBodyParser, buf: ReadWriteBuffer, ghost text: Bytes, ghost n: nat, ghost spaces: nat)
    returns (s: Status)
    requires buf.Valid() && parser.size == parser.sizeLength == parser.spaces == 0
    requires Numeral(text, n, Sixteen) && |text| <= 8 && spaces <= 256
    requires text + Spaces(spaces) + [CR] <= buf.Unread()
    modifies parser`size, parser`sizeLength, parser`spaces, buf`processPos
    ensures s == Complete && parser.size == n
    ensures buf.processPos == old(buf.processPos) + |text| + spaces + 1
  {
    hide After;
    ghost var k, line := buf.processPos, text + Spaces(spaces);
    ghost var c := k + |line|;
    assert buf.Unread()[..|line| + 1] == line + [CR];
    assert buf.data[k..c + 1] == line + [CR];
    assert buf.data[c] == (line + [CR])[|line|];
    SizeLineHasNoCr(text, n, spaces);
    assert forall i :: k <= i < c ==> buf.data[i] == (line + [CR])[i - k];
    SizeTextIsRead(text, n, spaces, seq(n, _ => 0));
    s := parser.ScanSize(buf);
    if s != Complete && buf.processPos <= c && buf.processPos < |buf.data| {
      NotRefusedInside(buf.data, k, buf.processPos + 1, c + 1);
    }
  }

  lemma SizeLineHasNoCr(text: Bytes, n: nat, spaces: nat)
    requires Numeral(text, n, Sixteen)
    ensures CR !in text + Spaces(spaces)
  {
    if text != [] {
      HexValueIff(text, n);
    }
  }

  /** Nothing that is read to a good end was refused on the way. */
  lemma NotRefusedInside(d: Bytes, k: nat, m: nat, n: nat)
    requires k <= m <= n <= |d| && After(START, d[k..n]) != Bad
    ensures After(START, d[k..m]) != Bad
  {
    ReadSlices(START, d, k, m, n);
    BadStaysBad(d[m..n]);
  }
}
