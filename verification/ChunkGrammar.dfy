/** What a chunked body means: a byte-at-a-time reference reader that re-encodes as it goes, and
    the grammar of bodies it accepts (section 3.6.1 of RFC 2616, as this proxy reads it). */
module ChunkGrammar {
  import opened Octets
  import opened Transducers

  /** How far into a chunked body the bytes read so far reach. */
  datatype Phase =
    | Size(value: nat, digits: nat, spaces: nat)
    | SizeLf(value: nat)
    | Data(value: nat, got: nat)
    | TrailerCr(value: nat)
    | TrailerLf(value: nat)
    | Done
    | Bad

  const START: Phase := Size(0, 0, 0)
  const MAX_SPACES: nat := 256

  function SizeStep(value: nat, digits: nat, spaces: nat, b: byte): (p: Phase)
  {
    if IsHex(b) && spaces == 0 then
      if digits >= CHUNK_SIZE_LENGTH then Bad else Size(16 * value + HexDigitValue(b), digits + 1, 0)
    else if b == SP && spaces < MAX_SPACES then Size(value, digits, spaces + 1)
    else if b == CR then SizeLf(value)
    else Bad
  }

  function AfterSize(value: nat): (p: Phase) {
    if value > 0 then Data(value, 0) else TrailerCr(0)
  }

  function AfterTrailer(value: nat): (p: Phase) {
    if value == 0 then Done else START
  }

  function AfterData(value: nat, got: nat): (p: Phase) {
    if got >= value then TrailerCr(value) else Data(value, got)
  }

  function SizeLine(value: nat): (s: Bytes)
    ensures |s| > |ENDLINE|
  {
    Hex(value) + ENDLINE
  }

  function Next(p: Phase, b: byte): (q: Phase) {
    match p
    case Size(v, d, sp) => SizeStep(v, d, sp, b)
    case SizeLf(v) => if b == LF then AfterSize(v) else Bad
    case Data(v, got) => AfterData(v, got + 1)
    case TrailerCr(v) => if b == CR then TrailerLf(v) else Bad
    case TrailerLf(v) => if b == LF then AfterTrailer(v) else Bad
    case Done => Bad
    case Bad => Bad
  }

  /** What reading b in phase p adds to the re-encoded body. */
  function Emit(p: Phase, b: byte): (out: Bytes) {
    match p
    case SizeLf(v) => if b == LF then SizeLine(v) else []
    case Data(_, _) => [b]
    case TrailerLf(_) => if b == LF then ENDLINE else []
    case _ => []
  }

  const READER: Machine<Phase> := Machine(Next, Emit)

  function After(p: Phase, s: Bytes): (q: Phase) {
    READER.After(p, s)
  }

  function Output(p: Phase, s: Bytes): (out: Bytes) {
    READER.Output(p, s)
  }

  /** Reading is independent of how the bytes are cut. */
  lemma ReadSlices(p: Phase, d: Bytes, k: nat, m: nat, n: nat)
    requires k <= m <= n <= |d|
    ensures After(p, d[k..n]) == After(After(p, d[k..m]), d[m..n])
    ensures Output(p, d[k..n]) == Output(p, d[k..m]) + Output(After(p, d[k..m]), d[m..n])
  {
    READER.ReadSlices(p, d, k, m, n);
  }

  /** Reading on through bytes that emit nothing. */
  lemma ReadSilent(p: Phase, d: Bytes, k: nat, m: nat, n: nat)
    requires k <= m <= n <= |d|
    requires Output(After(p, d[k..m]), d[m..n]) == []
    ensures After(p, d[k..n]) == After(After(p, d[k..m]), d[m..n])
    ensures Output(p, d[k..n]) == Output(p, d[k..m])
    ensures n < |d| ==> After(p, d[k..n + 1]) == After(After(p, d[k..m]), d[m..n + 1])
  {
    ReadSlices(p, d, k, m, n);
    if n < |d| {
      ReadSlices(p, d, k, m, n + 1);
    }
  }

  lemma ReadNext(p: Phase, d: Bytes, k: nat, m: nat)
    requires k <= m < |d|
    ensures After(p, d[k..m + 1]) == Next(After(p, d[k..m]), d[m])
    ensures Output(p, d[k..m + 1]) == Output(p, d[k..m]) + Emit(After(p, d[k..m]), d[m])
  {
    READER.ReadNext(p, d, k, m);
  }

  /** Once rejected, always rejected: no continuation repairs a bad body. */
  lemma {:induction false} BadStaysBad(s: Bytes)
    ensures After(Bad, s) == Bad && Output(Bad, s) == []
  {
    if s != [] {
      BadStaysBad(s[..|s| - 1]);
    }
  }

  /** A body ends at one byte only: nothing may be read past it. */
  lemma NothingAfterDone(s: Bytes)
    requires s != []
    ensures After(Done, s) == Bad
  {
    READER.ReadOne(Done, s[0]);
    READER.ReadInPieces(Done, [s[0]], s[1..]);
    BadStaysBad(s[1..]);
    assert s == [s[0]] + s[1..];
  }

  // ------------------------------------------------------------------ the grammar

  /** One chunk as it may appear on the wire: a numeral with any leading zeros and either case,
      trailing spaces, and the bytes it counts. */
  datatype Chunk = Chunk(numeral: Bytes, spaces: nat, data: Bytes)

  ghost predicate AllHex(s: Bytes) {
    forall i :: 0 <= i < |s| ==> IsHex(s[i])
  }

  ghost predicate WellFormed(c: Chunk) {
    && AllHex(c.numeral)
    && |c.numeral| <= CHUNK_SIZE_LENGTH
    && c.spaces <= MAX_SPACES
    && |c.data| == HexValue(c.numeral)
  }

  /** A body: chunks that carry data, then one that carries none. */
  ghost predicate ValidBody(cs: seq<Chunk>, last: Chunk) {
    && (forall i :: 0 <= i < |cs| ==> WellFormed(cs[i]) && cs[i].data != [])
    && WellFormed(last) && last.data == []
  }

  function Spaces(n: nat): (s: Bytes)
    ensures |s| == n
  {
    seq(n, i => SP)
  }

  function Encode(c: Chunk): (s: Bytes) {
    c.numeral + Spaces(c.spaces) + ENDLINE + c.data + ENDLINE
  }

  function EncodeAll(cs: seq<Chunk>): (s: Bytes) {
    if cs == [] then [] else EncodeAll(cs[..|cs| - 1]) + Encode(cs[|cs| - 1])
  }

  function EncodeBody(cs: seq<Chunk>, last: Chunk): (s: Bytes) {
    EncodeAll(cs) + Encode(last)
  }

  /** The same chunk with its size in minimal upper-case hexadecimal and no spaces. */
  function Canonical(c: Chunk): (k: Chunk) {
    Chunk(Hex(|c.data|), 0, c.data)
  }

  function CanonicalAll(cs: seq<Chunk>): (ks: seq<Chunk>) {
    seq(|cs|, i requires 0 <= i < |cs| => Canonical(cs[i]))
  }

  // ------------------------------------------------------------------ reading one chunk

  lemma {:induction false} ReadNumeral(s: Bytes)
    requires AllHex(s) && |s| <= CHUNK_SIZE_LENGTH
    ensures After(START, s) == Size(HexValue(s), |s|, 0) && Output(START, s) == []
  {
    if s != [] {
      ReadNumeral(s[..|s| - 1]);
    }
  }

  lemma ReadNone(p: Phase, d: Bytes, k: nat)
    requires k <= |d|
    ensures After(p, d[k..k]) == p && Output(p, d[k..k]) == []
  {
  }

  lemma ReadSizeByte(p: Phase, d: Bytes, k: nat, m: nat, value: nat, digits: nat, spaces: nat)
    requires k <= m < |d|
    requires After(p, d[k..m]) == Size(value, digits, spaces)
    ensures After(p, d[k..m + 1]) == SizeStep(value, digits, spaces, d[m])
    ensures Output(p, d[k..m + 1]) == Output(p, d[k..m])
  {
    READER.ReadNext(p, d, k, m);
  }

  lemma ReadSizeLf(p: Phase, t: Bytes, d: Bytes, k: nat, m: nat, v: nat)
    requires k <= m < |d| && After(p, d[k..m]) == SizeLf(v)
    ensures After(p, d[k..m + 1]) == if d[m] == LF then AfterSize(v) else Bad
    ensures d[m] == LF ==> t + Output(p, d[k..m + 1]) == t + Output(p, d[k..m]) + SizeLine(v)
  {
    ReadNext(p, d, k, m);
    Assoc(t, Output(p, d[k..m]), SizeLine(v));
  }

  lemma ReadTrailerCr(p: Phase, d: Bytes, k: nat, m: nat, v: nat)
    requires k <= m < |d| && After(p, d[k..m]) == TrailerCr(v)
    ensures After(p, d[k..m + 1]) == if d[m] == CR then TrailerLf(v) else Bad
    ensures Output(p, d[k..m + 1]) == Output(p, d[k..m])
  {
    ReadNext(p, d, k, m);
  }

  lemma ReadTrailerLf(p: Phase, t: Bytes, d: Bytes, k: nat, m: nat, v: nat)
    requires k <= m < |d| && After(p, d[k..m]) == TrailerLf(v)
    ensures After(p, d[k..m + 1]) == if d[m] == LF then AfterTrailer(v) else Bad
    ensures d[m] == LF ==> t + Output(p, d[k..m + 1]) == t + Output(p, d[k..m]) + ENDLINE
  {
    ReadNext(p, d, k, m);
    Assoc(t, Output(p, d[k..m]), ENDLINE);
  }

  lemma ReadDataRun(p: Phase, t: Bytes, d: Bytes, k: nat, m: nat, n: nat, v: nat, got: nat)
    requires k <= m <= n <= |d| && After(p, d[k..m]) == Data(v, got)
    requires got < v && got + (n - m) <= v
    ensures After(p, d[k..n]) == if got + (n - m) == v then TrailerCr(v) else Data(v, got + (n - m))
    ensures t + Output(p, d[k..n]) == t + Output(p, d[k..m]) + d[m..n]
  {
    ReadSlices(p, d, k, m, n);
    ReadData(v, got, d[m..n]);
    Assoc(t, Output(p, d[k..m]), d[m..n]);
  }

  lemma {:induction false} ReadSpaces(v: nat, d: nat, n: nat)
    requires n <= MAX_SPACES
    ensures After(Size(v, d, 0), Spaces(n)) == Size(v, d, n) && Output(Size(v, d, 0), Spaces(n)) == []
  {
    if n != 0 {
      ReadSpaces(v, d, n - 1);
      assert Spaces(n)[..n - 1] == Spaces(n - 1);
    }
  }

  lemma {:induction false} ReadData(v: nat, got: nat, s: Bytes)
    requires got < v && got + |s| <= v
    ensures After(Data(v, got), s) == if got + |s| == v then TrailerCr(v) else Data(v, got + |s|)
    ensures Output(Data(v, got), s) == s
  {
    if s != [] {
      ReadData(v, got, s[..|s| - 1]);
      assert s == s[..|s| - 1] + [s[|s| - 1]];
    }
  }

  lemma ReadEndline(p: Phase)
    ensures After(p, ENDLINE) == Next(Next(p, CR), LF)
    ensures Output(p, ENDLINE) == Emit(p, CR) + Emit(Next(p, CR), LF)
  {
    READER.ReadOne(p, CR);
    READER.ReadOne(Next(p, CR), LF);
    READER.ReadInPieces(p, [CR], [LF]);
    assert ENDLINE == [CR] + [LF];
  }

  lemma ReadSizeLine(c: Chunk)
    requires WellFormed(c)
    ensures var line := c.numeral + Spaces(c.spaces) + ENDLINE;
            After(START, line) == AfterSize(|c.data|) && Output(START, line) == SizeLine(|c.data|)
  {
    var v := HexValue(c.numeral);
    ReadNumeral(c.numeral);
    ReadSpaces(v, |c.numeral|, c.spaces);
    READER.ReadInPieces(START, c.numeral, Spaces(c.spaces));
    ReadEndline(Size(v, |c.numeral|, c.spaces));
    READER.ReadInPieces(START, c.numeral + Spaces(c.spaces), ENDLINE);
  }

  /** Reading any well-formed chunk emits its canonical encoding. */
  lemma ReadChunk(c: Chunk)
    requires WellFormed(c)
    ensures After(START, Encode(c)) == AfterTrailer(|c.data|)
    ensures Output(START, Encode(c)) == Encode(Canonical(c))
  {
    var line := c.numeral + Spaces(c.spaces) + ENDLINE;
    var n := |c.data|;
    assert After(START, line + c.data) == TrailerCr(n) && Output(START, line + c.data) == SizeLine(n) + c.data by {
      ReadSizeLine(c);
      READER.ReadInPieces(START, line, c.data);
      if n > 0 {
        ReadData(n, 0, c.data);
      }
    }
    ReadEndline(TrailerCr(n));
    READER.ReadInPieces(START, line + c.data, ENDLINE);
    assert Output(TrailerCr(n), ENDLINE) == ENDLINE;
    assert Hex(n) + Spaces(0) == Hex(n);
  }

  lemma {:induction false} ReadChunks(cs: seq<Chunk>)
    requires forall i :: 0 <= i < |cs| ==> WellFormed(cs[i]) && cs[i].data != []
    ensures After(START, EncodeAll(cs)) == START
    ensures Output(START, EncodeAll(cs)) == EncodeAll(CanonicalAll(cs))
  {
    if cs != [] {
      var front, c := cs[..|cs| - 1], cs[|cs| - 1];
      ReadChunks(front);
      ReadChunk(c);
      READER.ReadInPieces(START, EncodeAll(front), Encode(c));
      assert CanonicalAll(cs)[..|cs| - 1] == CanonicalAll(front);
    }
  }

  /** Every valid body is accepted at exactly its last byte and re-encoded canonically. */
  lemma RelayIsCanonical(cs: seq<Chunk>, last: Chunk)
    requires ValidBody(cs, last)
    ensures After(START, EncodeBody(cs, last)) == Done
    ensures Output(START, EncodeBody(cs, last)) == EncodeBody(CanonicalAll(cs), Canonical(last))
  {
    ReadChunks(cs);
    ReadChunk(last);
    READER.ReadInPieces(START, EncodeAll(cs), Encode(last));
  }

  // ------------------------------------------------------------------ nothing else is accepted

  /** The part of a chunk read so far. */
  datatype Partial = Partial(numeral: Bytes, spaces: nat, data: Bytes)

  function Line(c: Partial): (s: Bytes) {
    c.numeral + Spaces(c.spaces)
  }

  ghost predicate Progress(c: Partial, value: nat) {
    && AllHex(c.numeral) && |c.numeral| <= CHUNK_SIZE_LENGTH && c.spaces <= MAX_SPACES
    && HexValue(c.numeral) == value
  }

  /** The bytes of the chunk in progress that a phase has behind it, if the phase fits them. */
  ghost predicate Explains(p: Phase, c: Partial, s: Bytes) {
    match p
    case Size(v, d, sp) => Progress(c, v) && |c.numeral| == d && c.spaces == sp && c.data == [] && s == Line(c)
    case SizeLf(v) => Progress(c, v) && c.data == [] && s == Line(c) + [CR]
    case Data(v, got) => Progress(c, v) && |c.data| == got < v && s == Line(c) + ENDLINE + c.data
    case TrailerCr(v) => Progress(c, v) && |c.data| == v && s == Line(c) + ENDLINE + c.data
    case TrailerLf(v) => Progress(c, v) && |c.data| == v && s == Line(c) + ENDLINE + c.data + [CR]
    case Done => Progress(c, 0) && c.data == [] && s == Line(c) + ENDLINE + ENDLINE
    case Bad => true
  }

  ghost predicate AllCarryData(cs: seq<Chunk>) {
    forall i :: 0 <= i < |cs| ==> WellFormed(cs[i]) && cs[i].data != []
  }

  /** One more byte keeps the explanation, possibly by finishing a chunk. */
  lemma ExplainStep(p: Phase, c: Partial, s: Bytes, b: byte) returns (c': Partial, closed: bool)
    requires Explains(p, c, s)
    ensures closed ==> WellFormed(Chunk(c.numeral, c.spaces, c.data)) && c.data != []
    ensures closed ==> Encode(Chunk(c.numeral, c.spaces, c.data)) == s + [b]
    ensures Explains(Next(p, b), c', if closed then [] else s + [b])
  {
    closed, c' := false, c;
    match p {
      case Size(v, d, sp) =>
        if IsHex(b) && sp == 0 {
          c' := c.(numeral := c.numeral + [b]);
          assert c'.numeral[..|c.numeral|] == c.numeral;
          assert Spaces(0) == [];
          assert s + [b] == Line(c');
        } else if b == SP && sp < MAX_SPACES {
          c' := c.(spaces := sp + 1);
          assert Spaces(sp + 1) == Spaces(sp) + [SP];
          assert s + [b] == Line(c');
        }
      case SizeLf(v) =>
        assert b == LF ==> s + [b] == Line(c) + ENDLINE + [];
      case Data(v, got) =>
        c' := c.(data := c.data + [b]);
        assert s + [b] == Line(c') + ENDLINE + c'.data;
      case TrailerCr(v) =>
      case TrailerLf(v) =>
        if b == LF {
          assert s + [b] == Line(c) + ENDLINE + c.data + ENDLINE;
          if v > 0 {
            closed, c' := true, Partial([], 0, []);
            assert Line(c') == [];
          }
        }
      case Done =>
      case Bad =>
    }
  }

  lemma {:induction false} Explain(s: Bytes) returns (cs: seq<Chunk>, c: Partial, rest: Bytes)
    ensures After(START, s) != Bad ==> AllCarryData(cs) && s == EncodeAll(cs) + rest
    ensures Explains(After(START, s), c, rest)
  {
    if s == [] {
      cs, c, rest := [], Partial([], 0, []), [];
      assert Line(c) == [];
    } else {
      var front, b := s[..|s| - 1], s[|s| - 1];
      cs, c, rest := Explain(front);
      var p := After(START, front);
      var c', closed := ExplainStep(p, c, rest, b);
      assert s == front + [b];
      hide After, Explains, Encode;
      if closed {
        var chunk := Chunk(c.numeral, c.spaces, c.data);
        assert (cs + [chunk])[..|cs|] == cs;
        cs, rest := cs + [chunk], [];
      } else {
        rest := rest + [b];
      }
      c := c';
    }
  }

  /** The converse: whatever the reader accepts is the encoding of some valid body. */
  lemma AcceptedIsValid(s: Bytes) returns (cs: seq<Chunk>, last: Chunk)
    requires After(START, s) == Done
    ensures ValidBody(cs, last) && s == EncodeBody(cs, last)
  {
    var c: Partial, rest: Bytes;
    cs, c, rest := Explain(s);
    last := Chunk(c.numeral, c.spaces, []);
    assert rest == Encode(last);
  }

  // ------------------------------------------------------------------ consequences

  lemma CanonicalIsValid(cs: seq<Chunk>, last: Chunk)
    requires ValidBody(cs, last)
    ensures ValidBody(CanonicalAll(cs), Canonical(last))
  {
    forall c: Chunk | WellFormed(c)
      ensures WellFormed(Canonical(c))
    {
      NumeralBound(c.numeral, CHUNK_SIZE_LENGTH);
      HexLength(|c.data|, CHUNK_SIZE_LENGTH);
    }
  }

  lemma {:induction false} NumeralBound(s: Bytes, k: nat)
    requires AllHex(s) && |s| <= k
    ensures HexValue(s) < Pow16(k)
  {
    if s != [] {
      NumeralBound(s[..|s| - 1], k - 1);
    } else if k > 0 {
      NumeralBound(s, k - 1);
    }
  }

  /** Relaying a relayed body changes nothing: the canonical form is a fixed point. */
  lemma RelayIsIdempotent(s: Bytes)
    requires After(START, s) == Done
    ensures After(START, Output(START, s)) == Done
    ensures Output(START, Output(START, s)) == Output(START, s)
  {
    var cs, last := AcceptedIsValid(s);
    RelayIsCanonical(cs, last);
    CanonicalIsValid(cs, last);
    RelayIsCanonical(CanonicalAll(cs), Canonical(last));
    assert CanonicalAll(CanonicalAll(cs)) == CanonicalAll(cs);
  }

  /** The size was named by at most eight digits. */
  ghost predicate SizeInRange(p: Phase) {
    match p
    case Size(v, d, _) => d <= CHUNK_SIZE_LENGTH && v < Pow16(d)
    case SizeLf(v) => v < Pow16(CHUNK_SIZE_LENGTH)
    case Data(v, _) => v < Pow16(CHUNK_SIZE_LENGTH)
    case TrailerCr(v) => v < Pow16(CHUNK_SIZE_LENGTH)
    case TrailerLf(v) => v < Pow16(CHUNK_SIZE_LENGTH)
    case Done => true
    case Bad => true
  }

  lemma {:induction false} Pow16Monotone(a: nat, b: nat)
    requires a <= b
    ensures Pow16(a) <= Pow16(b)
  {
    if a < b {
      Pow16Monotone(a, b - 1);
    }
  }

  lemma SizeFits(size: nat, digits: nat)
    requires digits <= CHUNK_SIZE_LENGTH && size < Pow16(digits)
    ensures size < Pow16(CHUNK_SIZE_LENGTH)
  {
    Pow16Monotone(digits, CHUNK_SIZE_LENGTH);
  }

  /** The chunk size a phase carries. */
  function SizeOf(p: Phase): (v: nat) {
    match p
    case Size(v, _, _) => v
    case SizeLf(v) => v
    case Data(v, _) => v
    case TrailerCr(v) => v
    case TrailerLf(v) => v
    case Done => 0
    case Bad => 0
  }

  lemma SizeIn32Bits(p: Phase)
    requires SizeInRange(p)
    ensures SizeOf(p) < 0x1_0000_0000
  {
    Pow16Of8();
    if p.Size? {
      Pow16Monotone(p.digits, CHUNK_SIZE_LENGTH);
    }
  }

  /** A size is named by at most eight digits, so whatever is read it never leaves 32 bits. */
  lemma SizeStaysInRange(p: Phase, s: Bytes)
    requires SizeInRange(p)
    ensures SizeInRange(After(p, s)) && SizeOf(After(p, s)) < 0x1_0000_0000
  {
    SizeKeepsRange(p, s);
    SizeIn32Bits(After(p, s));
  }

  lemma {:induction false} SizeKeepsRange(p: Phase, s: Bytes)
    requires SizeInRange(p)
    ensures SizeInRange(After(p, s))
  {
    if s != [] {
      SizeKeepsRange(p, s[..|s| - 1]);
      var q := After(p, s[..|s| - 1]);
      if q.Size? {
        Pow16Monotone(q.digits, CHUNK_SIZE_LENGTH);
        assert Pow16(q.digits + 1) == 16 * Pow16(q.digits);
      }
    }
  }
}
