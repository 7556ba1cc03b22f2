/** What a message header means: a byte-at-a-time reference reader, the printer, and how the
    header decides the framing of the body. */
module HeaderGrammar {
  import opened Octets
  import opened Transducers

  datatype Field = Field(name: Bytes, value: Bytes)
  datatype Message = Message(line1: Bytes, line2: Bytes, line3: Bytes, fields: seq<Field>)

  datatype StreamType = Request | Response

  /** The kind of stream and the capacities of the buffers its headers are stored in. */
  datatype Rules = Rules(
    stream: StreamType,
    maxLine1: nat, maxLine2: nat, maxLine3: nat,
    maxFields: nat, maxName: nat, maxValue: nat)

  /** No token may reach this length, whatever the capacities. */
  const MAX_FIELD_LENGTH: nat := 512

  // ------------------------------------------------------------------ comparing text

  function ToLower(b: byte): (l: byte) {
    if 65 <= b <= 90 then b - 65 + 97 else b
  }

  function Lower(s: Bytes): (l: Bytes)
    ensures |l| == |s|
  {
    seq(|s|, i requires 0 <= i < |s| => ToLower(s[i]))
  }

  predicate EqualNoCase(a: Bytes, b: Bytes) {
    Lower(a) == Lower(b)
  }

  const GET: Bytes := [71, 69, 84]
  const POST: Bytes := [80, 79, 83, 84]
  const HEAD: Bytes := [72, 69, 65, 68]
  const METHODS: seq<Bytes> := [GET, POST, HEAD]

  const HTTP_1_1: Bytes := [72, 84, 84, 80, 47, 49, 46, 49]
  const NOT_MODIFIED: Bytes := [51, 48, 52]
  const HOST: Bytes := [104, 111, 115, 116]
  const CONTENT_LENGTH: Bytes := [99, 111, 110, 116, 101, 110, 116, 45, 108, 101, 110, 103, 116, 104]
  const TRANSFER_ENCODING: Bytes :=
    [116, 114, 97, 110, 115, 102, 101, 114, 45, 101, 110, 99, 111, 100, 105, 110, 103]
  const CHUNKED: Bytes := [99, 104, 117, 110, 107, 101, 100]

  predicate KnownMethod(s: Bytes) {
    EqualNoCase(s, GET) || EqualNoCase(s, POST) || EqualNoCase(s, HEAD)
  }

  /** Control characters; bytes above 127 count as such because the original compares them as
      signed characters. */
  predicate IsCtl(b: byte) {
    b <= 31 || b == DEL || b >= 128
  }

  // ------------------------------------------------------------------ body framing

  datatype BodyKind = NoBody | Chunked | Length(size: nat) | UntilClose

  predicate IsChunkedField(f: Field) {
    EqualNoCase(f.name, TRANSFER_ENCODING) && EqualNoCase(f.value, CHUNKED)
  }

  predicate IsLengthField(f: Field) {
    EqualNoCase(f.name, CONTENT_LENGTH)
  }

  predicate IsHostField(f: Field) {
    EqualNoCase(f.name, HOST)
  }

  /** The number `atoi` reads, as an unsigned 32-bit size: optional sign, then digits. */
  function Atoi(s: Bytes): (n: nat) {
    var t := SkipSpace(s);
    if t != [] && t[0] == 45 then (0x1_0000_0000 - Digits(t[1..], 0) % 0x1_0000_0000) % 0x1_0000_0000
    else if t != [] && t[0] == 43 then Digits(t[1..], 0) % 0x1_0000_0000
    else Digits(t, 0) % 0x1_0000_0000
  }

  function SkipSpace(s: Bytes): (t: Bytes) {
    if s != [] && (s[0] == SP || 9 <= s[0] <= 13) then SkipSpace(s[1..]) else s
  }

  function Digits(s: Bytes, acc: nat): (n: nat) {
    if s == [] || !IsDigit(s[0]) then acc else Digits(s[1..], 10 * acc + (s[0] - 48))
  }

  predicate AnyChunked(fs: seq<Field>) {
    exists i :: 0 <= i < |fs| && IsChunkedField(fs[i])
  }

  predicate AnyLength(fs: seq<Field>) {
    exists i :: 0 <= i < |fs| && IsLengthField(fs[i])
  }

  predicate AnyHost(fs: seq<Field>) {
    exists i :: 0 <= i < |fs| && IsHostField(fs[i])
  }

  /** The value of the last content-length field. */
  function LastLength(fs: seq<Field>): (v: Bytes)
    requires AnyLength(fs)
  {
    if IsLengthField(fs[|fs| - 1]) then fs[|fs| - 1].value else LastLength(fs[..|fs| - 1])
  }

  /** How section 4.4 of RFC 2616 frames the body, as far as this proxy follows it. */
  function BodyOf(stream: StreamType, m: Message): (k: BodyKind) {
    if stream == Response && m.line2 == NOT_MODIFIED then NoBody
    else if AnyChunked(m.fields) then Chunked
    else if AnyLength(m.fields) then Length(Atoi(LastLength(m.fields)))
    else if stream == Request then NoBody
    else UntilClose
  }

  /** An HTTP/1.1 request must name its host. */
  predicate Acceptable(stream: StreamType, m: Message) {
    stream == Request && EqualNoCase(m.line3, HTTP_1_1) ==> AnyHost(m.fields)
  }

  // ------------------------------------------------------------------ reading

  datatype Phase =
    | Token1(acc: Bytes)
    | Token2(line1: Bytes, acc: Bytes)
    | Token3(line1: Bytes, line2: Bytes, acc: Bytes)
    | StartLf(m: Message)
    | LineStart(m: Message)
    | EndLf(m: Message)
    | Name(m: Message, acc: Bytes)
    | LeadingSpace(m: Message, name: Bytes, skipped: nat)
    | Value(m: Message, name: Bytes, skipped: nat, acc: Bytes)
    | ValueLf(m: Message)
    | AfterLine(m: Message)
    | Done(m: Message)
    | Bad
    | Folded

  const START: Phase := Token1([])

  predicate InStartLine(p: Phase) {
    p.Token1? || p.Token2? || p.Token3? || p.StartLf?
  }

  /** One more byte of a token that has used `used` of the length limit. */
  predicate Grows(acc: Bytes, used: nat, capacity: nat, b: byte) {
    !IsCtl(b) && used + 1 < MAX_FIELD_LENGTH && |acc| + 1 <= capacity
  }

  function AddField(m: Message, name: Bytes, value: Bytes): (m': Message) {
    m.(fields := m.fields + [Field(name, value)])
  }

  function NameStep(r: Rules, m: Message, acc: Bytes, b: byte): (p: Phase) {
    if |m.fields| >= r.maxFields then Bad
    else if b == COLON then LeadingSpace(m, acc, 0)
    else if Grows(acc, |acc|, r.maxName, b) then Name(m, acc + [b])
    else Bad
  }

  function ValueStep(r: Rules, m: Message, name: Bytes, skipped: nat, acc: Bytes, b: byte): (p: Phase) {
    if b == CR then ValueLf(AddField(m, name, acc))
    else if Grows(acc, skipped + |acc|, r.maxValue, b) then Value(m, name, skipped, acc + [b])
    else Bad
  }

  function Next(r: Rules, p: Phase, b: byte): (q: Phase) {
    match p
    case Token1(acc) =>
      if b == SP then if r.stream == Request && !KnownMethod(acc) then Bad else Token2(acc, [])
      else if Grows(acc, |acc|, r.maxLine1, b) then Token1(acc + [b])
      else Bad
    case Token2(l1, acc) =>
      if b == SP then Token3(l1, acc, [])
      else if Grows(acc, |acc|, r.maxLine2, b) then Token2(l1, acc + [b])
      else Bad
    case Token3(l1, l2, acc) =>
      if b == CR then StartLf(Message(l1, l2, acc, []))
      else if Grows(acc, |acc|, r.maxLine3, b) then Token3(l1, l2, acc + [b])
      else Bad
    case StartLf(m) => if b == LF then LineStart(m) else Bad
    case LineStart(m) => if b == CR then EndLf(m) else NameStep(r, m, [], b)
    case EndLf(m) => if b == LF && Acceptable(r.stream, m) then Done(m) else Bad
    case Name(m, acc) => NameStep(r, m, acc, b)
    case LeadingSpace(m, name, skipped) =>
      if b == SP then if skipped + 1 < MAX_FIELD_LENGTH then LeadingSpace(m, name, skipped + 1) else Bad
      else ValueStep(r, m, name, skipped, [], b)
    case Value(m, name, skipped, acc) => ValueStep(r, m, name, skipped, acc, b)
    case ValueLf(m) => if b == LF then AfterLine(m) else Bad
    case AfterLine(m) =>
      if b == SP then Folded else if b == CR then EndLf(m) else NameStep(r, m, [], b)
    case Done(m) => Done(m)
    case Bad => Bad
    case Folded => Folded
  }

  function Reader(r: Rules): (reader: Machine<Phase>) {
    Machine((p, b) => Next(r, p, b), (p, b) => [])
  }

  function After(r: Rules, p: Phase, s: Bytes): (q: Phase) {
    Reader(r).After(p, s)
  }

  lemma ReadInPieces(r: Rules, p: Phase, a: Bytes, b: Bytes)
    ensures After(r, p, a + b) == After(r, After(r, p, a), b)
  {
    Reader(r).ReadInPieces(p, a, b);
  }

  lemma ReadSlices(r: Rules, p: Phase, d: Bytes, k: nat, m: nat, n: nat)
    requires k <= m <= n <= |d|
    ensures After(r, p, d[k..n]) == After(r, After(r, p, d[k..m]), d[m..n])
  {
    Reader(r).ReadSlices(p, d, k, m, n);
  }

  lemma ReadOne(r: Rules, p: Phase, b: byte)
    ensures After(r, p, [b]) == Next(r, p, b)
  {
    Reader(r).ReadOne(p, b);
  }

  lemma ReadNext(r: Rules, p: Phase, d: Bytes, k: nat, m: nat)
    requires k <= m < |d|
    ensures After(r, p, d[k..m + 1]) == Next(r, After(r, p, d[k..m]), d[m])
  {
    Reader(r).ReadNext(p, d, k, m);
  }

  lemma ReadNone(r: Rules, p: Phase, d: Bytes, k: nat)
    requires k <= |d|
    ensures After(r, p, d[k..k]) == p
  {
  }

  /** Accepted, rejected and folded headers stay so whatever follows. */
  lemma {:induction false} Absorbing(r: Rules, p: Phase, s: Bytes)
    requires p.Done? || p.Bad? || p.Folded?
    ensures After(r, p, s) == p
  {
    if s != [] {
      Absorbing(r, p, s[..|s| - 1]);
    }
  }

  /** A partial request token is let through when it is a proper prefix of a known method, or a
      known method is a proper prefix of it. */
  predicate PartialPasses(stream: StreamType, s: Bytes) {
    stream == Response ||
    exists j :: 0 <= j < |METHODS| && (Lower(s) < Lower(METHODS[j]) || Lower(METHODS[j]) < Lower(s))
  }

  lemma NothingPasses(stream: StreamType)
    ensures PartialPasses(stream, [])
  {
    assert Lower([]) < Lower(METHODS[0]);
  }

  // ------------------------------------------------------------------ start lines that are cut

  /** How far a start line has come; every byte of it counts for at least one. */
  function StartRank(p: Phase): (n: nat) {
    match p
    case Token1(acc) => |acc|
    case Token2(_, acc) => MAX_FIELD_LENGTH + |acc|
    case Token3(_, _, acc) => 2 * MAX_FIELD_LENGTH + |acc|
    case StartLf(_) => 3 * MAX_FIELD_LENGTH
    case _ => 0
  }

  /** In the start line, with a token that is not too long. */
  predicate ShortStart(p: Phase) {
    match p
    case Token1(acc) => |acc| < MAX_FIELD_LENGTH
    case Token2(_, acc) => |acc| < MAX_FIELD_LENGTH
    case Token3(_, _, acc) => |acc| < MAX_FIELD_LENGTH
    case StartLf(_) => true
    case _ => false
  }

  /** Bytes that leave a start line unfinished hold no line feed. */
  lemma {:induction false} UnfinishedHasNoLf(r: Rules, p: Phase, s: Bytes)
    requires InStartLine(After(r, p, s))
    ensures InStartLine(p) && LF !in s
  {
    if s != [] {
      var front, b := s[..|s| - 1], s[|s| - 1];
      assert s == front + [b];
      UnfinishedHasNoLf(r, p, front);
    }
  }

  /** Without a line feed a start line is never finished, wherever reading it begins. */
  lemma {:induction false} NoLfNoEnd(r: Rules, p: Phase, s: Bytes)
    requires ShortStart(p) && LF !in s
    ensures var q := After(r, p, s); q == Bad || (ShortStart(q) && StartRank(q) >= StartRank(p) + |s|)
  {
    if s != [] {
      NoLfNoEnd(r, p, s[..|s| - 1]);
    }
  }

  /** A start line cut by the end of a buffer, read again from its first byte in the phase it was
      left in: it is not finished by that either, and comes closer to being refused. */
  lemma CutIsNotFinished(r: Rules, p: Phase, u: Bytes)
    requires InStartLine(After(r, START, u)) && u != [] && ShortStart(p)
    ensures LF !in u
    ensures var q := After(r, p, u);
      q == Bad || (InStartLine(q) && ShortStart(q) && StartRank(p) < StartRank(q) <= 3 * MAX_FIELD_LENGTH)
  {
    UnfinishedHasNoLf(r, START, u);
    NoLfNoEnd(r, p, u);
  }

  /** The phase after reading the same bytes n times over. */
  function Again(r: Rules, p: Phase, u: Bytes, n: nat): (q: Phase) {
    if n == 0 then p else After(r, Again(r, p, u, n - 1), u)
  }

  /** Reading a cut start line over and over never finishes it, and refuses it in the end. */
  lemma {:induction false} CutIsFatal(r: Rules, u: Bytes, n: nat)
    requires InStartLine(After(r, START, u)) && u != []
    ensures var q := Again(r, START, u, n); q == Bad || (InStartLine(q) && ShortStart(q) && n <= StartRank(q))
    ensures n > 3 * MAX_FIELD_LENGTH ==> Again(r, START, u, n) == Bad
  {
    if n > 0 {
      CutIsFatal(r, u, n - 1);
      var p := Again(r, START, u, n - 1);
      if p == Bad {
        Absorbing(r, Bad, u);
      } else {
        CutIsNotFinished(r, p, u);
      }
    }
  }

  /** A method that has not come to its space is such a line. */
  lemma CutMethod(r: Rules)
    requires r.maxLine1 > 0
    ensures InStartLine(After(r, START, [71]))
  {
    ReadOne(r, START, 71);
  }

  // ------------------------------------------------------------------ runs of bytes

  /** Phases that collect the bytes of a token. */
  predicate Collecting(p: Phase) {
    p.Token1? || p.Token2? || p.Token3? || p.Name? || p.Value?
  }

  function Used(p: Phase): (n: nat)
    requires Collecting(p)
  {
    if p.Value? then p.skipped + |p.acc| else |p.acc|
  }

  function Capacity(r: Rules, p: Phase): (n: nat)
    requires Collecting(p)
  {
    match p
    case Token1(_) => r.maxLine1
    case Token2(_, _) => r.maxLine2
    case Token3(_, _, _) => r.maxLine3
    case Name(_, _) => r.maxName
    case Value(_, _, _, _) => r.maxValue
  }

  function Delimiter(p: Phase): (b: byte)
    requires Collecting(p)
  {
    match p
    case Token1(_) => SP
    case Token2(_, _) => SP
    case Token3(_, _, _) => CR
    case Name(_, _) => COLON
    case Value(_, _, _, _) => CR
  }

  /** Whether a token may begin at all: a field name needs a free field. */
  predicate Roomy(r: Rules, p: Phase)
    requires Collecting(p)
  {
    && Used(p) < MAX_FIELD_LENGTH
    && (p.Name? ==> |p.m.fields| < r.maxFields)
  }

  /** The phase p after collecting a run of token bytes. */
  function Collect(r: Rules, p: Phase, run: Bytes): (q: Phase)
    requires Collecting(p)
    ensures q == Bad || (Collecting(q) && q == p.(acc := p.acc + run))
    ensures q != Bad ==> Used(q) == Used(p) + |run| < MAX_FIELD_LENGTH && |q.acc| <= Capacity(r, q)
  {
    if Used(p) + |run| < MAX_FIELD_LENGTH && |p.acc| + |run| <= Capacity(r, p) then p.(acc := p.acc + run) else Bad
  }

  ghost predicate PlainRun(p: Phase, run: Bytes)
    requires Collecting(p)
  {
    forall i :: 0 <= i < |run| ==> run[i] != Delimiter(p) && !IsCtl(run[i])
  }

  /** A run of plain bytes is collected as far as the limits allow, and refused beyond them. */
  lemma {:induction false} ReadRun(r: Rules, p: Phase, run: Bytes)
    requires Collecting(p) && Roomy(r, p) && |p.acc| <= Capacity(r, p) && PlainRun(p, run)
    ensures After(r, p, run) == Collect(r, p, run)
  {
    if run == [] {
      assert p.acc + run == p.acc;
    } else {
      var front, b := run[..|run| - 1], run[|run| - 1];
      ReadRun(r, p, front);
      assert p.acc + run == (p.acc + front) + [b];
      assert run[|run| - 1] != Delimiter(p);
    }
  }

  /** A control character inside a token refuses the header. */
  lemma ReadControl(r: Rules, p: Phase, run: Bytes, b: byte)
    requires Collecting(p) && Roomy(r, p) && |p.acc| <= Capacity(r, p) && PlainRun(p, run)
    requires IsCtl(b) && b != Delimiter(p)
    ensures After(r, p, run + [b]) == Bad
  {
    ReadRun(r, p, run);
    Reader(r).ReadMore(p, run, b);
  }

  lemma ReadDelimited(r: Rules, p: Phase, run: Bytes)
    requires Collecting(p) && Roomy(r, p) && |p.acc| <= Capacity(r, p) && PlainRun(p, run)
    ensures After(r, p, run + [Delimiter(p)]) == Next(r, Collect(r, p, run), Delimiter(p))
  {
    ReadRun(r, p, run);
    Reader(r).ReadMore(p, run, Delimiter(p));
  }

  lemma {:induction false} ReadSpaces(r: Rules, m: Message, name: Bytes, skipped: nat, run: Bytes)
    requires skipped < MAX_FIELD_LENGTH && forall i :: 0 <= i < |run| ==> run[i] == SP
    ensures After(r, LeadingSpace(m, name, skipped), run)
         == if skipped + |run| < MAX_FIELD_LENGTH then LeadingSpace(m, name, skipped + |run|) else Bad
  {
    if run != [] {
      ReadSpaces(r, m, name, skipped, run[..|run| - 1]);
    }
  }

  /** Two phases that agree on the next byte agree from then on. */
  lemma SameFromHere(r: Rules, p: Phase, q: Phase, s: Bytes)
    requires s != [] && Next(r, p, s[0]) == Next(r, q, s[0])
    ensures After(r, p, s) == After(r, q, s)
  {
    ReadOne(r, p, s[0]);
    ReadOne(r, q, s[0]);
    ReadInPieces(r, p, [s[0]], s[1..]);
    ReadInPieces(r, q, [s[0]], s[1..]);
    assert s == [s[0]] + s[1..];
  }

  /** A header refused part of the way through the bytes at hand is refused at their end. */
  lemma RefusedAtEnd(r: Rules, p: Phase, d: Bytes, k: nat, n: nat)
    requires k <= n <= |d|
    ensures After(r, p, d[k..n]).Bad? || After(r, p, d[k..n]).Done? || After(r, p, d[k..n]).Folded? ==>
      After(r, p, d[k..|d|]) == After(r, p, d[k..n])
  {
    ReadSlices(r, p, d, k, n, |d|);
    var q := After(r, p, d[k..n]);
    if q.Bad? || q.Done? || q.Folded? {
      Absorbing(r, q, d[n..|d|]);
    }
  }

  /** Phase p stands for what has been read of d from k to off: it is that phase, or it is a
      phase that will react to the next byte in the same way. */
  ghost predicate Tracks(r: Rules, p0: Phase, d: Bytes, k: nat, off: nat, p: Phase) {
    && k <= off <= |d|
    && var q := After(r, p0, d[k..off]);
       q == p || (off < |d| && Next(r, q, d[off]) == Next(r, p, d[off]))
  }

  lemma TrackOn(r: Rules, p0: Phase, d: Bytes, k: nat, off: nat, p: Phase, n: nat)
    requires Tracks(r, p0, d, k, off, p) && off <= n <= |d| && (off < n || off == |d|)
    ensures After(r, p0, d[k..n]) == After(r, p, d[off..n])
  {
    ReadSlices(r, p0, d, k, off, n);
    if off < n {
      var q := After(r, p0, d[k..off]);
      if q != p {
        SameFromHere(r, q, p, d[off..n]);
      }
    } else {
      ReadNone(r, p, d, off);
      assert d[k..n] == d[k..off];
    }
  }

  lemma TrackOne(r: Rules, p0: Phase, d: Bytes, k: nat, off: nat, p: Phase)
    requires Tracks(r, p0, d, k, off, p) && off < |d|
    ensures After(r, p0, d[k..off + 1]) == Next(r, p, d[off])
  {
    ReadNext(r, p0, d, k, off);
  }

  lemma TokenComplete(r: Rules, p0: Phase, d: Bytes, k: nat, off: nat, p: Phase, end: nat)
    requires Tracks(r, p0, d, k, off, p) && off < end <= |d|
    requires Collecting(p) && Roomy(r, p) && |p.acc| <= Capacity(r, p)
    requires PlainRun(p, d[off..end - 1]) && d[end - 1] == Delimiter(p)
    ensures After(r, p0, d[k..end]) == Next(r, Collect(r, p, d[off..end - 1]), Delimiter(p))
  {
    TrackOn(r, p0, d, k, off, p, end);
    ReadDelimited(r, p, d[off..end - 1]);
    assert d[off..end] == d[off..end - 1] + [Delimiter(p)];
  }

  lemma TokenIncomplete(r: Rules, p0: Phase, d: Bytes, k: nat, off: nat, p: Phase)
    requires Tracks(r, p0, d, k, off, p)
    requires Collecting(p) && Roomy(r, p) && |p.acc| <= Capacity(r, p)
    requires PlainRun(p, d[off..])
    ensures After(r, p0, d[k..]) == Collect(r, p, d[off..])
  {
    TrackOn(r, p0, d, k, off, p, |d|);
    ReadRun(r, p, d[off..]);
    assert d[k..] == d[k..|d|] && d[off..] == d[off..|d|];
  }

  lemma TokenControl(r: Rules, p0: Phase, d: Bytes, k: nat, off: nat, p: Phase, i: nat)
    requires Tracks(r, p0, d, k, off, p) && off <= i < |d|
    requires Collecting(p) && Roomy(r, p) && |p.acc| <= Capacity(r, p)
    requires PlainRun(p, d[off..i]) && IsCtl(d[i]) && d[i] != Delimiter(p)
    ensures After(r, p0, d[k..]) == Bad
  {
    TrackOn(r, p0, d, k, off, p, i + 1);
    ReadControl(r, p, d[off..i], d[i]);
    assert d[off..i + 1] == d[off..i] + [d[i]];
    RefusedAtEnd(r, p0, d, k, i + 1);
    assert d[k..] == d[k..|d|];
  }

  lemma TokenTooLong(r: Rules, p0: Phase, d: Bytes, k: nat, off: nat, p: Phase, n: nat)
    requires Tracks(r, p0, d, k, off, p) && off < n <= |d|
    requires Collecting(p) && Roomy(r, p) && |p.acc| <= Capacity(r, p)
    requires PlainRun(p, d[off..n]) && Collect(r, p, d[off..n]) == Bad
    ensures After(r, p0, d[k..]) == Bad
  {
    TrackOn(r, p0, d, k, off, p, n);
    ReadRun(r, p, d[off..n]);
    RefusedAtEnd(r, p0, d, k, n);
    assert d[k..] == d[k..|d|];
  }

  ghost predicate AllSpaces(d: Bytes, a: nat, b: nat)
    requires a <= b <= |d|
  {
    forall i :: a <= i < b ==> d[i] == SP
  }

  lemma SpacesComplete(r: Rules, p0: Phase, d: Bytes, k: nat, off: nat, m: Message, name: Bytes, skipped: nat, end: nat)
    requires Tracks(r, p0, d, k, off, LeadingSpace(m, name, skipped)) && off <= end < |d|
    requires AllSpaces(d, off, end) && skipped + (end - off) < MAX_FIELD_LENGTH && d[end] != SP
    ensures Tracks(r, p0, d, k, end, Value(m, name, skipped + (end - off), []))
  {
    if off < end {
      TrackOn(r, p0, d, k, off, LeadingSpace(m, name, skipped), end);
      ReadSpaces(r, m, name, skipped, d[off..end]);
    }
  }

  lemma SpacesRead(r: Rules, p0: Phase, d: Bytes, k: nat, off: nat, m: Message, name: Bytes, skipped: nat, end: nat)
    requires Tracks(r, p0, d, k, off, LeadingSpace(m, name, skipped)) && off <= end <= |d| && (off < end || off == |d|)
    requires AllSpaces(d, off, end) && skipped < MAX_FIELD_LENGTH
    ensures skipped + (end - off) < MAX_FIELD_LENGTH ==>
      After(r, p0, d[k..end]) == LeadingSpace(m, name, skipped + (end - off))
    ensures skipped + (end - off) >= MAX_FIELD_LENGTH ==> After(r, p0, d[k..]) == Bad
  {
    TrackOn(r, p0, d, k, off, LeadingSpace(m, name, skipped), end);
    ReadSpaces(r, m, name, skipped, d[off..end]);
    RefusedAtEnd(r, p0, d, k, end);
    assert d[k..] == d[k..|d|];
  }

  lemma FoldIsFolded(r: Rules, p0: Phase, d: Bytes, k: nat, off: nat, m: Message)
    requires Tracks(r, p0, d, k, off, AfterLine(m)) && off < |d| && d[off] == SP
    ensures After(r, p0, d[k..]) == Folded
  {
    TrackOne(r, p0, d, k, off, AfterLine(m));
    RefusedAtEnd(r, p0, d, k, off + 1);
    assert d[k..] == d[k..|d|];
  }

  lemma NoRoom(r: Rules, p0: Phase, d: Bytes, k: nat, off: nat, p: Phase)
    requires Tracks(r, p0, d, k, off, p) && off < |d|
    requires p.Name? && |p.m.fields| >= r.maxFields
    ensures After(r, p0, d[k..]) == Bad
  {
    TrackOne(r, p0, d, k, off, p);
    RefusedAtEnd(r, p0, d, k, off + 1);
    assert d[k..] == d[k..|d|];
  }

  // ------------------------------------------------------------------ printing

  function PrintField(f: Field): (s: Bytes) {
    f.name + FIELD_SEP + f.value + ENDLINE
  }

  function PrintFields(fs: seq<Field>): (s: Bytes) {
    if fs == [] then [] else PrintField(fs[0]) + PrintFields(fs[1..])
  }

  lemma {:induction false} PrintMore(fs: seq<Field>, f: Field)
    ensures PrintFields(fs + [f]) == PrintFields(fs) + PrintField(f)
  {
    if fs != [] {
      PrintMore(fs[1..], f);
      assert (fs + [f])[1..] == fs[1..] + [f];
    } else {
      assert ([] + [f])[1..] == [];
    }
  }

  lemma PrintUpTo(fs: seq<Field>, i: nat)
    requires i < |fs|
    ensures PrintFields(fs[..i + 1]) == PrintFields(fs[..i]) + PrintField(fs[i])
  {
    hide PrintFields, PrintField;
    assert fs[..i + 1] == fs[..i] + [fs[i]];
    PrintMore(fs[..i], fs[i]);
  }

  function PrintStart(m: Message): (s: Bytes) {
    m.line1 + SPACE + m.line2 + SPACE + m.line3 + ENDLINE
  }

  function Print(m: Message): (s: Bytes) {
    PrintStart(m) + PrintFields(m.fields) + ENDLINE
  }
}
