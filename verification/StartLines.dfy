/** The second start-line parser, which can stop at any byte and go on with the next buffer. */
module StartLines {
  import opened Octets
  import opened Transducers
  import opened Scanners
  import HeaderGrammar

  datatype ParseOption = Strict | Loose

  /** The start line as a reader of single bytes sees it. A loose reader accepts a line that ends
      after the second token; such a line is short. */
  datatype Line =
    | First(a: Bytes)
    | Second(a: Bytes, b: Bytes)
    | Third(a: Bytes, b: Bytes, c: Bytes)
    | LineFeed(a: Bytes, b: Bytes, c: Bytes, short: bool)
    | Done(a: Bytes, b: Bytes, c: Bytes, short: bool)
    | Bad

  const START: Line := First([])

  /** The one limit all three tokens are held to, and the option. */
  datatype Rules = Rules(limit: nat, option: ParseOption)

  /** Whether b may be added to a token of which acc has been read. */
  predicate Grows(r: Rules, acc: Bytes, b: byte) {
    !HeaderGrammar.IsCtl(b) && |acc| + 1 < r.limit
  }

  function Next(r: Rules, l: Line, b: byte): (l': Line) {
    match l
    case First(x) =>
      if r.limit == 0 then Bad else if b == SP then Second(x, [])
      else if Grows(r, x, b) then First(x + [b]) else Bad
    case Second(x, y) =>
      if b == SP then Third(x, y, [])
      else if b == CR && r.option == Loose then LineFeed(x, y, [], true)
      else if Grows(r, y, b) then Second(x, y + [b]) else Bad
    case Third(x, y, z) =>
      if b == CR then LineFeed(x, y, z, false)
      else if Grows(r, z, b) then Third(x, y, z + [b]) else Bad
    case LineFeed(x, y, z, short) => if b == LF then Done(x, y, z, short) else Bad
    case Done(_, _, _, _) => l
    case Bad => Bad
  }

  function Reader(r: Rules): (m: Machine<Line>) {
    Machine((l, b) => Next(r, l, b), (l, b) => [])
  }

  function After(r: Rules, l: Line, s: Bytes): (l': Line) {
    Reader(r).After(l, s)
  }

  lemma ReadInPieces(r: Rules, l: Line, a: Bytes, b: Bytes)
    ensures After(r, l, a + b) == After(r, After(r, l, a), b)
  {
    Reader(r).ReadInPieces(l, a, b);
  }

  lemma ReadNext(r: Rules, l: Line, d: Bytes, m: nat)
    requires m < |d|
    ensures After(r, l, d[..m + 1]) == Next(r, After(r, l, d[..m]), d[m])
  {
    Reader(r).ReadNext(l, d, 0, m);
    assert d[0..m] == d[..m] && d[0..m + 1] == d[..m + 1];
  }

  lemma ReadFurther(r: Rules, l: Line, d: Bytes, m: nat, n: nat)
    requires m + n <= |d|
    ensures After(r, l, d[..m + n]) == After(r, After(r, l, d[..m]), d[m..][..n])
  {
    assert d[..m + n] == d[..m] + d[m..][..n];
    ReadInPieces(r, l, d[..m], d[m..][..n]);
  }

  lemma {:induction false} Absorbing(r: Rules, l: Line, s: Bytes)
    requires l.Done? || l.Bad?
    ensures After(r, l, s) == l
  {
    if s != [] {
      Absorbing(r, l, s[..|s| - 1]);
    }
  }

  lemma ReadNothing(r: Rules, l: Line, d: Bytes)
    ensures After(r, l, d[..0]) == l && d[0..] == d
  {
  }

  lemma RefusedForGood(r: Rules, l: Line, d: Bytes, n: nat)
    requires n <= |d| && After(r, l, d[..n]) == Bad
    ensures After(r, l, d) == Bad
  {
    assert d == d[..n] + d[n..];
    ReadInPieces(r, l, d[..n], d[n..]);
    Absorbing(r, Bad, d[n..]);
  }

  // ------------------------------------------------------------------ what a line spells

  /** A token: no delimiter, no control character, within the limit. */
  predicate Token(r: Rules, s: Bytes, delimiter: byte) {
    |s| < r.limit && forall i :: 0 <= i < |s| ==> s[i] != delimiter && !HeaderGrammar.IsCtl(s[i])
  }

  predicate WellFormed(r: Rules, l: Line) {
    match l
    case First(x) => Token(r, x, SP)
    case Second(x, y) => Token(r, x, SP) && Token(r, y, SP)
    case Third(x, y, z) => Token(r, x, SP) && Token(r, y, SP) && Token(r, z, CR)
    case LineFeed(x, y, z, short) =>
      Token(r, x, SP) && Token(r, y, SP) && Token(r, z, CR) && (short ==> r.option == Loose && z == [])
    case Done(x, y, z, short) =>
      Token(r, x, SP) && Token(r, y, SP) && Token(r, z, CR) && (short ==> r.option == Loose && z == [])
    case Bad => false
  }

  function Text(l: Line): (s: Bytes) {
    match l
    case First(x) => x
    case Second(x, y) => x + [SP] + y
    case Third(x, y, z) => x + [SP] + y + [SP] + z
    case LineFeed(x, y, z, short) => if short then x + [SP] + y + [CR] else x + [SP] + y + [SP] + z + [CR]
    case Done(x, y, z, short) => if short then x + [SP] + y + [CR, LF] else x + [SP] + y + [SP] + z + [CR, LF]
    case Bad => []
  }

  /** What the reader takes a line for spells the bytes it read. */
  lemma {:induction false} ReadIsText(r: Rules, s: Bytes)
    requires r.limit > 0
    ensures var l := After(r, START, s);
      l == Bad || (WellFormed(r, l) && Text(l) <= s && (l.Done? || Text(l) == s))
  {
    if s == [] {
      assert Text(START) == s;
    } else {
      hide WellFormed, Text;
      var front, b := s[..|s| - 1], s[|s| - 1];
      ReadIsText(r, front);
      assert After(r, START, s) == Next(r, After(r, START, front), b);
      hide After, Next;
      assert s == front + [b];
      AfterStep(r, After(r, START, front), b);
    }
  }

  lemma AfterStep(r: Rules, l: Line, b: byte)
    requires r.limit > 0
    ensures l == Bad || l.Done? ==> Next(r, l, b) == l
    ensures WellFormed(r, l) && !l.Done? && Next(r, l, b) != Bad ==>
      WellFormed(r, Next(r, l, b)) && Text(Next(r, l, b)) == Text(l) + [b]
  {
  }

  /** The line as it was one byte earlier. */
  function Before(l: Line): (p: Line)
    requires l != START && l != Bad
  {
    match l
    case First(x) => First(x[..|x| - 1])
    case Second(x, y) => if y == [] then First(x) else Second(x, y[..|y| - 1])
    case Third(x, y, z) => if z == [] then Second(x, y) else Third(x, y, z[..|z| - 1])
    case LineFeed(x, y, z, short) => if short then Second(x, y) else Third(x, y, z)
    case Done(x, y, z, short) => LineFeed(x, y, z, short)
  }

  function LastByte(l: Line): (b: byte)
    requires l != START && l != Bad
  {
    match l
    case First(x) => x[|x| - 1]
    case Second(x, y) => if y == [] then SP else y[|y| - 1]
    case Third(x, y, z) => if z == [] then SP else z[|z| - 1]
    case LineFeed(_, _, _, _) => CR
    case Done(_, _, _, _) => LF
  }

  lemma OneByteEarlier(r: Rules, l: Line)
    requires WellFormed(r, l) && l != START
    ensures WellFormed(r, Before(l)) && Next(r, Before(l), LastByte(l)) == l
  {
  }

  /** The reader takes every well-formed line for what it spells. */
  lemma {:induction false} TextIsRead(r: Rules, l: Line)
    requires WellFormed(r, l)
    ensures After(r, START, Text(l)) == l
    decreases |Text(l)|
  {
    if l == START {
      assert Text(l) == [];
    } else {
      hide WellFormed, Text, Next;
      OneByteEarlier(r, l);
      AfterStep(r, Before(l), LastByte(l));
      TextIsRead(r, Before(l));
      assert Text(l)[..|Text(l)| - 1] == Text(Before(l));
    }
  }

  /** A line is accepted as l if and only if it begins with what l spells. */
  lemma AcceptedIff(r: Rules, s: Bytes, l: Line)
    requires r.limit > 0 && l.Done?
    ensures After(r, START, s) == l <==> WellFormed(r, l) && Text(l) <= s
  {
    hide After, Text, WellFormed;
    ReadIsText(r, s);
    if WellFormed(r, l) && Text(l) <= s {
      TextIsRead(r, l);
      var rest := s[|Text(l)|..];
      assert s == Text(l) + rest;
      ReadInPieces(r, START, Text(l), rest);
      Absorbing(r, l, rest);
    }
  }

  // ------------------------------------------------------------------ the three limits

  /** A complete line each of whose tokens keeps the limit declared for it. */
  predicate Declared(max1: nat, max2: nat, max3: nat, option: ParseOption, l: Line)
    requires l.Done?
  {
    && Token(Rules(max1, option), l.a, SP) && Token(Rules(max2, option), l.b, SP)
    && if l.short then option == Loose && l.c == [] else Token(Rules(max3, option), l.c, CR)
  }

  /** The parser, which holds every token to the third limit, accepts a line that keeps the three
      declared limits, and no other. */
  ghost predicate Enforced(max1: nat, max2: nat, max3: nat, option: ParseOption) {
    forall l: Line :: l.Done? ==>
      (After(Rules(max3, option), START, Text(l)) == l <==> Declared(max1, max2, max3, option, l))
  }

  /** A line whose first two tokens have the given lengths. */
  function LineOf(n1: nat, n2: nat): (l: Line) {
    Done(seq(n1, _ => 65), seq(n2, _ => 65), [], false)
  }

  lemma LineOfIsPlain(max1: nat, max2: nat, max3: nat, option: ParseOption, n1: nat, n2: nat)
    ensures Declared(max1, max2, max3, option, LineOf(n1, n2)) <==> n1 < max1 && n2 < max2 && 0 < max3
    ensures WellFormed(Rules(max3, option), LineOf(n1, n2)) <==> n1 < max3 && n2 < max3
  {
  }

  lemma NothingAccepted(option: ParseOption, l: Line)
    requires l.Done?
    ensures After(Rules(0, option), START, Text(l)) != l
  {
    NoRoomAtAll(Rules(0, option), START, Text(l));
  }

  /** The declared limits are enforced if and only if all three are the same, apart from limits that
      leave nothing to accept. */
  lemma LimitsEnforcedIff(max1: nat, max2: nat, max3: nat, option: ParseOption)
    ensures Enforced(max1, max2, max3, option) <==>
      max1 == max2 == max3 || (max3 == 0 && (max1 == 0 || max2 == 0 || option == Strict))
  {
    hide After, Text;
    var r := Rules(max3, option);
    if max3 == 0 {
      forall l: Line | l.Done? ensures After(r, START, Text(l)) != l {
        NothingAccepted(option, l);
      }
      assert Declared(max1, max2, 0, option, Done([], [], [], true)) <==> max1 > 0 && max2 > 0 && option == Loose;
    } else {
      forall l: Line | l.Done? ensures After(r, START, Text(l)) == l <==> WellFormed(r, l) {
        AcceptedIff(r, Text(l), l);
      }
      var n1 := if max1 < max3 then max1 else max3;
      var n2 := if max2 < max3 then max2 else max3;
      LineOfIsPlain(max1, max2, max3, option, 0, 0);
      LineOfIsPlain(max1, max2, max3, option, n1, 0);
      LineOfIsPlain(max1, max2, max3, option, 0, n2);
      if Enforced(max1, max2, max3, option) {
        assert WellFormed(r, LineOf(0, 0)) && WellFormed(r, LineOf(n1, 0)) == Declared(max1, max2, max3, option, LineOf(n1, 0));
        assert WellFormed(r, LineOf(0, n2)) == Declared(max1, max2, max3, option, LineOf(0, n2));
      }
    }
  }

  /** With limits of four, eight and eight bytes, a first token of four bytes is accepted although
      its limit asks for fewer. */
  lemma LongFirstTokenAccepted(option: ParseOption)
    ensures After(Rules(8, option), START, Text(LineOf(4, 1))) == LineOf(4, 1)
    ensures !Declared(4, 8, 8, option, LineOf(4, 1))
  {
    LineOfIsPlain(4, 8, 8, option, 4, 1);
    TextIsRead(Rules(8, option), LineOf(4, 1));
  }

  // ------------------------------------------------------------------ runs of bytes

  /** Lines that are collecting the bytes of a token. */
  predicate Collecting(l: Line) {
    l.First? || l.Second? || l.Third?
  }

  function Delimiters(option: ParseOption, l: Line): (s: set<byte>)
    requires Collecting(l)
  {
    match l
    case First(_) => {SP}
    case Second(_, _) => if option == Strict then {SP} else {SP, CR}
    case Third(_, _, _) => {CR}
  }

  /** The bytes of the token being collected. */
  function Current(l: Line): (s: Bytes)
    requires Collecting(l)
  {
    match l
    case First(x) => x
    case Second(_, y) => y
    case Third(_, _, z) => z
  }

  function With(l: Line, run: Bytes): (l': Line)
    requires Collecting(l)
    ensures Collecting(l') && Current(l') == Current(l) + run
  {
    match l
    case First(x) => First(x + run)
    case Second(x, y) => Second(x, y + run)
    case Third(x, y, z) => Third(x, y, z + run)
  }

  ghost predicate Undelimited(s: Bytes, delimiters: set<byte>) {
    forall i :: 0 <= i < |s| ==> s[i] !in delimiters && !HeaderGrammar.IsCtl(s[i])
  }

  /** A plain run extends the token until it reaches the limit. */
  lemma {:induction false} ReadRun(r: Rules, l: Line, run: Bytes)
    requires Collecting(l) && Undelimited(run, Delimiters(r.option, l)) && |Current(l)| < r.limit
    requires |Current(l)| + |run| <= r.limit
    ensures After(r, l, run) == if |Current(l)| + |run| < r.limit then With(l, run) else Bad
  {
    if run == [] {
      assert With(l, run) == l;
    } else {
      var front, b := run[..|run| - 1], run[|run| - 1];
      ReadRun(r, l, front);
      assert front + [b] == run;
    }
  }

  /** A control character inside a token, or reaching the limit, refuses the line. */
  lemma ReadRefused(r: Rules, l: Line, s: Bytes, i: nat)
    requires Collecting(l) && |Current(l)| < r.limit && i <= |s| && Undelimited(s[..i], Delimiters(r.option, l))
    requires |Current(l)| + i <= r.limit
    requires |Current(l)| + i == r.limit ||
      (i < |s| && s[i] !in Delimiters(r.option, l) && HeaderGrammar.IsCtl(s[i]))
    ensures After(r, l, s) == Bad
  {
    hide After;
    ReadRun(r, l, s[..i]);
    var n := if |Current(l)| + i == r.limit then i else i + 1;
    if n == i + 1 {
      ReadNext(r, l, s, i);
    }
    RefusedForGood(r, l, s, n);
  }

  lemma NoRoomAtAll(r: Rules, l: Line, s: Bytes)
    requires r.limit == 0 && l.First? && s != []
    ensures After(r, l, s) == Bad
  {
    ReadNothing(r, l, s);
    ReadNext(r, l, s, 0);
    RefusedForGood(r, l, s, 1);
  }

  /** A plain run and the delimiter after it take the line to its next part. */
  lemma ReadDelimited(r: Rules, l: Line, run: Bytes, b: byte)
    requires Collecting(l) && Undelimited(run, Delimiters(r.option, l)) && b in Delimiters(r.option, l)
    requires |Current(l)| + |run| < r.limit
    ensures After(r, l, run + [b]) == Next(r, With(l, run), b)
  {
    hide After;
    ReadRun(r, l, run);
    ReadNext(r, l, run + [b], |run|);
    assert (run + [b])[..|run|] == run && (run + [b])[..|run| + 1] == run + [b];
  }

  // ------------------------------------------------------------------ the parser

  /** A receiver that takes every piece of a token it is handed. */
  class TokenReceiver {
    var token1: Bytes
    var token2: Bytes
    var token3: Bytes
    /** How many tokens have been handed over to their end. */
    var whole: nat

    constructor ()
      ensures token1 == token2 == token3 == [] && whole == 0
    {
      token1, token2, token3, whole := [], [], [], 0;
    }

    method StartLineToken1(piece: Bytes, complete: bool)
      modifies this`token1, this`whole
      ensures token1 == old(token1) + piece && whole == if complete then 1 else old(whole)
    {
      token1 := token1 + piece;
      whole := if complete then 1 else whole;
    }

    method StartLineToken2(piece: Bytes, complete: bool)
      modifies this`token2, this`whole
      ensures token2 == old(token2) + piece && whole == if complete then 2 else old(whole)
    {
      token2 := token2 + piece;
      whole := if complete then 2 else whole;
    }

    method StartLineToken3(piece: Bytes, complete: bool)
      modifies this`token3, this`whole
      ensures token3 == old(token3) + piece && whole == if complete then 3 else old(whole)
    {
      token3 := token3 + piece;
      whole := if complete then 3 else whole;
    }
  }

  datatype ParseState = StateToken1 | StateToken2 | StateToken3 | StateLf

  /** What the scan of one buffer found: the token's bytes, the bytes after its delimiter, and the
      delimiter. */
  datatype ParseResult = ParseResult(status: Status, token: Bytes, rest: Bytes, delimiter: byte)

  /** What a scan may find in a buffer, when the token already had `used` bytes. */
  ghost predicate Scanned(r: ParseResult, buffer: Bytes, used: nat, limit: nat, delimiters: set<byte>) {
    match r.status
    case Complete =>
      && buffer == r.token + [r.delimiter] + r.rest && Undelimited(r.token, delimiters)
      && r.delimiter in delimiters && used + |r.token| < limit
    case Incomplete =>
      r.token == buffer && r.rest == [] && Undelimited(buffer, delimiters) && used + |buffer| < limit
    case Invalid =>
      && r.token == [] && r.rest == []
      && exists i :: 0 <= i < |buffer| && Undelimited(buffer[..i], delimiters) && buffer[i] !in delimiters
                     && HeaderGrammar.IsCtl(buffer[i]) && used + i < limit
    case DataOverflow =>
      && r.token == [] && r.rest == []
      && used <= limit && limit - used <= |buffer| && Undelimited(buffer[..limit - used], delimiters)
    case _ => false
  }

  /** Scans a token whose first currentLength bytes came in earlier buffers. */
  method ScanToken(buffer: Bytes, currentLength: nat, maxLength: nat, delimiters: set<byte>)
    returns (r: ParseResult)
    requires currentLength < maxLength || (currentLength == maxLength == 0 && buffer != [])
    ensures Scanned(r, buffer, currentLength, maxLength, delimiters)
  {
    var i, length := 0, currentLength;
    while i < |buffer| && length < maxLength
      invariant 0 <= i <= |buffer| && length == currentLength + i <= maxLength
      invariant Undelimited(buffer[..i], delimiters)
    {
      if buffer[i] in delimiters {
        return ParseResult(Complete, buffer[..i], buffer[i + 1..], buffer[i]);
      }
      if HeaderGrammar.IsCtl(buffer[i]) {
        return ParseResult(Invalid, [], [], 0);
      }
      i, length := i + 1, length + 1;
    }
    if length >= maxLength {
      return ParseResult(DataOverflow, [], [], 0);
    }
    assert buffer[..i] == buffer;
    return ParseResult(Incomplete, buffer, [], 0);
  }

  /** What a scan amounts to for the line. */
  lemma ScanMeans(r: Rules, l: Line, buffer: Bytes, result: ParseResult)
    requires Collecting(l) && Scanned(result, buffer, |Current(l)|, r.limit, Delimiters(r.option, l))
    requires |Current(l)| < r.limit || (r.limit == 0 && l.First? && buffer != [])
    ensures match result.status
      case Complete =>
        && |result.rest| < |buffer| && result.rest == buffer[|buffer| - |result.rest|..]
        && result.delimiter in Delimiters(r.option, l) && |Current(l)| + |result.token| < r.limit
        && After(r, l, buffer[..|buffer| - |result.rest|]) == Next(r, With(l, result.token), result.delimiter)
      case Incomplete =>
        && result.token == buffer && result.rest == [] && |Current(l)| + |result.token| < r.limit
        && After(r, l, buffer) == With(l, buffer)
      case _ => result.token == [] && result.rest == [] && After(r, l, buffer) == Bad
  {
    hide After;
    var delimiters := Delimiters(r.option, l);
    match result.status {
      case Complete =>
        ReadDelimited(r, l, result.token, result.delimiter);
        assert buffer[..|buffer| - |result.rest|] == result.token + [result.delimiter];
      case Incomplete =>
        ReadRun(r, l, buffer);
      case Invalid =>
        var i :| 0 <= i < |buffer| && Undelimited(buffer[..i], delimiters) && buffer[i] !in delimiters
                 && HeaderGrammar.IsCtl(buffer[i]) && |Current(l)| + i < r.limit;
        ReadRefused(r, l, buffer, i);
      case DataOverflow =>
        if r.limit == 0 {
          NoRoomAtAll(r, l, buffer);
        } else {
          ReadRefused(r, l, buffer, r.limit - |Current(l)|);
        }
    }
  }

  class StartLineParser {
    const receiver: TokenReceiver
    const token1MaxLength: nat
    const token2MaxLength: nat
    const token3MaxLength: nat
    var state: ParseState
    var currentLength: nat
    /** The line ended after its second token. */
    ghost var short: bool

    /** The line read so far, as the receiver knows it. */
    ghost function Line(): (l: Line)
      reads this, receiver
    {
      match state
      case StateToken1 => First(receiver.token1)
      case StateToken2 => Second(receiver.token1, receiver.token2)
      case StateToken3 => Third(receiver.token1, receiver.token2, receiver.token3)
      case StateLf => LineFeed(receiver.token1, receiver.token2, receiver.token3, short)
    }

    /** Every token is held to the third limit. */
    ghost function R(option: ParseOption): (r: Rules) {
      Rules(token3MaxLength, option)
    }

    ghost predicate Valid()
      reads this, receiver
    {
      && (currentLength < token3MaxLength || (currentLength == token3MaxLength == 0 && state == StateToken1))
      && (Collecting(Line()) ==> currentLength == |Current(Line())|)
      && match state
         case StateToken1 => receiver.token2 == receiver.token3 == [] && receiver.whole == 0
         case StateToken2 => receiver.token3 == [] && receiver.whole == 1
         case StateToken3 => receiver.whole == 2
         case StateLf => receiver.whole == if short then 2 else 3
    }

    constructor (receiver: TokenReceiver, max1: nat, max2: nat, max3: nat)
      requires receiver.token1 == receiver.token2 == receiver.token3 == [] && receiver.whole == 0
      ensures Valid() && Line() == START && this.receiver == receiver && token3MaxLength == max3
    {
      this.receiver := receiver;
      token1MaxLength, token2MaxLength, token3MaxLength := max1, max2, max3;
      state, currentLength, short := StateToken1, 0, false;
    }

    /** Makes the parser ready for the next line, given a receiver that is. */
    method Reset()
      requires receiver.token1 == receiver.token2 == receiver.token3 == [] && receiver.whole == 0
      modifies this
      ensures Valid() && Line() == START
    {
      state, currentLength, short := StateToken1, 0, false;
    }

    function GetTokenDelimiters(option: ParseOption): (s: set<byte>)
      requires state != StateLf
      reads this
    {
      match state
      case StateToken1 => {SP}
      case StateToken2 => if option == Strict then {SP} else {SP, CR}
      case StateToken3 => {CR}
    }

    method SetToken(piece: Bytes, complete: bool)
      requires state != StateLf
      modifies receiver
      ensures Line() == With(old(Line()), piece) && state == old(state)
      ensures receiver.whole == if complete then (match state case StateToken1 => 1 case StateToken2 => 2 case _ => 3) else old(receiver.whole)
      ensures state != StateToken2 ==> receiver.token2 == old(receiver.token2)
      ensures state != StateToken3 ==> receiver.token3 == old(receiver.token3)
    {
      match state {
        case StateToken1 => receiver.StartLineToken1(piece, complete);
        case StateToken2 => receiver.StartLineToken2(piece, complete);
        case StateToken3 => receiver.StartLineToken3(piece, complete);
      }
    }

    method NextState(delimiter: byte)
      requires state != StateLf
      requires state == StateToken1 ==> delimiter == SP
      requires state == StateToken2 ==> delimiter == SP || delimiter == CR
      requires state == StateToken3 ==> delimiter == CR
      modifies this
      ensures currentLength == 0
      ensures state == match old(state)
        case StateToken1 => StateToken2
        case StateToken2 => if delimiter == CR then StateLf else StateToken3
        case _ => StateLf
      ensures short == (old(state) == StateToken2 && delimiter == CR)
    {
      short := state == StateToken2 && delimiter == CR;
      match state {
        case StateToken1 => state := StateToken2;
        case StateToken2 => state := if delimiter == CR then StateLf else StateToken3;
        case StateToken3 => state := StateLf;
      }
      currentLength := 0;
    }

    /** What the status of a call promises about the bytes of buffer, read on from line l0. */
    ghost predicate Outcome(s: Status, rest: Bytes, option: ParseOption, l0: Line, buffer: Bytes)
      reads this, receiver
    {
      match s
      case Complete =>
        && |rest| < |buffer| && Valid() && state == StateLf
        && var n := |buffer| - |rest|;
           && rest == buffer[n..] && After(R(option), l0, buffer[..n - 1]) == Line()
           && After(R(option), l0, buffer[..n]) == Done(receiver.token1, receiver.token2, receiver.token3, short)
      case Incomplete => rest == [] && Valid() && After(R(option), l0, buffer) == Line()
      case Invalid => After(R(option), l0, buffer) == Bad
      case DataOverflow => After(R(option), l0, buffer) == Bad
      case _ => false
    }

    /** Part of the line has been read and the rest of the buffer remains. */
    ghost predicate Reached(rest: Bytes, option: ParseOption, l0: Line, buffer: Bytes)
      reads this, receiver
    {
      && Valid() && |rest| <= |buffer| && rest == buffer[|buffer| - |rest|..]
      && After(R(option), l0, buffer[..|buffer| - |rest|]) == Line()
    }

    /** Takes one token, or the part of it the buffer holds. */
    method ParseTokenPart(buffer: Bytes, maxLength: nat, option: ParseOption) returns (s: Status, rest: Bytes)
      requires Valid() && state != StateLf && buffer != [] && maxLength == token3MaxLength
      modifies this, receiver
      ensures s == Complete ==> |rest| < |buffer| && Reached(rest, option, old(Line()), buffer)
      ensures s != Complete ==> Outcome(s, rest, option, old(Line()), buffer)
    {
      hide After, Scanned, Undelimited;
      ghost var l := Line();
      var delimiters := GetTokenDelimiters(option);
      var result := ScanToken(buffer, currentLength, maxLength, delimiters);
      ScanMeans(R(option), l, buffer, result);
      if result.status == Invalid {
        return Invalid, result.token;
      }
      currentLength := currentLength + |result.token|;
      SetToken(result.token, result.status == Complete);
      if result.status == Complete {
        NextState(result.delimiter);
      }
      s, rest := result.status, result.rest;
    }

    /** What was read of the end of a buffer was read of the buffer. */
    lemma OfTheBuffer(s: Status, rest: Bytes, option: ParseOption, l0: Line, l: Line, buffer: Bytes, m: nat)
      requires m <= |buffer| && l == After(R(option), l0, buffer[..m])
      ensures Reached(rest, option, l, buffer[m..]) ==> Reached(rest, option, l0, buffer)
      ensures s != Complete && Outcome(s, rest, option, l, buffer[m..]) ==> Outcome(s, rest, option, l0, buffer)
    {
      hide After, Valid, Line;
      SplitAt(buffer, m);
      ReadInPieces(R(option), l0, buffer[..m], buffer[m..]);
      if |rest| <= |buffer| - m {
        ReadFurther(R(option), l0, buffer, m, |buffer| - m - |rest|);
      }
    }

    /** Expects the line feed that ends the line. */
    method ParseLf(rest: Bytes, option: ParseOption, ghost l0: Line, ghost buffer: Bytes)
      returns (s: Status, left: Bytes)
      requires Reached(rest, option, l0, buffer) && state == StateLf && rest != []
      ensures s != Incomplete && Outcome(s, left, option, l0, buffer)
    {
      hide After;
      ghost var m := |buffer| - |rest|;
      ReadNext(R(option), l0, buffer, m);
      if rest[0] != LF {
        RefusedForGood(R(option), l0, buffer, m + 1);
        return Invalid, rest;
      }
      assert rest[1..] == buffer[m + 1..];
      return Complete, rest[1..];
    }

    /** Takes as much of the start line as the buffer holds. */
    method ParseStartLine(buffer: Bytes, option: ParseOption) returns (s: Status, rest: Bytes)
      requires Valid()
      modifies this, receiver
      ensures Outcome(s, rest, option, old(Line()), buffer)
    {
      hide After, Line;
      ghost var l0 := Line();
      s, rest := Incomplete, buffer;
      ReadNothing(R(option), l0, buffer);
      while rest != []
        invariant s == Incomplete && Reached(rest, option, l0, buffer)
        decreases |rest|
      {
        match state {
          case StateLf =>
            s, rest := ParseLf(rest, option, l0, buffer);
            return;
          case _ =>
            ghost var m, l := |buffer| - |rest|, Line();
            // The cases of the switch fall through, so the first two limits are never used.
            s, rest := ParseTokenPart(rest, token3MaxLength, option);
            OfTheBuffer(s, rest, option, l0, l, buffer, m);
            if s != Complete {
              return;
            }
            s := Incomplete;
        }
      }
      assert buffer[..|buffer|] == buffer;
    }
  }

  /** What the first i pieces and piece i amount to. */
  lemma OnePieceMore(r: Rules, l: Line, pieces: seq<Bytes>, i: nat, n: nat)
    requires i < |pieces| && n <= |pieces[i]|
    ensures var before := Concat(pieces[..i]);
      && After(r, l, before + pieces[i][..n]) == After(r, After(r, l, before), pieces[i][..n])
      && Concat(pieces[..i + 1]) == before + pieces[i]
      && Concat(pieces) == before + pieces[i][..n] + (pieces[i][n..] + Concat(pieces[i + 1..]))
      && before + pieces[i][..n] <= Concat(pieces)
  {
    hide After, Concat;
    var before := Concat(pieces[..i]);
    ReadInPieces(r, l, before, pieces[i][..n]);
    ConcatUpTo(pieces, i);
    ConcatSplit(pieces, i + 1);
    SplitAt(pieces[i], n);
  }

  /** The verdict on a start line of which the pieces hold the bytes read on from l0. On completion
      the line is `taken`: it ends in the last piece looked at, with its line feed. */
  ghost predicate Judged(parser: StartLineParser, option: ParseOption, l0: Line, pieces: seq<Bytes>,
                         s: Status, used: nat, rest: Bytes, taken: Bytes)
    reads parser, parser.receiver
  {
    var r, q := parser.R(option), After(parser.R(option), l0, Concat(pieces));
    match s
    case Complete =>
      && 0 < used <= |pieces| && |Concat(pieces[..used - 1])| < |taken|
      && Concat(pieces[..used]) == taken + rest && Concat(pieces) == taken + (rest + Concat(pieces[used..]))
      && parser.state == StateLf && After(r, l0, taken[..|taken| - 1]) == parser.Line()
      && q == After(r, l0, taken)
      && q == Done(parser.receiver.token1, parser.receiver.token2, parser.receiver.token3, parser.short)
    case Incomplete => parser.Valid() && q == parser.Line()
    case Invalid => q == Bad
    case DataOverflow => q == Bad
    case _ => false
  }

  /** The verdict on piece i is the verdict on all pieces. */
  lemma JudgeAll(parser: StartLineParser, option: ParseOption, l0: Line, l: Line, pieces: seq<Bytes>, i: nat,
                 s: Status, rest: Bytes)
    requires i < |pieces| && l == After(parser.R(option), l0, Concat(pieces[..i])) && s != Incomplete
    requires parser.Outcome(s, rest, option, l, pieces[i])
    ensures |rest| <= |pieces[i]| || s != Complete
    ensures Judged(parser, option, l0, pieces, s, i + 1, rest,
      Concat(pieces[..i]) + if s == Complete then pieces[i][..|pieces[i]| - |rest|] else [])
  {
    hide After, Concat;
    var r, piece, before := parser.R(option), pieces[i], Concat(pieces[..i]);
    if s == Complete {
      var n := |piece| - |rest|;
      var taken := before + piece[..n];
      OnePieceMore(r, l0, pieces, i, n);
      OnePieceMore(r, l0, pieces, i, n - 1);
      assert taken[..|taken| - 1] == before + piece[..n - 1] && piece == piece[..n] + rest;
      ReadInPieces(r, l0, taken, rest + Concat(pieces[i + 1..]));
      Absorbing(r, After(r, l0, taken), rest + Concat(pieces[i + 1..]));
    } else {
      OnePieceMore(r, l0, pieces, i, |piece|);
      assert piece[..|piece|] == piece && piece[|piece|..] == [];
      ReadInPieces(r, l0, before + piece, [] + Concat(pieces[i + 1..]));
      Absorbing(r, Bad, [] + Concat(pieces[i + 1..]));
    }
  }

  /** Feeds a start line in any pieces, empty ones included. */
  method ParsePieces(parser: StartLineParser, pieces: seq<Bytes>, option: ParseOption)
    returns (s: Status, used: nat, rest: Bytes, ghost taken: Bytes)
    requires parser.Valid()
    modifies parser, parser.receiver
    ensures Judged(parser, option, old(parser.Line()), pieces, s, used, rest, taken)
  {
    hide After, Concat;
    ghost var r, l0 := parser.R(option), parser.Line();
    s, used, rest, taken := Incomplete, 0, [], [];
    NothingFed(r, l0, pieces);
    while used < |pieces|
      invariant used <= |pieces| && s == Incomplete
      invariant parser.Valid() && parser.Line() == After(r, l0, Concat(pieces[..used]))
    {
      ghost var l, before := parser.Line(), Concat(pieces[..used]);
      s, rest := parser.ParseStartLine(pieces[used], option);
      if s != Incomplete {
        JudgeAll(parser, option, l0, l, pieces, used, s, rest);
        taken := before + if s == Complete then pieces[used][..|pieces[used]| - |rest|] else [];
        used := used + 1;
        return;
      }
      OnePieceMore(r, l0, pieces, used, |pieces[used]|);
      assert pieces[used][..|pieces[used]|] == pieces[used];
      used := used + 1;
    }
    assert pieces[..used] == pieces;
  }

  lemma NothingFed(r: Rules, l: Line, pieces: seq<Bytes>)
    ensures After(r, l, Concat(pieces[..0])) == l
  {
    assert Concat(pieces[..0]) == [];
  }

  /** Fed from its start, the parser takes exactly the bytes that spell its three tokens. */
  lemma TakenIsText(parser: StartLineParser, option: ParseOption, pieces: seq<Bytes>, used: nat, rest: Bytes, taken: Bytes)
    requires parser.token3MaxLength > 0 && Judged(parser, option, START, pieces, Complete, used, rest, taken)
    ensures var l := Done(parser.receiver.token1, parser.receiver.token2, parser.receiver.token3, parser.short);
      WellFormed(parser.R(option), l) && taken == Text(l)
  {
    hide After, Concat;
    var r, front := parser.R(option), taken[..|taken| - 1];
    ReadIsText(r, front);
    ReadIsText(r, taken);
  }
}
