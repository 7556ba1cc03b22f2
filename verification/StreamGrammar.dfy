/** What a whole stream of messages means: one header after another, each with its body, read
    byte by byte and re-encoded as the proxy forwards it. */
module StreamGrammar {
  import opened Octets
  import opened Transducers
  import H = HeaderGrammar
  import C = ChunkGrammar

  datatype Place =
    | Head(h: H.Phase)
    | LengthBody(left: nat)
    | ChunkedBody(c: C.Phase)
    /** The stream broke the protocol. */
    | Refused
    /** A folded line, or a body delimited by the end of the connection. */
    | Unframed

  const START: Place := Head(H.START)

  function BodyPlace(kind: H.BodyKind): (p: Place) {
    match kind
    case NoBody => START
    case Length(n) => if n == 0 then START else LengthBody(n)
    case Chunked => ChunkedBody(C.START)
    case UntilClose => Unframed
  }

  function AfterHeader(r: H.Rules, h: H.Phase): (p: Place) {
    match h
    case Done(m) => BodyPlace(H.BodyOf(r.stream, m))
    case Bad => Refused
    case Folded => Unframed
    case _ => Head(h)
  }

  function AfterChunk(c: C.Phase): (p: Place) {
    match c
    case Done => START
    case Bad => Refused
    case _ => ChunkedBody(c)
  }

  function Next(r: H.Rules, p: Place, b: byte): (q: Place) {
    match p
    case Head(h) => AfterHeader(r, H.Next(r, h, b))
    case LengthBody(left) => if left <= 1 then START else LengthBody(left - 1)
    case ChunkedBody(c) => AfterChunk(C.Next(c, b))
    case Refused => Refused
    case Unframed => Unframed
  }

  function Emit(r: H.Rules, p: Place, b: byte): (out: Bytes) {
    match p
    case Head(h) => var h' := H.Next(r, h, b); if h'.Done? then H.Print(h'.m) else []
    case LengthBody(_) => [b]
    case ChunkedBody(c) => C.Emit(c, b)
    case Refused => []
    case Unframed => []
  }

  function Reader(r: H.Rules): (reader: Machine<Place>) {
    Machine((p, b) => Next(r, p, b), (p, b) => Emit(r, p, b))
  }

  function After(r: H.Rules, p: Place, s: Bytes): (q: Place) {
    Reader(r).After(p, s)
  }

  /** What the proxy forwards for the bytes s. */
  function Output(r: H.Rules, p: Place, s: Bytes): (out: Bytes) {
    Reader(r).Output(p, s)
  }

  lemma ReadInPieces(r: H.Rules, p: Place, a: Bytes, b: Bytes)
    ensures After(r, p, a + b) == After(r, After(r, p, a), b)
    ensures Output(r, p, a + b) == Output(r, p, a) + Output(r, After(r, p, a), b)
  {
    Reader(r).ReadInPieces(p, a, b);
  }

  lemma ReadMore(r: H.Rules, p: Place, s: Bytes, b: byte)
    ensures After(r, p, s + [b]) == Next(r, After(r, p, s), b)
    ensures Output(r, p, s + [b]) == Output(r, p, s) + Emit(r, After(r, p, s), b)
  {
    Reader(r).ReadMore(p, s, b);
  }

  lemma ReadNone(r: H.Rules, p: Place)
    ensures After(r, p, []) == p && Output(r, p, []) == []
  {
  }

  lemma {:induction false} Absorbing(r: H.Rules, p: Place, s: Bytes)
    requires p.Refused? || p.Unframed?
    ensures After(r, p, s) == p && Output(r, p, s) == []
  {
    if s != [] {
      Absorbing(r, p, s[..|s| - 1]);
      ReadMore(r, p, s[..|s| - 1], s[|s| - 1]);
      assert s == s[..|s| - 1] + [s[|s| - 1]];
    }
  }

  /** A stream that is framed to its end is framed all along. */
  lemma FramedPrefix(r: H.Rules, p: Place, a: Bytes, b: Bytes)
    requires !After(r, p, a + b).Unframed?
    ensures !After(r, p, a).Unframed?
  {
    ReadInPieces(r, p, a, b);
    if After(r, p, a).Unframed? {
      Absorbing(r, After(r, p, a), b);
    }
  }

  // ------------------------------------------------------------------ header and stream

  predicate Open(h: H.Phase) {
    !h.Done? && !h.Bad? && !h.Folded?
  }

  /** While its header is open the stream follows the header reader and emits nothing. */
  lemma {:induction false} HeaderStep(r: H.Rules, h: H.Phase, s: Bytes)
    requires Open(h) && Open(H.After(r, h, s))
    ensures After(r, Head(h), s) == Head(H.After(r, h, s)) && Output(r, Head(h), s) == []
  {
    if s != [] {
      var front, b := s[..|s| - 1], s[|s| - 1];
      assert s == front + [b];
      H.Reader(r).ReadMore(h, front, b);
      if !Open(H.After(r, h, front)) {
        H.Absorbing(r, H.After(r, h, front), [b]);
        H.ReadOne(r, H.After(r, h, front), b);
        assert false;
      }
      HeaderStep(r, h, front);
      ReadMore(r, Head(h), front, b);
    }
  }

  /** The byte that completes a header prints it and starts the body. */
  lemma HeaderDone(r: H.Rules, h: H.Phase, s: Bytes, m: H.Message)
    requires Open(h) && s != []
    requires H.After(r, h, s[..|s| - 1]) == H.EndLf(m) && H.After(r, h, s) == H.Done(m)
    ensures After(r, Head(h), s) == BodyPlace(H.BodyOf(r.stream, m))
    ensures Output(r, Head(h), s) == H.Print(m)
  {
    var front, b := s[..|s| - 1], s[|s| - 1];
    assert s == front + [b];
    HeaderStep(r, h, front);
    H.Reader(r).ReadMore(h, front, b);
    ReadMore(r, Head(h), front, b);
  }

  /** A refused header refuses the stream, before anything of it is emitted. */
  lemma {:induction false} HeaderRefused(r: H.Rules, h: H.Phase, s: Bytes)
    requires Open(h) && H.After(r, h, s) == H.Bad
    ensures After(r, Head(h), s) == Refused && Output(r, Head(h), s) == []
  {
    var front, b := s[..|s| - 1], s[|s| - 1];
    assert s == front + [b];
    H.Reader(r).ReadMore(h, front, b);
    ReadMore(r, Head(h), front, b);
    var q := H.After(r, h, front);
    if Open(q) {
      HeaderStep(r, h, front);
    } else {
      H.ReadOne(r, q, b);
      H.Absorbing(r, q, [b]);
      HeaderRefused(r, h, front);
    }
  }

  /** A stream that stays framed never folds a header line. */
  lemma {:induction false} HeaderFolded(r: H.Rules, h: H.Phase, s: Bytes)
    requires Open(h) && H.After(r, h, s) == H.Folded
    ensures After(r, Head(h), s) == Unframed
  {
    var front, b := s[..|s| - 1], s[|s| - 1];
    assert s == front + [b];
    H.Reader(r).ReadMore(h, front, b);
    ReadMore(r, Head(h), front, b);
    var q := H.After(r, h, front);
    if Open(q) {
      HeaderStep(r, h, front);
    } else {
      H.ReadOne(r, q, b);
      H.Absorbing(r, q, [b]);
      HeaderFolded(r, h, front);
    }
  }

  // ------------------------------------------------------------------ body and stream

  lemma {:induction false} LengthStep(r: H.Rules, left: nat, s: Bytes)
    requires 0 < left && |s| <= left
    ensures After(r, LengthBody(left), s) == if |s| == left then START else LengthBody(left - |s|)
    ensures Output(r, LengthBody(left), s) == s
  {
    if s != [] {
      var front, b := s[..|s| - 1], s[|s| - 1];
      assert s == front + [b];
      LengthStep(r, left, front);
      ReadMore(r, LengthBody(left), front, b);
    }
  }

  predicate Live(c: C.Phase) {
    c != C.Done && c != C.Bad
  }

  /** A chunked body is forwarded exactly as the chunk reader says, up to its last byte. */
  lemma {:induction false} ChunkStep(r: H.Rules, c: C.Phase, s: Bytes)
    requires Live(c) && C.After(c, s) != C.Bad
    ensures After(r, ChunkedBody(c), s) == AfterChunk(C.After(c, s))
    ensures Output(r, ChunkedBody(c), s) == C.Output(c, s)
  {
    if s != [] {
      var front, b := s[..|s| - 1], s[|s| - 1];
      assert s == front + [b];
      C.READER.ReadMore(c, front, b);
      ChunkStep(r, c, front);
      ReadMore(r, ChunkedBody(c), front, b);
    }
  }

  lemma ChunkRefused(r: H.Rules, c: C.Phase, front: Bytes, b: byte)
    requires Live(c) && C.After(c, front + [b]) == C.Bad && C.After(c, front) != C.Bad && C.After(c, front) != C.Done
    ensures After(r, ChunkedBody(c), front + [b]) == Refused
    ensures C.Output(c, front) <= Output(r, ChunkedBody(c), front + [b])
  {
    C.READER.ReadMore(c, front, b);
    ChunkStep(r, c, front);
    ReadMore(r, ChunkedBody(c), front, b);
  }

  // ------------------------------------------------------------------ reading on in a buffer

  /** Reading d on from m to n adds what the bytes in between emit. */
  lemma ReadOn(r: H.Rules, p: Place, t: Bytes, d: Bytes, k: nat, m: nat, n: nat)
    requires k <= m <= n <= |d|
    ensures After(r, p, d[k..n]) == After(r, After(r, p, d[k..m]), d[m..n])
    ensures t + Output(r, p, d[k..n]) == t + Output(r, p, d[k..m]) + Output(r, After(r, p, d[k..m]), d[m..n])
  {
    Reader(r).ReadSlices(p, d, k, m, n);
    Assoc(t, Output(r, p, d[k..m]), Output(r, After(r, p, d[k..m]), d[m..n]));
  }

  lemma HeaderPaused(r: H.Rules, p: Place, t: Bytes, d: Bytes, k: nat, m: nat, h: H.Phase)
    requires k <= m <= |d| && After(r, p, d[k..m]) == Head(h) && Open(h) && Open(H.After(r, h, d[m..]))
    ensures After(r, p, d[k..|d|]) == Head(H.After(r, h, d[m..]))
    ensures t + Output(r, p, d[k..|d|]) == t + Output(r, p, d[k..m])
  {
    assert d[m..|d|] == d[m..];
    ReadOn(r, p, t, d, k, m, |d|);
    HeaderStep(r, h, d[m..]);
  }

  lemma HeaderCompleted(r: H.Rules, p: Place, t: Bytes, d: Bytes, k: nat, m: nat, n: nat, h: H.Phase, msg: H.Message)
    requires k <= m < n <= |d| && After(r, p, d[k..m]) == Head(h) && Open(h)
    requires H.After(r, h, d[m..n - 1]) == H.EndLf(msg) && H.After(r, h, d[m..n]) == H.Done(msg)
    ensures After(r, p, d[k..n]) == BodyPlace(H.BodyOf(r.stream, msg))
    ensures t + Output(r, p, d[k..n]) == t + Output(r, p, d[k..m]) + H.Print(msg)
  {
    hide After, Output, H.After, H.Print, H.BodyOf, BodyPlace;
    ReadOn(r, p, t, d, k, m, n);
    assert d[m..n][..n - m - 1] == d[m..n - 1];
    HeaderDone(r, h, d[m..n], msg);
  }

  lemma HeaderDenied(r: H.Rules, p: Place, t: Bytes, d: Bytes, k: nat, m: nat, h: H.Phase)
    requires k <= m <= |d| && After(r, p, d[k..m]) == Head(h) && Open(h) && H.After(r, h, d[m..]) == H.Bad
    ensures After(r, p, d[k..|d|]) == Refused
    ensures t + Output(r, p, d[k..|d|]) == t + Output(r, p, d[k..m])
  {
    assert d[m..|d|] == d[m..];
    ReadOn(r, p, t, d, k, m, |d|);
    HeaderRefused(r, h, d[m..]);
  }

  lemma LengthRead(r: H.Rules, p: Place, t: Bytes, d: Bytes, k: nat, m: nat, n: nat, left: nat)
    requires k <= m <= n <= |d| && After(r, p, d[k..m]) == BodyPlace(H.Length(left)) && n - m <= left
    ensures After(r, p, d[k..n]) == BodyPlace(H.Length(left - (n - m)))
    ensures t + Output(r, p, d[k..n]) == t + Output(r, p, d[k..m]) + d[m..n]
  {
    ReadOn(r, p, t, d, k, m, n);
    if left > 0 {
      LengthStep(r, left, d[m..n]);
    } else {
      ReadNone(r, START);
    }
  }

  lemma ChunkRead(r: H.Rules, p: Place, t: Bytes, d: Bytes, k: nat, m: nat, n: nat, c: C.Phase)
    requires k <= m <= n <= |d| && After(r, p, d[k..m]) == AfterChunk(c)
    requires C.After(c, d[m..n]) != C.Bad && c != C.Bad
    ensures After(r, p, d[k..n]) == AfterChunk(C.After(c, d[m..n]))
    ensures t + Output(r, p, d[k..n]) == t + Output(r, p, d[k..m]) + C.Output(c, d[m..n])
  {
    ReadOn(r, p, t, d, k, m, n);
    if Live(c) {
      ChunkStep(r, c, d[m..n]);
    } else {
      if m < n {
        C.NothingAfterDone(d[m..n]);
      }
      C.ReadNone(c, d, m);
      ReadNone(r, START);
    }
  }

  lemma ChunkDenied(r: H.Rules, p: Place, t: Bytes, d: Bytes, k: nat, m: nat, n: nat, c: C.Phase)
    requires k <= m <= n < |d| && After(r, p, d[k..m]) == AfterChunk(c) && c != C.Bad
    requires C.After(c, d[m..n]) != C.Bad && C.After(c, d[m..n]) != C.Done && C.After(c, d[m..n + 1]) == C.Bad
    ensures After(r, p, d[k..n + 1]) == Refused
    ensures t + Output(r, p, d[k..m]) + C.Output(c, d[m..n]) <= t + Output(r, p, d[k..n + 1])
  {
    hide After, Output, C.After, C.Output;
    if c == C.Done {
      if m < n {
        C.NothingAfterDone(d[m..n]);
      } else {
        C.ReadNone(c, d, m);
      }
      assert false;
    }
    ReadOn(r, p, t, d, k, m, n + 1);
    assert d[m..n + 1] == d[m..n] + [d[n]];
    ChunkRefused(r, c, d[m..n], d[n]);
  }
}
