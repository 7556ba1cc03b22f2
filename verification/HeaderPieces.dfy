/** The field section of a header may arrive cut anywhere. */
module HeaderPieces {
  import opened Octets
  import opened Buffers
  import opened Scanners
  import opened HeaderGrammar
  import opened MessageBuffers
  import opened HeaderHandlers
  import opened HeaderParsers

  /** A parser past the start line, between two buffers. */
  ghost predicate Resumable(parser: HeaderParser, buf: ReadWriteBuffer)
    reads parser, parser.handler, parser.handler.message, parser.handler.message.Repr, buf
  {
    && parser.AtRest() && !parser.Fresh() && parser.InFields()
    && buf.Valid() && !buf.isStatic && buf !in parser.handler.message.Repr
  }

  /** What the verdict on a field section promises about all its bytes. */
  ghost predicate Verdict(s: Status, q: Phase, parser: HeaderParser, buf: ReadWriteBuffer)
    reads parser, parser.handler, parser.handler.message, parser.handler.message.Repr, buf
  {
    match s
    case Complete => parser.handler.Valid() && !parser.handler.HasPartial() && q == Done(parser.handler.Closed())
    case Incomplete => Resumable(parser, buf) && q == parser.Phase() && !q.Done? && !q.Bad?
    case Invalid => q == Bad
    case DataOverflow => q == Bad
    case _ => false
  }

  /** The bytes that completed the header, the last of them included. */
  ghost predicate EndsWith(r: Rules, p: Phase, taken: Bytes, m: Message) {
    taken != [] && After(r, p, taken) == Done(m) && After(r, p, taken[..|taken| - 1]) == EndLf(m)
  }

  /** Parses one more piece of the field section. */
  method ParsePiece(parser: HeaderParser, buf: ReadWriteBuffer, piece: Bytes) returns (s: Status)
    requires Resumable(parser, buf) && |piece| <= buf.capacity
    requires !After(parser.R(), parser.Phase(), piece).Folded?
    modifies parser, parser.handler, parser.handler.message, parser.handler.message.Repr, buf
    ensures fresh(parser.handler.message.Repr - old(parser.handler.message.Repr))
    ensures buf.Valid() && buf.data == piece
    ensures Verdict(s, After(parser.R(), old(parser.Phase()), piece), parser, buf)
    ensures s == Complete ==> EndsWith(parser.R(), old(parser.Phase()), piece[..buf.processPos], parser.handler.Closed())
  {
    hide After, Agrees, AnyHost, MessageBuffer.Valid, MessageBuffer.AllUnsent;
    ghost var p := parser.Phase();
    buf.SetWorking(piece);
    assert piece[0..] == piece;
    s := parser.ParseHeaders(buf);
    if s == Complete {
      ghost var taken := piece[..buf.processPos];
      assert piece[0..buf.processPos] == taken && taken[..|taken| - 1] == piece[0..buf.processPos - 1];
      StaysDone(parser.R(), p, taken, piece[buf.processPos..]);
      assert taken + piece[buf.processPos..] == piece;
    }
  }

  lemma StaysDone(r: Rules, p: Phase, a: Bytes, b: Bytes)
    requires var q := After(r, p, a); q.Done? || q.Bad? || q.Folded?
    ensures After(r, p, a + b) == After(r, p, a)
  {
    hide After;
    ReadInPieces(r, p, a, b);
    Absorbing(r, After(r, p, a), b);
  }

  /** What has been read of the first i pieces, and what the later ones may still do. */
  lemma PiecesAhead(r: Rules, p: Phase, pieces: seq<Bytes>, i: nat)
    requires i < |pieces|
    ensures Concat(pieces[..i + 1]) == Concat(pieces[..i]) + pieces[i]
    ensures Concat(pieces) == Concat(pieces[..i]) + pieces[i] + Concat(pieces[i + 1..])
    ensures After(r, p, Concat(pieces[..i + 1])) == After(r, After(r, p, Concat(pieces[..i])), pieces[i])
    ensures var q := After(r, p, Concat(pieces[..i + 1]));
      q.Done? || q.Bad? || q.Folded? ==> After(r, p, Concat(pieces)) == q
  {
    hide After, Concat;
    ConcatUpTo(pieces, i);
    ConcatSplit(pieces, i + 1);
    ReadInPieces(r, p, Concat(pieces[..i]), pieces[i]);
    var q := After(r, p, Concat(pieces[..i + 1]));
    if q.Done? || q.Bad? || q.Folded? {
      StaysDone(r, p, Concat(pieces[..i + 1]), Concat(pieces[i + 1..]));
    }
  }

  /** Reading past the end of a header changes neither where it ended nor what it says. */
  lemma EndsLater(r: Rules, p: Phase, before: Bytes, taken: Bytes, m: Message)
    requires EndsWith(r, After(r, p, before), taken, m)
    ensures EndsWith(r, p, before + taken, m)
  {
    hide After;
    var all := before + taken;
    ReadInPieces(r, p, before, taken);
    ReadInPieces(r, p, before, taken[..|taken| - 1]);
    assert all[..|all| - 1] == before + taken[..|taken| - 1];
  }

  /** The verdict on a field section delivered in pieces, of which `used` were looked at. On
      completion the header ends with `taken`, and what follows it is left unread. */
  ghost predicate Judged(s: Status, p: Phase, pieces: seq<Bytes>, used: nat, taken: Bytes,
                         parser: HeaderParser, buf: ReadWriteBuffer)
    reads parser, parser.handler, parser.handler.message, parser.handler.message.Repr, buf
  {
    && Verdict(s, After(parser.R(), p, Concat(pieces)), parser, buf)
    && (s == Complete ==>
          && buf.Valid() && used <= |pieces|
          && EndsWith(parser.R(), p, taken, parser.handler.Closed())
          && Concat(pieces) == taken + (buf.Unread() + Concat(pieces[used..])))
  }

  /** Parses piece i, after the first i left the header incomplete. */
  method TakePiece(parser: HeaderParser, buf: ReadWriteBuffer, pieces: seq<Bytes>, i: nat, ghost p: Phase)
    returns (s: Status, ghost taken: Bytes)
    requires i < |pieces| && |pieces[i]| <= buf.capacity
    requires Verdict(Incomplete, After(parser.R(), p, Concat(pieces[..i])), parser, buf)
    requires !After(parser.R(), p, Concat(pieces)).Folded?
    modifies parser, parser.handler, parser.handler.message, parser.handler.message.Repr, buf
    ensures fresh(parser.handler.message.Repr - old(parser.handler.message.Repr))
    ensures s == Incomplete ==> Verdict(s, After(parser.R(), p, Concat(pieces[..i + 1])), parser, buf)
    ensures s != Incomplete ==> Judged(s, p, pieces, i + 1, taken, parser, buf)
  {
    hide After, Concat, HeaderParser.AtRest, HeaderParser.Fresh, HeaderParser.InFields, HeaderParser.Phase;
    hide HeaderHandler.HasPartial, HeaderHandler.Closed, MessageBuffer.Valid, EndsWith;
    ghost var r, before := parser.R(), Concat(pieces[..i]);
    PiecesAhead(r, p, pieces, i);
    s := ParsePiece(parser, buf, pieces[i]);
    taken := before + pieces[i][..buf.processPos];
    if s == Complete {
      EndsLater(r, p, before, pieces[i][..buf.processPos], parser.handler.Closed());
      assert pieces[i] == pieces[i][..buf.processPos] + buf.Unread();
    }
  }

  /** Parses a field section delivered in any pieces, empty ones included. The verdict and the
      fields depend on the bytes alone, not on how they were cut, and what follows the header is
      left unread. */
  method ParsePieces(parser: HeaderParser, buf: ReadWriteBuffer, pieces: seq<Bytes>)
    returns (s: Status, used: nat, ghost taken: Bytes)
    requires Resumable(parser, buf) && (forall i :: 0 <= i < |pieces| ==> |pieces[i]| <= buf.capacity)
    requires !After(parser.R(), parser.Phase(), Concat(pieces)).Folded?
    modifies parser, parser.handler, parser.handler.message, parser.handler.message.Repr, buf
    ensures Judged(s, old(parser.Phase()), pieces, used, taken, parser, buf)
  {
    ghost var p := parser.Phase();
    NothingYet(parser, buf, pieces);
    hide After, Concat, Resumable, Verdict, MessageBuffer.Valid;
    s, used, taken := Incomplete, 0, [];
    while used < |pieces|
      invariant used <= |pieces| && s == Incomplete
      invariant fresh(parser.handler.message.Repr - old(parser.handler.message.Repr))
      invariant Verdict(Incomplete, After(parser.R(), p, Concat(pieces[..used])), parser, buf)
    {
      s, taken := TakePiece(parser, buf, pieces, used, p);
      used := used + 1;
      if s != Incomplete {
        return;
      }
    }
    assert pieces[..used] == pieces;
  }

  lemma NothingYet(parser: HeaderParser, buf: ReadWriteBuffer, pieces: seq<Bytes>)
    requires Resumable(parser, buf)
    ensures Verdict(Incomplete, After(parser.R(), parser.Phase(), Concat(pieces[..0])), parser, buf)
  {
    assert Concat(pieces[..0]) == [];
    ReadNone(parser.R(), parser.Phase(), [], 0);
  }
}
