/** Streams made of whole messages, and what the proxy makes of them. */
module StreamTheorems {
  import opened Octets
  import opened StreamGrammar
  import opened HeaderRoundTrips
  import H = HeaderGrammar
  import C = ChunkGrammar

  datatype Body = Absent | Counted(bytes: Bytes) | InChunks(chunks: seq<C.Chunk>, last: C.Chunk)

  /** One message on the wire: a header spelled in any acceptable way, what it says, and a body. */
  datatype Item = Item(head: Bytes, m: H.Message, body: Body)

  ghost predicate HeadSays(r: H.Rules, head: Bytes, m: H.Message) {
    && head != [] && H.After(r, H.START, head) == H.Done(m)
    && H.After(r, H.START, head[..|head| - 1]) == H.EndLf(m)
  }

  /** The body is framed the way the header announces it. */
  ghost predicate BodyFits(stream: H.StreamType, m: H.Message, body: Body) {
    match H.BodyOf(stream, m)
    case NoBody => body.Absent?
    case Length(n) => body.Counted? && |body.bytes| == n
    case Chunked => body.InChunks? && C.ValidBody(body.chunks, body.last)
    case UntilClose => false
  }

  ghost predicate WellFramed(r: H.Rules, item: Item) {
    HeadSays(r, item.head, item.m) && BodyFits(r.stream, item.m, item.body)
  }

  function BodyBytes(body: Body): (s: Bytes) {
    match body
    case Absent => []
    case Counted(bytes) => bytes
    case InChunks(cs, last) => C.EncodeBody(cs, last)
  }

  function Wire(item: Item): (s: Bytes) {
    item.head + BodyBytes(item.body)
  }

  function CanonicalBody(body: Body): (b: Body) {
    match body
    case InChunks(cs, last) => InChunks(C.CanonicalAll(cs), C.Canonical(last))
    case _ => body
  }

  /** The same message, its header printed and its chunks in canonical form. */
  function Canonical(item: Item): (c: Item) {
    Item(H.Print(item.m), item.m, CanonicalBody(item.body))
  }

  function WireAll(items: seq<Item>): (s: Bytes) {
    if items == [] then [] else Wire(items[0]) + WireAll(items[1..])
  }

  function CanonicalAll(items: seq<Item>): (cs: seq<Item>)
    ensures |cs| == |items|
    ensures forall i :: 0 <= i < |items| ==> cs[i] == Canonical(items[i])
  {
    if items == [] then [] else [Canonical(items[0])] + CanonicalAll(items[1..])
  }

  lemma RelayBody(r: H.Rules, m: H.Message, body: Body)
    requires BodyFits(r.stream, m, body)
    ensures var p := BodyPlace(H.BodyOf(r.stream, m));
      && After(r, p, BodyBytes(body)) == START
      && Output(r, p, BodyBytes(body)) == BodyBytes(CanonicalBody(body))
  {
    hide After, Output, H.BodyOf;
    match H.BodyOf(r.stream, m) {
      case NoBody =>
        ReadNone(r, START);
      case Length(n) =>
        if n == 0 {
          ReadNone(r, START);
        } else {
          LengthStep(r, n, body.bytes);
        }
      case Chunked =>
        C.RelayIsCanonical(body.chunks, body.last);
        ChunkStep(r, C.START, BodyBytes(body));
    }
  }

  /** One message takes the stream from its start back to its start, and comes out canonical. */
  lemma RelayItem(r: H.Rules, item: Item)
    requires WellFramed(r, item)
    ensures After(r, START, Wire(item)) == START && Output(r, START, Wire(item)) == Wire(Canonical(item))
  {
    hide After, Output, H.BodyOf, BodyBytes, BodyFits, H.Print;
    HeaderDone(r, H.START, item.head, item.m);
    RelayBody(r, item.m, item.body);
    ReadInPieces(r, START, item.head, BodyBytes(item.body));
  }

  /** A stream of any number of messages comes out as their canonical forms, in order, and each
      message starts at the byte after the previous one ended. */
  lemma {:induction false} RelayAll(r: H.Rules, items: seq<Item>)
    requires forall i :: 0 <= i < |items| ==> WellFramed(r, items[i])
    ensures After(r, START, WireAll(items)) == START
    ensures Output(r, START, WireAll(items)) == WireAll(CanonicalAll(items))
  {
    hide After, Output, WellFramed, Wire, Canonical;
    if items == [] {
      ReadNone(r, START);
    } else {
      RelayItem(r, items[0]);
      RelayAll(r, items[1..]);
      ReadInPieces(r, START, Wire(items[0]), WireAll(items[1..]));
      assert CanonicalAll(items)[1..] == CanonicalAll(items[1..]);
    }
  }

  lemma CanonicalIsWellFramed(r: H.Rules, item: Item)
    requires WellFramed(r, item) && AllHaveRoom(item.m.fields)
    ensures WellFramed(r, Canonical(item)) && Canonical(Canonical(item)) == Canonical(item)
  {
    hide H.After, H.BodyOf, Readable, H.Acceptable, AllHaveRoom, H.PrintStart, H.PrintFields;
    ReaderYieldsText(r, item.head);
    ReadPrinted(r, item.m);
    if item.body.InChunks? {
      if H.BodyOf(r.stream, item.m).Chunked? {
        C.CanonicalIsValid(item.body.chunks, item.body.last);
      }
      assert C.CanonicalAll(C.CanonicalAll(item.body.chunks)) == C.CanonicalAll(item.body.chunks);
    }
  }

  /** Passing through a second proxy of the same rules changes nothing more, as long as no value
      is so long that the printed space no longer fits. */
  lemma RelayTwice(r: H.Rules, items: seq<Item>)
    requires forall i :: 0 <= i < |items| ==> WellFramed(r, items[i]) && AllHaveRoom(items[i].m.fields)
    ensures Output(r, START, Output(r, START, WireAll(items))) == Output(r, START, WireAll(items))
  {
    hide After, Output, WellFramed, Canonical, AllHaveRoom;
    RelayAll(r, items);
    var cs := CanonicalAll(items);
    forall i | 0 <= i < |items|
      ensures WellFramed(r, cs[i]) && Canonical(cs[i]) == cs[i]
    {
      CanonicalIsWellFramed(r, items[i]);
    }
    RelayAll(r, cs);
    assert CanonicalAll(cs) == cs;
  }

  // ------------------------------------------------------------------ framing and field order

  lemma AnyInMultiset(fs: seq<H.Field>, gs: seq<H.Field>, f: H.Field)
    requires multiset(fs) == multiset(gs) && f in fs
    ensures f in gs
  {
    assert f in multiset(fs);
  }

  /** How the body is framed does not depend on the order of the header fields. */
  lemma FramingIsOrderFree(stream: H.StreamType, m: H.Message, gs: seq<H.Field>)
    requires multiset(m.fields) == multiset(gs)
    ensures var a, b := H.BodyOf(stream, m), H.BodyOf(stream, m.(fields := gs));
      && (a.NoBody? <==> b.NoBody?) && (a.Chunked? <==> b.Chunked?)
      && (a.Length? <==> b.Length?) && (a.UntilClose? <==> b.UntilClose?)
  {
    SameAny(m.fields, gs);
    SameAny(gs, m.fields);
  }

  lemma {:induction false} LastIsOneOfThem(fs: seq<H.Field>)
    requires H.AnyLength(fs)
    ensures exists i :: 0 <= i < |fs| && H.IsLengthField(fs[i]) && fs[i].value == H.LastLength(fs)
  {
    var last := |fs| - 1;
    if !H.IsLengthField(fs[last]) {
      LastIsOneOfThem(fs[..last]);
    }
  }

  /** A reordering in which field i comes last. */
  function MovedLast(fs: seq<H.Field>, i: nat): (gs: seq<H.Field>)
    requires i < |fs|
    ensures multiset(gs) == multiset(fs) && gs != [] && gs[|gs| - 1] == fs[i]
  {
    assert fs == fs[..i] + [fs[i]] + fs[i + 1..];
    fs[..i] + fs[i + 1..] + [fs[i]]
  }

  /** All content-length fields name the same size n. */
  predicate LengthsAgree(fs: seq<H.Field>, n: nat) {
    forall i :: 0 <= i < |fs| && H.IsLengthField(fs[i]) ==> H.Atoi(fs[i].value) == n
  }

  /** The size itself is the same for every order of the fields if and only if all content-length
      fields agree on it: the last one wins, and conflicting ones are not refused. */
  lemma SizeIsOrderFreeIff(stream: H.StreamType, m: H.Message)
    requires H.BodyOf(stream, m).Length?
    ensures (forall gs: seq<H.Field> :: multiset(gs) == multiset(m.fields) ==>
               H.BodyOf(stream, m.(fields := gs)) == H.BodyOf(stream, m))
            <==> LengthsAgree(m.fields, H.BodyOf(stream, m).size)
  {
    var fs, n := m.fields, H.BodyOf(stream, m).size;
    if LengthsAgree(fs, n) {
      forall gs: seq<H.Field> | multiset(gs) == multiset(fs)
        ensures H.BodyOf(stream, m.(fields := gs)) == H.BodyOf(stream, m)
      {
        FramingIsOrderFree(stream, m, gs);
        LastIsOneOfThem(gs);
        var i :| 0 <= i < |gs| && H.IsLengthField(gs[i]) && gs[i].value == H.LastLength(gs);
        AnyInMultiset(gs, fs, gs[i]);
      }
    } else {
      var i :| 0 <= i < |fs| && H.IsLengthField(fs[i]) && H.Atoi(fs[i].value) != n;
      var gs := MovedLast(fs, i);
      FramingIsOrderFree(stream, m, gs);
      assert H.BodyOf(stream, m.(fields := gs)) != H.BodyOf(stream, m);
    }
  }

  lemma SameAny(fs: seq<H.Field>, gs: seq<H.Field>)
    requires multiset(fs) == multiset(gs)
    ensures H.AnyChunked(fs) ==> H.AnyChunked(gs)
    ensures H.AnyLength(fs) ==> H.AnyLength(gs)
  {
    forall i | 0 <= i < |fs|
      ensures fs[i] in gs
    {
      AnyInMultiset(fs, gs, fs[i]);
    }
  }
}
