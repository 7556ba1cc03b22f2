/** What the lines of a configuration file mean, told by their characters: comments, keys, values
    and the lines that continue a value. */
module ConfigLines {
  import opened Octets
  import opened Numerals
  import opened Options
  import opened ConfigTree
  import opened ConfigOrder
  import opened ConfigText
  import opened ConfigFiles

  /** Blank, tab, line feed, vertical tab, form feed and carriage return. */
  const WHITE: set<char> := {' ', '\t', '\n', 11 as char, 12 as char, '\r'}

  predicate AllWhite(s: string) {
    forall i :: 0 <= i < |s| ==> s[i] in WHITE
  }

  /** Around the part from a to n there is only white space, and the part neither begins nor ends
      with any. */
  ghost predicate Core(s: string, a: nat, n: nat) {
    && a <= n <= |s|
    && (forall i :: 0 <= i < a ==> s[i] in WHITE) && (forall i :: n <= i < |s| ==> s[i] in WHITE)
    && (a < n ==> s[a] !in WHITE && s[n - 1] !in WHITE)
  }

  /** t is s without the white space around it. */
  ghost predicate Inner(s: string, t: string) {
    exists a: nat, n: nat :: Core(s, a, n) && t == s[a..n]
  }

  lemma {:induction false} LeftSkips(s: string) returns (a: nat)
    ensures a <= |s| && TrimLeft(s) == s[a..] && AllWhite(s[..a])
    ensures a < |s| ==> s[a] !in WHITE
  {
    if s != "" && IsSpace(s[0]) {
      a := LeftSkips(s[1..]);
      assert s[1..][a..] == s[a + 1..] && s[..a + 1] == [s[0]] + s[1..][..a];
      a := a + 1;
    } else {
      a := 0;
    }
  }

  lemma {:induction false} RightSkips(s: string) returns (n: nat)
    ensures n <= |s| && TrimRight(s) == s[..n] && AllWhite(s[n..])
    ensures n > 0 ==> s[n - 1] !in WHITE
  {
    if s != "" && IsSpace(s[|s| - 1]) {
      var front := s[..|s| - 1];
      n := RightSkips(front);
      assert front[..n] == s[..n] && s[n..] == front[n..] + [s[|s| - 1]];
    } else {
      n := |s|;
    }
  }

  /** Trimming takes away the white space at both ends and nothing else. */
  lemma TrimIsInner(s: string)
    ensures Inner(s, Trim(s))
  {
    var a := LeftSkips(s);
    var n := RightSkips(s[a..]);
    var rest := s[a..];
    assert forall i :: 0 <= i < a ==> s[i] == s[..a][i];
    assert forall i :: a + n <= i < |s| ==> s[i] == rest[n..][i - a - n];
    assert n > 0 ==> s[a] == rest[0] && s[a + n - 1] == rest[n - 1];
    assert Core(s, a, a + n) && s[a..a + n] == rest[..n];
  }

  /** There is only one such part. */
  lemma CoreIsOne(s: string, a: nat, n: nat, b: nat, m: nat)
    requires Core(s, a, n) && Core(s, b, m)
    ensures (a == n && b == m) || (a == b && n == m)
  {
  }

  lemma TrimIff(s: string, t: string)
    ensures Trim(s) == t <==> Inner(s, t)
  {
    TrimIsInner(s);
    if Inner(s, t) {
      var a: nat, n: nat :| Core(s, a, n) && t == s[a..n];
      var b: nat, m: nat :| Core(s, b, m) && Trim(s) == s[b..m];
      CoreIsOne(s, a, n, b, m);
    }
  }

  lemma BlankIff(s: string)
    ensures Trim(s) == "" <==> AllWhite(s)
  {
    TrimIff(s, "");
    if AllWhite(s) {
      assert Core(s, 0, 0) && s[0..0] == "";
    }
    if Inner(s, "") {
      var a: nat, n: nat :| Core(s, a, n) && "" == s[a..n];
      assert a == n;
    }
  }

  /** text is what a line says before its comment, which starts with a hash mark. */
  ghost predicate Says(line: string, text: string, comment: string) {
    line == text + comment && '#' !in text && (comment == "" || comment[0] == '#')
  }

  /** Every line says something. */
  lemma EveryLineSays(line: string)
    ensures Says(line, StripComment(line), line[|StripComment(line)|..])
  {
  }

  lemma StripIs(line: string, text: string, comment: string)
    requires Says(line, text, comment)
    ensures StripComment(line) == text
  {
    if comment == "" {
      assert line == text;
      FindAbsent(text, COMMENT);
    } else {
      assert line == text + [COMMENT] + comment[1..];
      FindIn(text, COMMENT, comment[1..]);
    }
  }

  /** A line has a key if and only if there is an equals sign before its comment. */
  lemma HasKeyIff(line: string, text: string, comment: string)
    requires Says(line, text, comment)
    ensures HasKey(line) <==> '=' in text
  {
    StripIs(line, text, comment);
    if '=' !in text {
      FindAbsent(text, ASSIGN);
    }
  }

  lemma KeyAndValue(line: string, key: string, value: string, comment: string)
    requires Says(line, key + ['='] + value, comment) && '=' !in key
    ensures HasKey(line) && KeyPart(line) == key && ValuePart(line) == value
  {
    StripIs(line, key + ['='] + value, comment);
    FindIn(key, ASSIGN, value);
  }

  // ------------------------------------------------------------------ continued values

  /** What a continuation line adds to a value: a line feed and its text, or the text alone when it
      is all white space. */
  function Added(text: string): (s: string) {
    if AllWhite(text) then text else ['\n'] + text
  }

  /** What the lines from the first to the last add, in this order. */
  function Joined(texts: seq<string>): (s: string) {
    if texts == [] then "" else Added(texts[0]) + Joined(texts[1..])
  }

  /** Where the part of line j begins. */
  function Offset(texts: seq<string>, j: nat): (n: nat)
    requires j <= |texts|
  {
    if j == 0 then 0 else Offset(texts, j - 1) + |Added(texts[j - 1])|
  }

  lemma {:induction false} OffsetShift(texts: seq<string>, j: nat)
    requires 0 < j <= |texts|
    ensures Offset(texts, j) == |Added(texts[0])| + Offset(texts[1..], j - 1)
  {
    if j > 1 {
      OffsetShift(texts, j - 1);
    }
  }

  lemma {:induction false} JoinedLength(texts: seq<string>)
    ensures |Joined(texts)| == Offset(texts, |texts|)
  {
    if texts != [] {
      OffsetShift(texts, |texts|);
      JoinedLength(texts[1..]);
    }
  }

  lemma SliceBehind(front: string, s: string, a: nat, n: nat)
    requires a <= n <= |s|
    ensures (front + s)[|front| + a..|front| + n] == s[a..n]
  {
  }

  /** Line j of the lines joined is in its place; JoinedLength says that there is nothing else. */
  lemma {:induction false} JoinedAt(texts: seq<string>, j: nat)
    requires j < |texts|
    ensures Offset(texts, j) <= Offset(texts, j + 1) <= |Joined(texts)|
    ensures Joined(texts)[Offset(texts, j)..Offset(texts, j + 1)] == Added(texts[j])
  {
    hide Added;
    var rest := texts[1..];
    OffsetShift(texts, j + 1);
    if j > 0 {
      OffsetShift(texts, j);
      JoinedAt(rest, j - 1);
      hide Joined, Offset;
      assert Joined(texts) == Added(texts[0]) + Joined(rest) by {
        JoinedStep(texts);
      }
      SliceBehind(Added(texts[0]), Joined(rest), Offset(rest, j - 1), Offset(rest, j));
    } else {
      JoinedStep(texts);
      assert Offset(texts, 0) == 0 && Offset(texts, 1) == |Added(texts[0])|;
    }
  }

  lemma JoinedStep(texts: seq<string>)
    requires texts != []
    ensures Joined(texts) == Added(texts[0]) + Joined(texts[1..])
  {
  }

  /** The lines continue a value: each says something, be it only a comment, and none has a key. */
  ghost predicate Continue(lines: seq<string>, texts: seq<string>, comments: seq<string>) {
    && |lines| == |texts| == |comments|
    && forall j :: 0 <= j < |lines| ==>
         Says(lines[j], texts[j], comments[j]) && '=' !in texts[j] && !AllWhite(lines[j])
  }

  /** A value ends before a blank line, a line with a key, or the end of the file. */
  ghost predicate Ends(tail: seq<string>) {
    tail == [] || AllWhite(tail[0]) ||
    exists text, comment :: Says(tail[0], text, comment) && '=' in text
  }

  lemma EndsHere(tail: seq<string>)
    requires Ends(tail)
    ensures tail == [] || Blank(tail[0]) || HasKey(tail[0])
  {
    if tail != [] {
      BlankIff(tail[0]);
      if !AllWhite(tail[0]) {
        var text, comment :| Says(tail[0], text, comment) && '=' in text;
        HasKeyIff(tail[0], text, comment);
      }
    }
  }

  lemma ContinuedAdds(acc: string, line: string, text: string, comment: string)
    requires Says(line, text, comment) && '=' !in text && !AllWhite(line)
    ensures Continued(acc, line) == acc + Added(text) && !Blank(line) && !HasKey(line)
  {
    StripIs(line, text, comment);
    HasKeyIff(line, text, comment);
    BlankIff(line);
    BlankIff(text);
  }

  lemma {:induction false} GatherJoins(acc: string, lines: seq<string>, texts: seq<string>, comments: seq<string>, tail: seq<string>)
    requires Continue(lines, texts, comments) && Ends(tail)
    ensures Gather(acc, lines + tail) == (acc + Joined(texts), tail)
    decreases |lines|
  {
    hide Says, AllWhite, Blank, HasKey, Continued, Added, Ends;
    if lines == [] {
      EndsHere(tail);
      assert lines + tail == tail && texts == [] && acc + "" == acc;
    } else {
      ContinuedAdds(acc, lines[0], texts[0], comments[0]);
      GatherJoins(acc + Added(texts[0]), lines[1..], texts[1..], comments[1..], tail);
      assert (lines + tail)[0] == lines[0] && (lines + tail)[1..] == lines[1..] + tail;
      assert acc + (Added(texts[0]) + Joined(texts[1..])) == acc + Added(texts[0]) + Joined(texts[1..]);
    }
  }

  /** A line with a key, and the lines that continue its value. */
  datatype Spread = Spread(key: string, value: string, comment: string,
                           lines: seq<string>, texts: seq<string>, comments: seq<string>)

  ghost predicate SpreadOver(s: Spread, first: string) {
    Says(first, s.key + ['='] + s.value, s.comment) && '=' !in s.key && Continue(s.lines, s.texts, s.comments)
  }

  /** The entry read has the key, and the value with all the lines that continue it, in the order of
      the file, both without the white space around them. The lines that follow are read as if they
      came first. */
  lemma ScanContinued(s: Spread, first: string, tail: seq<string>, e: Entry)
    requires SpreadOver(s, first) && Ends(tail)
    requires Inner(s.key, e.key) && Inner(s.value + Joined(s.texts), e.raw)
    ensures Scan([first] + (s.lines + tail)) == [e] + Scan(tail)
  {
    KeyAndValue(first, s.key, s.value, s.comment);
    GatherJoins(s.value, s.lines, s.texts, s.comments, tail);
    TrimIff(s.key, e.key);
    TrimIff(s.value + Joined(s.texts), e.raw);
    assert ([first] + (s.lines + tail))[1..] == s.lines + tail;
  }

  /** A line without a key is passed over. */
  lemma ScanKeyless(line: string, text: string, comment: string, tail: seq<string>)
    requires Says(line, text, comment) && '=' !in text
    ensures Scan([line] + tail) == Scan(tail)
  {
    HasKeyIff(line, text, comment);
    assert ([line] + tail)[1..] == tail;
  }

  /** Reading a file that begins with such lines applies their entry and then reads the rest. */
  method ReadContinued(file: ConfigFile, s: Spread, first: string, tail: seq<string>, ghost e: Entry)
    returns (ok: bool)
    requires SpreadOver(s, first) && Ends(tail)
    requires Inner(s.key, e.key) && Inner(s.value + Joined(s.texts), e.raw)
    modifies file
    ensures match Apply(old(file.contents), e)
      case None => !ok
      case Some(c) =>
        (ok <==> ApplyAll(c, Scan(tail)).Some?) && (ok ==> Some(file.contents) == ApplyAll(c, Scan(tail)))
  {
    hide Apply, Scan, SpreadOver, Ends, Inner;
    ScanContinued(s, first, tail, e);
    assert ([e] + Scan(tail))[1..] == Scan(tail);
    ok := file.Read([first] + (s.lines + tail));
  }

  /** A file of one value, spread over any number of lines: the value is found under its key. */
  method ReadOneValue(file: ConfigFile, s: Spread, first: string, ghost path: Path, ghost raw: string)
    returns (ok: bool)
    requires SpreadOver(s, first) && path != [] && path[0].Sub? && PlainPath(path)
    requires Inner(s.key, path[0].name + Render(path[1..])) && Inner(s.value + Joined(s.texts), raw)
    modifies file
    ensures ok && Lookup(Top(file.contents), path) == Some(raw)
  {
    hide SpreadOver, Inner, PlainPath;
    ghost var leaf := Leaf(path, raw);
    ghost var w := Top(file.contents);
    ApplyAssigns(w, leaf);
    LookupAssigned(w, path, raw);
    AssignedTop(w, path, raw);
    hide Apply, Scan, Assign, Lookup;
    ok := ReadContinued(file, s, first, [], EntryOf(leaf));
    assert Scan([]) == [] by {
      NothingToScan();
    }
  }

  lemma NothingToScan()
    ensures Scan([]) == []
  {
  }

  /** An assignment below the top leaves a record at the top. */
  lemma AssignedTop(w: Value, path: Path, raw: string)
    requires w == Top(w.members) && path != [] && path[0].Sub?
    ensures Assign(w, path, raw) == Top(Assign(w, path, raw).members)
  {
  }

  /** The marks a key and a line are cut at. */
  lemma MarksOfLines()
    ensures [ARRAY_START, ARRAY_END, SUBKEY, ASSIGN, COMMENT] == "[].=#"
  {
  }

  // ------------------------------------------------------------------ indices

  lemma {:induction false} NumberIsValue(s: string)
    requires AllDigits(s)
    ensures IsAscii(s) && (forall i :: 0 <= i < |s| ==> IsDigit(Ascii(s)[i]))
    ensures NumberIn(s) == ValueOf(DigitsOf(Ascii(s)), Ten)
  {
    if s != "" {
      var front := s[..|s| - 1];
      NumberIsValue(front);
      assert DigitsOf(Ascii(s))[..|s| - 1] == DigitsOf(Ascii(front));
    }
  }

  /** A subscript is read as n if and only if it is a decimal numeral of n. */
  lemma IndexIff(s: string, n: nat)
    requires IsAscii(s)
    ensures ParseNumber(s) == Some(n) <==> Numeral(Ascii(s), n, Ten)
  {
    if s == "" {
      forall k: nat ensures !Written(Ascii(s), Zeros(k) + Places(n, Ten)) {
        assert |Zeros(k) + Places(n, Ten)| > 0;
      }
    } else {
      DecimalValueIff(Ascii(s), n);
      if AllDigits(s) {
        NumberIsValue(s);
      } else {
        var i :| 0 <= i < |s| && !('0' <= s[i] <= '9');
        assert Ascii(s)[i] == s[i] as int && !IsDigit(Ascii(s)[i]);
      }
    }
  }

  /** A written index has the places of its number, in decimal digits, and nothing before them. */
  lemma {:induction false} DecimalIsLiteral(n: nat)
    ensures |Decimal(n)| == |Places(n, Ten)|
    ensures forall i :: 0 <= i < |Decimal(n)| ==> Decimal(n)[i] == "0123456789"[Places(n, Ten)[i]]
  {
    if n >= 10 {
      DecimalIsLiteral(n / 10);
      assert DigitChar(n % 10) == "0123456789"[n % 10];
    } else {
      assert DigitChar(n) == "0123456789"[n];
    }
  }

  // ------------------------------------------------------------------ the order of names

  /** Names are written in the order of their first different characters, shorter ones first. */
  lemma {:induction false} BeforeIff(a: string, b: string)
    ensures Before(a, b) <==> a <= b || exists i :: DifferAt(a, b, i) && a[i] < b[i]
    decreases |a|
  {
    if a != "" && b != "" {
      if a[0] != b[0] {
        assert DifferAt(a, b, 0);
        assert forall i :: DifferAt(a, b, i) ==> i == 0;
      } else {
        BeforeIff(a[1..], b[1..]);
        assert a <= b <==> a[1..] <= b[1..];
        forall i | DifferAt(a, b, i) ensures i > 0 && DifferAt(a[1..], b[1..], i - 1) {
          assert forall j :: 0 <= j < i - 1 ==> a[1..][j] == a[j + 1];
        }
        forall i | DifferAt(a[1..], b[1..], i) ensures DifferAt(a, b, i + 1) {
          assert forall j :: 0 < j < i + 1 ==> a[j] == a[1..][j - 1] && b[j] == b[1..][j - 1];
        }
      }
    }
  }

  /** The texts agree before character i and differ there. */
  ghost predicate DifferAt(a: string, b: string, i: int) {
    0 <= i < |a| && i < |b| && (forall j :: 0 <= j < i ==> a[j] == b[j]) && a[i] != b[i]
  }
}
