/** The text of a configuration file: how lines are cut into keys and values, how keys name
    paths, and how a tree is written out. */
module ConfigText {
  import opened Options
  import opened ConfigTree

  const ARRAY_START: char := '['
  const ARRAY_END: char := ']'
  const SUBKEY: char := '.'
  const ASSIGN: char := '='
  const COMMENT: char := '#'

  // ------------------------------------------------------------------ strings

  predicate IsSpace(c: char) {
    c == ' ' || 9 <= c as int <= 13
  }

  function TrimLeft(s: string): (t: string) {
    if s != "" && IsSpace(s[0]) then TrimLeft(s[1..]) else s
  }

  function TrimRight(s: string): (t: string) {
    if s != "" && IsSpace(s[|s| - 1]) then TrimRight(s[..|s| - 1]) else s
  }

  function Trim(s: string): (t: string) {
    TrimRight(TrimLeft(s))
  }

  predicate Trimmed(s: string) {
    s == "" || (!IsSpace(s[0]) && !IsSpace(s[|s| - 1]))
  }

  lemma TrimmedIsFixed(s: string)
    requires Trimmed(s)
    ensures Trim(s) == s
  {
  }

  /** The position of the first c, or the length of s. */
  function Find(s: string, c: char): (i: nat)
    ensures i <= |s|
    ensures i < |s| ==> s[i] == c
    ensures c !in s[..i]
  {
    if s == "" || s[0] == c then 0
    else
      assert s[1..][..Find(s[1..], c)] == s[1..1 + Find(s[1..], c)];
      assert s[..1 + Find(s[1..], c)] == [s[0]] + s[1..1 + Find(s[1..], c)];
      1 + Find(s[1..], c)
  }

  lemma FindIn(a: string, c: char, b: string)
    requires c !in a
    ensures Find(a + [c] + b, c) == |a|
  {
    var s := a + [c] + b;
    assert s[..|a|] == a && s[|a|] == c;
    assert forall i :: 0 <= i < |a| ==> s[i] in a;
  }

  lemma FindAbsent(s: string, c: char)
    requires c !in s
    ensures Find(s, c) == |s|
  {
  }

  function StripComment(line: string): (s: string) {
    line[..Find(line, COMMENT)]
  }

  // ------------------------------------------------------------------ decimal numerals

  predicate AllDigits(s: string) {
    forall i :: 0 <= i < |s| ==> '0' <= s[i] <= '9'
  }

  function DigitChar(n: nat): (c: char)
    requires n < 10
    ensures '0' <= c <= '9' && c as int - '0' as int == n
  {
    ('0' as int + n) as char
  }

  function Decimal(n: nat): (s: string)
    ensures s != "" && AllDigits(s) && NumberIn(s) == n
  {
    if n < 10 then [DigitChar(n)]
    else
      var front := Decimal(n / 10);
      var s := front + [DigitChar(n % 10)];
      assert s[..|s| - 1] == front;
      s
  }

  function NumberIn(s: string): (n: nat)
    requires AllDigits(s)
  {
    if s == "" then 0 else 10 * NumberIn(s[..|s| - 1]) + (s[|s| - 1] as int - '0' as int)
  }

  function ParseNumber(s: string): (n: Option<nat>) {
    if s != "" && AllDigits(s) then Some(NumberIn(s)) else None
  }

  // ------------------------------------------------------------------ keys

  /** Cuts a key at the first delimiter of a subscript or a member. */
  function NameLength(key: string): (n: nat)
    ensures n <= |key|
  {
    if key == "" || key[0] == ARRAY_START || key[0] == SUBKEY then 0 else 1 + NameLength(key[1..])
  }

  /** What the rest of a key names. Where the index of a subscript is malformed the original goes
      on with an uninitialised number, and there is no result. */
  function PathOf(key: string): (p: Option<Path>)
    decreases |key|
  {
    if key == "" then Some([])
    else if key[0] == ARRAY_START then
      var pos := Find(key[1..], ARRAY_END);
      if pos == |key| - 1 then None
      else
        var rest := PathOf(key[pos + 2..]);
        match ParseNumber(key[1..pos + 1])
        case None => None
        case Some(n) => if rest.None? then None else Some([Index(n)] + rest.value)
    else if key[0] == SUBKEY then
      var n := NameLength(key[1..]);
      var rest := PathOf(key[1 + n..]);
      if rest.None? then None else Some([Sub(key[1..1 + n])] + rest.value)
    else Some([])
  }

  /** Assigns to a value the way the recursive descent over the key does. */
  function ParseKey(v: Value, key: string, raw: string): (w: Option<Value>)
    decreases |key|
  {
    if key != "" && key[0] == ARRAY_START then
      var pos := Find(key[1..], ARRAY_END);
      if pos == |key| - 1 then None
      else
        match ParseNumber(key[1..pos + 1])
        case None => None
        case Some(n) =>
          var g := Grow(v.items, n);
          match ParseKey(g[n], key[pos + 2..], raw)
          case None => None
          case Some(x) => Some(v.(kind := Array, items := g[n := x]))
    else if key != "" && key[0] == SUBKEY then
      var n := NameLength(key[1..]);
      var name := key[1..1 + n];
      match ParseKey(SubOf(v, name), key[1 + n..], raw)
      case None => None
      case Some(x) => Some(v.(kind := Record, members := v.members[name := x]))
    else Some(v.(kind := Raw, raw := raw))
  }

  /** The recursive descent is assignment to the path the key names. */
  lemma {:induction false} ParseKeyAssigns(v: Value, key: string, raw: string)
    ensures ParseKey(v, key, raw) == match PathOf(key) case None => None case Some(p) => Some(Assign(v, p, raw))
    decreases |key|
  {
    if key != "" && key[0] == ARRAY_START {
      var pos := Find(key[1..], ARRAY_END);
      if pos != |key| - 1 && ParseNumber(key[1..pos + 1]).Some? {
        var n := ParseNumber(key[1..pos + 1]).value;
        ParseKeyAssigns(Grow(v.items, n)[n], key[pos + 2..], raw);
        var rest := PathOf(key[pos + 2..]);
        if rest.Some? {
          assert ([Index(n)] + rest.value)[1..] == rest.value;
        }
      }
    } else if key != "" && key[0] == SUBKEY {
      var n := NameLength(key[1..]);
      ParseKeyAssigns(SubOf(v, key[1..1 + n]), key[1 + n..], raw);
      var rest := PathOf(key[1 + n..]);
      if rest.Some? {
        assert ([Sub(key[1..1 + n])] + rest.value)[1..] == rest.value;
      }
    }
  }

  // ------------------------------------------------------------------ writing paths

  function RenderSegment(seg: Segment): (s: string) {
    match seg
    case Index(n) => [ARRAY_START] + Decimal(n) + [ARRAY_END]
    case Sub(name) => [SUBKEY] + name
  }

  function Render(path: Path): (s: string) {
    if path == [] then "" else RenderSegment(path[0]) + Render(path[1..])
  }

  /** Names that can be told apart from the syntax around them. */
  predicate PlainName(name: string) {
    && Trimmed(name)
    && ARRAY_START !in name && SUBKEY !in name && ASSIGN !in name && COMMENT !in name && '\n' !in name
  }

  predicate PlainValue(raw: string) {
    Trimmed(raw) && COMMENT !in raw && '\n' !in raw
  }

  ghost predicate PlainPath(path: Path) {
    forall i :: 0 <= i < |path| && path[i].Sub? ==> PlainName(path[i].name)
  }

  predicate StartsSegment(s: string) {
    s == "" || s[0] == ARRAY_START || s[0] == SUBKEY
  }

  lemma RenderStarts(path: Path)
    ensures StartsSegment(Render(path))
  {
  }

  lemma {:induction false} NameEnds(name: string, rest: string)
    requires ARRAY_START !in name && SUBKEY !in name && StartsSegment(rest)
    ensures NameLength(name + rest) == |name|
    decreases |name|
  {
    if name == "" {
      assert name + rest == rest;
    } else {
      assert (name + rest)[1..] == name[1..] + rest;
      assert name[0] in name;
      NameEnds(name[1..], rest);
    }
  }

  lemma DigitsHaveNoBracket(s: string)
    requires AllDigits(s)
    ensures ARRAY_END !in s
  {
  }

  lemma ReadIndex(n: nat, tail: string, rest: Path)
    requires PathOf(tail) == Some(rest)
    ensures PathOf(RenderSegment(Index(n)) + tail) == Some([Index(n)] + rest)
  {
    var d := Decimal(n);
    var key := RenderSegment(Index(n)) + tail;
    DigitsHaveNoBracket(d);
    assert key[1..] == d + [ARRAY_END] + tail;
    FindIn(d, ARRAY_END, tail);
    assert key[1..|d| + 1] == d && key[|d| + 2..] == tail;
  }

  lemma ReadSub(name: string, tail: string, rest: Path)
    requires PathOf(tail) == Some(rest) && StartsSegment(tail) && ARRAY_START !in name && SUBKEY !in name
    ensures PathOf(RenderSegment(Sub(name)) + tail) == Some([Sub(name)] + rest)
  {
    var key := RenderSegment(Sub(name)) + tail;
    assert key[1..] == name + tail;
    NameEnds(name, tail);
    assert key[1..1 + |name|] == name && key[1 + |name|..] == tail;
  }

  /** Reading a written path gives the path back, indices included. */
  lemma {:induction false} PathRoundTrip(path: Path)
    requires PlainPath(path)
    ensures PathOf(Render(path)) == Some(path)
    decreases |path|
  {
    hide PathOf, RenderSegment;
    if path == [] {
      NoPath();
    } else {
      var seg, rest := path[0], path[1..];
      PathRoundTrip(rest);
      RenderStarts(rest);
      assert [seg] + rest == path;
      match seg
      case Index(n) => ReadIndex(n, Render(rest), rest);
      case Sub(name) => ReadSub(name, Render(rest), rest);
    }
  }

  lemma NoPath()
    ensures PathOf("") == Some([])
  {
  }
}
