/** Reading a configuration file and writing it back. */
module ConfigFiles {
  import opened Options
  import opened ConfigTree
  import opened ConfigText
  import opened ConfigOrder

  datatype Entry = Entry(key: string, raw: string)

  type Contents = map<string, Value>

  // ------------------------------------------------------------------ lines to entries

  predicate Blank(line: string) {
    Trim(line) == ""
  }

  predicate HasKey(line: string) {
    Find(StripComment(line), ASSIGN) < |StripComment(line)|
  }

  /** Joins the lines that continue a value: those up to a blank line or the next key. */
  function Gather(acc: string, lines: seq<string>): (r: (string, seq<string>))
    ensures |r.1| <= |lines|
    decreases |lines|
  {
    if lines == [] || Blank(lines[0]) || HasKey(lines[0]) then (acc, lines)
    else Gather(Continued(acc, lines[0]), lines[1..])
  }

  function Continued(acc: string, line: string): (s: string) {
    var text := StripComment(line);
    acc + (if Trim(text) != "" then "\n" else "") + text
  }

  function KeyPart(line: string): (s: string) {
    StripComment(line)[..Find(StripComment(line), ASSIGN)]
  }

  function ValuePart(line: string): (s: string)
    requires HasKey(line)
  {
    StripComment(line)[Find(StripComment(line), ASSIGN) + 1..]
  }

  /** The keys and values the lines of a file spell out. */
  function Scan(lines: seq<string>): (entries: seq<Entry>)
    decreases |lines|
  {
    if lines == [] then []
    else if !HasKey(lines[0]) then Scan(lines[1..])
    else
      var (text, rest) := Gather(ValuePart(lines[0]), lines[1..]);
      [Entry(Trim(KeyPart(lines[0])), Trim(text))] + Scan(rest)
  }

  // ------------------------------------------------------------------ entries to a tree

  function ValueAt(c: Contents, root: string): (v: Value) {
    if root in c then c[root] else FRESH
  }

  function Apply(c: Contents, e: Entry): (r: Option<Contents>) {
    var n := NameLength(e.key);
    var root := e.key[..n];
    match ParseKey(ValueAt(c, root), e.key[n..], e.raw)
    case None => None
    case Some(v) => Some(c[root := v])
  }

  function ApplyAll(c: Contents, entries: seq<Entry>): (r: Option<Contents>)
    decreases |entries|
  {
    if entries == [] then Some(c)
    else match Apply(c, entries[0])
      case None => None
      case Some(c') => ApplyAll(c', entries[1..])
  }

  lemma StripTwice(line: string)
    ensures StripComment(StripComment(line)) == StripComment(line)
  {
    FindAbsent(StripComment(line), COMMENT);
  }

  /** Looking at a line ahead of time, with its comment gone, does not change what it says. */
  lemma StrippedAhead(line: string, rest: seq<string>)
    ensures Scan([StripComment(line)] + rest) == Scan([line] + rest)
  {
    StripTwice(line);
    assert ([StripComment(line)] + rest)[1..] == rest && ([line] + rest)[1..] == rest;
  }

  lemma ScanStep(line: string, rest: seq<string>)
    ensures Scan([line] + rest) ==
      if !HasKey(line) then Scan(rest)
      else var (text, after) := Gather(ValuePart(line), rest); [Entry(Trim(KeyPart(line)), Trim(text))] + Scan(after)
  {
    assert ([line] + rest)[1..] == rest;
  }

  lemma {:induction false} TrimLeftKeeps(s: string, c: char)
    requires c in s && !IsSpace(c)
    ensures c in TrimLeft(s)
  {
    if IsSpace(s[0]) {
      TrimLeftKeeps(s[1..], c);
    }
  }

  lemma {:induction false} TrimRightKeeps(s: string, c: char)
    requires c in s && !IsSpace(c)
    ensures TrimRight(s) != ""
  {
    if IsSpace(s[|s| - 1]) {
      TrimRightKeeps(s[..|s| - 1], c);
    }
  }

  lemma BlankHasNoKey(line: string)
    requires Blank(line)
    ensures !HasKey(line)
  {
    if HasKey(line) {
      assert ASSIGN in line;
      TrimLeftKeeps(line, ASSIGN);
      TrimRightKeeps(TrimLeft(line), ASSIGN);
    }
  }

  // ------------------------------------------------------------------ the file

  class ConfigFile {
    var contents: Contents

    constructor ()
      ensures contents == map[]
    {
      contents := map[];
    }

    /** Reads newline-terminated lines. The look-ahead for continued values is a line already
        read but not yet used. */
    method Read(lines: seq<string>) returns (ok: bool)
      modifies this
      ensures ok <==> ApplyAll(old(contents), Scan(lines)).Some?
      ensures ok ==> Some(contents) == ApplyAll(old(contents), Scan(lines))
    {
      hide Gather, Apply, HasKey, KeyPart, ValuePart;
      var pos, ahead, good := 0, "", true;
      ghost var goal := ApplyAll(contents, Scan(lines));
      assert [] + lines[0..] == lines;
      while good || ahead != ""
        invariant 0 <= pos <= |lines| && (!good ==> pos == |lines|)
        invariant ApplyAll(contents, Scan((if ahead != "" then [ahead] else []) + lines[pos..])) == goal
        decreases |lines| - pos + (if ahead != "" then 1 else 0), good
      {
        var line := ahead;
        ghost var rest := lines[pos..];
        if ahead == "" {
          assert [] + lines[pos..] == lines[pos..];
          if pos == |lines| {
            good := false;
            continue;
          }
          line, pos := lines[pos], pos + 1;
          assert rest == [line] + lines[pos..];
        }
        ahead := "";
        ScanStep(line, lines[pos..]);
        assert [] + lines[pos..] == lines[pos..];
        if HasKey(line) {
          var text := ValuePart(line);
          text, pos, ahead, good := Continue(text, lines, pos);
          var entry := Entry(Trim(KeyPart(line)), Trim(text));
          ghost var entries := [entry] + Scan((if ahead != "" then [ahead] else []) + lines[pos..]);
          assert entries[1..] == Scan((if ahead != "" then [ahead] else []) + lines[pos..]);
          var r := Apply(contents, entry);
          if r.None? {
            return false;
          }
          contents := r.value;
        }
      }
      assert [] + lines[pos..] == [];
      return true;
    }
  }

  /** Reads the lines that continue a value, and one line too many. */
  method Continue(first: string, lines: seq<string>, from: nat)
    returns (text: string, pos: nat, ahead: string, good: bool)
    requires from <= |lines|
    ensures from <= pos <= |lines| && (!good ==> pos == |lines| && ahead == "")
    ensures ahead != "" ==> from < pos
    ensures var (t, rest) := Gather(first, lines[from..]);
      && text == t && Scan(rest) == Scan((if ahead != "" then [ahead] else []) + lines[pos..])
  {
    var terminate := false;
    text, pos, ahead, good := first, from, "", true;
    while !terminate && good
      invariant from <= pos <= |lines| && (!good ==> pos == |lines| && ahead == "")
      invariant ahead != "" ==> from < pos
      invariant !terminate ==> Gather(first, lines[from..]) == Gather(text, lines[pos..])
      invariant terminate || !good ==>
        var (t, rest) := Gather(first, lines[from..]);
        text == t && Scan(rest) == Scan((if ahead != "" then [ahead] else []) + lines[pos..])
      decreases |lines| - pos, good, !terminate
    {
      if pos == |lines| {
        good, ahead := false, "";
        assert [] + lines[pos..] == [];
        continue;
      }
      ghost var rest := lines[pos..];
      ahead, pos := lines[pos], pos + 1;
      assert rest == [ahead] + lines[pos..];
      if Blank(ahead) {
        terminate := true;
        BlankHasNoKey(ahead);
        ScanStep(ahead, lines[pos..]);
        assert [] + lines[pos..] == lines[pos..];
        continue;
      }
      StrippedAhead(ahead, lines[pos..]);
      if HasKey(ahead) {
        terminate := true;
        ahead := StripComment(ahead);
        continue;
      }
      text := Continued(text, ahead);
    }
  }

  // ------------------------------------------------------------------ writing

  /** The lines that describe a value whose key is given. */
  ghost function DumpValue(key: string, v: Value): (lines: seq<string>)
    decreases v, 1, 0
  {
    match v.kind
    case Unset => []
    case Raw => [key + [ASSIGN] + v.raw]
    case Array => DumpItems(key, v, 0)
    case Record => DumpMembers(key, v, v.members.Keys)
  }

  ghost function DumpItems(key: string, v: Value, i: nat): (lines: seq<string>)
    requires i <= |v.items|
    decreases v, 0, |v.items| - i
  {
    if i == |v.items| then []
    else DumpValue(key + [ARRAY_START] + Decimal(i) + [ARRAY_END], v.items[i]) + DumpItems(key, v, i + 1)
  }

  ghost function DumpMembers(key: string, v: Value, names: set<string>): (lines: seq<string>)
    requires names <= v.members.Keys
    decreases v, 0, |names|
  {
    if names == {} then []
    else
      var name := FirstName(names);
      DumpValue(key + [SUBKEY] + name, v.members[name]) + DumpMembers(key, v, names - {name})
  }

  /** All lines of a file, root by root in the order of a sorted map. */
  ghost function Dump(c: Contents, names: set<string>): (lines: seq<string>)
    requires names <= c.Keys
    decreases |names|
  {
    if names == {} then []
    else var name := FirstName(names); DumpValue(name, c[name]) + Dump(c, names - {name})
  }

  function LineOf(key: string, leaf: Leaf): (line: string) {
    key + Render(leaf.path) + [ASSIGN] + leaf.raw
  }

  function LinesOf(key: string, leaves: seq<Leaf>): (lines: seq<string>)
    ensures |lines| == |leaves|
  {
    seq(|leaves|, i requires 0 <= i < |leaves| => LineOf(key, leaves[i]))
  }

  lemma RenderUnder(seg: Segment, path: Path)
    ensures Render([seg] + path) == RenderSegment(seg) + Render(path)
  {
    assert ([seg] + path)[1..] == path;
  }

  lemma LineUnder(key: string, seg: Segment, leaf: Leaf)
    ensures LineOf(key + RenderSegment(seg), leaf) == LineOf(key, Leaf([seg] + leaf.path, leaf.raw))
  {
    hide Render, RenderSegment;
    RenderUnder(seg, leaf.path);
    var a, b := RenderSegment(seg), Render(leaf.path);
    assert (key + a) + b == key + (a + b);
  }

  lemma LinesUnder(key: string, seg: Segment, leaves: seq<Leaf>)
    ensures LinesOf(key + RenderSegment(seg), leaves) == LinesOf(key, Under(seg, leaves))
  {
    hide LineOf, RenderSegment;
    forall i | 0 <= i < |leaves|
      ensures LineOf(key + RenderSegment(seg), leaves[i]) == LineOf(key, Under(seg, leaves)[i])
    {
      LineUnder(key, seg, leaves[i]);
    }
  }

  lemma LinesConcat(key: string, a: seq<Leaf>, b: seq<Leaf>)
    ensures LinesOf(key, a + b) == LinesOf(key, a) + LinesOf(key, b)
  {
  }

  /** What is written for a value is one line for each of its leaves. */
  lemma {:induction false} DumpIsLeaves(key: string, v: Value)
    ensures DumpValue(key, v) == LinesOf(key, Leaves(v))
    decreases v, 1, 0
  {
    match v.kind {
      case Unset =>
      case Raw =>
        assert key + Render([]) == key;
        assert LineOf(key, Leaf([], v.raw)) == key + [ASSIGN] + v.raw;
      case Array => DumpItemsIsLeaves(key, v, 0);
      case Record => DumpMembersIsLeaves(key, v, v.members.Keys);
    }
  }

  lemma {:induction false} DumpItemsIsLeaves(key: string, v: Value, i: nat)
    requires i <= |v.items|
    ensures DumpItems(key, v, i) == LinesOf(key, ArrayLeaves(v, i))
    decreases v, 0, |v.items| - i
  {
    if i < |v.items| {
      var leaves := Leaves(v.items[i]);
      var key' := key + [ARRAY_START] + Decimal(i) + [ARRAY_END];
      assert key' == key + RenderSegment(Index(i));
      DumpIsLeaves(key', v.items[i]);
      LinesUnder(key, Index(i), leaves);
      DumpItemsIsLeaves(key, v, i + 1);
      LinesConcat(key, Under(Index(i), leaves), ArrayLeaves(v, i + 1));
    }
  }

  lemma {:induction false} DumpMembersIsLeaves(key: string, v: Value, names: set<string>)
    requires names <= v.members.Keys
    ensures DumpMembers(key, v, names) == LinesOf(key, RecordLeaves(v, names))
    decreases v, 0, |names|
  {
    if names != {} {
      var name := FirstName(names);
      var leaves := Leaves(v.members[name]);
      var key' := key + [SUBKEY] + name;
      assert key' == key + RenderSegment(Sub(name));
      DumpIsLeaves(key', v.members[name]);
      LinesUnder(key, Sub(name), leaves);
      DumpMembersIsLeaves(key, v, names - {name});
      LinesConcat(key, Under(Sub(name), leaves), RecordLeaves(v, names - {name}));
    }
  }

  // ------------------------------------------------------------------ reading what was written

  /** Trees whose names and values the text can hold. */
  ghost predicate Plain(v: Value)
    decreases v
  {
    match v.kind
    case Unset => true
    case Raw => PlainValue(v.raw)
    case Array => forall i :: 0 <= i < |v.items| ==> Plain(v.items[i])
    case Record => forall n :: n in v.members ==> PlainName(n) && Plain(v.members[n])
  }

  ghost predicate PlainLeaf(leaf: Leaf) {
    PlainPath(leaf.path) && PlainValue(leaf.raw)
  }

  ghost predicate PlainLeaves(leaves: seq<Leaf>) {
    forall i :: 0 <= i < |leaves| ==> PlainLeaf(leaves[i])
  }

  lemma PlainUnder(seg: Segment, leaves: seq<Leaf>)
    requires PlainLeaves(leaves) && (seg.Sub? ==> PlainName(seg.name))
    ensures PlainLeaves(Under(seg, leaves))
  {
    hide PlainName, PlainValue;
    forall i | 0 <= i < |leaves|
      ensures PlainLeaf(Under(seg, leaves)[i])
    {
      assert PlainLeaf(leaves[i]);
    }
  }

  lemma {:induction false} LeavesArePlain(v: Value)
    requires Plain(v)
    ensures PlainLeaves(Leaves(v))
    decreases v, 1, 0
  {
    hide PlainName, PlainValue;
    match v.kind {
      case Unset =>
      case Raw =>
      case Array => ItemLeavesArePlain(v, 0);
      case Record => MemberLeavesArePlain(v, v.members.Keys);
    }
  }

  lemma {:induction false} ItemLeavesArePlain(v: Value, i: nat)
    requires Plain(v) && v.kind == Array && i <= |v.items|
    ensures PlainLeaves(ArrayLeaves(v, i))
    decreases v, 0, |v.items| - i
  {
    hide PlainLeaf;
    if i < |v.items| {
      LeavesArePlain(v.items[i]);
      PlainUnder(Index(i), Leaves(v.items[i]));
      ItemLeavesArePlain(v, i + 1);
    }
  }

  lemma {:induction false} MemberLeavesArePlain(v: Value, names: set<string>)
    requires Plain(v) && v.kind == Record && names <= v.members.Keys
    ensures PlainLeaves(RecordLeaves(v, names))
    decreases v, 0, |names|
  {
    hide PlainLeaf;
    if names != {} {
      var name := FirstName(names);
      LeavesArePlain(v.members[name]);
      PlainUnder(Sub(name), Leaves(v.members[name]));
      MemberLeavesArePlain(v, names - {name});
    }
  }

  /** No character of a rendered path is a line's own syntax. */
  lemma {:induction false} RenderIsClean(path: Path, c: char)
    requires PlainPath(path) && (c == ASSIGN || c == COMMENT || c == '\n')
    ensures c !in Render(path)
    decreases |path|
  {
    if path != [] {
      RenderIsClean(path[1..], c);
      assert c !in RenderSegment(path[0]);
    }
  }

  lemma {:induction false} RenderEnds(path: Path)
    requires PlainPath(path)
    ensures Render(path) == "" || !IsSpace(Render(path)[|Render(path)| - 1])
    decreases |path|
  {
    if path != [] {
      RenderEnds(path[1..]);
    }
  }

  lemma KeyIsTrimmed(root: string, path: Path)
    requires Trimmed(root) && PlainPath(path)
    ensures Trimmed(root + Render(path))
  {
    RenderStarts(path);
    RenderEnds(path);
  }

  /** A line that starts with a clean key and holds no comment. */
  ghost predicate CleanLine(line: string, e: Entry) {
    && line == e.key + [ASSIGN] + e.raw && ASSIGN !in e.key && COMMENT !in line
    && Trimmed(e.key) && Trimmed(e.raw)
  }

  lemma CleanLineParts(line: string, e: Entry)
    requires CleanLine(line, e)
    ensures HasKey(line) && !Blank(line) && KeyPart(line) == e.key && ValuePart(line) == e.raw
  {
    FindAbsent(line, COMMENT);
    assert StripComment(line) == line;
    FindIn(e.key, ASSIGN, e.raw);
    if Blank(line) {
      BlankHasNoKey(line);
    }
  }

  /** Lines each of which has a key are read one entry a line. */
  lemma {:induction false} ScanClean(lines: seq<string>, entries: seq<Entry>)
    requires |lines| == |entries| && forall i :: 0 <= i < |lines| ==> CleanLine(lines[i], entries[i])
    ensures Scan(lines) == entries
    decreases |lines|
  {
    hide CleanLine, HasKey, Blank, KeyPart, ValuePart, Trim;
    if lines != [] {
      CleanLineParts(lines[0], entries[0]);
      if |lines| > 1 {
        CleanLineParts(lines[1], entries[1]);
      }
      ScanClean(lines[1..], entries[1..]);
      CleanLineTrim(lines[0], entries[0]);
      assert entries == [entries[0]] + entries[1..];
    }
  }

  lemma CleanLineTrim(line: string, e: Entry)
    requires CleanLine(line, e)
    ensures Trim(e.key) == e.key && Trim(e.raw) == e.raw
  {
    TrimmedIsFixed(e.key);
    TrimmedIsFixed(e.raw);
  }

  // ------------------------------------------------------------------ the whole file

  /** A leaf below a root: its path starts with the root's name. */
  predicate Rooted(leaf: Leaf) {
    leaf.path != [] && leaf.path[0].Sub?
  }

  function EntryOf(leaf: Leaf): (e: Entry)
    requires Rooted(leaf)
  {
    Entry(leaf.path[0].name + Render(leaf.path[1..]), leaf.raw)
  }

  ghost predicate AllRooted(leaves: seq<Leaf>) {
    forall i :: 0 <= i < |leaves| ==> Rooted(leaves[i]) && PlainLeaf(leaves[i])
  }

  ghost function EntriesOf(leaves: seq<Leaf>): (entries: seq<Entry>)
    requires AllRooted(leaves)
    ensures |entries| == |leaves|
  {
    seq(|leaves|, i requires 0 <= i < |leaves| => EntryOf(leaves[i]))
  }

  function RootLine(e: Entry): (line: string) {
    e.key + [ASSIGN] + e.raw
  }

  lemma EntryIsClean(leaf: Leaf)
    requires Rooted(leaf) && PlainLeaf(leaf)
    ensures CleanLine(RootLine(EntryOf(leaf)), EntryOf(leaf))
  {
    var root, rest := leaf.path[0].name, leaf.path[1..];
    assert PlainName(root);
    RenderIsClean(rest, ASSIGN);
    RenderIsClean(rest, COMMENT);
    KeyIsTrimmed(root, rest);
  }

  /** Applying the entry of a leaf is assigning the leaf below the top of the tree. */
  lemma ApplyAssigns(w: Value, leaf: Leaf)
    requires Rooted(leaf) && PlainPath(leaf.path)
    ensures Apply(w.members, EntryOf(leaf)) == Some(Assign(w, leaf.path, leaf.raw).members)
  {
    var root, rest := leaf.path[0].name, leaf.path[1..];
    var key := root + Render(rest);
    assert PlainName(root);
    RenderStarts(rest);
    NameEnds(root, Render(rest));
    assert key[..|root|] == root && key[|root|..] == Render(rest);
    PathRoundTrip(rest);
    ParseKeyAssigns(ValueAt(w.members, root), Render(rest), leaf.raw);
  }

  lemma {:induction false} ApplyAllAssigns(w: Value, leaves: seq<Leaf>)
    requires AllRooted(leaves)
    ensures ApplyAll(w.members, EntriesOf(leaves)) == Some(AssignAll(w, leaves).members)
    decreases |leaves|
  {
    hide Apply, Assign, PlainPath, PlainValue, Rooted;
    if leaves != [] {
      ApplyAssigns(w, leaves[0]);
      ApplyAllAssigns(Assign(w, leaves[0].path, leaves[0].raw), leaves[1..]);
      assert EntriesOf(leaves)[1..] == EntriesOf(leaves[1..]);
    }
  }

  ghost predicate Writable(c: Contents) {
    forall n :: n in c ==> PlainName(n) && Plain(c[n]) && Whole(c[n])
  }

  /** The roots of a file as the members of one record. */
  function Top(c: Contents): (v: Value) {
    Value(Record, "", [], c)
  }

  ghost predicate Matches(lines: seq<string>, leaves: seq<Leaf>) {
    && |lines| == |leaves|
    && forall i :: 0 <= i < |lines| ==> Rooted(leaves[i]) && lines[i] == RootLine(EntryOf(leaves[i]))
  }

  lemma RootMatches(name: string, v: Value)
    ensures Matches(DumpValue(name, v), Under(Sub(name), Leaves(v)))
  {
    DumpIsLeaves(name, v);
    var leaves := Leaves(v);
    forall i | 0 <= i < |leaves|
      ensures LineOf(name, leaves[i]) == RootLine(EntryOf(Under(Sub(name), leaves)[i]))
    {
      assert ([Sub(name)] + leaves[i].path)[1..] == leaves[i].path;
    }
  }

  /** A file is written one line for each leaf below each root. */
  lemma {:induction false} DumpMatches(c: Contents, names: set<string>)
    requires names <= c.Keys
    ensures Matches(Dump(c, names), RecordLeaves(Top(c), names))
    decreases |names|
  {
    hide DumpValue, Leaves;
    if names != {} {
      var name := FirstName(names);
      RootMatches(name, c[name]);
      DumpMatches(c, names - {name});
    }
  }

  /** Reading back a written file rebuilds the same contents. */
  lemma RoundTrip(c: Contents)
    requires Writable(c)
    ensures ApplyAll(map[], Scan(Dump(c, c.Keys))) == Some(c)
  {
    hide DumpValue, Leaves, PlainName, Plain;
    if c == map[] {
      assert Dump(c, c.Keys) == [];
    } else {
      var top := Top(c);
      var leaves, lines := RecordLeaves(top, c.Keys), Dump(c, c.Keys);
      DumpMatches(c, c.Keys);
      TopIsPlain(c);
      MemberLeavesArePlain(top, c.Keys);
      var entries := EntriesOf(leaves);
      forall i | 0 <= i < |lines|
        ensures CleanLine(lines[i], entries[i])
      {
        EntryIsClean(leaves[i]);
      }
      ScanClean(lines, entries);
      ApplyAllAssigns(FRESH, leaves);
      assert c - c.Keys == map[];
      RebuildRecord(top, c.Keys, FRESH);
    }
  }

  lemma TopIsPlain(c: Contents)
    requires Writable(c) && c != map[]
    ensures Plain(Top(c)) && Whole(Top(c))
  {
  }

  /** One line for each leaf. */
  ghost function LinesFor(leaves: seq<Leaf>): (lines: seq<string>)
    requires AllRooted(leaves)
    ensures |lines| == |leaves|
  {
    seq(|leaves|, i requires 0 <= i < |leaves| => RootLine(EntryOf(leaves[i])))
  }

  lemma ReadLines(c: Contents, leaves: seq<Leaf>)
    requires AllRooted(leaves)
    ensures ApplyAll(c, Scan(LinesFor(leaves))) == Some(AssignAll(Top(c), leaves).members)
  {
    hide CleanLine, PlainLeaf, Rooted;
    var lines, entries := LinesFor(leaves), EntriesOf(leaves);
    forall i | 0 <= i < |lines|
      ensures CleanLine(lines[i], entries[i])
    {
      EntryIsClean(leaves[i]);
    }
    ScanClean(lines, entries);
    ApplyAllAssigns(Top(c), leaves);
  }

  /** The lines of a file that assign to diverging paths may come in any order. */
  lemma AnyOrder(c: Contents, a: seq<Leaf>, b: seq<Leaf>)
    requires AllRooted(a) && AllRooted(b) && AllDiverge(a) && AllDiverge(b) && multiset(a) == multiset(b)
    ensures ApplyAll(c, Scan(LinesFor(a))) == ApplyAll(c, Scan(LinesFor(b)))
  {
    hide PlainLeaf, Rooted, Diverge;
    ReadLines(c, a);
    ReadLines(c, b);
    OrderFree(Top(c), a, b);
  }
}
