/** The tree of a configuration file, and assignments to its leaves. */
module ConfigTree {

  /** What a value currently is; Unset until something is assigned to it. */
  datatype Kind = Unset | Raw | Array | Record

  /** A value carries the storage for every kind; only its kind says which is current. */
  datatype Value = Value(kind: Kind, raw: string, items: seq<Value>, members: map<string, Value>)

  const FRESH: Value := Value(Unset, "", [], map[])

  datatype Segment = Index(n: nat) | Sub(name: string)
  type Path = seq<Segment>

  /** One line of a configuration: a path and the raw value assigned to it. */
  datatype Leaf = Leaf(path: Path, raw: string)

  function Grow(a: seq<Value>, n: nat): (g: seq<Value>)
    ensures |g| > n && |g| >= |a|
    ensures forall i :: 0 <= i < |a| ==> g[i] == a[i]
    ensures forall i :: |a| <= i < |g| ==> g[i] == FRESH
    ensures |a| > n ==> g == a
  {
    if |a| > n then a else a + seq(n + 1 - |a|, i => FRESH)
  }

  function SubOf(v: Value, name: string): (w: Value) {
    if name in v.members then v.members[name] else FRESH
  }

  /** Assigning a raw value to a path: kinds follow the path, missing parts are created. */
  function Assign(v: Value, path: Path, raw: string): (w: Value)
    decreases |path|
  {
    if path == [] then v.(kind := Raw, raw := raw)
    else match path[0]
      case Index(n) =>
        var g := Grow(v.items, n);
        v.(kind := Array, items := g[n := Assign(g[n], path[1..], raw)])
      case Sub(name) =>
        v.(kind := Record, members := v.members[name := Assign(SubOf(v, name), path[1..], raw)])
  }

  function AssignAll(v: Value, leaves: seq<Leaf>): (w: Value)
    decreases |leaves|
  {
    if leaves == [] then v else AssignAll(Assign(v, leaves[0].path, leaves[0].raw), leaves[1..])
  }

  function Under(seg: Segment, leaves: seq<Leaf>): (r: seq<Leaf>)
    ensures |r| == |leaves|
  {
    seq(|leaves|, i requires 0 <= i < |leaves| => Leaf([seg] + leaves[i].path, leaves[i].raw))
  }

  // ------------------------------------------------------------------ the order of record names

  predicate Before(a: string, b: string)
    decreases |a|
  {
    if a == [] then true
    else if b == [] then false
    else if a[0] != b[0] then a[0] < b[0]
    else Before(a[1..], b[1..])
  }

  lemma {:induction false} BeforeTotal(a: string, b: string)
    ensures Before(a, b) || Before(b, a)
    decreases |a|
  {
    if a != [] && b != [] && a[0] == b[0] {
      BeforeTotal(a[1..], b[1..]);
    }
  }

  lemma {:induction false} BeforeTransitive(a: string, b: string, c: string)
    requires Before(a, b) && Before(b, c)
    ensures Before(a, c)
    decreases |a|
  {
    if a != [] && b != [] && c != [] && a[0] == b[0] == c[0] {
      BeforeTransitive(a[1..], b[1..], c[1..]);
    }
  }

  lemma {:induction false} FirstExists(names: set<string>) returns (first: string)
    requires names != {}
    ensures first in names && forall n :: n in names ==> Before(first, n)
    decreases |names|
  {
    var x :| x in names;
    if names == {x} {
      BeforeTotal(x, x);
      first := x;
    } else {
      var rest := names - {x};
      var y := FirstExists(rest);
      BeforeTotal(x, y);
      BeforeTotal(x, x);
      first := if Before(x, y) then x else y;
      forall n | n in names
        ensures Before(first, n)
      {
        if n != x && first == x {
          BeforeTransitive(x, y, n);
        }
      }
    }
  }

  /** The name a sorted map lists first. */
  ghost function FirstName(names: set<string>): (first: string)
    requires names != {}
    ensures first in names
  {
    FirstNameExists(names);
    var first :| first in names && forall n :: n in names ==> Before(first, n);
    first
  }

  lemma FirstNameExists(names: set<string>)
    requires names != {}
    ensures exists first :: first in names && forall n :: n in names ==> Before(first, n)
  {
    var first := FirstExists(names);
  }

  // ------------------------------------------------------------------ the leaves of a tree

  /** The lines that describe a value, in the order they are written. */
  ghost function Leaves(v: Value): (leaves: seq<Leaf>)
    decreases v, 1, 0
  {
    match v.kind
    case Unset => []
    case Raw => [Leaf([], v.raw)]
    case Array => ArrayLeaves(v, 0)
    case Record => RecordLeaves(v, v.members.Keys)
  }

  ghost function ArrayLeaves(v: Value, i: nat): (leaves: seq<Leaf>)
    requires i <= |v.items|
    decreases v, 0, |v.items| - i
  {
    if i == |v.items| then [] else Under(Index(i), Leaves(v.items[i])) + ArrayLeaves(v, i + 1)
  }

  ghost function RecordLeaves(v: Value, names: set<string>): (leaves: seq<Leaf>)
    requires names <= v.members.Keys
    decreases v, 0, |names|
  {
    if names == {} then []
    else
      var name := FirstName(names);
      Under(Sub(name), Leaves(v.members[name])) + RecordLeaves(v, names - {name})
  }

  /** Trees in which every value uses only the storage of its kind and no array or record is empty. */
  ghost predicate Whole(v: Value)
    decreases v
  {
    match v.kind
    case Unset => false
    case Raw => v.items == [] && v.members == map[]
    case Array => v.raw == "" && v.members == map[] && v.items != [] && forall i :: 0 <= i < |v.items| ==> Whole(v.items[i])
    case Record => v.raw == "" && v.items == [] && v.members != map[] && forall n :: n in v.members ==> Whole(v.members[n])
  }

  lemma {:induction false} AssignConcat(v: Value, a: seq<Leaf>, b: seq<Leaf>)
    ensures AssignAll(v, a + b) == AssignAll(AssignAll(v, a), b)
    decreases |a|
  {
    if a == [] {
      assert a + b == b;
    } else {
      assert (a + b)[1..] == a[1..] + b;
      AssignConcat(Assign(v, a[0].path, a[0].raw), a[1..], b);
    }
  }

  lemma AssignUnder(v: Value, seg: Segment, leaf: Leaf)
    ensures var p := [seg] + leaf.path; p[0] == seg && p[1..] == leaf.path
  {
  }

  /** Assigning below one index touches that element only. */
  lemma {:induction false} AssignAtIndex(v: Value, n: nat, leaves: seq<Leaf>)
    requires leaves != []
    ensures AssignAll(v, Under(Index(n), leaves))
         == var g := Grow(v.items, n); v.(kind := Array, items := g[n := AssignAll(g[n], leaves)])
    decreases |leaves|
  {
    var under := Under(Index(n), leaves);
    var leaf := leaves[0];
    AssignUnder(v, Index(n), leaf);
    var w := Assign(v, under[0].path, under[0].raw);
    assert under[1..] == Under(Index(n), leaves[1..]);
    if |leaves| > 1 {
      AssignAtIndex(w, n, leaves[1..]);
    }
  }

  /** Assigning below one name touches that member only. */
  lemma {:induction false} AssignAtName(v: Value, name: string, leaves: seq<Leaf>)
    requires leaves != []
    ensures AssignAll(v, Under(Sub(name), leaves))
         == v.(kind := Record, members := v.members[name := AssignAll(SubOf(v, name), leaves)])
    decreases |leaves|
  {
    var under := Under(Sub(name), leaves);
    var leaf := leaves[0];
    AssignUnder(v, Sub(name), leaf);
    var w := Assign(v, under[0].path, under[0].raw);
    assert under[1..] == Under(Sub(name), leaves[1..]);
    if |leaves| > 1 {
      AssignAtName(w, name, leaves[1..]);
    }
  }

  lemma {:induction false} LeavesExist(v: Value)
    requires Whole(v)
    ensures Leaves(v) != []
    decreases v
  {
    match v.kind {
      case Raw =>
      case Array => LeavesExist(v.items[0]);
      case Record => LeavesExist(v.members[FirstName(v.members.Keys)]);
    }
  }

  /** Assigning the leaves of a tree to a fresh value builds that tree. */
  lemma {:induction false} Rebuild(v: Value)
    requires Whole(v)
    ensures AssignAll(FRESH, Leaves(v)) == v
    decreases v, 1, 0
  {
    match v.kind {
      case Raw =>
      case Array =>
        RebuildArray(v, 0, FRESH);
      case Record =>
        assert v.members == map n | n in v.members && n !in {} :: v.members[n];
        RebuildRecord(v, v.members.Keys, FRESH);
    }
  }

  lemma {:induction false} RebuildArray(v: Value, i: nat, w: Value)
    requires Whole(v) && v.kind == Array && i <= |v.items|
    requires w == Value(if i == 0 then Unset else Array, "", v.items[..i], map[])
    ensures AssignAll(w, ArrayLeaves(v, i)) == v
    decreases v, 0, |v.items| - i
  {
    if i == |v.items| {
      assert v.items[..i] == v.items;
    } else {
      var x := v.items[i];
      Rebuild(x);
      LeavesExist(x);
      AssignAtIndex(w, i, Leaves(x));
      var g := Grow(w.items, i);
      assert g[i := x] == v.items[..i + 1];
      AssignConcat(w, Under(Index(i), Leaves(x)), ArrayLeaves(v, i + 1));
      RebuildArray(v, i + 1, w.(kind := Array, items := v.items[..i + 1]));
    }
  }

  lemma {:induction false} RebuildRecord(v: Value, names: set<string>, w: Value)
    requires Whole(v) && v.kind == Record && names <= v.members.Keys
    requires w == Value(if names == v.members.Keys then Unset else Record, "", [], v.members - names)
    ensures AssignAll(w, RecordLeaves(v, names)) == v
    decreases v, 0, |names|
  {
    if names == {} {
      assert v.members - names == v.members;
    } else {
      var name := FirstName(names);
      var x, rest := v.members[name], names - {name};
      Rebuild(x);
      LeavesExist(x);
      AssignAtName(w, name, Leaves(x));
      assert (v.members - names)[name := x] == v.members - rest;
      AssignConcat(w, Under(Sub(name), Leaves(x)), RecordLeaves(v, rest));
      RebuildRecord(v, rest, w.(kind := Record, members := v.members - rest));
    }
  }
}
