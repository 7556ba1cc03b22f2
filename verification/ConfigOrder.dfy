/** Assignments to different leaves do not disturb each other. */
module ConfigOrder {
  import opened Options
  import opened ConfigTree

  /** Two paths part at a segment of the same kind: two indices or two names. */
  predicate Diverge(p: Path, q: Path)
    decreases |p|
  {
    && p != [] && q != []
    && if p[0] == q[0] then Diverge(p[1..], q[1..]) else p[0].Index? == q[0].Index?
  }

  lemma {:induction false} DivergeSymmetric(p: Path, q: Path)
    requires Diverge(p, q)
    ensures Diverge(q, p)
    decreases |p|
  {
    if p[0] == q[0] {
      DivergeSymmetric(p[1..], q[1..]);
    }
  }

  /** Assigning two diverging paths gives the same tree in either order. */
  lemma {:induction false} Commute(v: Value, p: Path, a: string, q: Path, b: string)
    requires Diverge(p, q)
    ensures Assign(Assign(v, p, a), q, b) == Assign(Assign(v, q, b), p, a)
    decreases |p|
  {
    if p[0] == q[0] {
      match p[0]
      case Index(n) => Commute(Grow(v.items, n)[n], p[1..], a, q[1..], b);
      case Sub(name) => Commute(SubOf(v, name), p[1..], a, q[1..], b);
    } else {
      match p[0]
      case Index(n) => CommuteIndices(v, p, a, q, b);
      case Sub(name) => CommuteNames(v, p, a, q, b);
    }
  }

  lemma CommuteIndices(v: Value, p: Path, a: string, q: Path, b: string)
    requires p != [] && q != [] && p[0].Index? && q[0].Index? && p[0] != q[0]
    ensures Assign(Assign(v, p, a), q, b) == Assign(Assign(v, q, b), p, a)
  {
    var i, j := p[0].n, q[0].n;
    var pq, qp := Assign(Assign(v, p, a), q, b), Assign(Assign(v, q, b), p, a);
    assert pq.items == qp.items;
  }

  lemma CommuteNames(v: Value, p: Path, a: string, q: Path, b: string)
    requires p != [] && q != [] && p[0].Sub? && q[0].Sub? && p[0] != q[0]
    ensures Assign(Assign(v, p, a), q, b) == Assign(Assign(v, q, b), p, a)
  {
    var pq, qp := Assign(Assign(v, p, a), q, b), Assign(Assign(v, q, b), p, a);
    assert pq.members == qp.members;
  }

  ghost predicate AllDiverge(leaves: seq<Leaf>) {
    forall i, j :: 0 <= i < j < |leaves| ==> Diverge(leaves[i].path, leaves[j].path)
  }

  ghost predicate DivergesFrom(leaf: Leaf, leaves: seq<Leaf>) {
    forall i :: 0 <= i < |leaves| ==> Diverge(leaf.path, leaves[i].path)
  }

  lemma {:induction false} MoveLast(v: Value, leaf: Leaf, leaves: seq<Leaf>)
    requires DivergesFrom(leaf, leaves)
    ensures AssignAll(v, [leaf] + leaves) == Assign(AssignAll(v, leaves), leaf.path, leaf.raw)
    decreases |leaves|
  {
    var w := Assign(v, leaf.path, leaf.raw);
    assert ([leaf] + leaves)[1..] == leaves;
    if leaves != [] {
      var x, rest := leaves[0], leaves[1..];
      Commute(v, leaf.path, leaf.raw, x.path, x.raw);
      MoveLast(Assign(v, x.path, x.raw), leaf, rest);
      assert ([leaf] + rest)[1..] == rest;
    }
  }

  /** An assignment that diverges from those before it may be made first. */
  lemma MoveFirst(v: Value, front: seq<Leaf>, leaf: Leaf, back: seq<Leaf>)
    requires DivergesFrom(leaf, front)
    ensures AssignAll(v, front + [leaf] + back) == AssignAll(Assign(v, leaf.path, leaf.raw), front + back)
  {
    var w := Assign(v, leaf.path, leaf.raw);
    MoveLast(v, leaf, front);
    assert ([leaf] + front)[1..] == front;
    AssignConcat(v, front + [leaf], back);
    AssignConcat(v, front, [leaf]);
    AssignConcat(w, front, back);
    assert [leaf][1..] == [];
  }

  lemma SplitAt(leaves: seq<Leaf>, j: nat)
    requires j < |leaves|
    ensures leaves == leaves[..j] + [leaves[j]] + leaves[j + 1..]
    ensures multiset(leaves) == multiset(leaves[..j] + leaves[j + 1..]) + multiset{leaves[j]}
  {
    assert leaves == leaves[..j] + ([leaves[j]] + leaves[j + 1..]);
  }

  lemma DivergeAfterRemoval(leaves: seq<Leaf>, j: nat)
    requires AllDiverge(leaves) && j < |leaves|
    ensures AllDiverge(leaves[..j] + leaves[j + 1..]) && DivergesFrom(leaves[j], leaves[..j])
  {
    forall i | 0 <= i < j
      ensures Diverge(leaves[j].path, leaves[i].path)
    {
      DivergeSymmetric(leaves[i].path, leaves[j].path);
    }
  }

  lemma TakenAway<T>(a: multiset<T>, b: multiset<T>, c: multiset<T>)
    requires a + c == b + c
    ensures a == b
  {
    assert a == (a + c) - c && b == (b + c) - c;
  }

  lemma FindFirst(a: seq<Leaf>, b: seq<Leaf>) returns (j: nat)
    requires a != [] && multiset(a) == multiset(b)
    ensures j < |b| && b[j] == a[0] && multiset(a[1..]) == multiset(b[..j] + b[j + 1..])
  {
    assert a == [a[0]] + a[1..];
    assert a[0] in multiset(b);
    j :| j < |b| && b[j] == a[0];
    SplitAt(b, j);
    TakenAway(multiset(a[1..]), multiset(b[..j] + b[j + 1..]), multiset{a[0]});
  }

  /** The order of the lines of a configuration does not matter. */
  lemma {:induction false} OrderFree(v: Value, a: seq<Leaf>, b: seq<Leaf>)
    requires AllDiverge(a) && AllDiverge(b) && multiset(a) == multiset(b)
    ensures AssignAll(v, a) == AssignAll(v, b)
    decreases |a|
  {
    hide Diverge, Assign;
    if a == [] {
      assert |multiset(b)| == 0;
    } else {
      var j := FindFirst(a, b);
      SplitAt(b, j);
      DivergeAfterRemoval(b, j);
      MoveFirst(v, b[..j], a[0], b[j + 1..]);
      OrderFree(Assign(v, a[0].path, a[0].raw), a[1..], b[..j] + b[j + 1..]);
    }
  }

  // ------------------------------------------------------------------ looking values up

  /** The raw value at a path, following `get` from value to value. */
  function Lookup(v: Value, path: Path): (r: Option<string>)
    decreases |path|
  {
    if path == [] then if v.kind == Raw then Some(v.raw) else None
    else match path[0]
      case Index(n) => if v.kind == Array && n < |v.items| then Lookup(v.items[n], path[1..]) else None
      case Sub(name) => if v.kind == Record && name in v.members then Lookup(v.members[name], path[1..]) else None
  }

  /** No storage is left over from an earlier kind. */
  ghost predicate Tidy(v: Value)
    decreases v
  {
    && (v.kind != Array ==> v.items == []) && (v.kind != Record ==> v.members == map[])
    && (forall i :: 0 <= i < |v.items| ==> Tidy(v.items[i]))
    && (forall n :: n in v.members ==> Tidy(v.members[n]))
  }

  /** An assigned value can be read back. */
  lemma {:induction false} LookupAssigned(v: Value, p: Path, raw: string)
    ensures Lookup(Assign(v, p, raw), p) == Some(raw)
    decreases |p|
  {
    if p != [] {
      match p[0]
      case Index(n) => LookupAssigned(Grow(v.items, n)[n], p[1..], raw);
      case Sub(name) => LookupAssigned(SubOf(v, name), p[1..], raw);
    }
  }

  lemma {:induction false} NothingInFresh(p: Path)
    ensures Lookup(FRESH, p) == None
  {
  }

  /** What q finds once the values on its way that p passes too have the kinds p gives them. */
  function Behind(v: Value, p: Path, q: Path): (r: Option<string>)
    requires Diverge(p, q)
    decreases |p|
  {
    match q[0]
    case Index(n) =>
      if p[0] == q[0] then Behind(Grow(v.items, n)[n], p[1..], q[1..])
      else if n < |v.items| then Lookup(v.items[n], q[1..]) else None
    case Sub(name) =>
      if p[0] == q[0] then Behind(SubOf(v, name), p[1..], q[1..])
      else if name in v.members then Lookup(v.members[name], q[1..]) else None
  }

  /** Assigning a path uncovers, for any other path, what the storage holds behind the kinds. */
  lemma {:induction false} LookupIsBehind(v: Value, p: Path, raw: string, q: Path)
    requires Diverge(p, q)
    ensures Lookup(Assign(v, p, raw), q) == Behind(v, p, q)
    decreases |p|
  {
    match q[0]
    case Index(n) =>
      if p[0] == q[0] {
        LookupIsBehind(Grow(v.items, n)[n], p[1..], raw, q[1..]);
      } else {
        NothingInFresh(q[1..]);
      }
    case Sub(name) =>
      if p[0] == q[0] {
        LookupIsBehind(SubOf(v, name), p[1..], raw, q[1..]);
      }
  }

  /** What can be seen is what the storage holds. */
  lemma {:induction false} SeenIsBehind(v: Value, p: Path, q: Path)
    requires Diverge(p, q) && Lookup(v, q).Some?
    ensures Behind(v, p, q) == Lookup(v, q)
    decreases |p|
  {
    if p[0] == q[0] {
      match q[0]
      case Index(n) => SeenIsBehind(v.items[n], p[1..], q[1..]);
      case Sub(name) => SeenIsBehind(v.members[name], p[1..], q[1..]);
    }
  }

  /** Assigning one path changes the lookup of another if and only if the other found nothing and
      there is a value of an earlier kind for it to find. */
  lemma LookupElsewhereIff(v: Value, p: Path, raw: string, q: Path)
    requires Diverge(p, q)
    ensures Lookup(Assign(v, p, raw), q) == Lookup(v, q) <==> Lookup(v, q).Some? || Behind(v, p, q) == None
  {
    LookupIsBehind(v, p, raw, q);
    if Lookup(v, q).Some? {
      SeenIsBehind(v, p, q);
    }
  }

  /** An assignment changes the lookup of its own path only. */
  lemma {:induction false} LookupElsewhere(v: Value, p: Path, raw: string, q: Path)
    requires Tidy(v) && Diverge(p, q)
    ensures Lookup(Assign(v, p, raw), q) == Lookup(v, q)
    decreases |p|
  {
    match p[0]
    case Index(n) =>
      var g := Grow(v.items, n);
      if p[0] == q[0] {
        LookupElsewhere(g[n], p[1..], raw, q[1..]);
        if n >= |v.items| {
          NothingInFresh(q[1..]);
        }
      } else {
        NothingInFresh(q[1..]);
      }
    case Sub(name) =>
      if p[0] == q[0] {
        LookupElsewhere(SubOf(v, name), p[1..], raw, q[1..]);
        NothingInFresh(q[1..]);
      }
  }

  /** A path that turns no array into anything else, and no record. */
  ghost predicate Agrees(v: Value, p: Path)
    decreases |p|
  {
    if p == [] then v.kind != Array && v.kind != Record
    else match p[0]
      case Index(n) => v.kind != Record && (n < |v.items| ==> Agrees(v.items[n], p[1..]))
      case Sub(name) => v.kind != Array && (name in v.members ==> Agrees(v.members[name], p[1..]))
  }

  /** No array and no record is empty. */
  ghost predicate Filled(v: Value)
    decreases v
  {
    && (v.kind == Array ==> v.items != []) && (v.kind == Record ==> v.members != map[])
    && (forall i :: 0 <= i < |v.items| ==> Filled(v.items[i]))
    && (forall n :: n in v.members ==> Filled(v.members[n]))
  }

  lemma {:induction false} FreshAgrees(p: Path)
    ensures Agrees(FRESH, p) && Tidy(FRESH) && Filled(FRESH)
  {
  }

  /** An array or a record that was assigned to is never empty. */
  lemma {:induction false} FilledKept(v: Value, p: Path, raw: string)
    requires Filled(v)
    ensures Filled(Assign(v, p, raw))
    decreases |p|
  {
    if p != [] {
      FreshAgrees(p[1..]);
      match p[0]
      case Index(n) => FilledKept(Grow(v.items, n)[n], p[1..], raw);
      case Sub(name) =>
        FilledKept(SubOf(v, name), p[1..], raw);
        assert name in Assign(v, p, raw).members;
    }
  }

  /** Assignments that turn no array or record into something else leave nothing behind. */
  lemma {:induction false} TidyKept(v: Value, p: Path, raw: string)
    requires Tidy(v) && Agrees(v, p)
    ensures Tidy(Assign(v, p, raw))
    decreases |p|
  {
    if p != [] {
      FreshAgrees(p[1..]);
      match p[0]
      case Index(n) => TidyKept(Grow(v.items, n)[n], p[1..], raw);
      case Sub(name) => TidyKept(SubOf(v, name), p[1..], raw);
    }
  }

  /** And all others do leave something behind. */
  lemma {:induction false} AgreesIfTidy(v: Value, p: Path, raw: string)
    requires Tidy(v) && Filled(v) && Tidy(Assign(v, p, raw))
    ensures Agrees(v, p)
    decreases |p|
  {
    if p != [] {
      var w := Assign(v, p, raw);
      match p[0]
      case Index(n) =>
        if n < |v.items| {
          assert w.items[n] == Assign(v.items[n], p[1..], raw);
          AgreesIfTidy(v.items[n], p[1..], raw);
        }
      case Sub(name) =>
        if name in v.members {
          assert w.members[name] == Assign(v.members[name], p[1..], raw);
          AgreesIfTidy(v.members[name], p[1..], raw);
        }
    }
  }

  lemma TidyKeptIff(v: Value, p: Path, raw: string)
    requires Tidy(v) && Filled(v)
    ensures Tidy(Assign(v, p, raw)) <==> Agrees(v, p)
  {
    if Agrees(v, p) {
      TidyKept(v, p, raw);
    }
    if Tidy(Assign(v, p, raw)) {
      AgreesIfTidy(v, p, raw);
    }
  }

  /** Each of any number of diverging lines can be read back, whatever the value was before. */
  lemma EveryLineIsFound(v: Value, leaves: seq<Leaf>, i: nat)
    requires AllDiverge(leaves) && i < |leaves|
    ensures Lookup(AssignAll(v, leaves), leaves[i].path) == Some(leaves[i].raw)
  {
    hide Diverge, Assign, AssignAll, Lookup;
    var front, leaf, back := leaves[..i], leaves[i], leaves[i + 1..];
    assert leaves == front + ([leaf] + back);
    AssignConcat(v, front, [leaf] + back);
    MoveLast(AssignAll(v, front), leaf, back);
    LookupAssigned(AssignAll(AssignAll(v, front), back), leaf.path, leaf.raw);
  }

  /** When a line changes the kind of a value, storage of its earlier kind stays behind: a record
      that becomes raw and then a record again shows a member that was hidden in between. */
  lemma StaleMemberReturns()
    ensures var v := Assign(Assign(FRESH, [Sub("a")], "1"), [], "x");
      Lookup(v, [Sub("a")]) == None && Lookup(Assign(v, [Sub("b")], "2"), [Sub("a")]) == Some("1")
  {
  }
}
