/** Any number of lists on one pool, through any series of operations. */
module PooledRuns {
  import opened PooledLists

  datatype Op<!T> =
    | InsertRange(pos: nat, values: seq<T>)
    | EraseRange(first: nat, last: nat)
    | RemoveIf(drop: T -> bool)
    | Unique(same: (T, T) -> bool)
    | Resize(n: nat, x: T)
    | Splice(at: nat, source: nat)

  /** What an operation on one list does to it, with the given number of blocks free. */
  ghost function Effect<T>(free: nat, s: seq<T>, op: Op<T>): (r: seq<T>)
    requires !op.Splice?
  {
    match op
    case InsertRange(pos, values) =>
      if pos > |s| then s else Inserted(s, pos, if |values| <= free then values else values[..free])
    case EraseRange(first, last) => if first <= last <= |s| then Without(s, first, last) else s
    case RemoveIf(drop) => Kept(s, drop)
    case Unique(same) => Collapsed(s, same)
    case Resize(n, x) => Resized(s, if n <= |s| + free then n else |s| + free, x)
  }

  ghost function Total<T>(lists: seq<seq<T>>): (n: nat) {
    if lists == [] then 0 else Total(lists[..|lists| - 1]) + |lists[|lists| - 1]|
  }

  /** What operation op on list i does to all lists. An operation at a place that does not exist
      is passed over. */
  ghost function Step<T>(size: nat, lists: seq<seq<T>>, i: nat, op: Op<T>): (r: seq<seq<T>>)
    ensures |r| == |lists|
  {
    if i >= |lists| || Total(lists) > size then lists
    else if !op.Splice? then lists[i := Effect(size - Total(lists), lists[i], op)]
    else if op.source >= |lists| || op.source == i || op.at > |lists[i]| then lists
    else lists[i := Inserted(lists[i], op.at, lists[op.source])][op.source := []]
  }

  ghost function Run<T>(size: nat, lists: seq<seq<T>>, ops: seq<(nat, Op<T>)>): (r: seq<seq<T>>)
    ensures |r| == |lists|
  {
    if ops == [] then lists
    else Step(size, Run(size, lists, ops[..|ops| - 1]), ops[|ops| - 1].0, ops[|ops| - 1].1)
  }

  // ------------------------------------------------------------------ counting blocks

  ghost function Sum<B>(lists: seq<seq<B>>): (m: multiset<B>) {
    if lists == [] then multiset{} else Sum(lists[..|lists| - 1]) + multiset(lists[|lists| - 1])
  }

  lemma {:induction false} SumSize<B>(lists: seq<seq<B>>)
    ensures |Sum(lists)| == Total(lists)
  {
    if lists != [] {
      SumSize(lists[..|lists| - 1]);
    }
  }

  /** Changing one list changes the sum by the difference. */
  lemma {:induction false} SumUpdate<B>(lists: seq<seq<B>>, i: nat, s: seq<B>)
    requires i < |lists|
    ensures Sum(lists[i := s]) + multiset(lists[i]) == Sum(lists) + multiset(s)
  {
    var n, changed := |lists| - 1, lists[i := s];
    assert Sum(changed) == Sum(changed[..n]) + multiset(changed[n]);
    assert Sum(lists) == Sum(lists[..n]) + multiset(lists[n]);
    if i == n {
      assert changed[..n] == lists[..n];
      Exchange(Sum(lists[..n]), multiset(s), multiset(lists[n]));
    } else {
      SumUpdate(lists[..n], i, s);
      assert changed[..n] == lists[..n][i := s];
      Exchange(Sum(changed[..n]), multiset(lists[n]), multiset(lists[i]));
      Exchange(Sum(lists[..n]), multiset(lists[n]), multiset(s));
    }
  }

  lemma Exchange<B>(a: multiset<B>, b: multiset<B>, c: multiset<B>)
    ensures a + b + c == a + c + b
  {
  }

  lemma {:induction false} SumHolds<B>(lists: seq<seq<B>>, i: nat)
    requires i < |lists|
    ensures multiset(lists[i]) <= Sum(lists)
  {
    SumUpdate(lists, i, []);
    assert Sum(lists[i := []]) + multiset(lists[i]) == Sum(lists);
  }

  lemma {:induction false} SameTotal<A, B>(a: seq<seq<A>>, b: seq<seq<B>>)
    requires |a| == |b| && forall i :: 0 <= i < |a| ==> |a[i]| == |b[i]|
    ensures Total(a) == Total(b)
  {
    if a != [] {
      SameTotal(a[..|a| - 1], b[..|b| - 1]);
    }
  }

  // ------------------------------------------------------------------ the lists

  ghost function Actives<T>(lists: seq<PooledList<T>>): (a: seq<seq<Block<T>>>)
    reads lists
  {
    seq(|lists|, i requires 0 <= i < |lists| reads lists => lists[i].active)
  }

  ghost function AllBlocks<T>(lists: seq<PooledList<T>>): (s: set<Block<T>>)
    reads lists
    ensures forall i, b :: 0 <= i < |lists| && b in lists[i].active ==> b in s
  {
    set i, b | 0 <= i < |lists| && b in lists[i].active :: b
  }

  /** What each list holds. */
  ghost function Contents<T>(lists: seq<PooledList<T>>): (c: seq<seq<T>>)
    reads lists, AllBlocks(lists)
    ensures |c| == |lists|
  {
    seq(|lists|, i requires 0 <= i < |lists| reads lists, AllBlocks(lists) => Items(lists[i].active))
  }

  /** The pool's blocks are in one place each: a list, or the free list. */
  ghost predicate Sharing<T>(pool: Pool<T>, lists: seq<PooledList<T>>, blocks: multiset<Block<T>>)
    reads pool, lists
  {
    && (forall i :: 0 <= i < |lists| ==> lists[i].pool == pool)
    && (forall i, j :: 0 <= i < j < |lists| ==> lists[i] != lists[j])
    && Once(blocks) && |blocks| == pool.size
    && Sum(Actives(lists)) + multiset(pool.free) == blocks
  }

  lemma {:induction false} NothingInEmpty<B>(lists: seq<seq<B>>)
    requires forall i :: 0 <= i < |lists| ==> lists[i] == []
    ensures Sum(lists) == multiset{}
  {
    if lists != [] {
      NothingInEmpty(lists[..|lists| - 1]);
    }
  }

  /** Empty lists on a new pool share it. */
  lemma SharingAtFirst<T>(pool: Pool<T>, lists: seq<PooledList<T>>)
    requires Once(multiset(pool.free)) && |pool.free| == pool.size
    requires forall i :: 0 <= i < |lists| ==> lists[i].pool == pool && lists[i].active == []
    requires forall i, j :: 0 <= i < j < |lists| ==> lists[i] != lists[j]
    ensures Sharing(pool, lists, multiset(pool.free))
  {
    NothingInEmpty(Actives(lists));
  }

  /** Every list is consistent with the pool, and its blocks are in no other list. */
  lemma EachIsValid<T>(pool: Pool<T>, lists: seq<PooledList<T>>, blocks: multiset<Block<T>>, i: nat)
    requires Sharing(pool, lists, blocks) && i < |lists|
    ensures lists[i].Valid()
    ensures Total(Contents(lists)) + |pool.free| == pool.size
  {
    var a := Actives(lists);
    SumHolds(a, i);
    assert a[i] == lists[i].active;
    var mine := lists[i].Blocks();
    forall b | b in mine ensures mine[b] == 1 {
      assert mine[b] <= blocks[b] && b in blocks;
    }
    SumSize(a);
    SameTotal(a, Contents(lists));
  }

  lemma NoneHoldsFree<T>(pool: Pool<T>, lists: seq<PooledList<T>>, blocks: multiset<Block<T>>)
    requires Sharing(pool, lists, blocks)
    ensures forall j, b :: 0 <= j < |lists| && b in lists[j].active ==> b !in pool.free
  {
    forall j, b | 0 <= j < |lists| && b in lists[j].active ensures b !in pool.free {
      EachIsValid(pool, lists, blocks, j);
      var mine := lists[j].Blocks();
      assert b in multiset(lists[j].active) && b in mine;
      assert mine[b] == multiset(lists[j].active)[b] + multiset(pool.free)[b];
      assert b !in multiset(pool.free);
    }
  }

  lemma Cancel<B>(x: multiset<B>, y: multiset<B>, a: multiset<B>, b: multiset<B>, f: multiset<B>, g: multiset<B>)
    requires x + a == y + b && b + g == a + f
    ensures x + g == y + f
  {
    forall e ensures (x + g)[e] == (y + f)[e] {
      assert (x + a)[e] == (y + b)[e] && (b + g)[e] == (a + f)[e];
    }
  }

  lemma CancelBoth<B>(x: multiset<B>, y: multiset<B>, z: multiset<B>, a: multiset<B>, b: multiset<B>)
    requires x + b == y && y + a == z + (a + b)
    ensures x == z
  {
    forall e ensures x[e] == z[e] {
      assert (x + b)[e] == y[e] && (y + a)[e] == (z + (a + b))[e];
    }
  }

  /** An operation that keeps the blocks of one list and the pool together keeps all blocks. */
  lemma OneChanged<B>(before: seq<seq<B>>, free: seq<B>, i: nat, s: seq<B>, free': seq<B>)
    requires i < |before| && multiset(s) + multiset(free') == multiset(before[i]) + multiset(free)
    ensures Sum(before[i := s]) + multiset(free') == Sum(before) + multiset(free)
  {
    SumUpdate(before, i, s);
    Cancel(Sum(before[i := s]), Sum(before), multiset(before[i]), multiset(s), multiset(free), multiset(free'));
  }

  /** One operation on one list. */
  method Apply<T>(list: PooledList<T>, op: Op<T>)
    requires list.Valid() && !op.Splice?
    modifies list`active, list.pool`free, list.pool.free
    ensures list.Valid() && list.Blocks() == old(list.Blocks())
    ensures Items(list.active) == Effect(|old(list.pool.free)|, old(Items(list.active)), op)
  {
    hide Once;
    match op {
      case InsertRange(pos, values) =>
        if pos <= |list.active| {
          var ok := list.InsertRange(pos, values);
        }
      case EraseRange(first, last) =>
        if first <= last <= |list.active| {
          list.EraseRange(first, last);
        }
      case RemoveIf(drop) => list.RemoveIf(drop);
      case Unique(same) => list.Unique(same);
      case Resize(n, x) => var ok := list.Resize(n, x);
    }
  }

  method ApplyTo<T>(pool: Pool<T>, lists: seq<PooledList<T>>, i: nat, op: Op<T>, ghost blocks: multiset<Block<T>>)
    requires Sharing(pool, lists, blocks) && i < |lists| && !op.Splice?
    modifies lists, pool, pool.free
    ensures Sharing(pool, lists, blocks)
    ensures Contents(lists) == old(Contents(lists))[i := Effect(|old(pool.free)|, old(Contents(lists))[i], op)]
  {
    hide Once, Sum, Effect;
    ghost var before, free, held := Actives(lists), pool.free, Contents(lists);
    NoneHoldsFree(pool, lists, blocks);
    EachIsValid(pool, lists, blocks, i);
    Apply(lists[i], op);
    OneChanged(before, free, i, lists[i].active, pool.free);
    forall j | 0 <= j < |lists| && j != i
      ensures lists[j].active == before[j] && Items(lists[j].active) == held[j]
    {
      assert lists[j] != lists[i] && lists[j].active == before[j];
      assert forall k :: 0 <= k < |before[j]| ==> before[j][k] !in free;
    }
    assert Actives(lists) == before[i := lists[i].active];
    assert Contents(lists) == held[i := Items(lists[i].active)];
  }

  /** Moving blocks from one list to another moves none in or out. */
  lemma TwoChanged<B>(before: seq<seq<B>>, i: nat, j: nat, s: seq<B>)
    requires i < |before| && j < |before| && i != j && multiset(s) == multiset(before[i]) + multiset(before[j])
    ensures Sum(before[i := s][j := []]) == Sum(before)
  {
    SumUpdate(before, i, s);
    hide Sum;
    SumUpdate(before[i := s], j, []);
    CancelBoth(Sum(before[i := s][j := []]), Sum(before[i := s]), Sum(before), multiset(before[i]), multiset(before[j]));
  }

  method SpliceTo<T>(pool: Pool<T>, lists: seq<PooledList<T>>, i: nat, pos: nat, j: nat, ghost blocks: multiset<Block<T>>)
    requires Sharing(pool, lists, blocks) && i < |lists| && j < |lists| && i != j && pos <= |lists[i].active|
    modifies lists
    ensures Sharing(pool, lists, blocks)
    ensures Contents(lists) == old(Contents(lists))[i := Inserted(old(Contents(lists))[i], pos, old(Contents(lists))[j])][j := []]
  {
    hide Once, Sum, Inserted;
    ghost var before, held := Actives(lists), Contents(lists);
    assert lists[i] != lists[j] && |Items(lists[i].active)| == |lists[i].active|;
    lists[i].Splice(pos, lists[j]);
    TwoChanged(before, i, j, lists[i].active);
    forall k | 0 <= k < |lists| && k != i && k != j
      ensures lists[k].active == before[k] && Items(lists[k].active) == held[k]
    {
      assert lists[k] != lists[i] && lists[k] != lists[j];
    }
    assert Actives(lists) == before[i := lists[i].active][j := []];
    assert Contents(lists) == held[i := Items(lists[i].active)][j := []];
  }

  lemma FreeIsOurs<T>(pool: Pool<T>, lists: seq<PooledList<T>>, blocks: multiset<Block<T>>)
    requires Sharing(pool, lists, blocks)
    ensures forall b :: b in pool.free ==> b in blocks
  {
    assert forall b :: b in pool.free ==> b in multiset(pool.free);
  }

  /** One operation anywhere. */
  method StepOn<T>(pool: Pool<T>, lists: seq<PooledList<T>>, i: nat, op: Op<T>, ghost blocks: multiset<Block<T>>)
    requires Sharing(pool, lists, blocks)
    modifies lists, pool, pool.free
    ensures Sharing(pool, lists, blocks)
    ensures Contents(lists) == Step(pool.size, old(Contents(lists)), i, op)
  {
    hide Once, Sum, Effect, Inserted, Total;
    if i < |lists| {
      EachIsValid(pool, lists, blocks, i);
      assert |Contents(lists)[i]| == |lists[i].active|;
      match op {
        case Splice(pos, j) =>
          if j < |lists| && j != i && pos <= |lists[i].active| {
            SpliceTo(pool, lists, i, pos, j, blocks);
          }
        case _ => ApplyTo(pool, lists, i, op, blocks);
      }
    }
  }

  /** A run from the beginning: n lists on a new pool. */
  method StartAndRun<T>(size: nat, blank: T, n: nat, ops: seq<(nat, Op<T>)>)
    returns (pool: Pool<T>, lists: seq<PooledList<T>>, ghost blocks: multiset<Block<T>>)
    ensures |lists| == n && pool.size == size && Sharing(pool, lists, blocks)
    ensures Contents(lists) == Run(size, seq(n, _ => []), ops)
    ensures n > 0 ==> Total(Contents(lists)) + |pool.free| == size
  {
    hide Once;
    pool := new Pool(size, blank);
    lists := [];
    while |lists| < n
      invariant |lists| <= n && fresh(pool) && fresh(lists)
      invariant pool.size == size == |pool.free| && Once(multiset(pool.free))
      invariant forall b :: b in pool.free ==> fresh(b)
      invariant forall i :: 0 <= i < |lists| ==> lists[i].pool == pool && lists[i].active == []
      invariant forall i, j :: 0 <= i < j < |lists| ==> lists[i] != lists[j]
    {
      var list := new PooledList(pool);
      lists := lists + [list];
    }
    SharingAtFirst(pool, lists);
    blocks := multiset(pool.free);
    ghost var nothing: seq<seq<T>> := seq(n, _ => []);
    assert Contents(lists) == nothing;
    assert forall b :: b in blocks ==> b in pool.free && fresh(b);
    RunAll(pool, lists, ops, blocks);
  }

  /** Any series of operations on the lists of one pool does to them what it does to plain
      sequences, and every block stays in exactly one place. */
  method RunAll<T>(pool: Pool<T>, lists: seq<PooledList<T>>, ops: seq<(nat, Op<T>)>, ghost blocks: multiset<Block<T>>)
    requires Sharing(pool, lists, blocks)
    modifies lists, pool, set b | b in blocks
    ensures Sharing(pool, lists, blocks)
    ensures Contents(lists) == Run(pool.size, old(Contents(lists)), ops)
    ensures lists != [] ==> Total(Contents(lists)) + |pool.free| == pool.size
  {
    hide Sharing, Contents, Step;
    ghost var held := Contents(lists);
    for n := 0 to |ops|
      invariant Sharing(pool, lists, blocks) && Contents(lists) == Run(pool.size, held, ops[..n])
    {
      FreeIsOurs(pool, lists, blocks);
      assert ops[..n + 1][..n] == ops[..n];
      StepOn(pool, lists, ops[n].0, ops[n].1, blocks);
    }
    assert ops[..|ops|] == ops;
    if lists != [] {
      EachIsValid(pool, lists, blocks, 0);
    }
  }
}
