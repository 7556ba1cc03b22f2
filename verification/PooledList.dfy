/** Lists that take their blocks from a shared pool of fixed size (`pooled_list`). */
module PooledLists {

  class Block<T> {
    var item: T

    constructor (item: T)
      ensures this.item == item
    {
      this.item := item;
    }
  }

  /** Every block is in one place only. */
  ghost predicate Once<T>(m: multiset<T>) {
    forall b :: b in m ==> m[b] == 1
  }

  class Pool<T> {
    var free: seq<Block<T>>
    const size: nat

    /** Preallocates the blocks; what they hold at first does not matter. */
    constructor (size: nat, blank: T)
      ensures this.size == size == |free| && Once(multiset(free))
      ensures forall b :: b in free ==> fresh(b)
    {
      this.size := size;
      free := [];
      new;
      while |free| < size
        invariant |free| <= size && Once(multiset(free))
        invariant forall b :: b in free ==> fresh(b)
      {
        var b := new Block(blank);
        assert b !in multiset(free);
        free := free + [b];
      }
    }
  }

  /** What blocks hold, in order. */
  ghost function Items<T>(blocks: seq<Block<T>>): (items: seq<T>)
    reads blocks
    ensures |items| == |blocks|
  {
    seq(|blocks|, i requires 0 <= i < |blocks| reads blocks => blocks[i].item)
  }

  lemma ItemAt<T>(blocks: seq<Block<T>>, i: nat)
    requires i < |blocks|
    ensures Items(blocks)[i] == blocks[i].item
  {
  }

  ghost function Inserted<T>(s: seq<T>, pos: nat, more: seq<T>): (r: seq<T>)
    requires pos <= |s|
    ensures |r| == |s| + |more|
  {
    s[..pos] + more + s[pos..]
  }

  lemma InsertedMore<T>(s: seq<T>, pos: nat, more: seq<T>, x: T)
    requires pos <= |s|
    ensures Inserted(Inserted(s, pos, more), pos + |more|, [x]) == Inserted(s, pos, more + [x])
  {
    var r := Inserted(s, pos, more);
    assert r[..pos + |more|] == s[..pos] + more && r[pos + |more|..] == s[pos..];
  }

  lemma NoneInserted<T>(s: seq<T>, pos: nat)
    requires pos <= |s|
    ensures Inserted(s, pos, []) == s
  {
  }

  ghost function Without<T>(s: seq<T>, first: nat, last: nat): (r: seq<T>)
    requires first <= last <= |s|
  {
    s[..first] + s[last..]
  }

  lemma MoveIn<T>(active: seq<T>, free: seq<T>, pos: nat)
    requires pos <= |active| && free != []
    ensures multiset(active[..pos] + [free[0]] + active[pos..]) + multiset(free[1..]) == multiset(active) + multiset(free)
  {
    assert active == active[..pos] + active[pos..] && free == [free[0]] + free[1..];
  }

  lemma MoveOut<T>(active: seq<T>, free: seq<T>, pos: nat)
    requires pos < |active|
    ensures multiset(active[..pos] + active[pos + 1..]) + multiset([active[pos]] + free) == multiset(active) + multiset(free)
  {
    assert active == active[..pos] + [active[pos]] + active[pos + 1..];
  }

  /** A free block is in no list. */
  lemma FreeIsUnused<T>(active: seq<T>, free: seq<T>)
    requires Once(multiset(active) + multiset(free)) && free != []
    ensures forall i :: 0 <= i < |active| ==> active[i] != free[0]
  {
    var m, b := multiset(active) + multiset(free), free[0];
    assert b in multiset(free) && b in m;
    assert m[b] == multiset(active)[b] + multiset(free)[b];
    assert b !in multiset(active);
  }

  /** The elements a predicate spares, in order. */
  ghost function Kept<T>(s: seq<T>, pred: T -> bool): (r: seq<T>) {
    if s == [] then [] else
      var front, x := Kept(s[..|s| - 1], pred), s[|s| - 1];
      if pred(x) then front else front + [x]
  }

  /** What is left when every element related to the last one left before it goes. */
  ghost function Collapsed<T>(s: seq<T>, pred: (T, T) -> bool): (r: seq<T>)
    ensures s != [] ==> r != []
  {
    if |s| <= 1 then s else
      var front, x := Collapsed(s[..|s| - 1], pred), s[|s| - 1];
      if pred(front[|front| - 1], x) then front else front + [x]
  }

  ghost function Resized<T>(s: seq<T>, n: nat, x: T): (r: seq<T>) {
    if n <= |s| then s[..n] else s + seq(n - |s|, _ => x)
  }

  lemma KeptNext<T>(s: seq<T>, n: nat, pred: T -> bool)
    requires n < |s|
    ensures Kept(s[..n + 1], pred) == Kept(s[..n], pred) + if pred(s[n]) then [] else [s[n]]
  {
    assert s[..n + 1][..n] == s[..n];
  }

  lemma CollapsedNext<T>(s: seq<T>, n: nat, pred: (T, T) -> bool)
    requires 0 < n < |s|
    ensures var done := Collapsed(s[..n], pred);
      Collapsed(s[..n + 1], pred) == done + if pred(done[|done| - 1], s[n]) then [] else [s[n]]
  {
    assert s[..n + 1][..n] == s[..n];
  }

  lemma NothingSeen<T>(s: seq<T>, pred: T -> bool)
    ensures Kept(s[..0], pred) == [] && s[0..] == s
  {
  }

  lemma FirstSeen<T>(s: seq<T>, pred: (T, T) -> bool)
    requires s != []
    ensures Collapsed(s[..1], pred) == [s[0]] && [s[0]] + s[1..] == s
  {
  }

  /** Passing over, or dropping, the first element not looked at yet. */
  lemma OneMoreSeen<T>(done: seq<T>, s: seq<T>, n: nat)
    requires n < |s|
    ensures (done + s[n..])[|done|] == s[n]
    ensures done + s[n..] == done + [s[n]] + s[n + 1..]
    ensures Without(done + s[n..], |done|, |done| + 1) == done + s[n + 1..]
  {
  }

  /** The last element left and the first not looked at yet. */
  lemma LookAt<T>(blocks: seq<Block<T>>, done: seq<T>, s: seq<T>, n: nat)
    requires n < |s| && done != [] && Items(blocks) == done + s[n..]
    ensures |done| < |blocks|
    ensures blocks[|done| - 1].item == done[|done| - 1] && blocks[|done|].item == s[n]
  {
    ItemAt(blocks, |done| - 1);
    ItemAt(blocks, |done|);
  }

  /** Dropping or passing over the first element not looked at yet, as the predicate says. */
  lemma CollapsedSeen<T>(s: seq<T>, n: nat, pred: (T, T) -> bool)
    requires 0 < n < |s|
    ensures var done, done' := Collapsed(s[..n], pred), Collapsed(s[..n + 1], pred);
      && done != [] && done' != []
      && if pred(done[|done| - 1], s[n])
         then |done'| == |done| && Without(done + s[n..], |done|, |done| + 1) == done' + s[n + 1..]
         else |done'| == |done| + 1 && done + s[n..] == done' + s[n + 1..]
  {
    hide Collapsed, Without;
    CollapsedNext(s, n, pred);
    OneMoreSeen(Collapsed(s[..n], pred), s, n);
  }

  /** Where each element is after inserting, erasing and resizing. */
  lemma InsertedAt<T>(s: seq<T>, pos: nat, more: seq<T>, i: nat)
    requires pos <= |s| && i < |s| + |more|
    ensures Inserted(s, pos, more)[i] ==
      if i < pos then s[i] else if i < pos + |more| then more[i - pos] else s[i - |more|]
  {
  }

  lemma WithoutAt<T>(s: seq<T>, first: nat, last: nat, i: nat)
    requires first <= last <= |s| && i < |s| - (last - first)
    ensures |Without(s, first, last)| == |s| - (last - first)
    ensures Without(s, first, last)[i] == if i < first then s[i] else s[i + (last - first)]
  {
  }

  lemma ResizedAt<T>(s: seq<T>, n: nat, x: T, i: nat)
    requires i < n
    ensures |Resized(s, n, x)| == n && Resized(s, n, x)[i] == if i < |s| then s[i] else x
  {
  }

  /** What is left after removing stands in the order it stood in before. */
  lemma {:induction false} KeptInOrder<T>(s: seq<T>, pred: T -> bool) returns (places: seq<nat>)
    ensures |places| == |Kept(s, pred)|
    ensures forall i :: 0 <= i < |places| ==> places[i] < |s| && s[places[i]] == Kept(s, pred)[i]
    ensures forall i, j :: 0 <= i < j < |places| ==> places[i] < places[j]
  {
    if s == [] {
      places := [];
    } else {
      places := KeptInOrder(s[..|s| - 1], pred);
      if !pred(s[|s| - 1]) {
        places := places + [|s| - 1];
      }
    }
  }

  /** Removing keeps exactly the elements the predicate spares, as often as they occur. */
  lemma {:induction false} KeptIsExact<T>(s: seq<T>, pred: T -> bool, x: T)
    ensures multiset(Kept(s, pred))[x] == if pred(x) then 0 else multiset(s)[x]
  {
    if s != [] {
      KeptIsExact(s[..|s| - 1], pred, x);
      assert s == s[..|s| - 1] + [s[|s| - 1]];
    }
  }

  /** No two neighbours are related any more. */
  lemma {:induction false} CollapsedIsApart<T>(s: seq<T>, pred: (T, T) -> bool, i: nat)
    requires i + 1 < |Collapsed(s, pred)|
    ensures !pred(Collapsed(s, pred)[i], Collapsed(s, pred)[i + 1])
  {
    var front := Collapsed(s[..|s| - 1], pred);
    if i + 1 < |front| {
      CollapsedIsApart(s[..|s| - 1], pred, i);
    }
  }

  /** Collapsing a second time does nothing more. */
  lemma {:induction false} CollapsedTwice<T>(s: seq<T>, pred: (T, T) -> bool)
    ensures Collapsed(Collapsed(s, pred), pred) == Collapsed(s, pred)
  {
    var r := Collapsed(s, pred);
    if |s| > 1 {
      var front := Collapsed(s[..|s| - 1], pred);
      CollapsedTwice(s[..|s| - 1], pred);
      if r != front {
        assert r[..|r| - 1] == front;
      }
    }
  }

  class PooledList<T> {
    const pool: Pool<T>
    var active: seq<Block<T>>

    ghost function Blocks(): (m: multiset<Block<T>>)
      reads this, pool
    {
      multiset(active) + multiset(pool.free)
    }

    ghost predicate Valid()
      reads this, pool
    {
      Once(Blocks())
    }

    constructor (pool: Pool<T>)
      requires Once(multiset(pool.free))
      ensures Valid() && this.pool == pool && active == []
    {
      this.pool := pool;
      active := [];
    }

    /** Inserts before pos; fails, changing nothing, when the pool is empty. */
    method Insert(pos: nat, value: T) returns (ok: bool)
      requires Valid() && pos <= |active|
      modifies this`active, pool`free, pool.free
      ensures Valid() && Blocks() == old(Blocks()) && ok == (|old(pool.free)| > 0)
      ensures pool.free == if ok then old(pool.free)[1..] else old(pool.free)
      ensures Items(active) == if ok then Inserted(old(Items(active)), pos, [value]) else old(Items(active))
    {
      hide Once;
      ok := pool.free != [];
      if ok {
        var b := pool.free[0];
        FreeIsUnused(active, pool.free);
        MoveIn(active, pool.free, pos);
        b.item := value;
        active := active[..pos] + [b] + active[pos..];
        pool.free := pool.free[1..];
      }
    }

    /** Erases the element at pos. Its block becomes the first free one. */
    method Erase(pos: nat)
      requires Valid() && pos < |active|
      modifies this`active, pool`free
      ensures Valid() && Blocks() == old(Blocks()) && |pool.free| == |old(pool.free)| + 1
      ensures Items(active) == Without(old(Items(active)), pos, pos + 1)
    {
      hide Once;
      var b := active[pos];
      MoveOut(active, pool.free, pos);
      active := active[..pos] + active[pos + 1..];
      pool.free := [b] + pool.free;
    }

    /** Inserts a range before pos, as far as the pool goes. */
    method InsertRange(pos: nat, values: seq<T>) returns (ok: bool)
      requires Valid() && pos <= |active|
      modifies this`active, pool`free, pool.free
      ensures Valid() && Blocks() == old(Blocks()) && ok == (|values| <= |old(pool.free)|)
      ensures |pool.free| == if ok then |old(pool.free)| - |values| else 0
      ensures Items(active) == Inserted(old(Items(active)), pos, if ok then values else values[..|old(pool.free)|])
    {
      hide Once, Inserted, Items, Blocks, Valid;
      NoneInserted(Items(active), pos);
      for i := 0 to |values|
        invariant Valid() && Blocks() == old(Blocks()) && |pool.free| == |old(pool.free)| - i
        invariant pool.free == old(pool.free)[i..]
        invariant pos + i <= |active| && Items(active) == Inserted(old(Items(active)), pos, values[..i])
      {
        ok := Insert(pos + i, values[i]);
        if !ok {
          return;
        }
        InsertedMore(old(Items(active)), pos, values[..i], values[i]);
        assert values[..i + 1] == values[..i] + [values[i]];
      }
      ok := true;
      assert values[..|values|] == values;
    }

    method InsertCopies(pos: nat, n: nat, value: T) returns (ok: bool)
      requires Valid() && pos <= |active|
      modifies this`active, pool`free, pool.free
      ensures Valid() && Blocks() == old(Blocks()) && ok == (n <= |old(pool.free)|)
      ensures |pool.free| == if ok then |old(pool.free)| - n else 0
      ensures Items(active) == Inserted(old(Items(active)), pos, seq(if ok then n else |old(pool.free)|, _ => value))
    {
      hide Once, Inserted, Items, Blocks, Valid;
      NoneInserted(Items(active), pos);
      for i := 0 to n
        invariant Valid() && Blocks() == old(Blocks()) && |pool.free| == |old(pool.free)| - i
        invariant pool.free == old(pool.free)[i..]
        invariant pos + i <= |active| && Items(active) == Inserted(old(Items(active)), pos, seq(i, _ => value))
      {
        ok := Insert(pos + i, value);
        if !ok {
          return;
        }
        InsertedMore(old(Items(active)), pos, seq(i, _ => value), value);
        assert seq(i + 1, _ => value) == seq(i, _ => value) + [value];
      }
      ok := true;
    }

    method EraseRange(first: nat, last: nat)
      requires Valid() && first <= last <= |active|
      modifies this`active, pool`free
      ensures Valid() && Blocks() == old(Blocks()) && |pool.free| == |old(pool.free)| + (last - first)
      ensures Items(active) == Without(old(Items(active)), first, last)
    {
      hide Once;
      for i := first to last
        invariant Valid() && Blocks() == old(Blocks()) && |pool.free| == |old(pool.free)| + (i - first)
        invariant |active| == |old(active)| - (i - first) && Items(active) == Without(old(Items(active)), first, i)
      {
        Erase(first);
      }
    }

    method RemoveIf(pred: T -> bool)
      requires Valid()
      modifies this`active, pool`free
      ensures Valid() && Blocks() == old(Blocks())
      ensures Items(active) == Kept(old(Items(active)), pred)
    {
      hide Once;
      hide Kept, Without, Items, Blocks, Valid;
      ghost var before, done, seen := Items(active), [], 0;
      var cur := 0;
      NothingSeen(before, pred);
      while cur < |active|
        invariant Valid() && Blocks() == old(Blocks())
        invariant seen <= |before| && done == Kept(before[..seen], pred) && Items(active) == done + before[seen..]
        invariant cur == |done| <= |active|
        decreases |active| - cur
      {
        OneMoreSeen(done, before, seen);
        KeptNext(before, seen, pred);
        ItemAt(active, cur);
        if pred(active[cur].item) {
          Erase(cur);
        } else {
          cur := cur + 1;
        }
        seen := seen + 1;
        done := Kept(before[..seen], pred);
      }
      assert before[..seen] == before;
    }

    /** Looks at element `next`, and drops it if it is related to element `cur` before it. */
    method Settle(cur: nat, next: nat, pred: (T, T) -> bool, ghost before: seq<T>, ghost n: nat)
      returns (cur': nat, next': nat)
      requires Valid() && 0 < n < |before| && next == cur + 1 == |Collapsed(before[..n], pred)|
      requires Items(active) == Collapsed(before[..n], pred) + before[n..]
      modifies this`active, pool`free
      ensures Valid() && Blocks() == old(Blocks()) && next' == cur' + 1 == |Collapsed(before[..n + 1], pred)| <= |active|
      ensures Items(active) == Collapsed(before[..n + 1], pred) + before[n + 1..]
      ensures |active| - next' < old(|active|) - next
    {
      hide Collapsed, Without, Items, Blocks, Valid;
      cur', next' := cur, next;
      LookAt(active, Collapsed(before[..n], pred), before, n);
      CollapsedSeen(before, n, pred);
      if pred(active[cur].item, active[next].item) {
        Erase(next);
      } else {
        cur' := next;
        next' := next + 1;
      }
    }

    method Unique(pred: (T, T) -> bool)
      requires Valid()
      modifies this`active, pool`free
      ensures Valid() && Blocks() == old(Blocks())
      ensures Items(active) == Collapsed(old(Items(active)), pred)
    {
      if active == [] {
        return;
      }
      ItemAt(active, 0);
      hide Collapsed, Without, Items, Blocks, Valid;
      ghost var before, seen := Items(active), 1;
      var cur, next := 0, 1;
      FirstSeen(before, pred);
      while next < |active|
        invariant Valid() && Blocks() == old(Blocks())
        invariant 1 <= seen <= |before| && next == cur + 1 == |Collapsed(before[..seen], pred)| <= |active|
        invariant Items(active) == Collapsed(before[..seen], pred) + before[seen..]
        decreases |active| - next
      {
        cur, next := Settle(cur, next, pred, before, seen);
        seen := seen + 1;
      }
      assert before[..seen] == before;
    }

    /** Cuts the list to n elements, or pads it with copies of x as far as the pool goes. */
    method Resize(n: nat, x: T) returns (ok: bool)
      requires Valid()
      modifies this`active, pool`free, pool.free
      ensures Valid() && Blocks() == old(Blocks()) && ok == (n <= |old(active)| + |old(pool.free)|)
      ensures Items(active) == Resized(old(Items(active)), if ok then n else |old(active)| + |old(pool.free)|, x)
    {
      hide Once;
      var cur, length := 0, 0;
      while cur < |active| && length < n
        invariant cur == length <= n && cur <= |active|
      {
        cur, length := cur + 1, length + 1;
      }
      if length == n {
        EraseRange(cur, |active|);
        ok := true;
      } else {
        ok := InsertCopies(|active|, n - length, x);
      }
    }

    /** Moves all of x before pos. */
    method Splice(pos: nat, x: PooledList<T>)
      requires x != this && x.pool == pool && pos <= |active|
      modifies this`active, x`active
      ensures x.active == [] && multiset(active) == old(multiset(active) + multiset(x.active))
      ensures Items(active) == Inserted(old(Items(active)), pos, old(Items(x.active)))
    {
      assert active == active[..pos] + active[pos..];
      active, x.active := active[..pos] + x.active + active[pos..], [];
    }
  }
}
