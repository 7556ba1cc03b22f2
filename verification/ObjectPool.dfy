/** The object stack that hands out preallocated objects (`pessimistic_memory_manager`). */
module ObjectPools {
  import opened Options

  ghost predicate Distinct<T(!new)>(s: seq<T>) {
    forall i, j :: 0 <= i < j < |s| ==> s[i] != s[j]
  }

  ghost function Elements<T>(s: seq<T>): (e: set<T>) {
    set x | x in s
  }

  /** A list without repetition has as many elements as places. */
  lemma {:induction false} DistinctCount<T(!new)>(s: seq<T>)
    requires Distinct(s)
    ensures |Elements(s)| == |s|
  {
    if s == [] {
      assert Elements(s) == {};
    } else {
      var front, x := s[..|s| - 1], s[|s| - 1];
      DistinctCount(front);
      assert Elements(s) == Elements(front) + {x};
    }
  }

  class PessimisticMemoryManager<T(==, !new)> {
    const freeDataStack: array<T>
    var currentFreePosition: nat

    /** All objects ever managed, and those handed out and not yet released. */
    ghost const objects: set<T>
    ghost var outstanding: set<T>

    /** The slots from the free position up hold exactly the objects that are not outstanding,
        each once. */
    ghost predicate Valid()
      reads this, freeDataStack
    {
      && currentFreePosition <= freeDataStack.Length == |objects|
      && outstanding <= objects
      && Distinct(freeDataStack[currentFreePosition..])
      && Elements(freeDataStack[currentFreePosition..]) == objects - outstanding
    }

    constructor (clones: seq<T>)
      requires Distinct(clones)
      ensures Valid() && fresh(freeDataStack) && outstanding == {} && objects == Elements(clones)
    {
      freeDataStack := new T[|clones|](i requires 0 <= i < |clones| => clones[i]);
      currentFreePosition := 0;
      outstanding, objects := {}, Elements(clones);
      new;
      DistinctCount(clones);
      assert freeDataStack[0..] == clones;
    }

    /** The free position counts the outstanding objects. */
    lemma PositionCounts()
      requires Valid()
      ensures currentFreePosition == |outstanding|
      ensures currentFreePosition == freeDataStack.Length <==> outstanding == objects
    {
      DistinctCount(freeDataStack[currentFreePosition..]);
      assert objects == outstanding + (objects - outstanding);
      if outstanding == objects {
        assert objects - outstanding == {};
      }
    }

    /** Hands out an object nobody holds, or none when all are held. */
    method AllocateElement() returns (p: Option<T>)
      requires Valid()
      modifies this`currentFreePosition, this`outstanding
      ensures Valid()
      ensures p == None <==> old(outstanding) == objects
      ensures p.Some? ==> p.value in objects - old(outstanding)
      ensures outstanding == old(outstanding) + if p.Some? then {p.value} else {}
    {
      PositionCounts();
      if currentFreePosition >= freeDataStack.Length {
        return None;
      }
      ghost var before := freeDataStack[currentFreePosition..];
      currentFreePosition := currentFreePosition + 1;
      p := Some(freeDataStack[currentFreePosition - 1]);
      assert before == [p.value] + freeDataStack[currentFreePosition..];
      assert p.value == before[0] && before[1..] == freeDataStack[currentFreePosition..];
      assert p.value in Elements(before);
      outstanding := outstanding + {p.value};
      assert Elements(before[1..]) == Elements(before) - {p.value};
    }

    /** Takes back an outstanding object, in whatever order objects come back. */
    method ReleaseElement(p: T)
      requires Valid() && p in outstanding
      modifies this`currentFreePosition, this`outstanding, freeDataStack
      ensures Valid() && outstanding == old(outstanding) - {p}
    {
      PositionCounts();
      ghost var before := freeDataStack[currentFreePosition..];
      assert p !in Elements(before);
      currentFreePosition := currentFreePosition - 1;
      freeDataStack[currentFreePosition] := p;
      ghost var after := freeDataStack[currentFreePosition..];
      assert after == [p] + before;
      outstanding := outstanding - {p};
      assert Elements(after) == Elements(before) + {p} by {
        assert after[0] == p && after[1..] == before;
      }
    }
  }

  datatype Request<T> = Take | GiveBack(item: T)

  /** x was given back after request i and before request n. */
  ghost predicate Returned<T(!new)>(requests: seq<Request<T>>, x: T, i: int, n: int)
    requires n <= |requests|
  {
    exists k :: 0 <= i < k < n && requests[k] == GiveBack(x)
  }

  /** x was handed out before request n and has not been given back since. */
  ghost predicate Holds<T(!new)>(requests: seq<Request<T>>, answers: seq<Option<T>>, x: T, n: int)
    requires n <= |requests| && n <= |answers|
  {
    exists i :: 0 <= i < n && answers[i] == Some(x) && !Returned(requests, x, i, n)
  }

  /** Serves any series of requests, objects coming back in any order; a request to take back an
      object that is not outstanding is passed over. No object is handed out again before it was
      given back, and a request is turned down only when every object is held. */
  method Serve<T(==, !new)>(pool: PessimisticMemoryManager<T>, requests: seq<Request<T>>)
    returns (answers: seq<Option<T>>)
    requires pool.Valid() && pool.outstanding == {}
    modifies pool, pool.freeDataStack
    ensures pool.Valid() && |answers| == |requests|
    ensures forall i :: 0 <= i < |answers| && answers[i].Some? ==> requests[i] == Take && answers[i].value in pool.objects
    ensures forall i, j :: 0 <= i < j < |answers| && answers[i].Some? && answers[i] == answers[j] ==>
      Returned(requests, answers[i].value, i, j)
    ensures forall n, x :: 0 <= n < |answers| && requests[n] == Take && answers[n] == None && x in pool.objects ==>
      Holds(requests, answers, x, n)
  {
    answers := [];
    var held: set<T> := {};
    for n := 0 to |requests|
      invariant pool.Valid() && held == pool.outstanding && |answers| == n
      invariant forall i :: 0 <= i < n && answers[i].Some? ==> requests[i] == Take && answers[i].value in pool.objects
      invariant forall x :: x in held <==> Holds(requests, answers, x, n)
      invariant forall i, j :: 0 <= i < j < n && answers[i].Some? && answers[i] == answers[j] ==>
        Returned(requests, answers[i].value, i, j)
      invariant forall m, x :: 0 <= m < n && requests[m] == Take && answers[m] == None && x in pool.objects ==>
        Holds(requests, answers, x, m)
    {
      var answer: Option<T> := None;
      match requests[n] {
        case Take =>
          answer := pool.AllocateElement();
          held := held + if answer.Some? then {answer.value} else {};
        case GiveBack(x) =>
          if x in held {
            pool.ReleaseElement(x);
            held := held - {x};
          }
      }
      HoldsNext(requests, answers, answer, n, n + 1);
      answers := answers + [answer];
    }
  }

  /** Who is held after one more request, and that what was held earlier was held. */
  lemma HoldsNext<T(!new)>(requests: seq<Request<T>>, answers: seq<Option<T>>, answer: Option<T>, n: int, next: int)
    requires 0 <= n == |answers| < next == n + 1 <= |requests|
    ensures forall x :: Holds(requests, answers + [answer], x, next) <==>
      answer == Some(x) || (Holds(requests, answers, x, n) && requests[n] != GiveBack(x))
    ensures forall m, x :: 0 <= m <= n && Holds(requests, answers, x, m) ==> Holds(requests, answers + [answer], x, m)
    ensures forall x, i :: 0 <= i < n && answers[i] == Some(x) && !Holds(requests, answers, x, n) ==> Returned(requests, x, i, n)
  {
    var more := answers + [answer];
    StaysReturned(requests, n, next);
    forall x
      ensures Holds(requests, more, x, next) <==>
        answer == Some(x) || (Holds(requests, answers, x, n) && requests[n] != GiveBack(x))
    {
      if answer == Some(x) {
        assert more[n] == Some(x) && !Returned(requests, x, n, next);
      } else if Holds(requests, answers, x, n) && requests[n] != GiveBack(x) {
        var i :| 0 <= i < n && answers[i] == Some(x) && !Returned(requests, x, i, n);
        assert more[i] == Some(x) && !Returned(requests, x, i, next);
      }
    }
    forall m, x | 0 <= m <= n && Holds(requests, answers, x, m)
      ensures Holds(requests, more, x, m)
    {
      var i :| 0 <= i < m && answers[i] == Some(x) && !Returned(requests, x, i, m);
      assert more[i] == Some(x);
    }
  }

  lemma StaysReturned<T(!new)>(requests: seq<Request<T>>, n: int, next: int)
    requires 0 <= n < next == n + 1 <= |requests|
    ensures forall x, i :: Returned(requests, x, i, next) <==>
      Returned(requests, x, i, n) || (0 <= i < n && requests[n] == GiveBack(x))
  {
    forall x, i ensures Returned(requests, x, i, next) <==>
      Returned(requests, x, i, n) || (0 <= i < n && requests[n] == GiveBack(x))
    {
      if 0 <= i < n && requests[n] == GiveBack(x) {
        assert Returned(requests, x, i, next);
      }
    }
  }
}
