/** The bounded queue of two semaphores and a mutex, as interleaved steps of any number of
    threads. Every line of `enqueue` and `dequeue` that touches shared state is one step; a wait
    interrupted by a signal is retried and changes nothing. */
module BoundedQueue {

  type Thread = nat
  /** A queued pointer; 0 is the null pointer. */
  type Item = nat

  /** Where a thread inside the queue stands: what it will do next. */
  datatype Pc =
    | WaitFull(item: Item) | LockToPush(item: Item) | Push(item: Item) | UnlockPushed | PostEmpty
    | WaitEmpty | LockToPop | Pop | UnlockPopped(taken: Item) | PostFull(taken: Item)

  datatype State = State(
    capacity: nat,
    full: nat,
    empty: nat,
    holder: set<Thread>,
    list: seq<Item>,
    threads: map<Thread, Pc>,
    pushed: seq<Item>,
    popped: seq<Item>,
    /** A check of `dequeue` has failed and stopped the process. */
    aborted: bool)

  function Init(capacity: nat): (s: State) {
    State(capacity, capacity, 0, {}, [], map[], [], [], false)
  }

  datatype Action =
    | CallEnqueue(t: Thread, item: Item)
    | CallDequeue(t: Thread)
    | Interrupt(t: Thread)
    | Run(t: Thread)

  /** Whether thread t can take its next step: semaphores must be positive, the mutex free. */
  predicate CanRun(s: State, t: Thread) {
    && t in s.threads && !s.aborted
    && match s.threads[t]
       case WaitFull(_) => s.full > 0
       case WaitEmpty => s.empty > 0
       case LockToPush(_) => s.holder == {}
       case LockToPop => s.holder == {}
       case _ => true
  }

  predicate Possible(s: State, a: Action) {
    match a
    case CallEnqueue(t, item) => t !in s.threads && item != 0 && !s.aborted
    case CallDequeue(t) => t !in s.threads && !s.aborted
    case Interrupt(t) => t in s.threads && (s.threads[t].WaitFull? || s.threads[t].WaitEmpty?)
    case Run(t) => CanRun(s, t)
  }

  function At(s: State, t: Thread, pc: Pc): (s': State) {
    s.(threads := s.threads[t := pc])
  }

  function Leave(s: State, t: Thread): (s': State) {
    s.(threads := s.threads - {t})
  }

  function Take(s: State, t: Thread): (s': State)
    requires CanRun(s, t)
  {
    match s.threads[t]
    case WaitFull(item) => At(s.(full := s.full - 1), t, LockToPush(item))
    case LockToPush(item) => At(s.(holder := {t}), t, Push(item))
    case Push(item) => At(s.(list := s.list + [item], pushed := s.pushed + [item]), t, UnlockPushed)
    case UnlockPushed => At(s.(holder := {}), t, PostEmpty)
    case PostEmpty => Leave(s.(empty := s.empty + 1), t)
    case WaitEmpty => At(s.(empty := s.empty - 1), t, LockToPop)
    case LockToPop => At(s.(holder := {t}), t, Pop)
    case Pop =>
      if s.list == [] || s.list[0] == 0 then s.(aborted := true)
      else At(s.(list := s.list[1..], popped := s.popped + [s.list[0]]), t, UnlockPopped(s.list[0]))
    case UnlockPopped(item) => At(s.(holder := {}), t, PostFull(item))
    case PostFull(_) => Leave(s.(full := s.full + 1), t)
  }

  function Next(s: State, a: Action): (s': State)
    requires Possible(s, a)
  {
    match a
    case CallEnqueue(t, item) => At(s, t, WaitFull(item))
    case CallDequeue(t) => At(s, t, WaitEmpty)
    case Interrupt(t) => s
    case Run(t) => Take(s, t)
  }

  // ------------------------------------------------------------------ counting threads

  datatype Duty = Waiting | Reserving | Announcing | Claiming | Returning

  /** What a thread still owes the counters. */
  function DutyOf(pc: Pc): (d: Duty) {
    match pc
    case WaitFull(_) => Waiting
    case WaitEmpty => Waiting
    case LockToPush(_) => Reserving
    case Push(_) => Reserving
    case UnlockPushed => Announcing
    case PostEmpty => Announcing
    case LockToPop => Claiming
    case Pop => Claiming
    case UnlockPopped(_) => Returning
    case PostFull(_) => Returning
  }

  ghost function WithDuty(threads: map<Thread, Pc>, d: Duty): (ts: set<Thread>) {
    set t | t in threads && DutyOf(threads[t]) == d
  }

  ghost function Count(threads: map<Thread, Pc>, d: Duty): (n: nat) {
    |WithDuty(threads, d)|
  }

  function Has(threads: map<Thread, Pc>, t: Thread, d: Duty): (n: nat) {
    if t in threads && DutyOf(threads[t]) == d then 1 else 0
  }

  lemma CountAt(threads: map<Thread, Pc>, t: Thread, pc: Pc, d: Duty)
    ensures Count(threads[t := pc], d) == Count(threads, d) - Has(threads, t, d) + if DutyOf(pc) == d then 1 else 0
  {
    var before, after := WithDuty(threads, d), WithDuty(threads[t := pc], d);
    if DutyOf(pc) == d {
      assert after == before + {t};
    } else {
      assert after == before - {t};
    }
  }

  lemma CountLeave(threads: map<Thread, Pc>, t: Thread, d: Duty)
    ensures Count(threads - {t}, d) == Count(threads, d) - Has(threads, t, d)
  {
    assert WithDuty(threads - {t}, d) == WithDuty(threads, d) - {t};
  }

  // ------------------------------------------------------------------ the invariant

  predicate HoldsMutex(pc: Pc) {
    pc.Push? || pc.UnlockPushed? || pc.Pop? || pc.UnlockPopped?
  }

  /** Slots: free, reserved, occupied, or emptied but not yet handed back. */
  ghost predicate SlotsConserved(s: State) {
    s.full + Count(s.threads, Reserving) + |s.list| + Count(s.threads, Returning) == s.capacity
  }

  /** Items in the list: announced, pushed but not yet announced, or claimed but not yet popped. */
  ghost predicate ItemsConserved(s: State) {
    s.empty + Count(s.threads, Announcing) + Count(s.threads, Claiming) == |s.list|
  }

  ghost predicate MutexHeld(s: State) {
    && (forall t :: t in s.holder <==> t in s.threads && HoldsMutex(s.threads[t]))
    && (forall t, u :: t in s.holder && u in s.holder ==> t == u)
  }

  /** Items leave in the order they came; none is lost, repeated or null. */
  ghost predicate InOrder(s: State) {
    && s.pushed == s.popped + s.list
    && 0 !in s.pushed
  }

  ghost predicate NoNulls(s: State) {
    forall t :: t in s.threads ==>
      && (s.threads[t].WaitFull? || s.threads[t].LockToPush? || s.threads[t].Push? ==> s.threads[t].item != 0)
      && (s.threads[t].UnlockPopped? || s.threads[t].PostFull? ==> s.threads[t].taken in s.popped)
  }

  ghost predicate Inv(s: State) {
    !s.aborted && SlotsConserved(s) && ItemsConserved(s) && MutexHeld(s) && InOrder(s) && NoNulls(s)
  }

  lemma CountMember(threads: map<Thread, Pc>, t: Thread, d: Duty)
    requires t in threads && DutyOf(threads[t]) == d
    ensures Count(threads, d) > 0
  {
    assert t in WithDuty(threads, d);
  }

  lemma CountAtAll(threads: map<Thread, Pc>, t: Thread, pc: Pc)
    ensures forall d :: Count(threads[t := pc], d) == Count(threads, d) - Has(threads, t, d) + if DutyOf(pc) == d then 1 else 0
  {
    forall d {
      CountAt(threads, t, pc, d);
    }
  }

  lemma CountLeaveAll(threads: map<Thread, Pc>, t: Thread)
    ensures forall d :: Count(threads - {t}, d) == Count(threads, d) - Has(threads, t, d)
  {
    forall d {
      CountLeave(threads, t, d);
    }
  }

  /** Every step of every thread keeps both books balanced. */
  lemma ConservationKept(s: State, a: Action)
    requires Inv(s) && Possible(s, a)
    ensures SlotsConserved(Next(s, a)) && ItemsConserved(Next(s, a))
  {
    hide Count;
    match a {
      case CallEnqueue(t, item) => CountAtAll(s.threads, t, WaitFull(item));
      case CallDequeue(t) => CountAtAll(s.threads, t, WaitEmpty);
      case Interrupt(t) =>
      case Run(t) =>
        CountLeaveAll(s.threads, t);
        var s' := Next(s, a);
        if t in s'.threads {
          CountAtAll(s.threads, t, s'.threads[t]);
        }
    }
  }

  /** A popping thread always finds an item: the check in `dequeue` never fails. */
  lemma PopFindsItem(s: State, t: Thread)
    requires Inv(s) && t in s.threads && s.threads[t].Pop?
    ensures s.list != [] && s.list[0] != 0
  {
    CountMember(s.threads, t, Claiming);
    assert s.list[0] in s.pushed;
  }

  lemma MutexKept(s: State, a: Action)
    requires Inv(s) && Possible(s, a)
    ensures MutexHeld(Next(s, a))
  {
    hide SlotsConserved, ItemsConserved, InOrder, NoNulls;
  }

  lemma OrderKept(s: State, a: Action)
    requires Inv(s) && Possible(s, a)
    ensures InOrder(Next(s, a)) && NoNulls(Next(s, a)) && !Next(s, a).aborted
  {
    hide SlotsConserved, ItemsConserved, MutexHeld;
    if a.Run? && s.threads[a.t].Pop? {
      PopFindsItem(s, a.t);
      assert s.popped + s.list == (s.popped + [s.list[0]]) + s.list[1..];
    }
  }

  lemma InvKept(s: State, a: Action)
    requires Inv(s) && Possible(s, a)
    ensures Inv(Next(s, a))
  {
    hide Next, SlotsConserved, ItemsConserved, MutexHeld, InOrder, NoNulls;
    ConservationKept(s, a);
    MutexKept(s, a);
    OrderKept(s, a);
  }

  // ------------------------------------------------------------------ who gets what

  /** What was asked of the queue and what it answered, for the record. Calls of enqueue, pushes and
      pops are numbered as they happen. */
  datatype Log = Log(
    /** The item each call of enqueue brought. */
    calls: seq<Item>,
    /** The call each thread is in, or was in last. */
    call: map<Thread, nat>,
    /** The call each pushed item came from. */
    pushedBy: seq<nat>,
    /** The thread that popped each popped item. */
    poppedBy: seq<Thread>,
    /** The number of the item each thread popped last. */
    pop: map<Thread, nat>,
    /** For each popped item, once its dequeue has returned: to which thread, and what. */
    answers: map<nat, (Thread, Item)>)

  const NOTHING: Log := Log([], map[], [], [], map[], map[])

  function NumberOf(m: map<Thread, nat>, t: Thread): (n: nat) {
    if t in m then m[t] else 0
  }

  /** What an action adds to the record. A dequeue returns the item its thread carries. */
  function Record(s: State, log: Log, a: Action): (log': Log)
    requires Possible(s, a)
  {
    match a
    case CallEnqueue(t, item) => log.(calls := log.calls + [item], call := log.call[t := |log.calls|])
    case CallDequeue(t) => log
    case Interrupt(t) => log
    case Run(t) =>
      match s.threads[t]
      case Push(_) => log.(pushedBy := log.pushedBy + [NumberOf(log.call, t)])
      case Pop =>
        if Next(s, a).aborted then log
        else log.(poppedBy := log.poppedBy + [t], pop := log.pop[t := |s.popped|])
      case PostFull(item) => log.(answers := log.answers[NumberOf(log.pop, t) := (t, item)])
      case _ => log
  }

  /** Where a step that neither pops nor returns takes a thread. */
  function Following(pc: Pc): (next: Pc)
    requires !pc.Pop? && !pc.PostEmpty? && !pc.PostFull?
  {
    match pc
    case WaitFull(item) => LockToPush(item)
    case LockToPush(item) => Push(item)
    case Push(_) => UnlockPushed
    case UnlockPushed => PostEmpty
    case WaitEmpty => LockToPop
    case LockToPop => Pop
    case UnlockPopped(item) => PostFull(item)
  }

  lemma TakeMoves(s: State, t: Thread)
    requires CanRun(s, t) && !s.threads[t].Pop?
    ensures var pc, s' := s.threads[t], Take(s, t);
      && s'.popped == s.popped && s'.aborted == s.aborted
      && (!pc.Push? ==> s'.pushed == s.pushed)
      && s'.threads == if pc.PostEmpty? || pc.PostFull? then s.threads - {t} else s.threads[t := Following(pc)]
  {
  }

  lemma TakePops(s: State, t: Thread)
    requires CanRun(s, t) && s.threads[t].Pop?
    ensures var s' := Take(s, t);
      && s'.pushed == s.pushed
      && (if s'.aborted then s'.threads == s.threads else exists item :: s'.threads == s.threads[t := UnlockPopped(item)])
  {
    var s' := Take(s, t);
    if !s'.aborted {
      assert s'.threads == s.threads[t := UnlockPopped(s.list[0])];
    }
  }

  /** A thread that has popped an item and has not returned it yet. */
  predicate Carries(pc: Pc) {
    pc.UnlockPopped? || pc.PostFull?
  }

  /** A thread that was given an item and has not pushed it yet. */
  predicate Brings(pc: Pc) {
    pc.WaitFull? || pc.LockToPush? || pc.Push?
  }

  /** Thread t carries the item popped as number k. */
  predicate CarriesPop(s: State, log: Log, t: Thread, k: nat) {
    && t in s.threads && Carries(s.threads[t]) && t in log.pop && log.pop[t] == k
  }

  /** Every popped item is with the thread that popped it, or was returned to that thread. */
  ghost predicate AnsweredOnce(s: State, log: Log) {
    && |log.poppedBy| == |s.popped|
    && (forall t :: t in s.threads && Carries(s.threads[t]) ==>
          && t in log.pop && log.pop[t] < |s.popped| && log.pop[t] !in log.answers
          && s.threads[t].taken == s.popped[log.pop[t]] && log.poppedBy[log.pop[t]] == t)
    && (forall k :: k in log.answers ==> k < |s.popped| && log.answers[k] == (log.poppedBy[k], s.popped[k]))
    && (forall k :: 0 <= k < |s.popped| && k !in log.answers ==> CarriesPop(s, log, log.poppedBy[k], k))
  }

  /** The same threads carry the same items, and nothing was popped or returned. */
  ghost predicate SameCarried(s: State, log: Log, s': State, log': Log) {
    && s'.popped == s.popped && log'.poppedBy == log.poppedBy && log'.pop == log.pop && log'.answers == log.answers
    && (forall t :: t in s'.threads && Carries(s'.threads[t]) <==> t in s.threads && Carries(s.threads[t]))
    && (forall t :: t in s.threads && Carries(s.threads[t]) ==> s'.threads[t].taken == s.threads[t].taken)
  }

  lemma SameCarriedKept(s: State, log: Log, s': State, log': Log)
    requires AnsweredOnce(s, log) && SameCarried(s, log, s', log')
    ensures AnsweredOnce(s', log')
  {
  }

  lemma PopAnswered(s: State, log: Log, t: Thread)
    requires CanRun(s, t) && s.threads[t].Pop? && AnsweredOnce(s, log) && !Take(s, t).aborted
    ensures AnsweredOnce(Take(s, t), Record(s, log, Run(t)))
  {
    var s', log' := Take(s, t), Record(s, log, Run(t));
    assert s'.popped == s.popped + [s.list[0]] && s'.threads == s.threads[t := UnlockPopped(s.list[0])];
    assert log'.poppedBy == log.poppedBy + [t] && log'.pop == log.pop[t := |s.popped|] && log'.answers == log.answers;
    hide Take, Record;
    forall k | 0 <= k < |s'.popped| && k !in log'.answers
      ensures CarriesPop(s', log', log'.poppedBy[k], k)
    {
      if k < |s.popped| {
        assert CarriesPop(s, log, log.poppedBy[k], k);
      }
    }
  }

  lemma ReturnAnswered(s: State, log: Log, t: Thread)
    requires CanRun(s, t) && s.threads[t].PostFull? && AnsweredOnce(s, log)
    ensures AnsweredOnce(Take(s, t), Record(s, log, Run(t)))
  {
    var s', log' := Take(s, t), Record(s, log, Run(t));
    assert s'.popped == s.popped && s'.threads == s.threads - {t};
    assert log' == log.(answers := log.answers[log.pop[t] := (t, s.threads[t].taken)]);
    hide Take, Record;
    forall k | 0 <= k < |s'.popped| && k !in log'.answers
      ensures CarriesPop(s', log', log'.poppedBy[k], k)
    {
      assert CarriesPop(s, log, log.poppedBy[k], k);
    }
  }

  lemma AnsweredKept(s: State, log: Log, a: Action)
    requires Possible(s, a) && AnsweredOnce(s, log) && !Next(s, a).aborted
    ensures AnsweredOnce(Next(s, a), Record(s, log, a))
  {
    if a.Run? && s.threads[a.t].Pop? {
      PopAnswered(s, log, a.t);
    } else if a.Run? && s.threads[a.t].PostFull? {
      ReturnAnswered(s, log, a.t);
    } else {
      if a.Run? {
        TakeMoves(s, a.t);
      }
      hide AnsweredOnce, Take;
      assert SameCarried(s, log, Next(s, a), Record(s, log, a));
      SameCarriedKept(s, log, Next(s, a), Record(s, log, a));
    }
  }

  /** Thread t brings the item of call c. */
  predicate BringsCall(s: State, log: Log, t: Thread, c: nat) {
    t in s.threads && Brings(s.threads[t]) && t in log.call && log.call[t] == c
  }

  /** Every item brought by a call was pushed once, or is still with the thread that brought it. */
  ghost predicate PushedOnce(s: State, log: Log) {
    && |log.pushedBy| == |s.pushed|
    && (forall k :: 0 <= k < |s.pushed| ==>
          log.pushedBy[k] < |log.calls| && s.pushed[k] == log.calls[log.pushedBy[k]])
    && (forall j, k :: 0 <= j < k < |s.pushed| ==> log.pushedBy[j] != log.pushedBy[k])
    && (forall t :: t in s.threads && Brings(s.threads[t]) ==>
          && t in log.call && log.call[t] < |log.calls| && log.call[t] !in log.pushedBy
          && s.threads[t].item == log.calls[log.call[t]])
    && (forall t, u :: t in s.threads && u in s.threads && t != u && Brings(s.threads[t]) && Brings(s.threads[u]) ==>
          t in log.call && u in log.call && log.call[t] != log.call[u])
    && (forall c :: 0 <= c < |log.calls| && c !in log.pushedBy ==> exists t :: BringsCall(s, log, t, c))
  }

  /** The same threads bring the same items, and nothing was asked or pushed. */
  ghost predicate SameBrought(s: State, log: Log, s': State, log': Log) {
    && s'.pushed == s.pushed && log'.pushedBy == log.pushedBy && log'.calls == log.calls && log'.call == log.call
    && (forall t :: t in s'.threads && Brings(s'.threads[t]) <==> t in s.threads && Brings(s.threads[t]))
    && (forall t :: t in s.threads && Brings(s.threads[t]) ==> s'.threads[t].item == s.threads[t].item)
  }

  lemma SameBroughtKept(s: State, log: Log, s': State, log': Log)
    requires PushedOnce(s, log) && SameBrought(s, log, s', log')
    ensures PushedOnce(s', log')
  {
    forall c | 0 <= c < |log'.calls| && c !in log'.pushedBy
      ensures exists t :: BringsCall(s', log', t, c)
    {
      var t :| BringsCall(s, log, t, c);
      assert BringsCall(s', log', t, c);
    }
  }

  lemma CallAsked(s: State, log: Log, t: Thread, item: Item)
    requires Possible(s, CallEnqueue(t, item)) && PushedOnce(s, log)
    ensures PushedOnce(Next(s, CallEnqueue(t, item)), Record(s, log, CallEnqueue(t, item)))
  {
    var s', log' := Next(s, CallEnqueue(t, item)), Record(s, log, CallEnqueue(t, item));
    assert s'.pushed == s.pushed && s'.threads == s.threads[t := WaitFull(item)];
    assert log' == log.(calls := log.calls + [item], call := log.call[t := |log.calls|]);
    hide Next, Record;
    forall c | 0 <= c < |log'.calls| && c !in log'.pushedBy
      ensures exists u :: BringsCall(s', log', u, c)
    {
      if c < |log.calls| {
        var u :| BringsCall(s, log, u, c);
        assert BringsCall(s', log', u, c);
      } else {
        assert BringsCall(s', log', t, c);
      }
    }
  }

  lemma PushDone(s: State, log: Log, t: Thread)
    requires CanRun(s, t) && s.threads[t].Push? && PushedOnce(s, log)
    ensures PushedOnce(Take(s, t), Record(s, log, Run(t)))
  {
    var s', log' := Take(s, t), Record(s, log, Run(t));
    assert s'.pushed == s.pushed + [s.threads[t].item] && s'.threads == s.threads[t := UnlockPushed];
    assert log' == log.(pushedBy := log.pushedBy + [log.call[t]]);
    hide Take, Record;
    forall c | 0 <= c < |log'.calls| && c !in log'.pushedBy
      ensures exists u :: BringsCall(s', log', u, c)
    {
      assert c !in log.pushedBy && log'.pushedBy[|log.pushedBy|] == log.call[t];
      var u :| BringsCall(s, log, u, c);
      assert BringsCall(s', log', u, c);
    }
  }

  lemma PushedKept(s: State, log: Log, a: Action)
    requires Possible(s, a) && PushedOnce(s, log)
    ensures PushedOnce(Next(s, a), Record(s, log, a))
  {
    if a.CallEnqueue? {
      CallAsked(s, log, a.t, a.item);
    } else if a.Run? && s.threads[a.t].Push? {
      PushDone(s, log, a.t);
    } else {
      if a.Run? && s.threads[a.t].Pop? {
        TakePops(s, a.t);
      } else if a.Run? {
        TakeMoves(s, a.t);
      }
      hide PushedOnce, Take;
      assert SameBrought(s, log, Next(s, a), Record(s, log, a));
      SameBroughtKept(s, log, Next(s, a), Record(s, log, a));
    }
  }

  // ------------------------------------------------------------------ all runs

  /** The state and the record after a series of actions, if each was possible in its turn. */
  ghost predicate Leads(s: State, log: Log, actions: seq<Action>, s': State, log': Log)
    decreases |actions|
  {
    if actions == [] then s' == s && log' == log
    else
      && Possible(s, actions[0])
      && Leads(Next(s, actions[0]), Record(s, log, actions[0]), actions[1..], s', log')
  }

  ghost predicate Reachable(s: State, log: Log) {
    exists actions :: Leads(Init(s.capacity), NOTHING, actions, s, log)
  }

  ghost predicate AllInv(s: State, log: Log) {
    Inv(s) && AnsweredOnce(s, log) && PushedOnce(s, log)
  }

  lemma {:induction false} InvAlong(s: State, log: Log, actions: seq<Action>, s': State, log': Log)
    requires AllInv(s, log) && Leads(s, log, actions, s', log')
    ensures AllInv(s', log') && s'.capacity == s.capacity
    decreases |actions|
  {
    if actions != [] {
      hide AllInv, Next, Record, Possible;
      AllKept(s, log, actions[0]);
      InvAlong(Next(s, actions[0]), Record(s, log, actions[0]), actions[1..], s', log');
    }
  }

  lemma AllKept(s: State, log: Log, a: Action)
    requires AllInv(s, log) && Possible(s, a)
    ensures AllInv(Next(s, a), Record(s, log, a)) && Next(s, a).capacity == s.capacity
  {
    hide Inv, AnsweredOnce, PushedOnce, Record;
    InvKept(s, a);
    assert Inv(Next(s, a)) ==> !Next(s, a).aborted by {
      NotAborted(Next(s, a));
    }
    AnsweredKept(s, log, a);
    PushedKept(s, log, a);
  }

  lemma NotAborted(s: State)
    ensures Inv(s) ==> !s.aborted
  {
  }

  lemma InitInv(capacity: nat)
    ensures AllInv(Init(capacity), NOTHING)
  {
    assert forall d :: WithDuty(map[], d) == {};
  }

  lemma ReachableInv(s: State, log: Log)
    requires Reachable(s, log)
    ensures AllInv(s, log)
  {
    var actions :| Leads(Init(s.capacity), NOTHING, actions, s, log);
    InitInv(s.capacity);
    InvAlong(Init(s.capacity), NOTHING, actions, s, log);
  }

  /** In every interleaving: no check fails, the list never exceeds the capacity, and items pushed
      are items popped followed by the list. */
  lemma Safety(s: State, log: Log)
    requires Reachable(s, log)
    ensures !s.aborted && |s.list| <= s.capacity && s.pushed == s.popped + s.list && 0 !in s.popped
    ensures |s.holder| <= 1 && SlotsConserved(s) && ItemsConserved(s)
  {
    ReachableInv(s, log);
    if s.holder != {} {
      var t :| t in s.holder;
      assert s.holder == {t};
    }
  }

  /** In every interleaving: the dequeue that popped the k-th item returns the k-th item pushed, which
      is the item its own call of enqueue brought; no two pops come from one call, and every item
      popped but not yet returned is with the one thread that popped it. */
  lemma EachGetsItsOwn(s: State, log: Log)
    requires Reachable(s, log)
    ensures |log.poppedBy| == |s.popped| <= |s.pushed| == |log.pushedBy|
    ensures forall k: nat :: k in log.answers ==>
      && k < |s.popped| && log.answers[k] == (log.poppedBy[k], s.popped[k]) && s.popped[k] == s.pushed[k]
      && log.pushedBy[k] < |log.calls| && log.answers[k].1 == log.calls[log.pushedBy[k]]
    ensures forall j: nat, k: nat :: j in log.answers && k in log.answers && j != k ==> log.pushedBy[j] != log.pushedBy[k]
    ensures forall k: nat :: k < |s.popped| ==> k in log.answers || CarriesPop(s, log, log.poppedBy[k], k)
    ensures forall t, k: nat :: CarriesPop(s, log, t, k) ==>
      k < |s.popped| && k !in log.answers && s.threads[t].taken == s.popped[k] && log.poppedBy[k] == t
  {
    ReachableInv(s, log);
    assert |s.popped| <= |s.pushed| && forall k :: 0 <= k < |s.popped| ==> s.pushed[k] == s.popped[k];
  }

  /** The pops whose item x was returned, and the threads that still carry an x. */
  ghost function ReturnedAs(log: Log, x: Item): (ks: set<nat>) {
    set k | k in log.answers && log.answers[k].1 == x
  }

  ghost function CarriedAs(s: State, x: Item): (ts: set<Thread>) {
    set t | t in s.threads && Carries(s.threads[t]) && s.threads[t].taken == x
  }

  ghost function Positions(q: seq<Item>, x: Item): (ks: set<nat>) {
    set k: nat | k < |q| && q[k] == x
  }

  lemma {:induction false} PositionsCount(q: seq<Item>, x: Item)
    ensures |Positions(q, x)| == multiset(q)[x]
  {
    if q == [] {
      assert Positions(q, x) == {};
    } else {
      var last := |q| - 1;
      PositionsCount(q[..last], x);
      assert q == q[..last] + [q[last]];
      assert Positions(q, x) == Positions(q[..last], x) + if q[last] == x then {last} else {};
    }
  }

  /** Different threads have different numbers, so there are as many numbers as threads. */
  lemma {:induction false} NumbersCount(ts: set<Thread>, number: map<Thread, nat>)
    requires (forall t :: t in ts ==> t in number)
    requires forall t, u :: t in ts && u in ts && number[t] == number[u] ==> t == u
    ensures |set t | t in ts :: NumberOf(number, t)| == |ts|
  {
    var ks := set t | t in ts :: NumberOf(number, t);
    if ts == {} {
      assert ks == {};
    } else {
      var t :| t in ts;
      NumbersCount(ts - {t}, number);
      assert ks == (set u | u in ts - {t} :: NumberOf(number, u)) + {number[t]};
    }
  }

  ghost function NumbersOf(log: Log, ts: set<Thread>): (ks: set<nat>) {
    set t | t in ts :: NumberOf(log.pop, t)
  }

  lemma PoppedIsReturnedOrCarried(s: State, log: Log, x: Item, k: nat)
    requires AnsweredOnce(s, log)
    ensures k in Positions(s.popped, x) <==> k in ReturnedAs(log, x) || k in NumbersOf(log, CarriedAs(s, x))
    ensures !(k in ReturnedAs(log, x) && k in NumbersOf(log, CarriedAs(s, x)))
  {
    if k < |s.popped| && k !in log.answers {
      assert CarriesPop(s, log, log.poppedBy[k], k);
      assert k in NumbersOf(log, CarriedAs(s, x)) <== s.popped[k] == x by {
        if s.popped[k] == x {
          assert log.poppedBy[k] in CarriedAs(s, x) && NumberOf(log.pop, log.poppedBy[k]) == k;
        }
      }
    }
  }

  lemma CarriersAreNumbered(s: State, log: Log, x: Item)
    requires AnsweredOnce(s, log)
    ensures |NumbersOf(log, CarriedAs(s, x))| == |CarriedAs(s, x)|
  {
    NumbersCount(CarriedAs(s, x), log.pop);
  }

  lemma PopsAddUp(s: State, log: Log, x: Item)
    requires AnsweredOnce(s, log)
    ensures multiset(s.popped)[x] == |ReturnedAs(log, x)| + |CarriedAs(s, x)|
  {
    hide AnsweredOnce, CarriedAs, ReturnedAs, NumbersOf, Positions;
    var all, returned, carried := Positions(s.popped, x), ReturnedAs(log, x), NumbersOf(log, CarriedAs(s, x));
    CarriersAreNumbered(s, log, x);
    PositionsCount(s.popped, x);
    forall k: nat
      ensures k in all <==> k in returned || k in carried
      ensures !(k in returned && k in carried)
    {
      PoppedIsReturnedOrCarried(s, log, x, k);
    }
    assert all == returned + carried && returned !! carried;
  }

  /** The items returned and the items still carried are together exactly the items popped. */
  lemma ReturnedAndCarriedArePopped(s: State, log: Log, x: Item)
    requires Reachable(s, log)
    ensures multiset(s.popped)[x] == |ReturnedAs(log, x)| + |CarriedAs(s, x)|
  {
    hide Inv, PushedOnce, AnsweredOnce, ReturnedAs, CarriedAs;
    ReachableInv(s, log);
    PopsAddUp(s, log, x);
  }

  predicate Enqueuing(pc: Pc) {
    pc.WaitFull? || pc.LockToPush? || pc.Push? || pc.UnlockPushed? || pc.PostEmpty?
  }

  /** While someone is enqueuing and someone is dequeuing, some thread can take a step. */
  lemma Progress(s: State, log: Log, e: Thread, d: Thread) returns (t: Thread)
    requires Reachable(s, log) && s.capacity > 0
    requires e in s.threads && d in s.threads && Enqueuing(s.threads[e]) && !Enqueuing(s.threads[d])
    ensures CanRun(s, t)
  {
    ReachableInv(s, log);
    t := SomeoneCanRun(s, e, d);
  }

  lemma SomeoneCanRun(s: State, e: Thread, d: Thread) returns (t: Thread)
    requires Inv(s) && s.capacity > 0
    requires e in s.threads && d in s.threads && Enqueuing(s.threads[e]) && !Enqueuing(s.threads[d])
    ensures CanRun(s, t)
  {
    if s.holder != {} {
      t :| t in s.holder;
    } else if exists u :: u in s.threads && !s.threads[u].WaitFull? && !s.threads[u].WaitEmpty? {
      t :| t in s.threads && !s.threads[t].WaitFull? && !s.threads[t].WaitEmpty?;
    } else {
      assert forall duty :: duty != Waiting ==> WithDuty(s.threads, duty) == {};
      t := if s.full > 0 then e else d;
    }
  }
}
