/**
  Any number of threads using levelized mutexes, as a step system.

  A blocking acquire is two steps: the call passes its checks and starts to
  wait, and later the underlying mutex is granted. `MultiLock` waits for the
  members of its group one after the other; `MutexUndoer` and `MultiUnlock`
  release one mutex a step. Steps of different threads interleave freely.
 */
module LockMachine {
  import opened Wrappers
  import opened LevelLists
  import opened LevelListProofs

  type Tid = nat

  /** Where a thread is. `base` is the list it held when `MultiLock` was called and
      `done` the members locked since, the latest first. */
  datatype Phase =
    | Running
    | Waiting(id: Id)
    | GroupLocking(base: seq<Hold>, done: seq<Id>, todo: seq<Id>)
    | Undoing(base: seq<Hold>, done: seq<Id>)
    | GroupUnlocking(todo: seq<Id>)

  datatype Thread = Thread(held: seq<Hold>, phase: Phase)

  /** `owner` says which thread the underlying mutex was granted to. */
  datatype State = State(threads: map<Tid, Thread>, owner: map<Id, Tid>)

  datatype Action =
    | LockCall(id: Id)
    | Granted
    | GiveUp
    | UndoOne
    | TryLockCall(id: Id, seenLocked: bool, granted: bool)
    | UnlockCall(id: Id, seenCount: nat)
    | MultiLockCall(c: seq<Option<Id>>)
    | MultiUnlockCall(c: seq<Option<Id>>)
    | UnlockOne

  /** The mutex a thread is blocked on. */
  function WaitsOn(th: Thread): Option<Id> {
    match th.phase
    case Waiting(id) => Some(id)
    case GroupLocking(_, _, todo) => if todo == [] then None else Some(todo[0])
    case _ => None
  }

  function Put(s: State, t: Tid, th: Thread): State {
    s.(threads := s.threads[t := th])
  }

  /** The underlying mutex is granted to `t`, and `PostLock` runs. */
  function Acquire(s: State, t: Tid, id: Id, next: Phase): State
    requires t in s.threads
  {
    State(s.threads[t := Thread([Hold(id, 1)] + s.threads[t].held, next)], s.owner[id := t])
  }

  /** `UnlockThis`: one lock fewer, and the underlying mutex is freed with the last. */
  function ReleaseOne(s: State, t: Tid, id: Id, next: Phase): State
    requires t in s.threads && MayRelease(s.threads[t].held, id)
  {
    var held := s.threads[t].held;
    State(s.threads[t := Thread(Release(held, id), next)],
          if CountOf(held, id) > 1 then s.owner else s.owner - {id})
  }

  /** One step of thread `t`; `None` when the step is not possible, or when the
      code would fail an assertion. */
  function Step(s: State, t: Tid, a: Action): Option<State> {
    if t !in s.threads then None
    else if s.threads[t].phase.Running? then CallStep(s, t, a)
    else PendingStep(s, t, a)
  }

  /** A call made by a thread that is running. */
  function CallStep(s: State, t: Tid, a: Action): Option<State>
    requires t in s.threads && s.threads[t].phase.Running?
  {
    var held := s.threads[t].held;
    match a
    case LockCall(id) =>
      if id.level >= UNLOCKED_LEVEL then None
      else
        var (r, after) := LockVerdict(held, id, false, false);
        Some(Put(s, t, Thread(after, if r == NoProblem then Waiting(id) else Running)))
    case TryLockCall(id, seenLocked, granted) =>
      if id.level >= UNLOCKED_LEVEL then None
      else
        var (r, after) := LockVerdict(held, id, true, seenLocked);
        if r == NoProblem && granted && id !in s.owner then Some(Acquire(s, t, id, Running))
        else Some(Put(s, t, Thread(after, Running)))
    case UnlockCall(id, seenCount) =>
      if Holds(held, id) && seenCount != CountOf(held, id) then None
      else
        var (r, after) := UnlockVerdict(held, id, seenCount);
        if r != NoProblem then Some(Put(s, t, Thread(after, Running)))
        else if MayRelease(held, id) then Some(ReleaseOne(s, t, id, Running))
        else None
    case MultiLockCall(c) =>
      LockGroupPlan(held, c);
      (match MultiLockPlan(held, c)
       case Refuse(_) => Some(s)
       case Relock =>
         MatchAccepts(held, c, 0);
         Some(Put(s, t, Thread(IncrementAll(held, Values(c)), Running)))
       case LockGroup =>
         Some(Put(s, t, Thread(held, GroupLocking(held, [], SortByAddress(Values(c)))))))
    case MultiUnlockCall(c) =>
      if Match(held, c) != Success then Some(s)
      else
        MatchAccepts(held, c, 0);
        Some(Put(s, t, Thread(held, GroupUnlocking(Reverse(SortByAddress(Values(c)))))))
    case _ => None
  }

  /** A step of a thread inside a call. */
  function PendingStep(s: State, t: Tid, a: Action): Option<State>
    requires t in s.threads && !s.threads[t].phase.Running?
  {
    var held := s.threads[t].held;
    match (a, s.threads[t].phase)
    case (Granted, Waiting(id)) =>
      if id in s.owner then None else Some(Acquire(s, t, id, Running))
    case (GiveUp, Waiting(_)) =>
      Some(Put(s, t, Thread(held, Running)))
    case (Granted, GroupLocking(base, done, todo)) =>
      if todo == [] || todo[0] in s.owner then None
      else
        Some(Acquire(s, t, todo[0],
                     if |todo| == 1 then Running else GroupLocking(base, [todo[0]] + done, todo[1..])))
    case (GiveUp, GroupLocking(base, done, _)) =>
      Some(Put(s, t, Thread(held, if done == [] then Running else Undoing(base, done))))
    case (UndoOne, Undoing(base, done)) =>
      if done == [] || !MayRelease(held, done[0]) then None
      else Some(ReleaseOne(s, t, done[0], if |done| == 1 then Running else Undoing(base, done[1..])))
    case (UnlockOne, GroupUnlocking(todo)) =>
      if todo == [] || !MayRelease(held, todo[0]) then None
      else Some(ReleaseOne(s, t, todo[0], if |todo| == 1 then Running else GroupUnlocking(todo[1..])))
    case _ => None
  }

  predicate Initial(s: State) {
    s.owner == map[] && forall t :: t in s.threads ==> s.threads[t] == Thread([], Running)
  }

  /** The state after a run of steps, if all of them are possible. */
  function Run(s: State, steps: seq<(Tid, Action)>): Option<State>
    decreases |steps|
  {
    if steps == [] then Some(s)
    else
      match Step(s, steps[0].0, steps[0].1)
      case None => None
      case Some(next) => Run(next, steps[1..])
  }

  // ----- what every reachable state satisfies -----

  predicate AllBefore(h: seq<Hold>, id: Id) {
    forall i :: 0 <= i < |h| ==> Before(h[i].id, id)
  }

  predicate ThreadInv(th: Thread) {
    && Ordered(th.held)
    && match th.phase
       case Running => true
       case Waiting(id) => id.level < UNLOCKED_LEVEL && AllBefore(th.held, id)
       case GroupLocking(base, done, todo) =>
         && todo != [] && Ascending(todo)
         && (forall k :: 0 <= k < |todo| ==> todo[k].level < UNLOCKED_LEVEL && AllBefore(th.held, todo[k]))
         && th.held == Once(done) + base
       case Undoing(base, done) => done != [] && th.held == Once(done) + base
       case GroupUnlocking(_) => true
  }

  /** A mutex is in the list of a thread exactly when that thread owns it. */
  ghost predicate OwnsList(owner: map<Id, Tid>, t: Tid, held: seq<Hold>) {
    forall id :: Holds(held, id) <==> id in owner && owner[id] == t
  }

  ghost predicate Inv(s: State) {
    && (forall t :: t in s.threads ==> ThreadInv(s.threads[t]))
    && (forall t :: t in s.threads ==> OwnsList(s.owner, t, s.threads[t].held))
    && (forall id :: id in s.owner ==> s.owner[id] in s.threads)
  }

  lemma {:induction false} SameMutexes(h: seq<Hold>, h': seq<Hold>)
    requires Ids(h) == Ids(h')
    ensures forall id :: Holds(h, id) <==> Holds(h', id)
  {
    forall id
      ensures Holds(h, id) <==> Holds(h', id)
    {
      if i :| 0 <= i < |h| && h[i].id == id { assert Ids(h')[i] == id; }
      if i :| 0 <= i < |h'| && h'[i].id == id { assert Ids(h)[i] == id; }
    }
  }

  lemma {:induction false} PutInv(s: State, t: Tid, th: Thread)
    requires Inv(s) && t in s.threads && ThreadInv(th) && Ids(th.held) == Ids(s.threads[t].held)
    ensures Inv(Put(s, t, th))
  {
    SameMutexes(th.held, s.threads[t].held);
  }

  lemma {:induction false} HoldsPushed(id: Id, h: seq<Hold>)
    ensures forall x :: Holds([Hold(id, 1)] + h, x) <==> x == id || Holds(h, x)
  {
    var g := [Hold(id, 1)] + h;
    forall x
      ensures Holds(g, x) <==> x == id || Holds(h, x)
    {
      if i :| 0 <= i < |h| && h[i].id == x { assert g[i + 1].id == x; }
      assert g[0].id == id;
    }
  }

  lemma {:induction false} AcquireInv(s: State, t: Tid, id: Id, next: Phase)
    requires Inv(s) && t in s.threads && id !in s.owner
    requires ThreadInv(Thread([Hold(id, 1)] + s.threads[t].held, next))
    ensures Inv(Acquire(s, t, id, next))
  {
    HoldsPushed(id, s.threads[t].held);
    var s' := Acquire(s, t, id, next);
    forall u | u in s'.threads
      ensures OwnsList(s'.owner, u, s'.threads[u].held)
    {
      assert OwnsList(s.owner, u, s.threads[u].held);
    }
  }

  /** Taking the last lock off the head takes exactly that mutex out of the list. */
  lemma {:induction false} ReleasedMutexes(h: seq<Hold>, id: Id)
    requires Ordered(h) && MayRelease(h, id)
    ensures forall x :: Holds(Release(h, id), x) <==> Holds(h, x) && (x != id || CountOf(h, id) > 1)
  {
    var after := Release(h, id);
    ReleaseKeepsOrder(h, id);
    if CountOf(h, id) > 1 {
      SameMutexes(h, after);
      if !Holds(h, id) { CountOfAbsent(h, id); }
    } else {
      assert h == [h[0]] + after && h[0].id == id;
      forall x
        ensures Holds(after, x) <==> Holds(h, x) && x != id
      {
        if i :| 0 <= i < |after| && after[i].id == x {
          assert h[i + 1].id == x && Before(h[i + 1].id, h[0].id);
        }
        if i :| 0 <= i < |h| && h[i].id == x && x != id { assert after[i - 1].id == x; }
      }
    }
  }

  lemma {:induction false} ReleaseInv(s: State, t: Tid, id: Id, next: Phase)
    requires Inv(s) && t in s.threads && MayRelease(s.threads[t].held, id)
    requires ThreadInv(Thread(Release(s.threads[t].held, id), next))
    ensures Inv(ReleaseOne(s, t, id, next))
  {
    var held := s.threads[t].held;
    ReleasedMutexes(held, id);
    assert Holds(held, id) by {
      if !Holds(held, id) { CountOfAbsent(held, id); }
    }
    assert OwnsList(s.owner, t, held);
    var s' := ReleaseOne(s, t, id, next);
    forall u | u in s'.threads
      ensures OwnsList(s'.owner, u, s'.threads[u].held)
    {
      assert OwnsList(s.owner, u, s.threads[u].held);
    }
  }

  lemma {:induction false} IncrementAllKeeps(h: seq<Hold>, ids: seq<Id>)
    requires Ordered(h)
    ensures Ordered(IncrementAll(h, ids)) && Ids(IncrementAll(h, ids)) == Ids(h)
    decreases |ids|
  {
    if ids != [] {
      IncrementAt(h, ids[0]);
      IncrementAllKeeps(Increment(h, ids[0]), ids[1..]);
    }
  }

  lemma {:induction false} SingleCallInv(s: State, t: Tid, a: Action)
    requires Inv(s) && t in s.threads && s.threads[t].phase.Running?
    requires a.LockCall? || a.TryLockCall?
    ensures CallStep(s, t, a).Some? ==> Inv(CallStep(s, t, a).value)
  {
    var held := s.threads[t].held;
    assert ThreadInv(s.threads[t]);
    var forTry, seen := a.TryLockCall?, a.TryLockCall? && a.seenLocked;
    if a.id.level < UNLOCKED_LEVEL {
      PreLockKeepsMutexes(held, a.id, forTry, seen);
      var (r, after) := LockVerdict(held, a.id, forTry, seen);
      if r == NoProblem {
        BelowCurrentLevel(held, a.id);
        PushOrdered(held, a.id);
        if a.TryLockCall? && a.granted && a.id !in s.owner { AcquireInv(s, t, a.id, Running); }
        if a.LockCall? { PutInv(s, t, Thread(after, Waiting(a.id))); }
      }
      PutInv(s, t, Thread(after, Running));
    }
  }

  lemma {:induction false} UnlockCallInv(s: State, t: Tid, id: Id, seenCount: nat)
    requires Inv(s) && t in s.threads && s.threads[t].phase.Running?
    ensures var next := CallStep(s, t, UnlockCall(id, seenCount)); next.Some? ==> Inv(next.value)
  {
    var held := s.threads[t].held;
    assert ThreadInv(s.threads[t]);
    PreUnlockKeepsMutexes(held, id, seenCount);
    PutInv(s, t, Thread(UnlockVerdict(held, id, seenCount).1, Running));
    if MayRelease(held, id) {
      ReleaseKeepsOrder(held, id);
      ReleaseInv(s, t, id, Running);
    }
  }

  lemma {:induction false} MultiLockCallInv(s: State, t: Tid, c: seq<Option<Id>>)
    requires Inv(s) && t in s.threads && s.threads[t].phase.Running?
    ensures CallStep(s, t, MultiLockCall(c)).Some? ==> Inv(CallStep(s, t, MultiLockCall(c)).value)
  {
    var held := s.threads[t].held;
    assert ThreadInv(s.threads[t]);
    LockGroupPlan(held, c);
    match MultiLockPlan(held, c)
    case Refuse(_) =>
    case Relock =>
      MatchAccepts(held, c, 0);
      RelockInv(s, t, Values(c));
    case LockGroup =>
      GroupStarts(held, c);
      PutInv(s, t, Thread(held, GroupLocking(held, [], SortByAddress(Values(c)))));
  }

  lemma {:induction false} RelockInv(s: State, t: Tid, ids: seq<Id>)
    requires Inv(s) && t in s.threads
    ensures Inv(Put(s, t, Thread(IncrementAll(s.threads[t].held, ids), Running)))
  {
    assert ThreadInv(s.threads[t]);
    IncrementAllKeeps(s.threads[t].held, ids);
    PutInv(s, t, Thread(IncrementAll(s.threads[t].held, ids), Running));
  }

  lemma {:induction false} MultiUnlockCallInv(s: State, t: Tid, c: seq<Option<Id>>)
    requires Inv(s) && t in s.threads && s.threads[t].phase.Running?
    ensures CallStep(s, t, MultiUnlockCall(c)).Some? ==> Inv(CallStep(s, t, MultiUnlockCall(c)).value)
  {
    var held := s.threads[t].held;
    assert ThreadInv(s.threads[t]);
    if Match(held, c) == Success {
      MatchAccepts(held, c, 0);
      PutInv(s, t, Thread(held, GroupUnlocking(Reverse(SortByAddress(Values(c))))));
    }
  }

  /** A group that passed its checks starts below everything the thread holds. */
  lemma {:induction false} GroupStarts(held: seq<Hold>, c: seq<Option<Id>>)
    requires Ordered(held) && MultiLockPlan(held, c) == LockGroup && AllPresent(c)
    ensures ThreadInv(Thread(held, GroupLocking(held, [], SortByAddress(Values(c)))))
  {
    LockGroupPlan(held, c);
    SortedGroup(c, c[0].value.level);
    var todo := SortByAddress(Values(c));
    forall k | 0 <= k < |todo|
      ensures AllBefore(held, todo[k])
    {
      BelowCurrentLevel(held, todo[k]);
    }
    assert Once([]) + held == held;
  }

  lemma {:induction false} PendingStepInv(s: State, t: Tid, a: Action)
    requires Inv(s) && t in s.threads && !s.threads[t].phase.Running?
    ensures PendingStep(s, t, a).Some? ==> Inv(PendingStep(s, t, a).value)
  {
    var held := s.threads[t].held;
    assert ThreadInv(s.threads[t]);
    match (a, s.threads[t].phase)
    case (Granted, Waiting(id)) =>
      if id !in s.owner {
        PushOrdered(held, id);
        AcquireInv(s, t, id, Running);
      }
    case (GiveUp, Waiting(_)) =>
      PutInv(s, t, Thread(held, Running));
    case (Granted, GroupLocking(base, done, todo)) =>
      if todo[0] !in s.owner {
        PushOrdered(held, todo[0]);
        var after := [Hold(todo[0], 1)] + held;
        var next := if |todo| == 1 then Running else GroupLocking(base, [todo[0]] + done, todo[1..]);
        AcquireInv(s, t, todo[0], next);
      }
    case (GiveUp, GroupLocking(base, done, _)) =>
      PutInv(s, t, Thread(held, if done == [] then Running else Undoing(base, done)));
    case (UndoOne, Undoing(base, done)) =>
      if MayRelease(held, done[0]) {
        UndoOneRestores(held, base, done);
        var next := if |done| == 1 then Running else Undoing(base, done[1..]);
        ReleaseInv(s, t, done[0], next);
      }
    case (UnlockOne, GroupUnlocking(todo)) =>
      if todo != [] && MayRelease(held, todo[0]) {
        ReleaseKeepsOrder(held, todo[0]);
        ReleaseInv(s, t, todo[0], if |todo| == 1 then Running else GroupUnlocking(todo[1..]));
      }
    case _ =>
  }

  /** Undoing a freshly locked member is always allowed, and takes exactly it off the list. */
  lemma {:induction false} UndoOneRestores(held: seq<Hold>, base: seq<Hold>, done: seq<Id>)
    requires Ordered(held) && done != [] && held == Once(done) + base
    ensures MayRelease(held, done[0])
    ensures Release(held, done[0]) == Once(done[1..]) + base
    ensures Ordered(Release(held, done[0]))
  {
    assert held[0] == Hold(done[0], 1);
    CountOfEntry(held, 0);
    assert held[1..] == Once(done[1..]) + base;
    ReleaseKeepsOrder(held, done[0]);
  }

  lemma {:induction false} StepInv(s: State, t: Tid, a: Action)
    requires Inv(s)
    ensures Step(s, t, a).Some? ==> Inv(Step(s, t, a).value)
  {
    if t in s.threads {
      if !s.threads[t].phase.Running? {
        PendingStepInv(s, t, a);
      } else {
        match a
        case LockCall(_) => SingleCallInv(s, t, a);
        case TryLockCall(_, _, _) => SingleCallInv(s, t, a);
        case UnlockCall(id, seenCount) => UnlockCallInv(s, t, id, seenCount);
        case MultiLockCall(c) => MultiLockCallInv(s, t, c);
        case MultiUnlockCall(c) => MultiUnlockCallInv(s, t, c);
        case _ =>
      }
    }
  }

  /** Every reachable state satisfies the invariant. */
  lemma {:induction false} RunInv(s: State, steps: seq<(Tid, Action)>)
    requires Inv(s) && Run(s, steps).Some?
    ensures Inv(Run(s, steps).value)
    decreases |steps|
  {
    if steps != [] {
      StepInv(s, steps[0].0, steps[0].1);
      RunInv(Step(s, steps[0].0, steps[0].1).value, steps[1..]);
    }
  }

  lemma {:induction false} InitialInv(s: State)
    requires Initial(s)
    ensures Inv(s)
  {
  }

  // ----- no deadlock -----

  /** `t` is blocked on a mutex that `u` owns. */
  predicate WaitsFor(s: State, t: Tid, u: Tid) {
    t in s.threads && WaitsOn(s.threads[t]).Some?
    && WaitsOn(s.threads[t]).value in s.owner && s.owner[WaitsOn(s.threads[t]).value] == u
  }

  /** A blocked thread holds only mutexes that come before the one it waits for. */
  lemma {:induction false} BlockedHoldsEarlier(s: State, steps: seq<(Tid, Action)>, t: Tid)
    requires Initial(s) && Run(s, steps).Some?
    ensures var now := Run(s, steps).value;
            t in now.threads && WaitsOn(now.threads[t]).Some? ==>
              AllBefore(now.threads[t].held, WaitsOn(now.threads[t]).value)
  {
    InitialInv(s);
    RunInv(s, steps);
    var now := Run(s, steps).value;
    if t in now.threads { assert ThreadInv(now.threads[t]); }
  }

  /** If `t` waits for `u` and `u` waits too, `u` waits for a later mutex. */
  lemma {:induction false} WaitsClimb(s: State, t: Tid, u: Tid)
    requires Inv(s) && WaitsFor(s, t, u) && u in s.threads && WaitsOn(s.threads[u]).Some?
    ensures Before(WaitsOn(s.threads[t]).value, WaitsOn(s.threads[u]).value)
  {
    var id := WaitsOn(s.threads[t]).value;
    assert Holds(s.threads[u].held, id);
    var i :| 0 <= i < |s.threads[u].held| && s.threads[u].held[i].id == id;
    assert ThreadInv(s.threads[u]);
    assert AllBefore(s.threads[u].held, WaitsOn(s.threads[u]).value);
  }

  predicate BlockedWithin(s: State, t: Tid, d: set<Tid>) {
    t in s.threads && WaitsOn(s.threads[t]).Some?
    && WaitsOn(s.threads[t]).value in s.owner && s.owner[WaitsOn(s.threads[t]).value] in d
  }

  /** A set of threads each waiting for a mutex owned by a thread of the set. */
  predicate Deadlocked(s: State, d: set<Tid>) {
    d != {} && forall t {:trigger BlockedWithin(s, t, d)} :: t in d ==> BlockedWithin(s, t, d)
  }

  /** Among threads that wait, one waits for a mutex no other waits beyond. */
  lemma {:induction false} LastWaiter(s: State, d: set<Tid>) returns (t: Tid)
    requires d != {} && forall u :: u in d ==> u in s.threads && WaitsOn(s.threads[u]).Some?
    ensures t in d
    ensures forall u :: u in d ==> !Before(WaitsOn(s.threads[t]).value, WaitsOn(s.threads[u]).value)
    decreases |d|
  {
    var x :| x in d;
    if d == {x} {
      t := x;
    } else {
      var rest := d - {x};
      assert d == rest + {x};
      var y := LastWaiter(s, rest);
      t := if Before(WaitsOn(s.threads[y]).value, WaitsOn(s.threads[x]).value) then x else y;
      forall u | u in d
        ensures !Before(WaitsOn(s.threads[t]).value, WaitsOn(s.threads[u]).value)
      {
        assert u == x || u in rest;
      }
    }
  }

  lemma {:induction false} InvForbidsDeadlock(s: State, d: set<Tid>)
    requires Inv(s)
    ensures !Deadlocked(s, d)
  {
    if Deadlocked(s, d) {
      forall t | t in d
        ensures t in s.threads && WaitsOn(s.threads[t]).Some?
      {
        assert BlockedWithin(s, t, d);
      }
      var t := LastWaiter(s, d);
      assert BlockedWithin(s, t, d);
      WaitsClimb(s, t, s.owner[WaitsOn(s.threads[t]).value]);
    }
  }

  /** No reachable state has a deadlocked set of threads. */
  lemma {:induction false} NoDeadlock(s: State, steps: seq<(Tid, Action)>, d: set<Tid>)
    requires Initial(s) && Run(s, steps).Some?
    ensures !Deadlocked(Run(s, steps).value, d)
  {
    InitialInv(s);
    RunInv(s, steps);
    InvForbidsDeadlock(Run(s, steps).value, d);
  }

  function Successor(cycle: seq<Tid>, i: nat): Tid
    requires i < |cycle|
  {
    cycle[if i + 1 == |cycle| then 0 else i + 1]
  }

  lemma {:induction false} CycleIsDeadlock(s: State, cycle: seq<Tid>)
    requires cycle != [] && forall i :: 0 <= i < |cycle| ==> WaitsFor(s, cycle[i], Successor(cycle, i))
    ensures Deadlocked(s, set t | t in cycle)
  {
    var d := set t | t in cycle;
    assert cycle[0] in d;
    forall t | t in d
      ensures BlockedWithin(s, t, d)
    {
      var i :| 0 <= i < |cycle| && cycle[i] == t;
      assert WaitsFor(s, cycle[i], Successor(cycle, i));
      assert Successor(cycle, i) in d;
    }
  }

  /** In particular, waiting threads never form a cycle. */
  lemma {:induction false} NoCircularWait(s: State, steps: seq<(Tid, Action)>, cycle: seq<Tid>)
    requires Initial(s) && Run(s, steps).Some? && cycle != []
    ensures exists i :: 0 <= i < |cycle| && !WaitsFor(Run(s, steps).value, cycle[i], Successor(cycle, i))
  {
    var now := Run(s, steps).value;
    if forall i :: 0 <= i < |cycle| ==> WaitsFor(now, cycle[i], Successor(cycle, i)) {
      CycleIsDeadlock(now, cycle);
      NoDeadlock(s, steps, set t | t in cycle);
    }
  }
}
