/**
  `message_queue`: producers and consumers around a queue, a mutex and a condition variable,
  as a step system. `notify_one` wakes some sleeper if there is one; a sleeper may also wake
  for no reason.
 */
module MessageQueues {
  import opened Basics
  import opened Wrappers

  type Tid = nat

  /** Where a thread is. From `Pushing` to `Leaving` it holds the mutex; `got` is what a dequeue
      is about to return. */
  datatype Phase<T> =
    | Idle
    | WantPush(v: T)
    | Pushing(v: T)
    | Notifying
    | WantPop
    | Checking
    | Asleep
    | Woken
    | Leaving(got: Option<T>)

  /** `pushed` and `popped` record what went in and out, in order. */
  datatype State<T> = State(threads: map<Tid, Phase<T>>, lock: Option<Tid>, q: seq<T>, pushed: seq<T>, popped: seq<T>)

  datatype Action<T> =
    | Enqueue(v: T)
    | Dequeue
    | Acquire
    | Push
    | Notify(wakes: Option<Tid>)
    | Test
    | Spurious
    | Leave

  function Move<T>(s: State<T>, t: Tid, p: Phase<T>): State<T> {
    s.(threads := s.threads[t := p])
  }

  /** One step of thread `t`, if it is possible. */
  function Step<T>(s: State<T>, t: Tid, a: Action<T>): Option<State<T>> {
    if t !in s.threads then None
    else
      match (s.threads[t], a)
      case (Idle, Enqueue(v)) => Some(Move(s, t, WantPush(v)))
      case (Idle, Dequeue) => Some(Move(s, t, WantPop))
      case (WantPush(v), Acquire) => if s.lock == None then Some(Move(s, t, Pushing(v)).(lock := Some(t))) else None
      case (WantPop, Acquire) => if s.lock == None then Some(Move(s, t, Checking).(lock := Some(t))) else None
      case (Woken, Acquire) => if s.lock == None then Some(Move(s, t, Checking).(lock := Some(t))) else None
      case (Pushing(v), Push) => Some(Move(s, t, Notifying).(q := s.q + [v], pushed := s.pushed + [v]))
      case (Notifying, Notify(wakes)) =>
        (match wakes
         case None => if Sleepers(s) == {} then Some(Move(s, t, Leaving(None))) else None
         case Some(u) => if u in Sleepers(s) then Some(Move(Move(s, t, Leaving(None)), u, Woken)) else None)
      case (Checking, Test) =>
        if s.q == [] then Some(Move(s, t, Asleep).(lock := None))
        else Some(Move(s, t, Leaving(Some(s.q[0]))).(q := s.q[1..], popped := s.popped + [s.q[0]]))
      case (Asleep, Spurious) => Some(Move(s, t, Woken))
      case (Leaving(_), Leave) => Some(Move(s, t, Idle).(lock := None))
      case _ => None
  }

  function Sleepers<T>(s: State<T>): set<Tid> {
    set t | t in s.threads && s.threads[t].Asleep?
  }

  /** Consumers about to look at the queue, and producers about to wake one. */
  function Pending<T>(s: State<T>): set<Tid> {
    set t | t in s.threads && (s.threads[t].Woken? || s.threads[t].Checking? || s.threads[t].Notifying?)
  }

  predicate Inside<T>(p: Phase<T>) {
    p.Pushing? || p.Notifying? || p.Checking? || p.Leaving?
  }

  /** The mutex is held by the one thread inside. */
  ghost predicate LockInv<T>(s: State<T>) {
    && (forall t :: t in s.threads ==> (Inside(s.threads[t]) <==> s.lock == Some(t)))
    && (s.lock.Some? ==> s.lock.value in s.threads)
  }

  /** While somebody sleeps, there is a thread on its way for each element in the queue. */
  ghost predicate WakeInv<T>(s: State<T>) {
    |Sleepers(s)| != 0 ==> |s.q| <= |Pending(s)|
  }

  /** And what was pushed is what was popped and what is still queued. */
  ghost predicate Inv<T>(s: State<T>) {
    LockInv(s) && WakeInv(s) && s.pushed == s.popped + s.q
  }

  predicate OnTheWay<T>(p: Phase<T>) {
    p.Woken? || p.Checking? || p.Notifying?
  }

  /** What the move of one thread does to the two counts. */
  lemma {:induction false} MoveCounts<T>(s: State<T>, s': State<T>, t: Tid, p: Phase<T>)
    requires t in s.threads && s'.threads == s.threads[t := p]
    ensures |Sleepers(s')| == |Sleepers(s)| - One(s.threads[t].Asleep?) + One(p.Asleep?)
    ensures |Pending(s')| == |Pending(s)| - One(OnTheWay(s.threads[t])) + One(OnTheWay(p))
  {
    assert Sleepers(s') - {t} == Sleepers(s) - {t};
    assert Pending(s') - {t} == Pending(s) - {t};
    Split(Sleepers(s), t);
    Split(Sleepers(s'), t);
    Split(Pending(s), t);
    Split(Pending(s'), t);
  }

  lemma {:induction false} NotifyKeepsWake<T>(s: State<T>, t: Tid, wakes: Option<Tid>)
    requires WakeInv(s) && t in s.threads && s.threads[t].Notifying? && Step(s, t, Notify(wakes)).Some?
    ensures WakeInv(Step(s, t, Notify(wakes)).value)
  {
    var after := Step(s, t, Notify(wakes)).value;
    var middle := Move(s, t, Leaving(None));
    MoveCounts(s, middle, t, Leaving(None));
    if wakes.Some? {
      MoveCounts(middle, after, wakes.value, Woken);
    }
  }

  lemma {:induction false} StepKeepsWake<T>(s: State<T>, t: Tid, a: Action<T>)
    requires WakeInv(s) && Step(s, t, a).Some?
    ensures WakeInv(Step(s, t, a).value)
  {
    if s.threads[t].Notifying? {
      NotifyKeepsWake(s, t, a.wakes);
    } else {
      var after := Step(s, t, a).value;
      MoveCounts(s, after, t, after.threads[t]);
    }
  }

  lemma {:induction false} StepKeepsLock<T>(s: State<T>, t: Tid, a: Action<T>)
    requires LockInv(s) && Step(s, t, a).Some?
    ensures LockInv(Step(s, t, a).value)
  {
  }

  lemma {:induction false} StepKeepsOrder<T>(s: State<T>, t: Tid, a: Action<T>)
    requires s.pushed == s.popped + s.q && Step(s, t, a).Some?
    ensures var after := Step(s, t, a).value;
            after.pushed == after.popped + after.q
  {
    if s.threads[t].Checking? && s.q != [] {
      assert s.popped + s.q == s.popped + [s.q[0]] + s.q[1..];
    }
    if s.threads[t].Pushing? {
      assert s.popped + (s.q + [s.threads[t].v]) == s.popped + s.q + [s.threads[t].v];
    }
  }

  lemma {:induction false} StepKeepsInv<T>(s: State<T>, t: Tid, a: Action<T>)
    requires Inv(s) && Step(s, t, a).Some?
    ensures Inv(Step(s, t, a).value)
  {
    StepKeepsLock(s, t, a);
    StepKeepsWake(s, t, a);
    StepKeepsOrder(s, t, a);
  }

  function Run<T>(s: State<T>, steps: seq<(Tid, Action<T>)>): Option<State<T>>
    decreases |steps|
  {
    if steps == [] then Some(s)
    else
      match Step(s, steps[0].0, steps[0].1)
      case Some(after) => Run(after, steps[1..])
      case None => None
  }

  lemma {:induction false} RunKeepsInv<T>(s: State<T>, steps: seq<(Tid, Action<T>)>)
    requires Inv(s) && Run(s, steps).Some?
    ensures Inv(Run(s, steps).value)
    decreases |steps|
  {
    if steps != [] {
      StepKeepsInv(s, steps[0].0, steps[0].1);
      RunKeepsInv(Step(s, steps[0].0, steps[0].1).value, steps[1..]);
    }
  }

  predicate Start<T>(s: State<T>) {
    && (forall t :: t in s.threads ==> s.threads[t] == Idle)
    && s.lock == None && s.q == [] && s.pushed == [] && s.popped == []
  }

  /** In every interleaving, the elements popped are the first ones pushed, in that order, and
      nothing is lost or made up. */
  lemma {:induction false} FirstInFirstOut<T>(s: State<T>, steps: seq<(Tid, Action<T>)>)
    requires Start(s) && Run(s, steps).Some?
    ensures var e := Run(s, steps).value;
            && e.pushed == e.popped + e.q
            && e.popped <= e.pushed
  {
    assert Sleepers(s) == {};
    RunKeepsInv(s, steps);
  }

  /** Consumers woken that have not run yet. */
  function Roused<T>(s: State<T>): set<Tid> {
    set t | t in s.threads && s.threads[t].Woken?
  }

  /** No wakeup is lost: in every interleaving, while a consumer sleeps there are at least as
      many threads on their way as elements in the queue; and with the mutex free these are
      all woken consumers that have yet to run. */
  lemma {:induction false} NoLostWakeup<T>(s: State<T>, steps: seq<(Tid, Action<T>)>)
    requires Start(s) && Run(s, steps).Some? && Sleepers(Run(s, steps).value) != {}
    ensures var e := Run(s, steps).value;
            && |e.q| <= |Pending(e)|
            && (e.lock == None ==> |e.q| <= |Roused(e)|)
  {
    RunKeepsInv(s, steps);
    var e := Run(s, steps).value;
    if e.lock == None {
      assert forall t :: t in e.threads ==> !Inside(e.threads[t]);
      assert Pending(e) == Roused(e);
    }
  }

  /** Nobody sleeps beside an element that nobody takes: if a consumer sleeps, the queue has
      elements and the mutex is free, a woken consumer can run now, and it takes one. */
  lemma {:induction false} SleepersAreServed<T>(s: State<T>) returns (t: Tid)
    requires Inv(s) && Sleepers(s) != {} && s.q != [] && s.lock == None
    ensures t in s.threads && s.threads[t].Woken?
    ensures var taken := Run(s, [(t, Acquire), (t, Test)]);
            taken.Some? && taken.value.popped == s.popped + [s.q[0]]
  {
    t :| t in Pending(s);
    assert !Inside(s.threads[t]);
    var held := Step(s, t, Acquire).value;
    var taken := Step(held, t, Test).value;
    var steps: seq<(Tid, Action<T>)> := [(t, Acquire), (t, Test)];
    assert steps[1..] == [(t, Test)] && steps[1..][1..] == [];
    assert Run(taken, steps[1..][1..]) == Some(taken);
    assert Run(held, steps[1..]) == Some(taken);
    assert Run(s, steps) == Some(taken);
  }

  /** And whoever holds the mutex can always go on. */
  lemma {:induction false} HolderGoesOn<T>(s: State<T>) returns (a: Action<T>)
    requires Inv(s) && s.lock.Some?
    ensures Step(s, s.lock.value, a).Some?
  {
    var t := s.lock.value;
    match s.threads[t]
    case Pushing(v) => a := Push;
    case Notifying =>
      if Sleepers(s) == {} {
        a := Notify(None);
      } else {
        var u :| u in Sleepers(s);
        a := Notify(Some(u));
      }
    case Checking => a := Test;
    case _ => a := Leave;
  }

  // ----- what a call does -----

  /** In a dequeue that has not taken an element yet. */
  predicate Dequeueing<T>(p: Phase<T>) {
    p.WantPop? || p.Checking? || p.Asleep? || p.Woken?
  }

  /** In an enqueue of `v` that has not put it in yet. */
  ghost predicate Enqueueing<T>(p: Phase<T>, v: T) {
    p == WantPush(v) || p == Pushing(v)
  }

  /** A thread gets past its wait for an element only by taking the first one there is, and
      nothing is taken in any other way. */
  lemma {:induction false} DequeueTakes<T>(s: State<T>, t: Tid, a: Action<T>)
    requires Step(s, t, a).Some?
    ensures var after := Step(s, t, a).value;
            var past := Dequeueing(s.threads[t]) && !Dequeueing(after.threads[t]);
            && (past ==> s.q != [] && after.threads[t] == Leaving(Some(s.q[0])))
            && after.popped == s.popped + (if past then [s.q[0]] else [])
            && forall u :: u in s.threads && u != t && Dequeueing(s.threads[u]) ==> Dequeueing(after.threads[u])
  {
  }

  /** The element of an enqueue goes in at the end, and nothing goes in in any other way. */
  lemma {:induction false} EnqueuePuts<T>(s: State<T>, t: Tid, a: Action<T>, v: T)
    requires Step(s, t, a).Some?
    ensures var after := Step(s, t, a).value;
            var past := Enqueueing(s.threads[t], v) && !Enqueueing(after.threads[t], v);
            && (past ==> after.pushed == s.pushed + [v] && after.q == s.q + [v])
            && (after.pushed != s.pushed ==> exists x :: Enqueueing(s.threads[t], x) && after.pushed == s.pushed + [x])
            && forall u :: u in s.threads && u != t && Enqueueing(s.threads[u], v) ==> Enqueueing(after.threads[u], v)
  {
    if s.threads[t].Pushing? { assert Enqueueing(s.threads[t], s.threads[t].v); }
  }

  /** A consumer that finds the queue empty goes to sleep and lets go of the mutex. */
  lemma {:induction false} EmptyMeansSleep<T>(s: State<T>, t: Tid)
    requires t in s.threads && s.threads[t].Checking? && s.q == []
    ensures var o := Step(s, t, Test);
            && o.Some? && o.value.lock == None && Sleepers(o.value) == Sleepers(s) + {t}
            && o.value.q == [] && o.value.popped == s.popped
  {
  }

  /** A free mutex goes to any thread that wants it, every call can be begun, and a sleeper may
      wake at any time. */
  lemma {:induction false} CallsGoOn<T>(s: State<T>, t: Tid, v: T)
    requires Inv(s) && t in s.threads
    ensures s.threads[t].Idle? ==> Step(s, t, Enqueue(v)).Some? && Step(s, t, Dequeue).Some?
    ensures s.threads[t].Asleep? ==> Step(s, t, Spurious) == Some(Move(s, t, Woken))
    ensures s.lock == None && !s.threads[t].Idle? && !s.threads[t].Asleep? ==>
              var o := Step(s, t, Acquire);
              o.Some? && o.value.lock == Some(t) && Inside(o.value.threads[t])
  {
    if s.lock == None { assert !Inside(s.threads[t]); }
  }

  /** Actions of one thread, one after the other. */
  function Alone<T>(t: Tid, actions: seq<Action<T>>): (steps: seq<(Tid, Action<T>)>)
    ensures |steps| == |actions|
  {
    if actions == [] then [] else [(t, actions[0])] + Alone(t, actions[1..])
  }

  lemma {:induction false} RunOne<T>(s: State<T>, t: Tid, a: Action<T>, more: seq<Action<T>>)
    requires Step(s, t, a).Some?
    ensures Run(s, Alone(t, [a] + more)) == Run(Step(s, t, a).value, Alone(t, more))
  {
    assert ([a] + more)[1..] == more;
  }

  lemma {:induction false} RunFour<T>(s: State<T>, t: Tid, a: Action<T>, b: Action<T>, c: Action<T>, d: Action<T>)
    requires Step(s, t, a).Some? && Step(Step(s, t, a).value, t, b).Some?
    requires var two := Step(Step(s, t, a).value, t, b).value; Step(two, t, c).Some? && Step(Step(two, t, c).value, t, d).Some?
    ensures var two := Step(Step(s, t, a).value, t, b).value;
            Run(s, Alone(t, [a, b, c, d])) == Step(Step(two, t, c).value, t, d)
  {
    var one := Step(s, t, a).value;
    var two := Step(one, t, b).value;
    var three := Step(two, t, c).value;
    assert [a, b, c, d] == [a] + ([b] + ([c] + ([d] + [])));
    RunOne(s, t, a, [b] + ([c] + ([d] + [])));
    RunOne(one, t, b, [c] + ([d] + []));
    RunOne(two, t, c, [d] + []);
    RunOne(three, t, d, []);
  }

  /** With the mutex free, a dequeue from a queue that is not empty is over in four steps of its
      own, and has taken the first element; the thread is idle and the mutex free again. */
  lemma {:induction false} DequeueRuns<T>(s: State<T>, t: Tid)
    requires t in s.threads && s.threads[t].Idle? && s.lock == None && s.q != []
    ensures Run(s, Alone(t, [Dequeue, Acquire, Test, Leave])) ==
            Some(s.(q := s.q[1..], popped := s.popped + [s.q[0]]))
  {
    RunFour(s, t, Dequeue, Acquire, Test, Leave);
    var end := Run(s, Alone(t, [Dequeue, Acquire, Test, Leave])).value;
    assert end.threads == s.threads[t := Idle] == s.threads;
  }

  /** An enqueue is over in five, and has put its element in and woken a sleeper if there was one. */
  lemma {:induction false} EnqueueRuns<T>(s: State<T>, t: Tid, v: T, wakes: Option<Tid>)
    requires t in s.threads && s.threads[t].Idle? && s.lock == None
    requires if wakes == None then Sleepers(s) == {} else wakes.value in Sleepers(s)
    ensures Run(s, Alone(t, [Enqueue(v), Acquire, Push, Notify(wakes), Leave])) ==
            Some(s.(q := s.q + [v], pushed := s.pushed + [v],
                    threads := if wakes == None then s.threads else s.threads[wakes.value := Woken]))
  {
    var begun := Step(s, t, Enqueue(v)).value;
    var in' := Step(Step(begun, t, Acquire).value, t, Push).value;
    assert Sleepers(in') == Sleepers(s);
    var actions := [Acquire, Push, Notify(wakes), Leave];
    assert [Enqueue(v), Acquire, Push, Notify(wakes), Leave] == [Enqueue(v)] + actions;
    RunOne(s, t, Enqueue(v), actions);
    RunFour(begun, t, Acquire, Push, Notify(wakes), Leave);
    var end := Run(begun, Alone(t, actions)).value;
    assert end.threads == if wakes == None then s.threads else s.threads[wakes.value := Woken];
  }

  /** What the dequeues that are over have returned, in the order in which they ended. */
  function Returned<T>(s: State<T>, steps: seq<(Tid, Action<T>)>): seq<T>
    decreases |steps|
  {
    if steps == [] then []
    else
      match Step(s, steps[0].0, steps[0].1)
      case None => []
      case Some(after) => ReturnedBy(s, steps[0].0, steps[0].1) + Returned(after, steps[1..])
  }

  function ReturnedBy<T>(s: State<T>, t: Tid, a: Action<T>): seq<T> {
    if t in s.threads && a.Leave? && s.threads[t].Leaving? && s.threads[t].got.Some? then [s.threads[t].got.value] else []
  }

  /** The element taken but not yet returned, if there is one. */
  function InHand<T>(s: State<T>): seq<T> {
    if s.lock.Some? && s.lock.value in s.threads && s.threads[s.lock.value].Leaving? && s.threads[s.lock.value].got.Some?
    then [s.threads[s.lock.value].got.value] else []
  }

  /** `done` is what had been returned before. */
  lemma {:induction false} StepReturns<T>(s: State<T>, t: Tid, a: Action<T>, done: seq<T>)
    requires LockInv(s) && Step(s, t, a).Some? && s.popped == done + InHand(s)
    ensures var after := Step(s, t, a).value;
            after.popped == done + ReturnedBy(s, t, a) + InHand(after)
  {
    StepKeepsLock(s, t, a);
    assert Inside(s.threads[t]) <==> s.lock == Some(t);
  }

  lemma {:induction false} Regroup<T>(a: seq<T>, b: seq<T>, c: seq<T>)
    ensures a + b + c == a + (b + c)
  {
  }

  lemma {:induction false} RunReturns<T>(s: State<T>, steps: seq<(Tid, Action<T>)>, done: seq<T>)
    requires LockInv(s) && Run(s, steps).Some? && s.popped == done + InHand(s)
    ensures var e := Run(s, steps).value;
            e.popped == done + Returned(s, steps) + InHand(e)
    decreases |steps|
  {
    if steps == [] {
      assert done + Returned(s, steps) == done;
    } else {
      var (t, a) := steps[0];
      var after := Step(s, t, a).value;
      StepKeepsLock(s, t, a);
      StepReturns(s, t, a, done);
      RunReturns(after, steps[1..], done + ReturnedBy(s, t, a));
      Regroup(done, ReturnedBy(s, t, a), Returned(after, steps[1..]));
    }
  }

  /** In every interleaving, what dequeues return, in the order in which they end, is what was
      put in, in the order in which it was, without gaps; what else was put in is in the hands
      of the one dequeue about to end, or still queued. */
  lemma {:induction false} ReturnedInOrder<T>(s: State<T>, steps: seq<(Tid, Action<T>)>)
    requires Start(s) && Run(s, steps).Some?
    ensures var e := Run(s, steps).value;
            e.pushed == Returned(s, steps) + InHand(e) + e.q
  {
    FirstInFirstOut(s, steps);
    RunReturns(s, steps, []);
  }
}
