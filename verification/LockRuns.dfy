/**
  What calls achieve when nothing is in their way: mutexes that are free are granted, and
  unlocking takes a thread, its list and the owners of all mutexes back to where they were.
 */
module LockRuns {
  import opened Wrappers
  import opened LevelLists
  import opened LevelListProofs
  import opened LockMachine
  import opened LockGroups
  import opened ListVerdicts

  // ----- runs of one thread -----

  /** Actions of one thread, one after the other. */
  function Alone(t: Tid, actions: seq<Action>): (steps: seq<(Tid, Action)>)
    ensures |steps| == |actions|
  {
    if actions == [] then [] else [(t, actions[0])] + Alone(t, actions[1..])
  }

  lemma {:induction false} RunOne(s: State, t: Tid, a: Action, more: seq<Action>)
    requires Step(s, t, a).Some?
    ensures Run(s, Alone(t, [a] + more)) == Run(Step(s, t, a).value, Alone(t, more))
  {
    assert ([a] + more)[1..] == more;
  }

  lemma {:induction false} RunNone(s: State, t: Tid)
    ensures Run(s, Alone(t, [])) == Some(s)
  {
  }

  lemma {:induction false} RunTwo(s: State, t: Tid, a: Action, b: Action)
    requires Step(s, t, a).Some? && Step(Step(s, t, a).value, t, b).Some?
    ensures Run(s, Alone(t, [a, b])) == Step(Step(s, t, a).value, t, b)
  {
    var middle := Step(s, t, a).value;
    assert [a, b] == [a] + ([b] + []);
    RunOne(s, t, a, [b] + []);
    RunOne(middle, t, b, []);
    RunNone(Step(middle, t, b).value, t);
  }

  /** A thread at rest with a list. */
  function Rest(s: State, t: Tid, held: seq<Hold>, owner: map<Id, Tid>): State {
    State(s.threads[t := Thread(held, Running)], owner)
  }

  lemma {:induction false} RestAgain(s: State, s': State, t: Tid, th: Thread, held: seq<Hold>, owner: map<Id, Tid>)
    requires t in s.threads && s'.threads == s.threads[t := th]
    ensures Rest(s', t, held, owner) == Rest(s, t, held, owner)
  {
    assert s.threads[t := th][t := Thread(held, Running)] == s.threads[t := Thread(held, Running)];
  }

  lemma {:induction false} BackAgain(s: State, t: Tid)
    requires t in s.threads && s.threads[t].phase.Running?
    ensures Rest(s, t, s.threads[t].held, s.owner) == s
  {
    assert s.threads[t := s.threads[t]] == s.threads;
  }

  lemma {:induction false} FreeIsNotHeld(s: State, t: Tid, id: Id)
    requires Inv(s) && t in s.threads && id !in s.owner
    ensures !Holds(s.threads[t].held, id)
  {
    assert OwnsList(s.owner, t, s.threads[t].held);
  }

  // ----- one mutex -----

  /** A thread that may take a free mutex takes it in two steps, and it is then its owner. */
  lemma {:induction false} LocksFree(s: State, t: Tid, id: Id)
    requires Inv(s) && t in s.threads && s.threads[t].phase.Running? && id !in s.owner
    requires id.level < UNLOCKED_LEVEL && AllAbove(s.threads[t].held, id.level)
    ensures Run(s, Alone(t, [LockCall(id), Granted])) ==
            Some(Rest(s, t, [Hold(id, 1)] + s.threads[t].held, s.owner[id := t]))
  {
    var held := s.threads[t].held;
    assert ThreadInv(s.threads[t]);
    LockMeans(held, id, false, false);
    PreLockKeepsMutexes(held, id, false, false);
    var waiting := Put(s, t, Thread(held, Waiting(id)));
    assert Step(s, t, LockCall(id)) == Some(waiting);
    var locked := Rest(s, t, [Hold(id, 1)] + held, s.owner[id := t]);
    assert Step(waiting, t, Granted) == Some(locked) by {
      assert waiting.threads[t := locked.threads[t]] == s.threads[t := locked.threads[t]];
    }
    RunTwo(s, t, LockCall(id), Granted);
  }

  /** And unlocking it leads back to the state before. */
  lemma {:induction false} UnlocksBack(s: State, t: Tid, id: Id)
    requires Inv(s) && t in s.threads && s.threads[t].phase.Running? && id !in s.owner
    requires id.level < UNLOCKED_LEVEL && AllAbove(s.threads[t].held, id.level)
    ensures Step(Rest(s, t, [Hold(id, 1)] + s.threads[t].held, s.owner[id := t]), t, UnlockCall(id, 1)) == Some(s)
  {
    var held := s.threads[t].held;
    assert ThreadInv(s.threads[t]);
    HeadIsLowest(held, id.level);
    LockRoundTrip(held, id, false, false);
    var h := [Hold(id, 1)] + held;
    assert h[0].id == id && h[1..] == held && CountOf(h, id) == 1;
    var locked := Rest(s, t, h, s.owner[id := t]);
    assert locked.threads[t := Thread(held, Running)] == s.threads;
    assert s.owner[id := t] - {id} == s.owner;
  }

  /** So does an attempt: it succeeds at once if the mutex is free and not seen locked. */
  lemma {:induction false} TriesFree(s: State, t: Tid, id: Id)
    requires Inv(s) && t in s.threads && s.threads[t].phase.Running? && id !in s.owner
    requires id.level < UNLOCKED_LEVEL && AllAbove(s.threads[t].held, id.level)
    ensures Step(s, t, TryLockCall(id, false, true)) ==
            Some(Rest(s, t, [Hold(id, 1)] + s.threads[t].held, s.owner[id := t]))
  {
    assert ThreadInv(s.threads[t]);
    LockMeans(s.threads[t].held, id, true, false);
  }

  /** Re-entry is one step, one lock more on a mutex held. */
  lemma {:induction false} Reenters(s: State, t: Tid, id: Id)
    requires Inv(s) && t in s.threads && s.threads[t].phase.Running? && id.level < UNLOCKED_LEVEL
    requires Holds(s.threads[t].held, id) && NoneBelow(s.threads[t].held, id.level)
    ensures Step(s, t, LockCall(id)) == Some(Rest(s, t, Increment(s.threads[t].held, id), s.owner))
    ensures CountOf(Increment(s.threads[t].held, id), id) == CountOf(s.threads[t].held, id) + 1
  {
    var held := s.threads[t].held;
    assert ThreadInv(s.threads[t]);
    HeadIsLowest(held, id.level);
    var i :| 0 <= i < |held| && held[i].id == id;
    IncrementCounts(held, id, id);
    assert CurrentLevel(held) == id.level;
    assert LockVerdict(held, id, false, false) == (Success, Increment(held, id));
  }

  /** And taking it back leads to the state before. */
  lemma {:induction false} LeavesAgain(s: State, t: Tid, id: Id)
    requires Inv(s) && t in s.threads && s.threads[t].phase.Running? && id.level < UNLOCKED_LEVEL
    requires Holds(s.threads[t].held, id) && NoneBelow(s.threads[t].held, id.level)
    ensures var more := Increment(s.threads[t].held, id);
            Step(Rest(s, t, more, s.owner), t, UnlockCall(id, CountOf(more, id))) == Some(s)
  {
    var held := s.threads[t].held;
    var more := Increment(held, id);
    assert ThreadInv(s.threads[t]);
    LockMeans(held, id, false, false);
    ReentryRoundTrip(held, id, false, false);
    assert LockVerdict(held, id, false, false) == (Success, more);
    var locked := Rest(s, t, more, s.owner);
    CheckOnly(locked, t, id);
    BackAgain(s, t);
    RestAgain(s, locked, t, locked.threads[t], held, s.owner);
  }

  /** An unlock that the check settles. */
  lemma {:induction false} CheckOnly(s: State, t: Tid, id: Id)
    requires t in s.threads && s.threads[t].phase.Running?
    requires UnlockVerdict(s.threads[t].held, id, CountOf(s.threads[t].held, id)).0 != NoProblem
    ensures var held := s.threads[t].held;
            Step(s, t, UnlockCall(id, CountOf(held, id))) ==
            Some(Rest(s, t, UnlockVerdict(held, id, CountOf(held, id)).1, s.owner))
  {
  }

  // ----- waiting -----

  /** A thread waits only while its mutex is owned: once that is free, it can be granted, and it
      is then on top of the list. Waiting can be given up at any time. */
  lemma {:induction false} GrantedWhenFree(s: State, t: Tid)
    requires Inv(s) && t in s.threads && (s.threads[t].phase.Waiting? || s.threads[t].phase.GroupLocking?)
    ensures WaitsOn(s.threads[t]).Some?
    ensures var id := WaitsOn(s.threads[t]).value;
            var o := Step(s, t, Granted);
            && (o.Some? <==> id !in s.owner)
            && (o.Some? ==> o.value.owner == s.owner[id := t]
                            && o.value.threads[t].held == [Hold(id, 1)] + s.threads[t].held)
    ensures var o := Step(s, t, GiveUp);
            o.Some? && o.value.owner == s.owner && o.value.threads[t].held == s.threads[t].held
  {
    assert ThreadInv(s.threads[t]);
  }

  // ----- groups -----

  /** The grants of a whole group, and the releases. */
  function Grants(n: nat): (r: seq<Action>)
    ensures |r| == n
  {
    if n == 0 then [] else [Granted] + Grants(n - 1)
  }

  function Releases(n: nat): (r: seq<Action>)
    ensures |r| == n
  {
    if n == 0 then [] else [UnlockOne] + Releases(n - 1)
  }

  function OwnedBy(owner: map<Id, Tid>, t: Tid, ids: seq<Id>): map<Id, Tid>
    decreases |ids|
  {
    if ids == [] then owner else OwnedBy(owner[ids[0] := t], t, ids[1..])
  }

  lemma {:induction false} OwnedByMeans(owner: map<Id, Tid>, t: Tid, ids: seq<Id>)
    ensures forall id :: id in OwnedBy(owner, t, ids) <==> id in owner || id in ids
    ensures forall id :: id in OwnedBy(owner, t, ids) ==>
              OwnedBy(owner, t, ids)[id] == if id in ids then t else owner[id]
    decreases |ids|
  {
    if ids != [] {
      OwnedByMeans(owner[ids[0] := t], t, ids[1..]);
      assert ids == [ids[0]] + ids[1..];
    }
  }

  /** While the members still to come are free, they are granted one after the other, the later
      ones above the earlier ones on the list. */
  lemma {:induction false} GrantsAll(s: State, t: Tid, base: seq<Hold>, done: seq<Id>, todo: seq<Id>)
    requires t in s.threads && todo != [] && Distinct(todo) && forall id :: id in todo ==> id !in s.owner
    requires s.threads[t] == Thread(Once(done) + base, GroupLocking(base, done, todo))
    ensures Run(s, Alone(t, Grants(|todo|))) ==
            Some(Rest(s, t, Once(Reverse(Reverse(done) + todo)) + base, OwnedBy(s.owner, t, todo)))
    decreases |todo|
  {
    var id := todo[0];
    var next := [id] + done;
    OncePush(id, done, base);
    var after := Step(s, t, Granted).value;
    assert after.threads[t].held == Once(next) + base;
    ReverseOver(id, done, todo[1..]);
    assert todo == [id] + todo[1..];
    RunOne(s, t, Granted, Grants(|todo| - 1));
    if |todo| == 1 {
      RunNone(after, t);
      assert Reverse(done) + todo == Reverse(next) + [] == Reverse(next);
      ReverseTwice(next);
    } else {
      GrantsAll(after, t, base, next, todo[1..]);
      assert Reverse(next) + todo[1..] == Reverse(done) + todo;
      RestAgain(s, after, t, after.threads[t], Once(Reverse(Reverse(done) + todo)) + base, OwnedBy(s.owner, t, todo));
    }
  }

  /** A group that passes the checks and is free is locked by the call and one grant for each
      member: it is then on top of the list, and the thread owns all of it. */
  lemma {:induction false} LocksFreeGroup(s: State, t: Tid, c: seq<Option<Id>>)
    requires Inv(s) && t in s.threads && s.threads[t].phase.Running?
    requires MultiLockPlan(s.threads[t].held, c) == LockGroup
    requires forall id :: Some(id) in c ==> id !in s.owner
    ensures AllPresent(c)
    ensures var order := SortByAddress(Values(c));
            Run(s, Alone(t, [MultiLockCall(c)] + Grants(|c|))) ==
            Some(Rest(s, t, Once(Reverse(order)) + s.threads[t].held, OwnedBy(s.owner, t, order)))
  {
    var held := s.threads[t].held;
    LockGroupPlan(held, c);
    SortedGroup(c, c[0].value.level);
    var order := SortByAddress(Values(c));
    RunOne(s, t, MultiLockCall(c), Grants(|c|));
    forall id | id in order
      ensures id !in s.owner
    {
      SortedFrom(c, id);
    }
    GroupGranted(s, t, held, order);
  }

  lemma {:induction false} GroupGranted(s: State, t: Tid, held: seq<Hold>, order: seq<Id>)
    requires t in s.threads && order != [] && Ascending(order) && forall id :: id in order ==> id !in s.owner
    ensures Run(Put(s, t, Thread(held, GroupLocking(held, [], order))), Alone(t, Grants(|order|))) ==
            Some(Rest(s, t, Once(Reverse(order)) + held, OwnedBy(s.owner, t, order)))
  {
    var th := Thread(held, GroupLocking(held, [], order));
    assert Once([]) + held == held && Reverse<Id>([]) + order == order;
    GrantsAll(Put(s, t, th), t, held, [], order);
    RestAgain(s, Put(s, t, th), t, th, Once(Reverse(order)) + held, OwnedBy(s.owner, t, order));
  }

  lemma {:induction false} SortedFrom(c: seq<Option<Id>>, id: Id)
    requires AllPresent(c)
    ensures id in SortByAddress(Values(c)) <==> Some(id) in c
  {
    SortSorted(Values(c));
    assert id in SortByAddress(Values(c)) <==> id in multiset(Values(c));
    if Some(id) in c {
      var i :| 0 <= i < |c| && c[i] == Some(id);
      assert Values(c)[i] == id;
    }
  }

  function FreedBy(owner: map<Id, Tid>, ids: seq<Id>): map<Id, Tid>
    decreases |ids|
  {
    if ids == [] then owner else FreedBy(owner - {ids[0]}, ids[1..])
  }

  lemma {:induction false} FreedByMeans(owner: map<Id, Tid>, ids: seq<Id>)
    ensures forall id :: id in FreedBy(owner, ids) <==> id in owner && id !in ids
    ensures forall id :: id in FreedBy(owner, ids) ==> FreedBy(owner, ids)[id] == owner[id]
    decreases |ids|
  {
    if ids != [] {
      FreedByMeans(owner - {ids[0]}, ids[1..]);
      assert ids == [ids[0]] + ids[1..];
    }
  }

  /** Members locked once are released from the head on, each with its mutex. */
  lemma {:induction false} ReleasesAll(s: State, t: Tid, base: seq<Hold>, todo: seq<Id>)
    requires t in s.threads && todo != []
    requires s.threads[t] == Thread(Once(todo) + base, GroupUnlocking(todo))
    ensures Run(s, Alone(t, Releases(|todo|))) == Some(Rest(s, t, base, FreedBy(s.owner, todo)))
    decreases |todo|
  {
    var id := todo[0];
    var held := s.threads[t].held;
    assert held[0] == Hold(id, 1) && held[1..] == Once(todo[1..]) + base;
    var after := Step(s, t, UnlockOne).value;
    assert after.threads[t].held == held[1..];
    RunOne(s, t, UnlockOne, Releases(|todo| - 1));
    if |todo| == 1 {
      RunNone(after, t);
      assert Once(todo[1..]) + base == base;
    } else {
      ReleasesAll(after, t, base, todo[1..]);
      RestAgain(s, after, t, after.threads[t], base, FreedBy(s.owner, todo));
    }
  }

  /** A group just locked is unlocked by the call, with any permutation of the container, and
      one release for each member; the state is then that before. */
  lemma {:induction false} UnlocksGroupBack(s: State, t: Tid, c: seq<Option<Id>>, d: seq<Option<Id>>)
    requires Inv(s) && t in s.threads && s.threads[t].phase.Running?
    requires MultiLockPlan(s.threads[t].held, c) == LockGroup && multiset(d) == multiset(c)
    requires forall id :: Some(id) in c ==> id !in s.owner
    ensures AllPresent(c)
    ensures var order := SortByAddress(Values(c));
            Run(Rest(s, t, Once(Reverse(order)) + s.threads[t].held, OwnedBy(s.owner, t, order)),
                Alone(t, [MultiUnlockCall(d)] + Releases(|d|))) == Some(s)
  {
    var held := s.threads[t].held;
    assert ThreadInv(s.threads[t]);
    GroupLocked(held, c, d);
    var order := SortByAddress(Values(c));
    var ids := Reverse(order);
    var h := Once(ids) + held;
    UnlockOrderIsListOrder(h, d);
    assert Ids(h)[..|d|] == ids;
    var locked := Rest(s, t, h, OwnedBy(s.owner, t, order));
    var called := Put(locked, t, Thread(h, GroupUnlocking(ids)));
    MatchAccepts(h, d, 0);
    assert Step(locked, t, MultiUnlockCall(d)) == Some(called);
    RunOne(locked, t, MultiUnlockCall(d), Releases(|d|));
    ReleasesAll(called, t, held, ids);
    GroupFreed(s, t, c);
    GroupBack(s, locked, called, t);
  }

  lemma {:induction false} GroupBack(s: State, locked: State, called: State, t: Tid)
    requires t in s.threads && s.threads[t].phase.Running?
    requires exists th, th' {:trigger s.threads[t := th][t := th']} ::
               locked.threads == s.threads[t := th] && called.threads == s.threads[t := th][t := th']
    ensures Rest(called, t, s.threads[t].held, s.owner) == s
  {
    assert called.threads[t := s.threads[t]] == s.threads;
  }

  lemma {:induction false} GroupFreed(s: State, t: Tid, c: seq<Option<Id>>)
    requires AllPresent(c) && forall id :: Some(id) in c ==> id !in s.owner
    ensures var order := SortByAddress(Values(c));
            FreedBy(OwnedBy(s.owner, t, order), Reverse(order)) == s.owner
  {
    var order := SortByAddress(Values(c));
    OwnedByMeans(s.owner, t, order);
    FreedByMeans(OwnedBy(s.owner, t, order), Reverse(order));
    ReverseMultiset(order);
    forall id: Id
      ensures id in Reverse(order) <==> id in order
      ensures id in order <==> Some(id) in c
    {
      assert id in Reverse(order) <==> id in multiset(Reverse(order));
      SortedFrom(c, id);
    }
  }

  /** A group held is locked again by the call alone: one lock more on each of its members. */
  lemma {:induction false} Relocks(s: State, t: Tid, c: seq<Option<Id>>)
    requires Inv(s) && t in s.threads && s.threads[t].phase.Running?
    requires c != [] && multiset(c) == multiset(LeadingGroup(s.threads[t].held))
    ensures AllPresent(c)
    ensures var held := s.threads[t].held;
            var more := IncrementAll(held, Values(c));
            && Step(s, t, MultiLockCall(c)) == Some(Rest(s, t, more, s.owner))
            && |more| == |held|
            && forall i :: 0 <= i < |held| ==> more[i] == Hold(held[i].id, held[i].count + if i < |c| then 1 else 0)
  {
    var held := s.threads[t].held;
    assert ThreadInv(s.threads[t]);
    MatchIffPermutation(held, c);
    MatchedIds(held, c);
    PlanOf(held, c);
    IncrementAllAt(held, Values(c));
  }

  lemma {:induction false} PlanOf(h: seq<Hold>, c: seq<Option<Id>>)
    requires Ordered(h) && Match(h, c) == Success
    ensures MultiLockPlan(h, c) == Relock
  {
    MatchAccepts(h, c, 0);
  }

  function Undos(n: nat): (r: seq<Action>)
    ensures |r| == n
  {
    if n == 0 then [] else [UndoOne] + Undos(n - 1)
  }

  /** When a group call gives up, the members locked so far are undone one by one, and the thread
      is back with the list of before, their mutexes free. */
  lemma {:induction false} UndoesAll(s: State, t: Tid, base: seq<Hold>, done: seq<Id>)
    requires t in s.threads && done != []
    requires s.threads[t] == Thread(Once(done) + base, Undoing(base, done))
    ensures Run(s, Alone(t, Undos(|done|))) == Some(Rest(s, t, base, FreedBy(s.owner, done)))
    decreases |done|
  {
    var held := s.threads[t].held;
    assert held[0] == Hold(done[0], 1) && held[1..] == Once(done[1..]) + base;
    var after := Step(s, t, UndoOne).value;
    assert after.threads[t].held == held[1..];
    RunOne(s, t, UndoOne, Undos(|done| - 1));
    if |done| == 1 {
      RunNone(after, t);
      assert Once(done[1..]) + base == base;
    } else {
      UndoesAll(after, t, base, done[1..]);
      RestAgain(s, after, t, after.threads[t], base, FreedBy(s.owner, done));
    }
  }
}
