/**
  What the verdicts of the list functions mean, in terms of what a thread holds: which locks are
  allowed and which are refused, by which error, and that unlocking takes back what locking gave.
 */
module ListVerdicts {
  import opened Wrappers
  import opened LevelLists
  import opened LevelListProofs

  /** Nothing is held below the level. */
  predicate NoneBelow(h: seq<Hold>, level: nat) {
    forall i :: 0 <= i < |h| ==> h[i].id.level >= level
  }

  predicate AllAbove(h: seq<Hold>, level: nat) {
    forall i :: 0 <= i < |h| ==> h[i].id.level > level
  }

  /** The head of a list has the lowest level held. */
  lemma {:induction false} HeadIsLowest(h: seq<Hold>, level: nat)
    requires Ordered(h) && level < UNLOCKED_LEVEL
    ensures NoneBelow(h, level) <==> level <= CurrentLevel(h)
    ensures AllAbove(h, level) <==> level < CurrentLevel(h)
  {
    forall i | 0 < i < |h|
      ensures h[i].id.level >= h[0].id.level
    {
      assert Before(h[i].id, h[0].id);
    }
  }

  lemma {:induction false} IncrementCounts(h: seq<Hold>, id: Id, x: Id)
    ensures CountOf(Increment(h, id), x) == CountOf(h, x) + if x == id && Holds(h, id) then 1 else 0
  {
    if h != [] {
      IncrementCounts(h[1..], id, x);
      assert Increment(h, id)[1..] == Increment(h[1..], id);
      if h[0].id != id { HoldsTail(h, id); }
    }
  }

  lemma {:induction false} DecrementCounts(h: seq<Hold>, id: Id, x: Id)
    ensures CountOf(Decrement(h, id), x) == CountOf(h, x) - if x == id && CountOf(h, id) > 1 then 1 else 0
  {
    if h != [] {
      DecrementCounts(h[1..], id, x);
      assert Decrement(h, id)[1..] == Decrement(h[1..], id);
    }
  }

  lemma {:induction false} HoldsTail(h: seq<Hold>, id: Id)
    requires h != [] && h[0].id != id
    ensures Holds(h, id) <==> Holds(h[1..], id)
  {
    if i :| 0 <= i < |h| && h[i].id == id { assert h[1..][i - 1].id == id; }
    if i :| 0 <= i < |h[1..]| && h[1..][i].id == id { assert h[i + 1].id == id; }
  }

  /** The check before locking lets through exactly what lies below everything held, and for an
      attempt is not seen locked; it counts up exactly what is held at the lowest level. */
  lemma {:induction false} LockMeans(h: seq<Hold>, id: Id, forTryLock: bool, isLocked: bool)
    requires Ordered(h) && id.level < UNLOCKED_LEVEL
    ensures var (r, after) := LockVerdict(h, id, forTryLock, isLocked);
            && (r == NoProblem <==> AllAbove(h, id.level) && !(forTryLock && isLocked))
            && (r == Success <==> Holds(h, id) && NoneBelow(h, id.level))
            && (r == AlreadyLocked <==> forTryLock && isLocked && !Holds(h, id) && NoneBelow(h, id.level))
            && (r == NoProblem || r == Success || r == AlreadyLocked || r == LevelTooHigh)
            && Ids(after) == Ids(h)
            && forall x :: CountOf(after, x) == CountOf(h, x) + if r == Success && x == id then 1 else 0
  {
    HeadIsLowest(h, id.level);
    PreLockKeepsMutexes(h, id, forTryLock, isLocked);
    forall x
      ensures CountOf(Increment(h, id), x) == CountOf(h, x) + if x == id && Holds(h, id) then 1 else 0
    {
      IncrementCounts(h, id, x);
    }
  }

  /** The check before unlocking takes one lock off a mutex held at the lowest level and locked
      more than once, lets through one locked once, and refuses all others. `lockCount` is what
      reading `m_count` shows, the count itself for a mutex the thread holds. */
  lemma {:induction false} UnlockMeans(h: seq<Hold>, id: Id, lockCount: nat)
    requires Ordered(h) && id.level < UNLOCKED_LEVEL && (Holds(h, id) ==> lockCount == CountOf(h, id))
    ensures var (r, after) := UnlockVerdict(h, id, lockCount);
            && (r == Success <==> Holds(h, id) && NoneBelow(h, id.level) && CountOf(h, id) > 1)
            && (r == NoProblem <==> Holds(h, id) && NoneBelow(h, id.level) && CountOf(h, id) == 1)
            && (r == WasntLocked <==> lockCount == 0)
            && (r == LevelTooLow <==> lockCount > 0 && AllAbove(h, id.level))
            && (r == LevelTooHigh <==> lockCount > 0 && !NoneBelow(h, id.level))
            && (r == NotLockedByThread <==>
                  lockCount > 0 && !Holds(h, id) && NoneBelow(h, id.level) && !AllAbove(h, id.level))
            && Ids(after) == Ids(h)
            && forall x :: CountOf(after, x) == CountOf(h, x) - if r == Success && x == id then 1 else 0
  {
    HeadIsLowest(h, id.level);
    PreUnlockKeepsMutexes(h, id, lockCount);
    if i :| 0 <= i < |h| && h[i].id == id { CountOfEntry(h, i); }
    forall x
      ensures CountOf(Decrement(h, id), x) == CountOf(h, x) - if x == id && CountOf(h, id) > 1 then 1 else 0
    {
      DecrementCounts(h, id, x);
    }
  }

  lemma {:induction false} IncrementUndone(h: seq<Hold>, id: Id)
    requires forall i :: 0 <= i < |h| ==> h[i].count > 0
    ensures Decrement(Increment(h, id), id) == h
  {
    IncrementAt(h, id);
    DecrementAt(Increment(h, id), id);
  }

  /** Locking again, by `Lock` or `TryLock`, and unlocking gives back the list. */
  lemma {:induction false} ReentryRoundTrip(h: seq<Hold>, id: Id, forTryLock: bool, isLocked: bool)
    requires Ordered(h) && id.level < UNLOCKED_LEVEL && LockVerdict(h, id, forTryLock, isLocked).0 == Success
    ensures var locked := LockVerdict(h, id, forTryLock, isLocked).1;
            UnlockVerdict(locked, id, CountOf(locked, id)) == (Success, h)
  {
    var locked := Increment(h, id);
    assert LockVerdict(h, id, forTryLock, isLocked) == (Success, locked);
    IncrementAt(h, id);
    SameHeld(h, locked, id);
    var i :| 0 <= i < |h| && h[i].id == id;
    CountOfEntry(h, i);
    IncrementCounts(h, id, id);
    IncrementUndone(h, id);
    assert CurrentLevel(locked) == CurrentLevel(h);
  }

  lemma {:induction false} SameHeld(h: seq<Hold>, g: seq<Hold>, id: Id)
    requires Ids(h) == Ids(g)
    ensures Holds(h, id) <==> Holds(g, id)
    ensures NoneBelow(h, id.level) <==> NoneBelow(g, id.level)
  {
    assert |h| == |Ids(h)| == |Ids(g)| == |g|;
    assert forall i :: 0 <= i < |h| ==> Ids(h)[i] == Ids(g)[i] && h[i].id == g[i].id;
  }

  /** So does locking a mutex that was let through, and unlocking it. */
  lemma {:induction false} LockRoundTrip(h: seq<Hold>, id: Id, forTryLock: bool, isLocked: bool)
    requires Ordered(h) && id.level < UNLOCKED_LEVEL && LockVerdict(h, id, forTryLock, isLocked).0 == NoProblem
    ensures var locked := [Hold(id, 1)] + h;
            && UnlockVerdict(locked, id, 1) == (NoProblem, locked)
            && MayRelease(locked, id) && Release(locked, id) == h
  {
    assert ([Hold(id, 1)] + h)[0].id == id;
  }

  // ----- containers -----

  /** Why a container does not match: each error is given only for what it says. */
  lemma {:induction false} MatchErrors(h: seq<Hold>, c: seq<Option<Id>>, i: nat)
    requires Ordered(h) && i <= |c|
    ensures var r := MatchFrom(h, c, i);
            && (r == NullMutexPointer ==> None in c)
            && (r == DuplicateMutex ==> !Distinct(c))
            && (r == WrongLevel ==> exists k :: 0 <= k < |c| && c[k].Some? && c[k].value.level != CurrentLevel(h))
            && (r == NotRecentLock ==> exists k :: 0 <= k < |c| && c[k].Some? && !RecentlyHeld(h, c[k].value, |c|))
            && (r == LevelTooHigh ==> |c| != LeadingCount(h, CurrentLevel(h)))
            && (r == Success || r == NullMutexPointer || r == DuplicateMutex || r == WrongLevel || r == NotRecentLock
                || r == LevelTooHigh)
    decreases |c| - i
  {
    if i < |c| {
      MatchErrors(h, c, i + 1);
    }
  }

  /** A whole container: it is empty, or the verdict is that of the loop. */
  lemma {:induction false} MatchMeans(h: seq<Hold>, c: seq<Option<Id>>)
    requires Ordered(h)
    ensures Match(h, c) == EmptyContainer <==> c == []
    ensures Match(h, c) == Success <==> c != [] && multiset(c) == multiset(LeadingGroup(h))
  {
    MatchIffPermutation(h, c);
    MatchErrors(h, c, 0);
  }

  lemma {:induction false} ScanErrors(c: seq<Option<Id>>, level: nat, i: nat)
    requires i <= |c|
    ensures var r := ScanFrom(c, level, i);
            && (r == NullMutexPointer ==> None in c)
            && (r == DuplicateMutex ==> !Distinct(c))
            && (r == WrongLevel ==> exists k :: 0 <= k < |c| && c[k].Some? && c[k].value.level != level)
            && (r == Success || r == NullMutexPointer || r == DuplicateMutex || r == WrongLevel)
    decreases |c| - i
  {
    if i < |c| {
      ScanErrors(c, level, i + 1);
    }
  }

  /** `MultiLock` locks again exactly a permutation of the group it holds at the current level,
      locks exactly the groups of `LockGroupPlan`, and refuses all others, each error given only
      for what it says. */
  lemma {:induction false} PlanMeans(h: seq<Hold>, c: seq<Option<Id>>)
    requires Ordered(h) && forall i :: 0 <= i < |c| && c[i].Some? ==> c[i].value.level < UNLOCKED_LEVEL
    ensures MultiLockPlan(h, c) == Relock <==> c != [] && multiset(c) == multiset(LeadingGroup(h))
    ensures MultiLockPlan(h, c).Refuse? ==> RightError(h, c, MultiLockPlan(h, c).error)
  {
    MatchIffPermutation(h, c);
    if c != [] && c[0].Some? {
      HeadIsLowest(h, c[0].value.level);
      ScanErrors(c, c[0].value.level, 1);
    }
    if c != [] && multiset(c) == multiset(LeadingGroup(h)) {
      MatchAccepts(h, c, 0);
    }
  }

  /** The error says what is wrong. */
  predicate RightError(h: seq<Hold>, c: seq<Option<Id>>, error: MutexError) {
    match error
    case EmptyContainer => c == []
    case NullMutexPointer => None in c
    case DuplicateMutex => !Distinct(c)
    case WrongLevel => c != [] && c[0].Some? && exists i :: 0 <= i < |c| && c[i].Some? && c[i].value.level != c[0].value.level
    case LevelTooHigh => c != [] && c[0].Some? && !AllAbove(h, c[0].value.level)
    case _ => false
  }
}
