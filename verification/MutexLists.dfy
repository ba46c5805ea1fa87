/**
  The thread-specific list of held mutexes, and the operations of `LevelMutex`
  on it, in place. Each is proved against the list functions of `LevelLists`.
 */
module MutexLists {
  import opened Wrappers
  import opened LevelLists
  import opened LevelListProofs
  import opened MutexObjects

  /** What the list functions see of a list of mutexes. */
  ghost function View(list: seq<Mutex>): (h: seq<Hold>)
    reads list
    ensures |h| == |list|
    ensures forall i :: 0 <= i < |list| ==> h[i] == Hold(list[i].Ident(), list[i].count)
  {
    if list == [] then [] else [Hold(list[0].Ident(), list[0].count)] + View(list[1..])
  }

  /** What they see of a container of pointers. */
  function Idents(c: seq<Mutex?>): (ids: seq<Option<Id>>)
    ensures |ids| == |c|
    ensures forall i :: 0 <= i < |c| ==> ids[i] == if c[i] == null then None else Some(c[i].Ident())
  {
    seq(|c|, i requires 0 <= i < |c| => if c[i] == null then None else Some(c[i].Ident()))
  }

  /** A mutex of the list with the address of `m` is `m`. */
  predicate Apart(m: Mutex, list: seq<Mutex?>) {
    forall i :: 0 <= i < |list| && list[i] != null && list[i].address == m.address ==> list[i] == m
  }

  /** Different mutexes have different addresses. */
  predicate Separate(c: seq<Mutex?>, list: seq<Mutex>) {
    forall k :: 0 <= k < |c| && c[k] != null ==> Apart(c[k], c) && Apart(c[k], list)
  }

  /** `IsUniqueMutex`: no later entry of the container is the same pointer. */
  method IsUniqueMutex(c: seq<Mutex?>, cit: nat) returns (unique: bool)
    requires cit < |c| && c[cit] != null && Apart(c[cit], c)
    ensures unique <==> c[cit] !in c[cit + 1..]
    ensures unique <==> Idents(c)[cit] !in Idents(c)[cit + 1..]
  {
    ghost var ids := Idents(c);
    var i := cit + 1;
    while i < |c|
      invariant cit < i <= |c|
      invariant forall k :: cit < k < i ==> c[k] != c[cit] && ids[k] != ids[cit]
    {
      if c[i] == c[cit] {
        assert c[cit + 1..][i - cit - 1] == c[cit] && ids[cit + 1..][i - cit - 1] == ids[cit];
        return false;
      }
      i := i + 1;
    }
    return true;
  }

  /** A mutex that may be taken after everything on `list`. */
  predicate Under(m: Mutex, list: seq<Mutex>) {
    && m.level < UNLOCKED_LEVEL && Apart(m, list)
    && forall i :: 0 <= i < |list| ==> Before(list[i].Ident(), m.Ident())
  }

  /** Every mutex of the list was taken after all mutexes behind it. */
  predicate Descends(list: seq<Mutex>) {
    list != [] ==> Under(list[0], list[1..]) && Descends(list[1..])
  }

  lemma {:induction false} DescendsAt(list: seq<Mutex>, i: nat)
    requires Descends(list) && i < |list|
    ensures Under(list[i], list[i + 1..])
    ensures forall k :: 0 <= k < i ==> list[k].address != list[i].address && list[k] != list[i]
    decreases i
  {
    if i > 0 {
      DescendsAt(list[1..], i - 1);
      assert list[1..][i - 1] == list[i] && list[1..][i..] == list[i + 1..];
      assert Before(list[1..][i - 1].Ident(), list[0].Ident());
      forall k | 0 <= k < i
        ensures list[k].address != list[i].address && list[k] != list[i]
      {
        if k > 0 { assert list[k] == list[1..][k - 1]; }
      }
    }
  }

  lemma {:induction false} DescendsApart(m: Mutex, list: seq<Mutex>)
    requires Descends(list) && m in list
    ensures Apart(m, list)
  {
    var k :| 0 <= k < |list| && list[k] == m;
    DescendsAt(list, k);
    forall i | 0 <= i < |list| && list[i].address == m.address
      ensures list[i] == m
    {
      if i > k { assert list[i] == list[k + 1..][i - k - 1]; }
    }
  }

  lemma {:induction false} DescendsOrdered(list: seq<Mutex>)
    requires Descends(list)
    ensures forall i :: 0 <= i < |list| ==> list[i].level < UNLOCKED_LEVEL
    ensures forall i, j :: 0 <= i < j < |list| ==> Before(list[j].Ident(), list[i].Ident())
  {
    forall i | 0 <= i < |list|
      ensures list[i].level < UNLOCKED_LEVEL
      ensures forall j :: i < j < |list| ==> Before(list[j].Ident(), list[i].Ident())
    {
      DescendsAt(list, i);
      forall j | i < j < |list|
        ensures Before(list[j].Ident(), list[i].Ident())
      {
        assert list[j] == list[i + 1..][j - i - 1];
      }
    }
  }

  class ThreadList {
    /** `s_currentMutex` of one thread. */
    var current: Mutex?
    /** The mutexes on the list, head first. */
    ghost var held: seq<Mutex>

    ghost predicate Valid()
      reads this, held
    {
      && Linked(current, held)
      && Descends(held)
      && forall i :: 0 <= i < |held| ==> held[i].count > 0 && held[i].owner == this
    }

    constructor ()
      ensures Valid() && held == []
    {
      current, held := null, [];
    }

    lemma {:induction false} ViewOrdered()
      requires Valid()
      ensures Ordered(View(held))
    {
      DescendsOrdered(held);
    }

    // ----- questions about the list -----

    method GetCurrentThreadsLevel() returns (level: nat)
      requires Valid()
      ensures level == CurrentLevel(View(held))
    {
      level := if current == null then UNLOCKED_LEVEL else current.level;
    }

    method CountMutexesAtCurrentLevel() returns (count: nat)
      requires Valid()
      ensures count == LeadingCount(View(held), CurrentLevel(View(held)))
    {
      var mutex := current;
      if mutex == null {
        return 0;
      }
      count := 0;
      var level := mutex.level;
      while mutex != null
        invariant count <= |held| && Linked(mutex, held[count..])
        invariant LeadingCount(View(held), level) == count + LeadingCount(View(held)[count..], level)
        decreases |held| - count
      {
        assert View(held)[count..][0].id == mutex.Ident();
        if level != mutex.level {
          break;
        }
        assert View(held)[count..][1..] == View(held)[count + 1..];
        assert held[count..][1..] == held[count + 1..];
        mutex := mutex.previous;
        count := count + 1;
      }
    }

    method IsLockedByCurrentThread(m: Mutex) returns (r: bool)
      requires Valid()
      ensures r <==> m in held
    {
      if m.count == 0 {
        return false;
      }
      var mutex := current;
      ghost var i := 0;
      while mutex != null
        invariant i <= |held| && Linked(mutex, held[i..])
        invariant m !in held[..i]
        decreases |held| - i
      {
        assert mutex == held[i] && held[i..][1..] == held[i + 1..];
        if m == mutex {
          return true;
        }
        mutex := mutex.previous;
        i := i + 1;
      }
      return false;
    }

    method IsRecentLock(m: Mutex, count: nat) returns (r: bool)
      requires Valid() && Apart(m, held)
      ensures r <==> exists i :: 0 <= i < |held| && i < count && held[i] == m
      ensures r <==> RecentlyHeld(View(held), m.Ident(), count)
    {
      ghost var h := View(held);
      if count == 0 {
        return false;
      }
      var mutex := current;
      var left := count;
      while left > 0
        invariant left <= count && count - left <= |held| && Linked(mutex, held[count - left..])
        invariant forall k :: 0 <= k < count - left ==> held[k] != m && h[k].id != m.Ident()
      {
        ghost var i := count - left;
        if mutex == null {
          return false;
        }
        assert mutex == held[i] && held[i..][1..] == held[i + 1..];
        if m == mutex {
          assert h[i].id == m.Ident();
          return true;
        }
        mutex := mutex.previous;
        left := left - 1;
      }
      return false;
    }

    /** One round of the loop below; `Success` when the loop goes on. */
    method MatchEntry(c: seq<Mutex?>, cit: nat, currentLevel: nat) returns (r: MutexError)
      requires Valid() && Separate(c, held) && cit < |c| && currentLevel == CurrentLevel(View(held))
      ensures MatchFrom(View(held), Idents(c), cit) ==
              if r == Success then MatchFrom(View(held), Idents(c), cit + 1) else r
    {
      var mutex := c[cit];
      if mutex == null {
        return NullMutexPointer;
      }
      if currentLevel != mutex.level {
        return if currentLevel == UNLOCKED_LEVEL then NotRecentLock else WrongLevel;
      }
      var recent := IsRecentLock(mutex, |c|);
      if !recent {
        return NotRecentLock;
      }
      var unique := IsUniqueMutex(c, cit);
      return if unique then Success else DuplicateMutex;
    }

    /** `DoMutexesMatchContainer`. */
    method DoMutexesMatchContainer(c: seq<Mutex?>) returns (r: MutexError)
      requires Valid() && Separate(c, held)
      ensures r == Match(View(held), Idents(c))
    {
      var count := |c|;
      if count == 0 {
        return EmptyContainer;
      }
      var currentLevel := GetCurrentThreadsLevel();
      var cit := 0;
      while cit < |c|
        invariant cit <= |c|
        invariant Match(View(held), Idents(c)) == MatchFrom(View(held), Idents(c), cit)
      {
        r := MatchEntry(c, cit, currentLevel);
        if r != Success {
          return;
        }
        cit := cit + 1;
      }
      var atLevel := CountMutexesAtCurrentLevel();
      if count != atLevel {
        return LevelTooHigh;
      }
      return Success;
    }

    // ----- single mutexes -----

    lemma {:induction false} ApartInList(m: Mutex)
      requires Valid() && m in held
      ensures Apart(m, held) && Holds(View(held), m.Ident()) && CountOf(View(held), m.Ident()) == m.count
    {
      DescendsApart(m, held);
      ViewOrdered();
      var k :| 0 <= k < |held| && held[k] == m;
      assert View(held)[k] == Hold(m.Ident(), m.count);
      CountOfEntry(View(held), k);
    }

    lemma {:induction false} ViewIncremented(before: seq<Hold>, m: Mutex)
      requires Apart(m, held) && |before| == |held|
      requires forall i :: 0 <= i < |held| ==>
                 before[i].id == held[i].Ident()
                 && held[i].count == before[i].count + if held[i] == m then 1 else 0
      ensures View(held) == Increment(before, m.Ident())
    {
      IncrementAt(before, m.Ident());
    }

    lemma {:induction false} ViewDecremented(before: seq<Hold>, m: Mutex)
      requires Apart(m, held) && |before| == |held| && m.count > 0
      requires forall i :: 0 <= i < |held| ==>
                 before[i].id == held[i].Ident()
                 && before[i].count == held[i].count + if held[i] == m then 1 else 0
      ensures View(held) == Decrement(before, m.Ident())
    {
      DecrementAt(before, m.Ident());
    }

    /** `IncrementCount`. */
    method IncrementCount(m: Mutex)
      requires Valid() && m in held
      modifies m`count
      ensures Valid() && m.count == old(m.count) + 1
      ensures View(held) == Increment(old(View(held)), m.Ident())
    {
      DescendsApart(m, held);
      ghost var before := View(held);
      m.count := m.count + 1;
      ViewIncremented(before, m);
    }

    /** `DecrementCount`. */
    method DecrementCount(m: Mutex)
      requires Valid() && m in held && m.count > 1
      modifies m`count
      ensures Valid() && m.count == old(m.count) - 1
      ensures View(held) == Decrement(old(View(held)), m.Ident())
    {
      DescendsApart(m, held);
      ghost var before := View(held);
      m.count := m.count - 1;
      ViewDecremented(before, m);
    }

    /** `PreLockCheck`. */
    method PreLockCheck(m: Mutex, forTryLock: bool) returns (r: MutexError)
      requires Valid() && Apart(m, held)
      modifies m`count
      ensures Valid()
      ensures (r, View(held)) == LockVerdict(old(View(held)), m.Ident(), forTryLock, old(m.count) > 0)
      ensures m.count == old(m.count) + if r == Success then 1 else 0
    {
      var currentLevel := GetCurrentThreadsLevel();
      if currentLevel < m.level {
        return LevelTooHigh;
      }
      var lockedByThisThread := IsLockedByCurrentThread(m);
      if !lockedByThisThread && forTryLock && m.count > 0 {
        return AlreadyLocked;
      }
      if currentLevel == m.level {
        if lockedByThisThread {
          IncrementCount(m);
          return Success;
        } else {
          return LevelTooHigh;
        }
      }
      return NoProblem;
    }

    /** `PreUnlockCheck`. */
    method PreUnlockCheck(m: Mutex) returns (r: MutexError)
      requires Valid() && Apart(m, held)
      modifies m`count
      ensures Valid()
      ensures (r, View(held)) == UnlockVerdict(old(View(held)), m.Ident(), old(m.count))
      ensures m.count == old(m.count) - if r == Success then 1 else 0
    {
      if m.count == 0 {
        return WasntLocked;
      }
      var currentLevel := GetCurrentThreadsLevel();
      if currentLevel > m.level {
        return LevelTooLow;
      }
      if currentLevel < m.level {
        return LevelTooHigh;
      }
      var lockedByThisThread := IsLockedByCurrentThread(m);
      if !lockedByThisThread {
        return NotLockedByThread;
      }
      if 1 < m.count {
        DecrementCount(m);
        return Success;
      }
      return NoProblem;
    }

    /** `PostLock`. */
    method PostLock(m: Mutex)
      requires Valid() && Under(m, held)
      requires m.count == 0 && m.previous == null && m.owner == this
      modifies this, m`count, m`previous
      ensures Valid() && held == [m] + old(held)
      ensures View(held) == [Hold(m.Ident(), 1)] + old(View(held))
      ensures m.count == 1 && m.previous == old(current) && current == m
    {
      m.count := 1;
      m.previous := current;
      current := m;
      held := [m] + held;
      assert held[1..] == old(held);
    }

    /** `PreUnlock`. */
    method PreUnlock(m: Mutex)
      requires Valid() && m == current && m.count == 1
      modifies this, m`count, m`previous
      ensures Valid() && held == old(held)[1..]
      ensures View(held) == old(View(held))[1..]
      ensures m.count == 0 && m.previous == null && current == old(m.previous)
    {
      current := m.previous;
      m.previous := null;
      m.count := 0;
      held := held[1..];
    }

    // ----- the wrapped policy mutex -----

    /** No thread has the policy mutex, and it does not fail. */
    predicate Grants(m: Mutex)
      reads m
    {
      m.owner == null && m.lockAnswer == Success
    }

    /** The policy mutex is granted while no thread has it, unless it fails. */
    method PolicyLock(m: Mutex) returns (r: MutexError)
      modifies m`owner
      ensures r == if old(m.owner) != null then TryFailed else m.lockAnswer
      ensures m.owner == if old(Grants(m)) then this else old(m.owner)
    {
      if m.owner != null {
        return TryFailed;
      }
      r := m.lockAnswer;
      if r == Success {
        m.owner := this;
      }
    }

    /** The policy mutex is given back, unless it refuses. */
    method PolicyUnlock(m: Mutex) returns (r: MutexError)
      modifies m`owner
      ensures r == m.unlockAnswer
      ensures m.owner == if r == Success then null else old(m.owner)
    {
      r := m.unlockAnswer;
      if r == Success {
        m.owner := null;
      }
    }

    /** A mutex no thread has carries no count and no link. */
    predicate Quiet(m: Mutex)
      reads m
    {
      m.owner == null ==> m.count == 0 && m.previous == null
    }

    lemma {:induction false} NoProblemMeansBelow(m: Mutex)
      requires Valid() && m.level < CurrentLevel(View(held)) && m.level < UNLOCKED_LEVEL && Apart(m, held)
      ensures Under(m, held)
    {
      ViewOrdered();
      BelowCurrentLevel(View(held), m.Ident());
      forall i | 0 <= i < |held|
        ensures Before(held[i].Ident(), m.Ident())
      {
        assert Before(View(held)[i].id, m.Ident());
      }
    }

    /** `LockThis`, and the second half of `Lock` and `TryLock`: a grant, then the list. */
    method LockThis(m: Mutex) returns (r: MutexError)
      requires Valid() && Under(m, held) && Quiet(m)
      modifies this, m`count, m`previous, m`owner
      ensures Valid() && Quiet(m)
      ensures r == if old(m.owner) != null then TryFailed else m.lockAnswer
      ensures r == Success ==>
                && old(m.owner) == null && m.owner == this && m.count == 1
                && held == [m] + old(held) && View(held) == [Hold(m.Ident(), 1)] + old(View(held))
      ensures r != Success ==>
                && held == old(held) && View(held) == old(View(held)) && current == old(current)
                && m.owner == old(m.owner) && m.count == old(m.count) && m.previous == old(m.previous)
    {
      r := PolicyLock(m);
      if r == Success {
        PostLock(m);
      }
    }

    /** `Lock`: the check, then a grant, then the list. */
    method Lock(m: Mutex) returns (r: MutexError)
      requires Valid() && Apart(m, held) && Quiet(m) && m.level < UNLOCKED_LEVEL
      modifies this, m`count, m`previous, m`owner
      ensures Valid() && Quiet(m)
      ensures var (check, after) := LockVerdict(old(View(held)), m.Ident(), false, old(m.count) > 0);
              if check != NoProblem then
                r == check && View(held) == after && held == old(held) && m.owner == old(m.owner)
              else if old(Grants(m)) then
                && r == Success && held == [m] + old(held) && View(held) == [Hold(m.Ident(), 1)] + after
                && m.owner == this
              else
                r != Success && held == old(held) && View(held) == after && m.owner == old(m.owner)
      ensures m.count == old(m.count) + if r == Success then 1 else 0
    {
      r := PreLockCheck(m, false);
      if r == NoProblem {
        NoProblemMeansBelow(m);
        r := LockThis(m);
      }
    }

    /** `TryLock`. */
    method TryLock(m: Mutex) returns (r: MutexError)
      requires Valid() && Apart(m, held) && Quiet(m) && m.level < UNLOCKED_LEVEL
      modifies this, m`count, m`previous, m`owner
      ensures Valid() && Quiet(m)
      ensures var (check, after) := LockVerdict(old(View(held)), m.Ident(), true, old(m.count) > 0);
              if check != NoProblem then
                r == check && View(held) == after && held == old(held) && m.owner == old(m.owner)
              else if old(Grants(m)) then
                && r == Success && held == [m] + old(held) && View(held) == [Hold(m.Ident(), 1)] + after
                && m.owner == this
              else
                r != Success && held == old(held) && View(held) == after && m.owner == old(m.owner)
      ensures m.count == old(m.count) + if r == Success then 1 else 0
    {
      r := PreLockCheck(m, true);
      if r == NoProblem {
        NoProblemMeansBelow(m);
        r := LockThis(m);
      }
    }

    /** `Unlock`: if the policy mutex refuses, the mutex is linked again. Taking the last lock
        off a mutex that is not the head is outside its asserted contract. */
    method Unlock(m: Mutex) returns (r: MutexError)
      requires Valid() && Apart(m, held) && Quiet(m)
      requires m in held && m.count == 1 && m.level == CurrentLevel(View(held)) ==> m == current
      modifies this, m`count, m`previous, m`owner
      ensures Valid() && Quiet(m)
      ensures var (check, after) := UnlockVerdict(old(View(held)), m.Ident(), old(m.count));
              if check != NoProblem then
                r == check && View(held) == after && held == old(held) && m.owner == old(m.owner)
              else if m.unlockAnswer == Success then
                && r == Success && MayRelease(after, m.Ident()) && View(held) == Release(after, m.Ident())
                && held == old(held)[1..] && m.owner == null
              else
                && r == m.unlockAnswer && View(held) == after && held == old(held) && current == old(current)
                && m.owner == this && m.count == old(m.count) && m.previous == old(m.previous)
      ensures m.count == old(m.count) - if r == Success then 1 else 0
    {
      r := PreUnlockCheck(m);
      if r != NoProblem {
        return;
      }
      ApartInList(m);
      r := GiveBack(m);
    }

    /** The second half of `Unlock`. */
    method GiveBack(m: Mutex) returns (r: MutexError)
      requires Valid() && m == current && m.count == 1
      modifies this, m`count, m`previous, m`owner
      ensures Valid() && r == m.unlockAnswer
      ensures r == Success ==> held == old(held)[1..] && View(held) == old(View(held))[1..] && Freed(m)
      ensures r != Success ==> held == old(held) && View(held) == old(View(held)) && current == m
      ensures r != Success ==> m.owner == this && m.count == 1 && m.previous == old(m.previous)
    {
      ghost var list := held;
      assert list == [m] + list[1..] && View(list) == [Hold(m.Ident(), 1)] + View(list[1..]);
      r := LetGo(m);
      if r != Success {
        PostLock(m);
      }
    }

    /** `UnlockThis`: the mutex leaves the list even if the policy mutex refuses. */
    method UnlockThis(m: Mutex) returns (r: MutexError)
      requires Valid() && m in held && (m.count > 1 || m == current)
      modifies this, m`count, m`previous, m`owner
      ensures Valid() && r == if old(m.count) > 1 then Success else m.unlockAnswer
      ensures MayRelease(old(View(held)), m.Ident())
      ensures View(held) == Release(old(View(held)), m.Ident())
      ensures if old(m.count) > 1 then held == old(held) && m.count == old(m.count) - 1 && m.owner == this
              else held == old(held)[1..] && Freed(m)
    {
      ApartInList(m);
      if 1 < m.count {
        DecrementCount(m);
        return Success;
      }
      assert View(held)[0].id == m.Ident();
      r := LetGo(m);
    }

    /** The head leaves the list, and its policy mutex is given back. */
    method LetGo(m: Mutex) returns (r: MutexError)
      requires Valid() && m == current && m.count == 1
      modifies this, m`count, m`previous, m`owner
      ensures Valid() && r == m.unlockAnswer && Freed(m)
      ensures held == old(held)[1..] && View(held) == old(View(held))[1..] && current == old(m.previous)
    {
      PreUnlock(m);
      r := PolicyUnlock(m);
    }

    /** The mutex carries no count and no link, and no thread has it unless it refused to be
        given back by this one. */
    predicate Freed(m: Mutex)
      reads m
    {
      m.count == 0 && m.previous == null && m.owner == if m.unlockAnswer == Success then null else this
    }
  }
}
