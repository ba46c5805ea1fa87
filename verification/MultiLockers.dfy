/**
  `MultiMutexLocker`: a group that is locked when the object is made and unlocked when it goes,
  with nothing left behind.
 */
module MultiLockers {
  import opened Wrappers
  import opened LevelLists
  import opened LevelListProofs
  import opened LockMachine
  import opened LockGroups
  import opened MutexObjects
  import opened MutexLists
  import opened MutexGroups

  /** The list after `MultiLock` has locked the group, for the first time or again. */
  function GroupTaken(h: seq<Hold>, c: seq<Option<Id>>): seq<Hold>
    requires AllPresent(c)
  {
    if MultiLockPlan(h, c) == Relock then IncrementAll(h, Values(c))
    else Once(Reverse(SortByAddress(Values(c)))) + h
  }

  /** `MultiUnlock` of any permutation of the group is then accepted, runs to its end, and
      leads back. */
  lemma {:induction false} TakenThenReleased(h: seq<Hold>, c: seq<Option<Id>>, d: seq<Option<Id>>)
    requires Ordered(h) && !MultiLockPlan(h, c).Refuse? && multiset(d) == multiset(c)
    ensures AllPresent(c)
    ensures var taken := GroupTaken(h, c);
            && Match(taken, d) == Success
            && |d| <= |taken| && OnesFirst(taken, |d|) && OneFewer(taken, |d|) == h
  {
    if MultiLockPlan(h, c) == Relock {
      RelockThenUnlock(h, c, d);
      MatchedIds(h, c);
      IncrementAllKeeps(h, Values(c));
    } else {
      LockThenUnlock(h, c, d);
      GroupLocked(h, c, d);
    }
    MultiUnlockExact(GroupTaken(h, c), d);
  }

  /** Mutexes of an ordered list are told apart by level and address. */
  lemma {:induction false} SameMutexes(a: seq<Mutex>, b: seq<Mutex>, list: seq<Mutex>)
    requires Descends(list) && (forall m :: m in a ==> m in list) && (forall m :: m in b ==> m in list)
    requires |a| == |b| && forall i :: 0 <= i < |a| ==> a[i].Ident() == b[i].Ident()
    ensures a == b
  {
    forall i | 0 <= i < |a|
      ensures a[i] == b[i]
    {
      assert a[i] in list && b[i] in list;
      DescendsApart(a[i], list);
    }
  }

  function Next(list: seq<Mutex>, i: nat): Mutex? {
    if i + 1 < |list| then list[i + 1] else null
  }

  lemma {:induction false} LinkAt(start: Mutex?, list: seq<Mutex>, i: nat)
    requires Linked(start, list) && i < |list|
    ensures list[i].previous == Next(list, i)
    decreases i
  {
    if i > 0 { LinkAt(list[0].previous, list[1..], i - 1); }
  }

  /** Elements and list functions determine the list. */
  lemma {:induction false} SameList(list: seq<Mutex>, base: seq<Mutex>, taken: seq<Mutex>, h: seq<Hold>)
    requires Descends(taken) && (forall m :: m in list ==> m in taken) && (forall m :: m in base ==> m in taken)
    requires View(list) == h && |h| == |base| && forall i :: 0 <= i < |h| ==> h[i].id == base[i].Ident()
    ensures list == base
  {
    forall i | 0 <= i < |list|
      ensures list[i].Ident() == base[i].Ident()
    {
      assert View(list)[i].id == list[i].Ident();
    }
    SameMutexes(list, base, taken);
  }

  lemma {:induction false} SortedSame(c: seq<Option<Id>>)
    requires AllPresent(c)
    ensures multiset(Wrap(SortByAddress(Values(c)))) == multiset(c)
  {
    SortSorted(Values(c));
    assert Wrap(Values(c)) == c;
    SameWrapped(SortByAddress(Values(c)), Values(c));
  }

  lemma {:induction false} SamePointed(c: seq<Mutex?>, d: seq<Mutex?>)
    requires multiset(c) == multiset(d)
    ensures Pointed(c) == Pointed(d)
  {
    forall m: Mutex
      ensures m in c <==> m in d
    {
      assert m in c <==> m in multiset(c);
      assert m in d <==> m in multiset(d);
    }
  }

  /** The group of `c` is on the list, on top of `base` or among it. */
  ghost predicate Taken(t: ThreadList, c: seq<Mutex?>, base: seq<Mutex>)
    reads t
  {
    && (forall m :: m in base ==> m in t.held)
    && forall i :: 0 <= i < |c| ==> c[i] != null && c[i] in t.held
  }

  lemma {:induction false} TakenSeparate(t: ThreadList, c: seq<Mutex?>, base: seq<Mutex>)
    requires t.Valid() && Taken(t, c, base)
    ensures Separate(c, t.held)
  {
    forall k | 0 <= k < |c|
      ensures Apart(c[k], c) && Apart(c[k], t.held)
    {
      DescendsApart(c[k], t.held);
      forall i | 0 <= i < |c| && c[i].address == c[k].address
        ensures c[i] == c[k]
      {
        assert c[i] in t.held;
      }
    }
  }

  lemma {:induction false} AllIn(c: seq<Mutex?>, list: seq<Mutex>)
    requires AllPresent(Idents(c)) && forall m :: m in Pointed(c) ==> m in list
    ensures forall i :: 0 <= i < |c| ==> c[i] != null && c[i] in list
  {
    forall i | 0 <= i < |c|
      ensures c[i] != null && c[i] in list
    {
      assert Idents(c)[i].Some?;
      assert c[i] in Pointed(c);
    }
  }

  /** The group is locked: again, or for the first time if all its mutexes are granted. */
  predicate Locks(h: seq<Hold>, c: seq<Mutex?>, granted: bool) {
    var plan := MultiLockPlan(h, Idents(c));
    plan == Relock || (plan == LockGroup && granted)
  }

  /** A successful `MultiLock`. */
  method LockScope(t: ThreadList, c: seq<Mutex?>) returns (r: MutexError, after: seq<Mutex?>)
    requires t.Valid() && Separate(c, t.held)
    requires forall i :: 0 <= i < |c| && c[i] != null ==> c[i].level < UNLOCKED_LEVEL && t.Quiet(c[i])
    modifies t, Pointed(c)`count, Pointed(c)`previous, Pointed(c)`owner
    ensures t.Valid()
    ensures r == Success <==> Locks(old(View(t.held)), c, forall m :: m in Pointed(c) ==> old(t.Grants(m)))
    ensures r == Success ==>
              && AllPresent(Idents(c)) && !MultiLockPlan(old(View(t.held)), Idents(c)).Refuse?
              && View(t.held) == GroupTaken(old(View(t.held)), Idents(c))
              && multiset(Idents(after)) == multiset(Idents(c)) && Pointed(after) == Pointed(c)
              && Taken(t, after, old(t.held))
              && forall m :: m in Pointed(c) ==> m in old(t.held) || old(Idle(m))
    ensures r != Success ==> t.held == old(t.held) && View(t.held) == old(View(t.held))
    ensures r != Success ==> forall m :: m in Pointed(c) ==> PutBack(t, m)
  {
    ghost var plan := MultiLockPlan(View(t.held), Idents(c));
    r, after := MultiLock(t, c);
    if r == Success {
      assert !plan.Refuse? && AllPresent(Idents(c));
      assert View(t.held) == GroupTaken(old(View(t.held)), Idents(c));
      if plan == LockGroup {
        SortedSame(Idents(c));
        SamePointed(c, after);
      }
      AllIn(after, t.held);
    }
  }

  /** The `MultiUnlock` that goes with it. */
  method UnlockScope(t: ThreadList, c: seq<Mutex?>, ghost ids: seq<Option<Id>>, ghost base: seq<Mutex>, ghost h: seq<Hold>)
    requires t.Valid() && Taken(t, c, base) && AllPresent(ids) && multiset(Idents(c)) == multiset(ids)
    requires Ordered(h) && |h| == |base| && forall i :: 0 <= i < |h| ==> h[i].id == base[i].Ident()
    requires !MultiLockPlan(h, ids).Refuse? && View(t.held) == GroupTaken(h, ids)
    modifies t, Pointed(c)`count, Pointed(c)`previous, Pointed(c)`owner
    ensures t.Valid() && t.held == base && View(t.held) == h
    ensures forall m :: m in Pointed(c) ==> Settled(t, m)
  {
    ghost var taken := t.held;
    TakenThenReleased(h, ids, Idents(c));
    TakenSeparate(t, c, base);
    var _, _ := MultiUnlock(t, c);
    SameList(t.held, base, taken, h);
  }

  ghost predicate Wired(list: seq<Mutex>)
    reads list
  {
    forall i :: 0 <= i < |list| ==> list[i].previous == Next(list, i)
  }

  lemma {:induction false} HeldWired(t: ThreadList)
    requires t.Valid()
    ensures Wired(t.held) && forall m :: m in t.held ==> m.owner == t
  {
    forall i | 0 <= i < |t.held|
      ensures t.held[i].previous == Next(t.held, i)
    {
      LinkAt(t.current, t.held, i);
    }
  }

  /** A mutex that is on the same list with the same count is as before. */
  twostate lemma {:induction false} StillHeld(list: seq<Mutex>, new m: Mutex)
    requires m in list && old(Wired(list)) && Wired(list) && View(list) == old(View(list))
    ensures m.count == old(m.count) && m.previous == old(m.previous)
  {
    var i :| 0 <= i < |list| && list[i] == m;
    assert View(list)[i].count == m.count && old(View(list))[i].count == old(list[i].count);
    assert list[i].previous == old(list[i].previous);
  }

  /** The life of a `MultiMutexLocker`: its constructor locks the group, or throws, and its
      destructor unlocks it. Afterwards the list is what it was, and so is every member, but
      for policy mutexes that refused to be given back. */
  method Scope(t: ThreadList, c: seq<Mutex?>) returns (locked: bool)
    requires t.Valid() && Separate(c, t.held)
    requires forall i :: 0 <= i < |c| && c[i] != null ==> c[i].level < UNLOCKED_LEVEL && t.Quiet(c[i])
    modifies t, Pointed(c)`count, Pointed(c)`previous, Pointed(c)`owner
    ensures t.Valid() && t.held == old(t.held) && View(t.held) == old(View(t.held))
    ensures locked <==> Locks(old(View(t.held)), c, forall m :: m in Pointed(c) ==> old(t.Grants(m)))
    ensures forall m :: m in Pointed(c) ==> PutBack(t, m)
  {
    ghost var base, h := t.held, View(t.held);
    t.ViewOrdered();
    HeldWired(t);
    var result, after := LockScope(t, c);
    if result != Success {
      return false;
    }
    UnlockScope(t, after, Idents(c), base, h);
    HeldWired(t);
    forall m | m in Pointed(c)
      ensures PutBack(t, m)
    {
      if m in base { StillHeld(base, m); }
    }
    return true;
  }
}
