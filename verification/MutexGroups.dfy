/** `MultiLock` and `MultiUnlock`, in place on the list of one thread. */
module MutexGroups {
  import opened Wrappers
  import opened LevelLists
  import opened LevelListProofs
  import opened LockGroups
  import opened MutexObjects
  import opened MutexLists

  // ----- containers without nulls -----

  function Members(c: seq<Mutex?>): (s: seq<Mutex>)
    requires forall i :: 0 <= i < |c| ==> c[i] != null
    ensures |s| == |c| && forall i :: 0 <= i < |c| ==> s[i] == c[i]
  {
    if c == [] then [] else [c[0]] + Members(c[1..])
  }

  /** The mutexes the container points at. */
  function Pointed(c: seq<Mutex?>): set<Mutex>
  {
    set m: Mutex | m in c
  }

  function MutexIds(s: seq<Mutex>): (ids: seq<Id>)
    ensures |ids| == |s| && forall i :: 0 <= i < |s| ==> ids[i] == s[i].Ident()
  {
    if s == [] then [] else [s[0].Ident()] + MutexIds(s[1..])
  }

  /** `std::sort` on pointers. */
  function InsertMutex(m: Mutex, s: seq<Mutex>): seq<Mutex> {
    if s == [] then [m]
    else if m.address <= s[0].address then [m] + s
    else [s[0]] + InsertMutex(m, s[1..])
  }

  function SortMutexes(s: seq<Mutex>): seq<Mutex> {
    if s == [] then [] else InsertMutex(s[0], SortMutexes(s[1..]))
  }

  lemma {:induction false} MutexIdsPush(m: Mutex, s: seq<Mutex>)
    ensures MutexIds([m] + s) == [m.Ident()] + MutexIds(s)
  {
    assert ([m] + s)[1..] == s;
  }

  lemma {:induction false} InsertMutexIds(m: Mutex, s: seq<Mutex>)
    ensures MutexIds(InsertMutex(m, s)) == InsertByAddress(m.Ident(), MutexIds(s))
  {
    if s != [] {
      MutexIdsPush(m, s);
      InsertMutexIds(m, s[1..]);
      MutexIdsPush(s[0], InsertMutex(m, s[1..]));
      assert MutexIds(s)[1..] == MutexIds(s[1..]);
    }
  }

  lemma {:induction false} InsertMutexElements(m: Mutex, s: seq<Mutex>)
    ensures multiset(InsertMutex(m, s)) == multiset(s) + multiset{m}
  {
    if s != [] {
      assert s == [s[0]] + s[1..];
      InsertMutexElements(m, s[1..]);
    }
  }

  lemma {:induction false} SortMutexIds(s: seq<Mutex>)
    ensures MutexIds(SortMutexes(s)) == SortByAddress(MutexIds(s))
  {
    if s != [] {
      assert MutexIds(s)[1..] == MutexIds(s[1..]);
      SortMutexIds(s[1..]);
      InsertMutexIds(s[0], SortMutexes(s[1..]));
    }
  }

  lemma {:induction false} SortMutexElements(s: seq<Mutex>)
    ensures multiset(SortMutexes(s)) == multiset(s)
  {
    if s != [] {
      assert s == [s[0]] + s[1..];
      SortMutexElements(s[1..]);
      InsertMutexElements(s[0], SortMutexes(s[1..]));
    }
  }

  // ----- locking a group -----

  /** A group in locking order, below everything on `list`. */
  predicate Ready(order: seq<Mutex>, list: seq<Mutex>) {
    order != [] ==> Under(order[0], list) && Ready(order[1..], [order[0]] + list)
  }

  /** What being ready means for each member. */
  lemma {:induction false} ReadyAt(order: seq<Mutex>, list: seq<Mutex>, k: nat)
    requires Ready(order, list) && k < |order|
    ensures order[k] !in list
    ensures forall j :: 0 <= j < k ==> order[j] != order[k]
    decreases k
  {
    if k > 0 {
      ReadyAt(order[1..], [order[0]] + list, k - 1);
      forall j | 0 <= j < k
        ensures order[j] != order[k]
      {
        if j > 0 { assert order[j] == order[1..][j - 1]; }
      }
    }
  }

  lemma {:induction false} ReadyDisjoint(order: seq<Mutex>, list: seq<Mutex>)
    requires Ready(order, list)
    ensures forall m :: m in list ==> m !in order
    ensures forall j, k :: 0 <= j < k < |order| ==> order[j] != order[k]
  {
    forall k | 0 <= k < |order|
      ensures order[k] !in list && forall j :: 0 <= j < k ==> order[j] != order[k]
    {
      ReadyAt(order, list, k);
    }
  }

  lemma {:induction false} ReadyBeside(order: seq<Mutex>, list: seq<Mutex>)
    requires Ready(order, list)
    ensures forall m :: m in list ==> m !in Pointed(order)
  {
    ReadyDisjoint(order, list);
  }

  /** The other direction. */
  lemma {:induction false} ReadyFromOrder(order: seq<Mutex>, list: seq<Mutex>)
    requires forall j :: 0 <= j < |order| ==> Under(order[j], list)
    requires forall i, j :: 0 <= i < j < |order| ==>
               Before(order[i].Ident(), order[j].Ident()) && order[i].address != order[j].address
    ensures Ready(order, list)
  {
    if order != [] {
      var rest, next := order[1..], [order[0]] + list;
      forall j | 0 <= j < |rest|
        ensures Under(rest[j], next)
      {
        assert Under(order[j + 1], list) && Before(order[0].Ident(), order[j + 1].Ident());
      }
      ReadyFromOrder(rest, next);
    }
  }

  /** No thread has the mutex, and it carries no count and no link. */
  predicate Idle(m: Mutex)
    reads m
  {
    m.count == 0 && m.previous == null && m.owner == null
  }

  twostate predicate Untouched(m: Mutex)
    reads m
  {
    m.count == old(m.count) && m.previous == old(m.previous) && m.owner == old(m.owner)
  }

  /** As before, but for a policy mutex that refused to be given back. */
  twostate predicate PutBack(new t: ThreadList, m: Mutex)
    reads m
  {
    && m.count == old(m.count) && m.previous == old(m.previous)
    && (m.owner == old(m.owner) || (m.owner == t && m.unlockAnswer != Success))
  }

  /** Member `k` of a group is no other member, and goes on top when the first `k` are locked. */
  lemma {:induction false} MemberAt(order: seq<Mutex>, list: seq<Mutex>, k: nat)
    requires Ready(order, list) && k < |order|
    ensures forall j :: 0 <= j < |order| && j != k ==> order[j] != order[k]
    ensures Reverse(order[..k + 1]) + list == [order[k]] + (Reverse(order[..k]) + list)
  {
    ReadyDisjoint(order, list);
    ReversePush(order, k);
    assert [order[k]] + Reverse(order[..k]) + list == [order[k]] + (Reverse(order[..k]) + list);
  }

  /** The destructor of `MutexUndoer`: unlocks the first `k` members, the latest first. */
  method Undo(t: ThreadList, order: seq<Mutex>, k: nat, ghost base: seq<Mutex>)
    requires t.Valid() && k <= |order| && t.held == Reverse(order[..k]) + base
    requires Ready(order, base)
    requires forall j :: 0 <= j < k ==> order[j].count == 1
    modifies t, order`count, order`previous, order`owner
    ensures t.Valid() && t.held == base
    ensures forall j :: 0 <= j < k ==> t.Freed(order[j])
    ensures forall j :: k <= j < |order| ==> Untouched(order[j])
  {
    var i := k;
    while i > 0
      invariant 0 <= i <= k && t.Valid() && t.held == Reverse(order[..i]) + base
      invariant forall j :: 0 <= j < i ==> order[j].count == 1
      invariant forall j :: i <= j < k ==> t.Freed(order[j])
      invariant forall j :: k <= j < |order| ==> Untouched(order[j])
    {
      i := i - 1;
      UndoMember(t, order, i, base);
    }
    assert Reverse(order[..0]) + base == base;
  }

  method UndoMember(t: ThreadList, order: seq<Mutex>, i: nat, ghost base: seq<Mutex>)
    requires t.Valid() && i < |order| && t.held == Reverse(order[..i + 1]) + base
    requires Ready(order, base) && order[i].count == 1
    modifies t, {order[i]}`count, {order[i]}`previous, {order[i]}`owner
    ensures t.Valid() && t.held == Reverse(order[..i]) + base && t.Freed(order[i])
    ensures forall j :: 0 <= j < |order| && j != i ==> order[j] != order[i]
  {
    MemberAt(order, base, i);
    assert t.held[1..] == Reverse(order[..i]) + base;
    var _ := t.UnlockThis(order[i]);
  }

  lemma {:induction false} ReadyAfter(order: seq<Mutex>, base: seq<Mutex>, k: nat)
    requires Ready(order, base) && k < |order|
    requires Ready(order[k..], Reverse(order[..k]) + base)
    ensures Under(order[k], Reverse(order[..k]) + base)
    ensures Ready(order[k + 1..], Reverse(order[..k + 1]) + base)
  {
    MemberAt(order, base, k);
    assert order[k..][1..] == order[k + 1..];
  }

  /** One round of the locking loop; a failure undoes the rounds before it. */
  method LockMember(t: ThreadList, order: seq<Mutex>, k: nat, ghost base: seq<Mutex>) returns (r: MutexError)
    requires t.Valid() && k < |order| && t.held == Reverse(order[..k]) + base
    requires Ready(order, base) && Ready(order[k..], t.held) && t.Quiet(order[k])
    requires forall j :: 0 <= j < k ==> order[j].count == 1
    modifies t, order`count, order`previous, order`owner
    ensures t.Valid() && (r == Success <==> old(t.Grants(order[k])))
    ensures r == Success ==>
              && t.held == Reverse(order[..k + 1]) + base && Ready(order[k + 1..], t.held)
              && order[k].count == 1
              && forall j :: 0 <= j < |order| && j != k ==> Untouched(order[j])
    ensures r != Success ==>
              && t.held == base && (forall j :: 0 <= j < k ==> t.Freed(order[j]))
              && forall j :: k <= j < |order| ==> Untouched(order[j])
  {
    MemberAt(order, base, k);
    ReadyAfter(order, base, k);
    ghost var grants := t.Grants(order[k]);
    r := t.LockThis(order[k]);
    assert r == Success <==> grants;
    if r != Success {
      Undo(t, order, k, base);
    }
  }

  twostate lemma {:induction false} AllPutBack(order: seq<Mutex>, new t: ThreadList, new k: nat)
    requires k <= |order|
    requires forall j :: 0 <= j < k ==> old(Idle(order[j])) && t.Freed(order[j])
    requires forall j :: k <= j < |order| ==> Untouched(order[j])
    ensures forall j :: 0 <= j < |order| ==> PutBack(t, order[j])
  {
  }

  /** The locking loop of `MultiLock`: all members, or none. */
  method LockAll(t: ThreadList, order: seq<Mutex>) returns (r: MutexError)
    requires t.Valid() && Ready(order, t.held)
    requires forall j :: 0 <= j < |order| ==> t.Quiet(order[j])
    modifies t, order`count, order`previous, order`owner
    ensures t.Valid() && (r == Success <==> forall j :: 0 <= j < |order| ==> old(t.Grants(order[j])))
    ensures r == Success ==> t.held == Reverse(order) + old(t.held)
    ensures r == Success ==> forall j :: 0 <= j < |order| ==> order[j].count == 1 && old(Idle(order[j]))
    ensures r != Success ==> t.held == old(t.held) && forall j :: 0 <= j < |order| ==> PutBack(t, order[j])
  {
    ghost var base := t.held;
    var k: nat := 0;
    assert Reverse(order[..0]) + base == base && order[0..] == order;
    while k < |order|
      invariant k <= |order| && t.Valid()
      invariant t.held == Reverse(order[..k]) + base
      invariant Ready(order[k..], t.held)
      invariant forall j :: 0 <= j < k ==> order[j].count == 1 && old(t.Grants(order[j]))
      invariant forall j :: k <= j < |order| ==> Untouched(order[j])
    {
      ghost var grants := old(t.Grants(order[k]));
      assert t.Grants(order[k]) == grants;
      r := LockMember(t, order, k, base);
      assert r == Success <==> grants;
      if r != Success {
        AllPutBack(order, t, k);
        return;
      }
      k := k + 1;
    }
    assert order[..k] == order;
    r := Success;
  }

  lemma {:induction false} ReversePush<T>(order: seq<T>, k: nat)
    requires k < |order|
    ensures Reverse(order[..k + 1]) == [order[k]] + Reverse(order[..k])
  {
    ReverseAt(order[..k + 1]);
    ReverseAt(order[..k]);
  }

  // ----- MultiLock and MultiUnlock -----

  lemma {:induction false} IdentsOfMembers(c: seq<Mutex?>)
    requires forall i :: 0 <= i < |c| ==> c[i] != null
    ensures AllPresent(Idents(c)) && Values(Idents(c)) == MutexIds(Members(c))
    ensures Idents(c) == Wrap(MutexIds(Members(c)))
  {
  }

  /** The checks on the second and later members. */
  method ScanGroup(c: seq<Mutex?>, checkLevel: nat) returns (r: MutexError)
    requires c != [] && Separate(c, [])
    ensures r == ScanFrom(Idents(c), checkLevel, 1)
  {
    var i := 1;
    while i < |c|
      invariant 1 <= i <= |c|
      invariant ScanFrom(Idents(c), checkLevel, 1) == ScanFrom(Idents(c), checkLevel, i)
    {
      var mutex := c[i];
      if mutex == null {
        return NullMutexPointer;
      }
      if checkLevel != mutex.level {
        return WrongLevel;
      }
      var unique := IsUniqueMutex(c, i);
      if !unique {
        return DuplicateMutex;
      }
      i := i + 1;
    }
    return Success;
  }

  /** The nested case of `MultiLock`: one more lock on every member. */
  method RelockAll(t: ThreadList, order: seq<Mutex>)
    requires t.Valid() && forall j :: 0 <= j < |order| ==> order[j] in t.held
    modifies order`count
    ensures t.Valid() && View(t.held) == IncrementAll(old(View(t.held)), MutexIds(order))
  {
    ghost var goal := IncrementAll(View(t.held), MutexIds(order));
    var k: nat := 0;
    assert MutexIds(order)[0..] == MutexIds(order);
    while k < |order|
      invariant k <= |order| && t.Valid()
      invariant IncrementAll(View(t.held), MutexIds(order)[k..]) == goal
    {
      assert MutexIds(order)[k..][0] == order[k].Ident();
      assert MutexIds(order)[k..][1..] == MutexIds(order)[k + 1..];
      t.IncrementCount(order[k]);
      k := k + 1;
    }
  }

  lemma {:induction false} MatchedAreHeld(t: ThreadList, c: seq<Mutex?>)
    requires t.Valid() && Separate(c, t.held) && Match(View(t.held), Idents(c)) == Success
    ensures forall i :: 0 <= i < |c| ==> c[i] != null && c[i] in t.held
  {
    MatchAccepts(View(t.held), Idents(c), 0);
    forall i | 0 <= i < |c|
      ensures c[i] != null && c[i] in t.held
    {
      assert Idents(c)[i].Some?;
      assert Apart(c[i], t.held);
    }
  }

  /** A group that passed the checks, sorted, is ready to be locked. */
  lemma {:induction false} GroupReady(t: ThreadList, c: seq<Mutex?>)
    requires t.Valid() && Separate(c, t.held)
    requires forall i :: 0 <= i < |c| && c[i] != null ==> c[i].level < UNLOCKED_LEVEL
    requires MultiLockPlan(View(t.held), Idents(c)) == LockGroup
    ensures forall i :: 0 <= i < |c| ==> c[i] != null
    ensures var order := SortMutexes(Members(c));
            && Ready(order, t.held) && multiset(order) == multiset(Members(c))
            && MutexIds(order) == SortByAddress(Values(Idents(c)))
  {
    LockGroupPlan(View(t.held), Idents(c));
    forall i | 0 <= i < |c|
      ensures c[i] != null
    {
      assert Idents(c)[i].Some?;
    }
    var members := Members(c);
    var order := SortMutexes(members);
    IdentsOfMembers(c);
    SortMutexIds(members);
    SortMutexElements(members);
    var level := c[0].level;
    SortedGroup(Idents(c), level);
    t.ViewOrdered();
    forall j | 0 <= j < |order|
      ensures Under(order[j], t.held)
    {
      assert order[j] in multiset(members);
      var i :| 0 <= i < |members| && members[i] == order[j];
      assert c[i] == order[j] && Idents(c)[i].value.level == level;
      t.NoProblemMeansBelow(order[j]);
    }
    forall i, j | 0 <= i < j < |order|
      ensures Before(order[i].Ident(), order[j].Ident()) && order[i].address != order[j].address
    {
      assert Before(MutexIds(order)[i], MutexIds(order)[j]);
      assert MutexIds(order)[i].level == level && MutexIds(order)[j].level == level;
    }
    ReadyFromOrder(order, t.held);
  }

  lemma {:induction false} ViewOfConcat(a: seq<Mutex>, b: seq<Mutex>)
    ensures View(a + b) == View(a) + View(b)
  {
    if a == [] {
      assert a + b == b;
    } else {
      assert (a + b)[1..] == a[1..] + b;
      ViewOfConcat(a[1..], b);
    }
  }

  lemma {:induction false} ReverseMutexIds(order: seq<Mutex>)
    ensures MutexIds(Reverse(order)) == Reverse(MutexIds(order))
  {
    if order != [] {
      ReverseMutexIds(order[1..]);
      assert MutexIds(order)[1..] == MutexIds(order[1..]);
    }
  }

  lemma {:induction false} ViewOfFresh(order: seq<Mutex>)
    requires forall j :: 0 <= j < |order| ==> order[j].count == 1
    ensures View(Reverse(order)) == Once(Reverse(MutexIds(order)))
  {
    ReverseMutexIds(order);
    ReverseAt(order);
  }

  lemma {:induction false} ViewOnTop(order: seq<Mutex>, base: seq<Mutex>)
    requires forall j :: 0 <= j < |order| ==> order[j].count == 1
    ensures View(Reverse(order) + base) == Once(Reverse(MutexIds(order))) + View(base)
  {
    ViewOfFresh(order);
    ViewOfConcat(Reverse(order), base);
  }

  /** The nested case of `MultiLock`. */
  method RelockGroup(t: ThreadList, c: seq<Mutex?>)
    requires t.Valid() && Separate(c, t.held) && MultiLockPlan(View(t.held), Idents(c)) == Relock
    modifies Pointed(c)`count
    ensures (forall i :: 0 <= i < |c| ==> c[i] != null && c[i] in t.held)
    ensures t.Valid() && AllPresent(Idents(c))
    ensures View(t.held) == IncrementAll(old(View(t.held)), Values(Idents(c)))
  {
    MatchedAreHeld(t, c);
    IdentsOfMembers(c);
    RelockAll(t, Members(c));
  }

  /** `LockAll`, as the list functions see it. */
  method LockSorted(t: ThreadList, order: seq<Mutex>) returns (r: MutexError)
    requires t.Valid() && Ready(order, t.held)
    requires forall j :: 0 <= j < |order| ==> t.Quiet(order[j])
    modifies t, Pointed(order)`count, Pointed(order)`previous, Pointed(order)`owner
    ensures t.Valid() && (r == Success <==> forall m :: m in Pointed(order) ==> old(t.Grants(m)))
    ensures r == Success ==> t.held == Reverse(order) + old(t.held)
    ensures r == Success ==> forall m :: m in Pointed(order) ==> m in t.held && old(Idle(m))
    ensures r == Success ==> View(t.held) == Once(Reverse(MutexIds(order))) + old(View(t.held))
    ensures r != Success ==> t.held == old(t.held) && View(t.held) == old(View(t.held))
    ensures r != Success ==> forall m :: m in Pointed(order) ==> PutBack(t, m)
  {
    ghost var base := t.held;
    ghost var h := View(base);
    ReadyBeside(order, base);
    r := LockPointed(t, order);
    assert View(base) == h;
    if r == Success {
      OnTop(order, base);
      ViewOnTop(order, base);
    }
  }

  /** `LockAll`, said of the set of its members. */
  method LockPointed(t: ThreadList, order: seq<Mutex>) returns (r: MutexError)
    requires t.Valid() && Ready(order, t.held)
    requires forall j :: 0 <= j < |order| ==> t.Quiet(order[j])
    modifies t, Pointed(order)`count, Pointed(order)`previous, Pointed(order)`owner
    ensures t.Valid() && (r == Success <==> forall m :: m in Pointed(order) ==> old(t.Grants(m)))
    ensures r == Success ==> t.held == Reverse(order) + old(t.held)
    ensures r == Success ==> forall j :: 0 <= j < |order| ==> order[j].count == 1
    ensures r == Success ==> forall m :: m in Pointed(order) ==> old(Idle(m))
    ensures r != Success ==> t.held == old(t.held)
    ensures r != Success ==> forall m :: m in Pointed(order) ==> PutBack(t, m)
  {
    assert forall j :: 0 <= j < |order| ==> order[j] in Pointed(order);
    r := LockAll(t, order);
  }

  lemma {:induction false} SameMembers(c: seq<Mutex?>, order: seq<Mutex>)
    requires forall i :: 0 <= i < |c| ==> c[i] != null
    requires multiset(order) == multiset(Members(c))
    ensures Pointed(c) == Pointed(order)
    ensures forall j :: 0 <= j < |order| ==> order[j] in c
    ensures var after: seq<Mutex?> := order; multiset(after) == multiset(c)
  {
    WidenMembers(c);
    forall m: Mutex
      ensures m in c <==> m in order
    {
      assert m in order <==> m in multiset(Members(c));
      if m in c {
        var i :| 0 <= i < |c| && c[i] == m;
        assert Members(c)[i] == m;
      }
    }
  }

  lemma {:induction false} WidenMembers(c: seq<Mutex?>)
    requires forall i :: 0 <= i < |c| ==> c[i] != null
    ensures var wide: seq<Mutex?> := Members(c); wide == c
  {
  }

  /** All checks `MultiLock` makes before it touches a mutex. */
  method CheckGroup(t: ThreadList, c: seq<Mutex?>) returns (plan: Plan)
    requires t.Valid() && Separate(c, t.held)
    ensures plan == MultiLockPlan(View(t.held), Idents(c))
  {
    if |c| == 0 {
      return Refuse(EmptyContainer);
    }
    var first := c[0];
    if first == null {
      return Refuse(NullMutexPointer);
    }
    var unique := IsUniqueMutex(c, 0);
    if !unique {
      return Refuse(DuplicateMutex);
    }
    var checkLevel := first.level;
    var currentLevel := t.GetCurrentThreadsLevel();
    if currentLevel < checkLevel {
      return Refuse(LevelTooHigh);
    }
    var result;
    if currentLevel == checkLevel {
      result := t.DoMutexesMatchContainer(c);
      return if result == Success then Relock
             else if currentLevel == UNLOCKED_LEVEL then Refuse(result)
             else Refuse(LevelTooHigh);
    }
    result := ScanGroup(c, checkLevel);
    return if result == Success then LockGroup else Refuse(result);
  }

  lemma {:induction false} OnTop(order: seq<Mutex>, base: seq<Mutex>)
    ensures forall m :: m in order ==> m in Reverse(order) + base
  {
    ReverseMultiset(order);
    forall m | m in order
      ensures m in Reverse(order) + base
    {
      assert m in multiset(Reverse(order));
    }
  }

  /** The group case of `MultiLock`. */
  method LockWholeGroup(t: ThreadList, c: seq<Mutex?>) returns (r: MutexError, after: seq<Mutex?>)
    requires t.Valid() && Separate(c, t.held)
    requires forall i :: 0 <= i < |c| && c[i] != null ==> c[i].level < UNLOCKED_LEVEL && t.Quiet(c[i])
    requires MultiLockPlan(View(t.held), Idents(c)) == LockGroup
    modifies t, Pointed(c)`count, Pointed(c)`previous, Pointed(c)`owner
    ensures t.Valid() && (r == Success <==> forall m :: m in Pointed(c) ==> old(t.Grants(m)))
    ensures AllPresent(Idents(c)) && multiset(after) == multiset(c)
    ensures Idents(after) == Wrap(SortByAddress(Values(Idents(c))))
    ensures View(t.held) ==
            (if r == Success then Once(Reverse(SortByAddress(Values(Idents(c))))) else []) + old(View(t.held))
    ensures forall i :: 0 <= i < |c| ==> c[i] != null
    ensures var order := SortMutexes(Members(c));
            && after == order && (r == Success ==> t.held == Reverse(order) + old(t.held))
    ensures r == Success ==> forall m :: m in Pointed(c) ==> m in t.held && old(Idle(m))
    ensures r != Success ==> t.held == old(t.held) && forall m :: m in Pointed(c) ==> PutBack(t, m)
  {
    GroupOrder(t, c);
    var order := SortMutexes(Members(c));
    r := LockSorted(t, order);
    after := order;
  }

  /** All about the sorted group. */
  lemma {:induction false} GroupOrder(t: ThreadList, c: seq<Mutex?>)
    requires t.Valid() && Separate(c, t.held)
    requires forall i :: 0 <= i < |c| && c[i] != null ==> c[i].level < UNLOCKED_LEVEL && t.Quiet(c[i])
    requires MultiLockPlan(View(t.held), Idents(c)) == LockGroup
    ensures (forall i :: 0 <= i < |c| ==> c[i] != null) && AllPresent(Idents(c))
    ensures var order := SortMutexes(Members(c));
            && Ready(order, t.held) && (forall j :: 0 <= j < |order| ==> t.Quiet(order[j]))
            && Pointed(order) == Pointed(c)
            && MutexIds(order) == SortByAddress(Values(Idents(c))) && Idents(order) == Wrap(MutexIds(order))
            && var after: seq<Mutex?> := order; multiset(after) == multiset(c)
  {
    GroupReady(t, c);
    IdentsOfMembers(c);
    SameMembers(c, SortMutexes(Members(c)));
  }

  /** `MultiLock`. The container is handed back, sorted when the group was locked or tried. */
  method MultiLock(t: ThreadList, c: seq<Mutex?>) returns (r: MutexError, after: seq<Mutex?>)
    requires t.Valid() && Separate(c, t.held)
    requires forall i :: 0 <= i < |c| && c[i] != null ==> c[i].level < UNLOCKED_LEVEL && t.Quiet(c[i])
    modifies t, Pointed(c)`count, Pointed(c)`previous, Pointed(c)`owner
    ensures t.Valid()
    ensures var h, ids := old(View(t.held)), Idents(c);
            match MultiLockPlan(h, ids) {
              case Refuse(error) =>
                && r == error && after == c && View(t.held) == h && t.held == old(t.held)
                && forall m :: m in Pointed(c) ==> Untouched(m)
              case Relock =>
                && r == Success && after == c && t.held == old(t.held)
                && AllPresent(ids) && View(t.held) == IncrementAll(h, Values(ids))
              case LockGroup =>
                && (r == Success <==> forall m :: m in Pointed(c) ==> old(t.Grants(m)))
                && AllPresent(ids) && multiset(after) == multiset(c)
                && Idents(after) == Wrap(SortByAddress(Values(ids)))
                && View(t.held) == (if r == Success then Once(Reverse(SortByAddress(Values(ids)))) else []) + h
                && (forall i :: 0 <= i < |c| ==> c[i] != null) && after == SortMutexes(Members(c))
                && (r == Success ==> t.held == Reverse(SortMutexes(Members(c))) + old(t.held))
                && (r == Success ==> forall m :: m in Pointed(c) ==> old(Idle(m)))
            }
    ensures r == Success ==> forall m :: m in Pointed(c) ==> m in t.held
    ensures r != Success ==> t.held == old(t.held) && forall m :: m in Pointed(c) ==> PutBack(t, m)
  {
    after := c;
    var plan := CheckGroup(t, c);
    if plan.Refuse? {
      r := plan.error;
    } else if plan == Relock {
      RelockGroup(t, c);
      r := Success;
    } else {
      r, after := LockWholeGroup(t, c);
    }
  }

  /** A mutex whose release the list functions allow is on the list, and `UnlockThis` takes it. */
  lemma {:induction false} ReleasableIsHeld(t: ThreadList, m: Mutex)
    requires t.Valid() && Apart(m, t.held) && MayRelease(View(t.held), m.Ident())
    ensures m in t.held && (m.count > 1 || m == t.current)
  {
    if !Holds(View(t.held), m.Ident()) { CountOfAbsent(View(t.held), m.Ident()); }
    t.ApartInList(m);
  }

  /** Still on the list, or given back altogether. */
  ghost predicate Settled(t: ThreadList, m: Mutex)
    reads t, m
  {
    m in t.held || t.Freed(m)
  }

  /** Locked once, and the policy mutex will not be given back. */
  predicate Refuses(m: Mutex)
    reads m
  {
    m.count == 1 && m.unlockAnswer != Success
  }

  ghost function Refusing(all: set<Mutex>): set<Mutex>
    reads all
  {
    set m | m in all && Refuses(m)
  }

  lemma {:induction false} ReleaseSeqStep(h: seq<Hold>, ids: seq<Id>, i: nat)
    requires i < |ids| && ReleaseSeq(h, Reverse(ids[..i + 1])).Some?
    ensures MayRelease(h, ids[i])
    ensures ReleaseSeq(Release(h, ids[i]), Reverse(ids[..i])) == ReleaseSeq(h, Reverse(ids[..i + 1]))
  {
    ReversePush(ids, i);
    assert Reverse(ids[..i + 1])[1..] == Reverse(ids[..i]);
  }

  /** One round of the loop of `MultiUnlock`: member `i` of the group of `ids`. */
  method ReleaseMember(t: ThreadList, m: Mutex, ghost i: nat, ghost ids: seq<Id>) returns (r: MutexError)
    requires t.Valid() && m in t.held && i < |ids| && ids[i] == m.Ident()
    requires ReleaseSeq(View(t.held), Reverse(ids[..i + 1])).Some?
    modifies t, {m}`count, {m}`previous, {m}`owner
    ensures t.Valid() && Settled(t, m)
    ensures ReleaseSeq(View(t.held), Reverse(ids[..i])) == old(ReleaseSeq(View(t.held), Reverse(ids[..i + 1])))
    ensures forall x :: x in t.held ==> x in old(t.held)
    ensures forall x :: x in old(t.held) && x != m ==> x in t.held
    ensures r == Success <==> !old(Refuses(m))
  {
    ghost var before := t.held;
    ReleaseSeqStep(View(t.held), ids, i);
    t.ApartInList(m);
    ReleasableIsHeld(t, m);
    r := t.UnlockThis(m);
    assert t.held == before || before == [m] + t.held;
  }

  predicate AllDifferent(order: seq<Mutex>) {
    forall i, j :: 0 <= i < j < |order| ==> order[i] != order[j]
  }

  /** One of the answers from `i` on is a refusal. */
  ghost predicate AnyFrom(refuses: seq<bool>, i: nat)
    decreases |refuses| - i
  {
    i < |refuses| && (refuses[i] || AnyFrom(refuses, i + 1))
  }

  lemma {:induction false} AnyFromIs(refuses: seq<bool>, i: nat)
    ensures AnyFrom(refuses, i) <==> exists j :: i <= j < |refuses| && refuses[j]
    decreases |refuses| - i
  {
    if i < |refuses| { AnyFromIs(refuses, i + 1); }
  }

  ghost function RefusesEach(order: seq<Mutex>): (r: seq<bool>)
    reads order
    ensures |r| == |order| && forall j :: 0 <= j < |order| ==> r[j] == Refuses(order[j])
  {
    if order == [] then [] else [Refuses(order[0])] + RefusesEach(order[1..])
  }

  lemma {:induction false} RefusingAny(order: seq<Mutex>)
    ensures AnyFrom(RefusesEach(order), 0) <==> Refusing(Pointed(order)) != {}
  {
    var refuses := RefusesEach(order);
    AnyFromIs(refuses, 0);
    if AnyFrom(refuses, 0) {
      var j :| 0 <= j < |order| && refuses[j];
      assert order[j] in Refusing(Pointed(order));
    }
    if m :| m in Refusing(Pointed(order)) {
      var j :| 0 <= j < |order| && order[j] == m;
      assert refuses[j];
    }
  }

  /** The members before `i` are still to be unlocked, which leads to `goal`. */
  ghost predicate Unlocking(t: ThreadList, order: seq<Mutex>, i: nat, ids: seq<Id>, goal: Option<seq<Hold>>, refuses: seq<bool>)
    reads t, t.held, order
    requires i <= |order| == |ids| == |refuses|
  {
    && t.Valid() && ReleaseSeq(View(t.held), Reverse(ids[..i])) == goal
    && (forall j :: 0 <= j < i ==> order[j] in t.held && refuses[j] == Refuses(order[j]))
    && (forall j :: i <= j < |order| ==> Settled(t, order[j]))
  }

  method UnlockRound(t: ThreadList, order: seq<Mutex>, i: nat, ghost ids: seq<Id>, ghost goal: Option<seq<Hold>>,
      ghost refuses: seq<bool>) returns (r: MutexError)
    requires i < |order| == |ids| == |refuses| && AllDifferent(order) && ids == MutexIds(order) && goal.Some?
    requires Unlocking(t, order, i + 1, ids, goal, refuses)
    modifies t, {order[i]}`count, {order[i]}`previous, {order[i]}`owner
    ensures Unlocking(t, order, i, ids, goal, refuses) && (r == Success <==> !refuses[i])
    ensures forall m :: m in t.held ==> m in old(t.held)
  {
    r := ReleaseMember(t, order[i], i, ids);
  }

  /** The loop of `MultiUnlock`, from the last member to the first; a refusal does not end it. */
  method UnlockAll(t: ThreadList, order: seq<Mutex>) returns (failed: bool)
    requires t.Valid() && AllDifferent(order) && forall j :: 0 <= j < |order| ==> order[j] in t.held
    requires ReleaseSeq(View(t.held), Reverse(MutexIds(order))).Some?
    modifies t, Pointed(order)`count, Pointed(order)`previous, Pointed(order)`owner
    ensures t.Valid()
    ensures Some(View(t.held)) == old(ReleaseSeq(View(t.held), Reverse(MutexIds(order))))
    ensures forall m :: m in t.held ==> m in old(t.held)
    ensures forall m :: m in Pointed(order) ==> Settled(t, m)
    ensures failed <==> old(Refusing(Pointed(order))) != {}
  {
    ghost var base, ids, refuses := t.held, MutexIds(order), RefusesEach(order);
    ghost var goal := ReleaseSeq(View(t.held), Reverse(ids));
    RefusingAny(order);
    failed := false;
    var i: nat := |order|;
    assert ids[..i] == ids;
    while i > 0
      invariant i <= |order| && Unlocking(t, order, i, ids, goal, refuses)
      invariant forall m :: m in t.held ==> m in base
      invariant failed == AnyFrom(refuses, i)
    {
      i := i - 1;
      var result := UnlockRound(t, order, i, ids, goal, refuses);
      if result != Success {
        failed := true;
      }
    }
  }

  /** `MultiUnlock`, within its asserted contract: no member locked once stands behind one
      locked more often. */
  method MultiUnlock(t: ThreadList, c: seq<Mutex?>) returns (r: MutexError, after: seq<Mutex?>)
    requires t.Valid() && Separate(c, t.held)
    requires Match(View(t.held), Idents(c)) == Success ==>
               |c| <= |t.held| && OnesFirst(View(t.held), |c|)
    modifies t, Pointed(c)`count, Pointed(c)`previous, Pointed(c)`owner
    ensures t.Valid()
    ensures var verdict := Match(old(View(t.held)), Idents(c));
            if verdict != Success then
              && r == verdict && after == c
              && t.held == old(t.held) && View(t.held) == old(View(t.held))
              && forall m :: m in Pointed(c) ==> Untouched(m)
            else
              && r == (if old(Refusing(Pointed(c))) == {} then Success else MultiUnlockFailed)
              && View(t.held) == OneFewer(old(View(t.held)), |c|) && multiset(after) == multiset(c)
              && (forall m :: m in t.held ==> m in old(t.held))
              && forall m :: m in Pointed(c) ==> m in old(t.held) && Settled(t, m)
  {
    after := c;
    r := t.DoMutexesMatchContainer(c);
    if r != Success {
      return;
    }
    r, after := UnlockGroup(t, c);
  }

  /** The part of it after the check. */
  method UnlockGroup(t: ThreadList, c: seq<Mutex?>) returns (r: MutexError, after: seq<Mutex?>)
    requires t.Valid() && Separate(c, t.held) && Match(View(t.held), Idents(c)) == Success
    requires |c| <= |t.held| && OnesFirst(View(t.held), |c|)
    modifies t, Pointed(c)`count, Pointed(c)`previous, Pointed(c)`owner
    ensures t.Valid() && r == (if old(Refusing(Pointed(c))) == {} then Success else MultiUnlockFailed)
    ensures View(t.held) == OneFewer(old(View(t.held)), |c|) && multiset(after) == multiset(c)
    ensures forall m :: m in t.held ==> m in old(t.held)
    ensures forall m :: m in Pointed(c) ==> m in old(t.held) && Settled(t, m)
  {
    MatchedAreHeld(t, c);
    var order := SortMutexes(Members(c));
    UnlockOrder(t, c);
    assert forall j :: 0 <= j < |order| ==> order[j] in Pointed(c);
    var failed := UnlockAll(t, order);
    after := order;
    r := if failed then MultiUnlockFailed else Success;
  }

  lemma {:induction false} OrderDiffers(h: seq<Hold>, order: seq<Mutex>, n: nat)
    requires Ordered(h) && n <= |h| && Reverse(MutexIds(order)) == Ids(h)[..n]
    ensures AllDifferent(order)
  {
    var up := Reverse(MutexIds(order));
    forall k | 0 <= k < n
      ensures up[k] == h[k].id
    {
      assert Ids(h)[..n][k] == Ids(h)[k];
    }
    forall i, j | 0 <= i < j < |order|
      ensures order[i] != order[j]
    {
      ReverseBack(MutexIds(order), i);
      ReverseBack(MutexIds(order), j);
      assert Before(h[n - 1 - i].id, h[n - 1 - j].id);
    }
  }

  /** The sorted group, unlocked from the end, takes one lock off each matched entry. */
  lemma {:induction false} UnlockOrder(t: ThreadList, c: seq<Mutex?>)
    requires t.Valid() && Separate(c, t.held) && Match(View(t.held), Idents(c)) == Success
    requires |c| <= |t.held| && OnesFirst(View(t.held), |c|)
    requires forall i :: 0 <= i < |c| ==> c[i] != null
    ensures var order := SortMutexes(Members(c));
            && AllDifferent(order)
            && Pointed(order) == Pointed(c)
            && ReleaseSeq(View(t.held), Reverse(MutexIds(order))) == Some(OneFewer(View(t.held), |c|))
            && var after: seq<Mutex?> := order; multiset(after) == multiset(c)
  {
    var order := SortMutexes(Members(c));
    IdentsOfMembers(c);
    SortMutexIds(Members(c));
    SortMutexElements(Members(c));
    SameMembers(c, order);
    t.ViewOrdered();
    UnlockOrderIsListOrder(View(t.held), Idents(c));
    MultiUnlockExact(View(t.held), Idents(c));
    OrderDiffers(View(t.held), order, |c|);
  }
}
