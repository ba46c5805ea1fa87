/**
  Groups of mutexes of one level: when unlocking a group runs to its end, that
  it undoes locking the group, and that locking a group is all or nothing
  whatever other threads do meanwhile.
 */
module LockGroups {
  import opened Wrappers
  import opened LevelLists
  import opened LevelListProofs
  import opened LockMachine

  // ----- sequences -----

  lemma {:induction false} ReverseAt<T>(s: seq<T>)
    ensures |Reverse(s)| == |s|
    ensures forall i :: 0 <= i < |s| ==> Reverse(s)[i] == s[|s| - 1 - i]
  {
    if s != [] {
      ReverseAt(s[1..]);
    }
  }

  lemma {:induction false} ReverseBack<T>(s: seq<T>, i: nat)
    requires i < |s|
    ensures |Reverse(s)| == |s| && Reverse(s)[|s| - 1 - i] == s[i]
  {
    ReverseAt(s);
  }

  /** A strictly ascending sequence is determined by its elements. */
  lemma {:induction false} AscendingUnique(a: seq<Id>, b: seq<Id>)
    requires Ascending(a) && Ascending(b) && multiset(a) == multiset(b)
    ensures a == b
  {
    assert |a| == |multiset(a)| == |multiset(b)| == |b|;
    if a != [] {
      assert a[0] in multiset(b) && b[0] in multiset(a);
      assert a[0] == b[0] by {
        var i :| 0 <= i < |b| && b[i] == a[0];
        var j :| 0 <= j < |a| && a[j] == b[0];
        if i > 0 && j > 0 {
          assert false;
        }
      }
      RestMultiset(a);
      RestMultiset(b);
      AscendingUnique(a[1..], b[1..]);
    }
  }

  lemma {:induction false} RestMultiset<T>(s: seq<T>)
    requires s != []
    ensures multiset(s[1..]) == multiset(s) - multiset{s[0]}
  {
    assert s == [s[0]] + s[1..];
  }

  lemma {:induction false} WrapCounts(ids: seq<Id>, id: Id)
    ensures multiset(Wrap(ids))[Some(id)] == multiset(ids)[id]
  {
    if ids != [] {
      WrapCounts(ids[1..], id);
      RestMultiset(ids);
      RestMultiset(Wrap(ids));
      assert Wrap(ids)[1..] == Wrap(ids[1..]);
    }
  }

  lemma {:induction false} SameWrapped(a: seq<Id>, b: seq<Id>)
    ensures multiset(Wrap(a)) == multiset(Wrap(b)) <==> multiset(a) == multiset(b)
  {
    forall id: Id
      ensures multiset(a)[id] == multiset(Wrap(a))[Some(id)]
      ensures multiset(b)[id] == multiset(Wrap(b))[Some(id)]
    {
      WrapCounts(a, id);
      WrapCounts(b, id);
    }
    if multiset(a) == multiset(b) {
      forall x: Option<Id>
        ensures multiset(Wrap(a))[x] == multiset(Wrap(b))[x]
      {
        match x
        case None => assert None !in Wrap(a) && None !in Wrap(b);
        case Some(id) => assert multiset(a)[id] == multiset(b)[id];
      }
    }
  }

  /** Two containers without nulls are permutations of each other exactly when their pointers are. */
  lemma {:induction false} SameValues(c: seq<Option<Id>>, d: seq<Option<Id>>)
    requires AllPresent(c) && AllPresent(d)
    ensures multiset(c) == multiset(d) <==> multiset(Values(c)) == multiset(Values(d))
  {
    assert Wrap(Values(c)) == c && Wrap(Values(d)) == d;
    SameWrapped(Values(c), Values(d));
  }

  /** The leading entries, read from the oldest, are in locking order. */
  lemma {:induction false} LeadingGroupDescends(h: seq<Hold>)
    requires Ordered(h)
    ensures AllPresent(LeadingGroup(h)) && Ascending(Reverse(Values(LeadingGroup(h))))
  {
    ReverseAt(Values(LeadingGroup(h)));
  }

  /** The order in which `MultiUnlock` goes through a group that matched is the list
      itself, head first. */
  lemma {:induction false} UnlockOrderIsListOrder(h: seq<Hold>, c: seq<Option<Id>>)
    requires Ordered(h) && Match(h, c) == Success
    ensures |c| <= |h| && AllPresent(c)
    ensures Reverse(SortByAddress(Values(c))) == Ids(h)[..|c|]
  {
    MatchAccepts(h, c, 0);
    MatchIffPermutation(h, c);
    var g := LeadingGroup(h);
    assert |g| == |c|;
    LeadingGroupDescends(h);
    SameValues(c, g);
    SortedGroup(c, CurrentLevel(h));
    ReverseMultiset(Values(g));
    AscendingUnique(SortByAddress(Values(c)), Reverse(Values(g)));
    ReverseTwice(Values(g));
    assert Values(g) == Ids(h)[..|c|];
  }

  lemma {:induction false} ReverseTwice<T>(s: seq<T>)
    ensures Reverse(Reverse(s)) == s
  {
    ReverseAt(s);
    ReverseAt(Reverse(s));
  }

  lemma {:induction false} ReverseMultiset<T>(s: seq<T>)
    ensures multiset(Reverse(s)) == multiset(s)
  {
    if s != [] {
      ReverseMultiset(s[1..]);
      assert s == [s[0]] + s[1..];
    }
  }

  // ----- unlocking a group -----

  /** The list after `UnlockThis` on each of `ids` in turn, or `None` when one of the
      calls would fail its assertion. */
  function ReleaseSeq(h: seq<Hold>, ids: seq<Id>): Option<seq<Hold>>
    decreases |ids|
  {
    if ids == [] then Some(h)
    else if !MayRelease(h, ids[0]) then None
    else ReleaseSeq(Release(h, ids[0]), ids[1..])
  }

  /** One lock taken off each of the first `n` entries. */
  function OneFewer(h: seq<Hold>, n: nat): seq<Hold>
    requires n <= |h|
  {
    if n == 0 then h
    else (if h[0].count > 1 then [Hold(h[0].id, h[0].count - 1)] else []) + OneFewer(h[1..], n - 1)
  }

  /** Entries locked once come before entries locked more than once. */
  predicate OnesFirst(h: seq<Hold>, n: nat)
    requires n <= |h|
  {
    forall i, j :: 0 <= i < j < n && h[j].count == 1 ==> h[i].count == 1
  }

  lemma {:induction false} ReleaseSeqBehind(x: Hold, h: seq<Hold>, ids: seq<Id>)
    requires x.count > 0
    requires forall i :: 0 <= i < |ids| ==> ids[i] != x.id
    requires Distinct(ids)
    ensures ReleaseSeq([x] + h, ids).Some? <==> forall i :: 0 <= i < |ids| ==> CountOf(h, ids[i]) > 1
    ensures ReleaseSeq([x] + h, ids).Some? ==>
              ReleaseSeq(h, ids).Some? && ReleaseSeq([x] + h, ids).value == [x] + ReleaseSeq(h, ids).value
    decreases |ids|
  {
    if ids != [] {
      var g := [x] + h;
      assert g[1..] == h && g[0] == x;
      assert MayRelease(g, ids[0]) <==> CountOf(h, ids[0]) > 1;
      if MayRelease(g, ids[0]) {
        ReleaseSeqBehind(x, Release(h, ids[0]), ids[1..]);
        forall i | 0 < i < |ids|
          ensures CountOf(Release(h, ids[0]), ids[i]) == CountOf(h, ids[i])
        {
          CountOfOther(h, ids[0], ids[i]);
        }
      }
    }
  }

  lemma {:induction false} CountOfOther(h: seq<Hold>, id: Id, other: Id)
    requires id != other
    ensures CountOf(Decrement(h, id), other) == CountOf(h, other)
  {
    if h != [] {
      CountOfOther(h[1..], id, other);
      assert Decrement(h, id)[1..] == Decrement(h[1..], id);
    }
  }

  /** The entries behind a head locked more than once stay where they are, so each of
      them must itself be locked more than once. */
  lemma {:induction false} ReleaseBehindHead(h: seq<Hold>, n: nat)
    requires Ordered(h) && 0 < n <= |h| && h[0].count > 1
    ensures var x := Hold(h[0].id, h[0].count - 1);
            var after := ReleaseSeq([x] + h[1..], Ids(h[1..])[..n - 1]);
            && (after.Some? <==> OnesFirst(h, n))
            && (after.Some? ==> ReleaseSeq(h[1..], Ids(h[1..])[..n - 1]).Some?
                                && after.value == [x] + ReleaseSeq(h[1..], Ids(h[1..])[..n - 1]).value)
  {
    var x := Hold(h[0].id, h[0].count - 1);
    var rest := Ids(h[1..])[..n - 1];
    forall i | 0 <= i < |rest|
      ensures rest[i] != x.id && CountOf(h[1..], rest[i]) == h[i + 1].count
    {
      assert Before(h[i + 1].id, h[0].id);
      CountOfEntry(h[1..], i);
    }
    forall i, j | 0 <= i < j < |rest|
      ensures rest[i] != rest[j]
    {
      assert Before(h[j + 1].id, h[i + 1].id);
    }
    ReleaseSeqBehind(x, h[1..], rest);
    forall j | 0 < j < n
      ensures CountOf(h[1..], rest[j - 1]) == h[j].count
    {
    }
  }

  /** One step of unlocking the leading entries. */
  lemma {:induction false} ReleaseHead(h: seq<Hold>, n: nat)
    requires Ordered(h) && 0 < n <= |h|
    ensures h[0].count == 1 ==>
              ReleaseSeq(h, Ids(h)[..n]) == ReleaseSeq(h[1..], Ids(h[1..])[..n - 1])
    ensures h[0].count > 1 ==>
              ReleaseSeq(h, Ids(h)[..n]) ==
              ReleaseSeq([Hold(h[0].id, h[0].count - 1)] + h[1..], Ids(h[1..])[..n - 1])
  {
    var ids := Ids(h)[..n];
    assert ids[1..] == Ids(h[1..])[..n - 1];
    CountOfEntry(h, 0);
    assert ReleaseSeq(h, ids) == ReleaseSeq(Release(h, h[0].id), ids[1..]);
    if h[0].count > 1 { DecrementHeadOnly(h); }
  }

  /** The two steps before in one: what comes of the rest of the list, and of the head. */
  lemma {:induction false} ReleaseFirst(h: seq<Hold>, n: nat)
    requires Ordered(h) && 0 < n <= |h|
    ensures var all, rest := ReleaseSeq(h, Ids(h)[..n]), ReleaseSeq(h[1..], Ids(h[1..])[..n - 1]);
            if h[0].count == 1 then all == rest
            else
              && (all.Some? <==> OnesFirst(h, n))
              && (all.Some? ==> rest.Some? && all.value == [Hold(h[0].id, h[0].count - 1)] + rest.value)
  {
    ReleaseHead(h, n);
    if h[0].count > 1 { ReleaseBehindHead(h, n); }
  }

  lemma {:induction false} OnesFirstTail(h: seq<Hold>, n: nat)
    requires 0 < n <= |h|
    ensures OnesFirst(h, n) ==> OnesFirst(h[1..], n - 1)
    ensures h[0].count == 1 && OnesFirst(h[1..], n - 1) ==> OnesFirst(h, n)
  {
    assert forall i :: 0 < i < |h| ==> h[i] == h[1..][i - 1];
  }

  lemma {:induction false} OneFewerTail(h: seq<Hold>, n: nat)
    requires 0 < n <= |h|
    ensures OneFewer(h, n) ==
            if h[0].count > 1 then [Hold(h[0].id, h[0].count - 1)] + OneFewer(h[1..], n - 1) else OneFewer(h[1..], n - 1)
  {
  }

  /** Unlocking the first `n` entries of a list, head first, reaches its end exactly when
      no entry locked once stands behind one locked more often; it then takes one
      lock off each. */
  lemma {:induction false} ReleaseLeading(h: seq<Hold>, n: nat)
    requires Ordered(h) && n <= |h|
    ensures var after := ReleaseSeq(h, Ids(h)[..n]);
            && (after.Some? <==> OnesFirst(h, n))
            && (after.Some? ==> after.value == OneFewer(h, n))
    decreases n
  {
    if n == 0 {
      assert Ids(h)[..n] == [];
    } else {
      ReleaseFirst(h, n);
      OnesFirstTail(h, n);
      OneFewerTail(h, n);
      ReleaseLeading(h[1..], n - 1);
    }
  }

  lemma {:induction false} DecrementHeadOnly(h: seq<Hold>)
    requires Ordered(h) && h != [] && h[0].count > 1
    ensures Decrement(h, h[0].id) == [Hold(h[0].id, h[0].count - 1)] + h[1..]
  {
    DecrementAt(h, h[0].id);
    forall i | 0 < i < |h|
      ensures h[i].id != h[0].id
    {
      assert Before(h[i].id, h[0].id);
    }
  }

  /** `MultiUnlock` on a container it accepted: it runs to its end exactly when the
      counts of the group are ones first; it then takes one lock off each member. */
  lemma {:induction false} MultiUnlockExact(h: seq<Hold>, c: seq<Option<Id>>)
    requires Ordered(h) && Match(h, c) == Success
    ensures AllPresent(c) && |c| <= |h|
    ensures var after := ReleaseSeq(h, Reverse(SortByAddress(Values(c))));
            && (after.Some? <==> OnesFirst(h, |c|))
            && (after.Some? ==> after.value == OneFewer(h, |c|))
  {
    UnlockOrderIsListOrder(h, c);
    ReleaseLeading(h, |c|);
  }

  // ----- unlocking undoes locking -----

  lemma {:induction false} OneFewerOnce(ids: seq<Id>, base: seq<Hold>)
    ensures OneFewer(Once(ids) + base, |ids|) == base
  {
    var h := Once(ids) + base;
    if ids != [] {
      assert h[1..] == Once(ids[1..]) + base;
      OneFewerOnce(ids[1..], base);
    } else {
      assert h == base;
    }
  }

  /** The list after a group was locked is ordered. */
  lemma {:induction false} GroupOrdered(h: seq<Hold>, up: seq<Id>, level: nat)
    requires Ordered(h) && Ascending(up) && level < CurrentLevel(h)
    requires forall i :: 0 <= i < |up| ==> up[i].level == level
    ensures Ordered(Once(Reverse(up)) + h)
    ensures multiset(Reverse(up)) == multiset(up)
    ensures forall i :: 0 <= i < |Reverse(up)| ==> Reverse(up)[i].level == level
  {
    ReverseAt(up);
    ReverseMultiset(up);
    var after := Once(Reverse(up)) + h;
    forall i, j | 0 <= i < j < |after|
      ensures Before(after[j].id, after[i].id)
    {
      if i < |up| <= j {
        BelowCurrentLevel(h, after[i].id);
        assert after[j] == h[j - |up|];
      }
    }
  }

  /** After a group was locked the list is ordered, and any permutation of the group
      matches it. */
  lemma {:induction false} GroupLocked(h: seq<Hold>, c: seq<Option<Id>>, d: seq<Option<Id>>)
    requires Ordered(h) && MultiLockPlan(h, c) == LockGroup && multiset(d) == multiset(c)
    ensures AllPresent(c) && |Reverse(SortByAddress(Values(c)))| == |c| == |d|
    ensures var after := Once(Reverse(SortByAddress(Values(c)))) + h;
            Ordered(after) && Match(after, d) == Success
  {
    LockGroupPlan(h, c);
    var level := c[0].value.level;
    SortedGroup(c, level);
    var up := SortByAddress(Values(c));
    GroupOrdered(h, up, level);
    var after := Once(Reverse(up)) + h;
    assert |Reverse(up)| == |multiset(Reverse(up))| == |multiset(up)| == |up|;
    assert |d| == |multiset(d)| == |multiset(c)| == |c|;
    LeadingCountOfGroup(Reverse(up), h, level);
    var g := LeadingGroup(after);
    assert Values(g) == Reverse(up);
    SameValues(c, g);
    MatchIffPermutation(after, d);
  }

  lemma {:induction false} LeadingCountOfGroup(ids: seq<Id>, h: seq<Hold>, level: nat)
    requires level < CurrentLevel(h)
    requires forall i :: 0 <= i < |ids| ==> ids[i].level == level
    ensures LeadingCount(Once(ids) + h, level) == |ids|
  {
    var g := Once(ids) + h;
    if ids != [] {
      assert g[1..] == Once(ids[1..]) + h;
      LeadingCountOfGroup(ids[1..], h, level);
    } else {
      assert g == h;
    }
  }

  /** Locking a group and then unlocking it, under any permutation of the container,
      gives back the list there was before. */
  lemma {:induction false} LockThenUnlock(h: seq<Hold>, c: seq<Option<Id>>, d: seq<Option<Id>>)
    requires Ordered(h) && MultiLockPlan(h, c) == LockGroup && multiset(d) == multiset(c)
    ensures AllPresent(c) && AllPresent(d)
    ensures var after := Once(Reverse(SortByAddress(Values(c)))) + h;
            && Match(after, d) == Success
            && ReleaseSeq(after, Reverse(SortByAddress(Values(d)))) == Some(h)
  {
    GroupLocked(h, c, d);
    var ids := Reverse(SortByAddress(Values(c)));
    MultiUnlockExact(Once(ids) + h, d);
    OneFewerOnce(ids, h);
  }

  /** Locking a group again adds one to each of the leading entries. */
  lemma {:induction false} IncrementAllAt(h: seq<Hold>, ids: seq<Id>)
    requires Distinct(ids)
    ensures |IncrementAll(h, ids)| == |h|
    ensures forall i :: 0 <= i < |h| ==>
              IncrementAll(h, ids)[i] == Hold(h[i].id, h[i].count + if h[i].id in ids then 1 else 0)
    decreases |ids|
  {
    if ids != [] {
      IncrementAt(h, ids[0]);
      IncrementAllAt(Increment(h, ids[0]), ids[1..]);
      assert ids[0] !in ids[1..];
      assert ids == [ids[0]] + ids[1..];
    }
  }

  lemma {:induction false} OneFewerUndoes(h: seq<Hold>, g: seq<Hold>, n: nat)
    requires |g| == |h| && n <= |h|
    requires forall i :: 0 <= i < |h| ==> h[i].count > 0 && g[i] == Hold(h[i].id, h[i].count + if i < n then 1 else 0)
    ensures OneFewer(g, n) == h
  {
    if n > 0 {
      OneFewerUndoes(h[1..], g[1..], n - 1);
      assert h == [h[0]] + h[1..];
    }
  }

  /** Which entries a container that matched names: the first ones. */
  lemma {:induction false} MatchedIds(h: seq<Hold>, c: seq<Option<Id>>)
    requires Ordered(h) && Match(h, c) == Success
    ensures AllPresent(c) && Distinct(Values(c)) && |c| <= |h|
    ensures forall i :: 0 <= i < |h| ==> (h[i].id in Values(c) <==> i < |c|)
  {
    MatchAccepts(h, c, 0);
    MatchIffPermutation(h, c);
    var g := LeadingGroup(h);
    SameValues(c, g);
    forall i | 0 <= i < |h|
      ensures h[i].id in Values(c) <==> i < |c|
    {
      assert h[i].id in Values(c) <==> h[i].id in multiset(Values(g));
      if i < |c| { assert Values(g)[i] == h[i].id; }
      if h[i].id in Values(g) {
        var j :| 0 <= j < |g| && Values(g)[j] == h[i].id;
        if i > j { assert Before(h[i].id, h[j].id); }
      }
    }
  }

  /** The nested case: locking again a group already held, and unlocking it, gives back
      the list there was before, whatever the counts were. */
  lemma {:induction false} RelockThenUnlock(h: seq<Hold>, c: seq<Option<Id>>, d: seq<Option<Id>>)
    requires Ordered(h) && MultiLockPlan(h, c) == Relock && multiset(d) == multiset(c)
    ensures AllPresent(c) && AllPresent(d)
    ensures var after := IncrementAll(h, Values(c));
            && Match(after, d) == Success
            && ReleaseSeq(after, Reverse(SortByAddress(Values(d)))) == Some(h)
  {
    MatchedIds(h, c);
    MatchIffPermutation(h, c);
    var after := IncrementAll(h, Values(c));
    IncrementAllAt(h, Values(c));
    IncrementAllKeeps(h, Values(c));
    LeadingCountOfIds(h, after, CurrentLevel(h));
    assert CurrentLevel(after) == CurrentLevel(h) by { assert Ids(after) == Ids(h); }
    assert LeadingGroup(after) == LeadingGroup(h);
    MatchIffPermutation(after, d);
    MultiUnlockExact(after, d);
    assert |d| == |multiset(d)| == |multiset(c)| == |c|;
    OneFewerUndoes(h, after, |c|);
  }

  lemma {:induction false} LeadingCountOfIds(h: seq<Hold>, g: seq<Hold>, level: nat)
    requires Ids(h) == Ids(g)
    ensures LeadingCount(h, level) == LeadingCount(g, level)
  {
    assert |h| == |Ids(h)| == |Ids(g)| == |g|;
    if h != [] {
      assert Ids(h)[0] == Ids(g)[0];
      forall i | 0 <= i < |h[1..]|
        ensures h[1..][i].id == g[1..][i].id
      {
        assert Ids(h)[i + 1] == Ids(g)[i + 1];
      }
      assert Ids(h[1..]) == Ids(g[1..]);
      LeadingCountOfIds(h[1..], g[1..], level);
    }
  }

  // ----- locking a group is all or nothing -----

  /** The steps a thread makes inside a call, as opposed to making a new call. */
  predicate Inside(a: Action) {
    a.Granted? || a.GiveUp? || a.UndoOne? || a.UnlockOne?
  }

  /** Where `MultiLock` on `order`, called with list `base`, can be. */
  predicate GroupProgress(th: Thread, base: seq<Hold>, order: seq<Id>) {
    match th.phase
    case Running => th.held == base || th.held == Once(Reverse(order)) + base
    case GroupLocking(b, done, todo) => b == base && Reverse(done) + todo == order
    case Undoing(b, _) => b == base
    case _ => false
  }

  lemma {:induction false} ReverseOver<T>(x: T, s: seq<T>, rest: seq<T>)
    ensures Reverse([x] + s) + rest == Reverse(s) + ([x] + rest)
  {
    assert ([x] + s)[1..] == s;
  }

  lemma {:induction false} OncePush(id: Id, ids: seq<Id>, base: seq<Hold>)
    ensures [Hold(id, 1)] + (Once(ids) + base) == Once([id] + ids) + base
  {
  }

  lemma {:induction false} GroupGrant(held: seq<Hold>, base: seq<Hold>, order: seq<Id>, done: seq<Id>, todo: seq<Id>)
    requires todo != [] && held == Once(done) + base
    requires Reverse(done) + todo == order
    ensures Reverse([todo[0]] + done) + todo[1..] == order
    ensures |todo| == 1 ==> [Hold(todo[0], 1)] + held == Once(Reverse(order)) + base
  {
    var next := [todo[0]] + done;
    ReverseOver(todo[0], done, todo[1..]);
    assert todo == [todo[0]] + todo[1..];
    if |todo| == 1 {
      assert order == Reverse(next);
      ReverseTwice(next);
      OncePush(todo[0], done, base);
    }
  }

  lemma {:induction false} GroupStep(s: State, t: Tid, a: Action, base: seq<Hold>, order: seq<Id>)
    requires Inv(s) && t in s.threads && Inside(a) && Step(s, t, a).Some?
    requires GroupProgress(s.threads[t], base, order)
    ensures GroupProgress(Step(s, t, a).value.threads[t], base, order)
  {
    var th := s.threads[t];
    assert ThreadInv(th);
    match th.phase
    case GroupLocking(b, done, todo) =>
      if a.Granted? { GroupGrant(th.held, base, order, done, todo); }
      if done == [] { assert th.held == base; }
    case Undoing(b, done) =>
      UndoOneRestores(th.held, b, done);
      if |done| == 1 { assert Once(done[1..]) + base == base; }
    case _ =>
  }

  lemma {:induction false} StepOfOther(s: State, u: Tid, a: Action, t: Tid)
    requires t in s.threads && u != t && Step(s, u, a).Some?
    ensures t in Step(s, u, a).value.threads && Step(s, u, a).value.threads[t] == s.threads[t]
  {
  }

  lemma {:induction false} GroupRun(s: State, t: Tid, steps: seq<(Tid, Action)>, base: seq<Hold>, order: seq<Id>)
    requires Inv(s) && t in s.threads && Run(s, steps).Some?
    requires GroupProgress(s.threads[t], base, order)
    requires forall i :: 0 <= i < |steps| && steps[i].0 == t ==> Inside(steps[i].1)
    ensures t in Run(s, steps).value.threads
    ensures GroupProgress(Run(s, steps).value.threads[t], base, order)
    decreases |steps|
  {
    if steps != [] {
      var (u, a) := steps[0];
      var next := Step(s, u, a).value;
      StepInv(s, u, a);
      if u == t { GroupStep(s, t, a, base, order); } else { StepOfOther(s, u, a, t); }
      GroupRun(next, t, steps[1..], base, order);
    }
  }

  /** A group call that passed its checks starts with nothing locked yet. */
  lemma {:induction false} GroupCallStarts(s: State, t: Tid, c: seq<Option<Id>>)
    requires Inv(s) && t in s.threads && s.threads[t].phase.Running?
    requires MultiLockPlan(s.threads[t].held, c) == LockGroup
    ensures AllPresent(c)
    ensures Step(s, t, MultiLockCall(c)).Some? && t in Step(s, t, MultiLockCall(c)).value.threads
    ensures GroupProgress(Step(s, t, MultiLockCall(c)).value.threads[t], s.threads[t].held, SortByAddress(Values(c)))
  {
    LockGroupPlan(s.threads[t].held, c);
  }

  /** `MultiLock` is all or nothing: when the call is over, however the other
      threads moved and whichever member could not be locked, the thread holds
      either exactly what it held before or the whole group on top of it. */
  lemma {:induction false} MultiLockAllOrNothing(s: State, t: Tid, c: seq<Option<Id>>, called: State,
      steps: seq<(Tid, Action)>)
    requires Inv(s) && t in s.threads && s.threads[t].phase.Running?
    requires MultiLockPlan(s.threads[t].held, c) == LockGroup
    requires Step(s, t, MultiLockCall(c)) == Some(called) && Run(called, steps).Some?
    requires forall i :: 0 <= i < |steps| && steps[i].0 == t ==> Inside(steps[i].1)
    ensures AllPresent(c)
    ensures var now := Run(called, steps).value;
            && Inv(now) && t in now.threads
            && (now.threads[t].phase.Running? ==>
                  || now.threads[t].held == s.threads[t].held
                  || now.threads[t].held == Once(Reverse(SortByAddress(Values(c)))) + s.threads[t].held)
  {
    GroupCallStarts(s, t, c);
    StepInv(s, t, MultiLockCall(c));
    GroupRun(called, t, steps, s.threads[t].held, SortByAddress(Values(c)));
    RunInv(called, steps);
  }

  // ----- unlocking a group, whatever other threads do -----

  /** Where `MultiUnlock` can be, when `goal` is the list it leads to, if it leads anywhere. */
  predicate UnlockProgress(th: Thread, goal: Option<seq<Hold>>) {
    match th.phase
    case Running => goal == Some(th.held)
    case GroupUnlocking(todo) => todo != [] && goal == ReleaseSeq(th.held, todo)
    case _ => false
  }

  lemma {:induction false} UnlockStep(s: State, t: Tid, a: Action, goal: Option<seq<Hold>>)
    requires t in s.threads && Inside(a) && Step(s, t, a).Some? && UnlockProgress(s.threads[t], goal)
    ensures t in Step(s, t, a).value.threads && UnlockProgress(Step(s, t, a).value.threads[t], goal)
  {
    var th := s.threads[t];
    if th.phase.GroupUnlocking? {
      var todo := th.phase.todo;
      if |todo| == 1 { assert ReleaseSeq(Release(th.held, todo[0]), todo[1..]) == Some(Release(th.held, todo[0])); }
    }
  }

  lemma {:induction false} UnlockRun(s: State, t: Tid, steps: seq<(Tid, Action)>, goal: Option<seq<Hold>>)
    requires t in s.threads && Run(s, steps).Some? && UnlockProgress(s.threads[t], goal)
    requires forall i :: 0 <= i < |steps| && steps[i].0 == t ==> Inside(steps[i].1)
    ensures t in Run(s, steps).value.threads && UnlockProgress(Run(s, steps).value.threads[t], goal)
    decreases |steps|
  {
    if steps != [] {
      var (u, a) := steps[0];
      if u == t { UnlockStep(s, t, a, goal); } else { StepOfOther(s, u, a, t); }
      UnlockRun(Step(s, u, a).value, t, steps[1..], goal);
    }
  }

  function UnlockOnes(t: Tid, n: nat): (steps: seq<(Tid, Action)>)
    ensures |steps| == n
  {
    if n == 0 then [] else [(t, UnlockOne)] + UnlockOnes(t, n - 1)
  }

  /** Left alone, the call ends exactly if no `UnlockThis` on the way fails its assertion. */
  lemma {:induction false} UnlockAlone(s: State, t: Tid, todo: seq<Id>)
    requires t in s.threads && todo != [] && s.threads[t].phase == GroupUnlocking(todo)
    ensures var goal := ReleaseSeq(s.threads[t].held, todo);
            var end := Run(s, UnlockOnes(t, |todo|));
            && (end.Some? <==> goal.Some?)
            && (end.Some? ==> t in end.value.threads && end.value.threads[t] == Thread(goal.value, Running))
    decreases |todo|
  {
    var held := s.threads[t].held;
    var steps := UnlockOnes(t, |todo|);
    if MayRelease(held, todo[0]) {
      var next := Step(s, t, UnlockOne).value;
      assert steps[1..] == UnlockOnes(t, |todo| - 1);
      if |todo| == 1 {
        assert Run(next, []) == Some(next) && ReleaseSeq(Release(held, todo[0]), todo[1..]) == Some(next.threads[t].held);
      } else {
        UnlockAlone(next, t, todo[1..]);
      }
    }
  }

  /** `MultiUnlock` of an accepted container, however the other threads move. If it is over,
      members locked once came first and each member has one lock fewer; and wherever it still
      is, it can end exactly if members locked once came first. */
  lemma {:induction false} MultiUnlockUnderInterleaving(s: State, t: Tid, c: seq<Option<Id>>, called: State,
      steps: seq<(Tid, Action)>)
    requires Inv(s) && t in s.threads && s.threads[t].phase.Running? && Match(s.threads[t].held, c) == Success
    requires Step(s, t, MultiUnlockCall(c)) == Some(called) && Run(called, steps).Some?
    requires forall i :: 0 <= i < |steps| && steps[i].0 == t ==> Inside(steps[i].1)
    ensures |c| <= |s.threads[t].held| && t in Run(called, steps).value.threads
    ensures var h, now := s.threads[t].held, Run(called, steps).value;
            match now.threads[t].phase {
              case Running => OnesFirst(h, |c|) && now.threads[t].held == OneFewer(h, |c|)
              case GroupUnlocking(todo) => Run(now, UnlockOnes(t, |todo|)).Some? <==> OnesFirst(h, |c|)
              case _ => false
            }
  {
    var h := s.threads[t].held;
    assert ThreadInv(s.threads[t]);
    MultiUnlockExact(h, c);
    MatchAccepts(h, c, 0);
    UnlockOrderIsListOrder(h, c);
    var goal := ReleaseSeq(h, Reverse(SortByAddress(Values(c))));
    UnlockRun(called, t, steps, goal);
    var now := Run(called, steps).value;
    if now.threads[t].phase.GroupUnlocking? {
      UnlockAlone(now, t, now.threads[t].phase.todo);
    }
  }

  // ----- an accepted group whose unlocking fails -----

  /** Two mutexes locked as a group, and the second of them once more. */
  const FIRST := Id(1, 10)
  const SECOND := Id(1, 20)
  const PAIR := [Some(FIRST), Some(SECOND)]

  function ReentryRun(): seq<(Tid, Action)> {
    [(0, MultiLockCall(PAIR)), (0, Granted), (0, Granted), (0, LockCall(SECOND)), (0, MultiUnlockCall(PAIR)), (0, UnlockOne)]
  }

  /** The list at the failing call: accepted, but the member locked once is not first. */
  lemma {:induction false} ReentryList()
    ensures var h := [Hold(SECOND, 2), Hold(FIRST, 1)];
            && Match(h, PAIR) == Success && !OnesFirst(h, 2)
            && Release(h, SECOND) == [Hold(SECOND, 1), Hold(FIRST, 1)]
            && ReleaseSeq(h, [SECOND, FIRST]) == None
  {
    var h := [Hold(SECOND, 2), Hold(FIRST, 1)];
    assert h[0].id == SECOND && h[1].id == FIRST && h[1..] == [Hold(FIRST, 1)];
    assert LeadingCount(h, 1) == 1 + LeadingCount(h[1..], 1) && LeadingCount(h[1..], 1) == 1 + LeadingCount([], 1);
    assert PAIR[0 + 1..] == [Some(SECOND)] && PAIR[1 + 1..] == [];
    assert MatchFrom(h, PAIR, 2) == Success;
    assert MatchFrom(h, PAIR, 1) == MatchFrom(h, PAIR, 2);
    assert MatchFrom(h, PAIR, 0) == MatchFrom(h, PAIR, 1);
    assert h[0].count == 2 && h[1].count == 1;
    assert Decrement(h, SECOND) == [Hold(SECOND, 1)] + Decrement(h[1..], SECOND);
    assert Decrement(h[1..], SECOND) == h[1..] + Decrement([], SECOND);
    var g := [Hold(SECOND, 1), Hold(FIRST, 1)];
    assert g[1..] == [Hold(FIRST, 1)] && CountOf(g, FIRST) == CountOf(g[1..], FIRST) == 1;
    assert [SECOND, FIRST][1..] == [FIRST];
  }

  /** Thread 0 alone, with this list. */
  function Lone(held: seq<Hold>, phase: Phase, owner: map<Id, Tid>): State {
    State(map[0 := Thread(held, phase)], owner)
  }

  lemma {:induction false} LonePut(held: seq<Hold>, phase: Phase, th: Thread)
    ensures map[0 := Thread(held, phase)][0 := th] == map[0 := th]
  {
  }

  /** The pair is locked as a group. */
  lemma {:induction false} PairLocked()
    ensures Step(Lone([], Running, map[]), 0, MultiLockCall(PAIR)) ==
            Some(Lone([], GroupLocking([], [], [FIRST, SECOND]), map[]))
    ensures Step(Lone([], GroupLocking([], [], [FIRST, SECOND]), map[]), 0, Granted) ==
            Some(Lone([Hold(FIRST, 1)], GroupLocking([], [FIRST], [SECOND]), map[FIRST := 0]))
    ensures Step(Lone([Hold(FIRST, 1)], GroupLocking([], [FIRST], [SECOND]), map[FIRST := 0]), 0, Granted) ==
            Some(Lone([Hold(SECOND, 1), Hold(FIRST, 1)], Running, map[FIRST := 0, SECOND := 0]))
  {
    assert PAIR[1..] == [Some(SECOND)];
    assert ScanFrom(PAIR, 1, 2) == Success && ScanFrom(PAIR, 1, 1) == Success by { assert PAIR[2..] == []; }
    PairSorted();
    LonePut([], Running, Thread([], GroupLocking([], [], [FIRST, SECOND])));
    LonePut([], GroupLocking([], [], [FIRST, SECOND]), Thread([Hold(FIRST, 1)], GroupLocking([], [FIRST], [SECOND])));
    LonePut([Hold(FIRST, 1)], GroupLocking([], [FIRST], [SECOND]), Thread([Hold(SECOND, 1), Hold(FIRST, 1)], Running));
    assert map[][FIRST := 0] == map[FIRST := 0];
    assert [FIRST, SECOND][1..] == [SECOND] && [Hold(FIRST, 1)] + [] == [Hold(FIRST, 1)] && [FIRST] + [] == [FIRST];
    assert [Hold(SECOND, 1)] + [Hold(FIRST, 1)] == [Hold(SECOND, 1), Hold(FIRST, 1)];
  }

  lemma {:induction false} PairSorted()
    ensures SortByAddress(Values(PAIR)) == [FIRST, SECOND] && Reverse([FIRST, SECOND]) == [SECOND, FIRST]
  {
    var ids := Values(PAIR);
    assert ids == [FIRST, SECOND] && ids[1..] == [SECOND] && [SECOND][1..] == [];
    assert SortByAddress([SECOND]) == [SECOND];
    assert Reverse([SECOND]) == [SECOND];
  }

  /** The second one is locked again. */
  lemma {:induction false} PairReentered(owner: map<Id, Tid>)
    ensures Step(Lone([Hold(SECOND, 1), Hold(FIRST, 1)], Running, owner), 0, LockCall(SECOND)) ==
            Some(Lone([Hold(SECOND, 2), Hold(FIRST, 1)], Running, owner))
  {
    var h := [Hold(SECOND, 1), Hold(FIRST, 1)];
    assert h[0].id == SECOND && h[1..] == [Hold(FIRST, 1)] && h[1..][1..] == [];
    assert Increment(h[1..], SECOND) == [Hold(FIRST, 1)];
    assert Increment(h, SECOND) == [Hold(SECOND, 2), Hold(FIRST, 1)];
    LonePut(h, Running, Thread([Hold(SECOND, 2), Hold(FIRST, 1)], Running));
  }

  /** Unlocking the group is accepted. */
  lemma {:induction false} PairAccepted(owner: map<Id, Tid>)
    ensures Step(Lone([Hold(SECOND, 2), Hold(FIRST, 1)], Running, owner), 0, MultiUnlockCall(PAIR)) ==
            Some(Lone([Hold(SECOND, 2), Hold(FIRST, 1)], GroupUnlocking([SECOND, FIRST]), owner))
  {
    PairSorted();
    ReentryList();
    var g := [Hold(SECOND, 2), Hold(FIRST, 1)];
    LonePut(g, Running, Thread(g, GroupUnlocking([SECOND, FIRST])));
  }

  /** Its first step passes and its second does not. */
  lemma {:induction false} PairUnlocked(owner: map<Id, Tid>)
    ensures Step(Lone([Hold(SECOND, 2), Hold(FIRST, 1)], GroupUnlocking([SECOND, FIRST]), owner), 0, UnlockOne) ==
            Some(Lone([Hold(SECOND, 1), Hold(FIRST, 1)], GroupUnlocking([FIRST]), owner))
    ensures Step(Lone([Hold(SECOND, 1), Hold(FIRST, 1)], GroupUnlocking([FIRST]), owner), 0, UnlockOne) == None
  {
    ReentryList();
    var h := [Hold(SECOND, 1), Hold(FIRST, 1)];
    assert h[1..] == [Hold(FIRST, 1)] && CountOf(h, FIRST) == CountOf(h[1..], FIRST);
    assert [SECOND, FIRST][1..] == [FIRST];
    LonePut([Hold(SECOND, 2), Hold(FIRST, 1)], GroupUnlocking([SECOND, FIRST]), Thread(h, GroupUnlocking([FIRST])));
  }

  /** A thread gets both, locks the second again, and unlocks the group: every call is
      accepted, the first `UnlockThis` passes, and the second, on a mutex locked once that is
      not the head, fails its assertion. */
  lemma {:induction false} AssertionFails(s: State)
    requires s == Lone([], Running, map[])
    ensures Initial(s)
    ensures Run(s, ReentryRun()) ==
            Some(Lone([Hold(SECOND, 1), Hold(FIRST, 1)], GroupUnlocking([FIRST]), map[FIRST := 0, SECOND := 0]))
    ensures Step(Run(s, ReentryRun()).value, 0, UnlockOne) == None
  {
    var owner := map[FIRST := 0, SECOND := 0];
    PairLocked();
    PairReentered(owner);
    PairAccepted(owner);
    PairUnlocked(owner);
    var r := ReentryRun();
    assert Run(Lone([Hold(SECOND, 2), Hold(FIRST, 1)], Running, owner), r[4..]) ==
           Run(Lone([Hold(SECOND, 2), Hold(FIRST, 1)], GroupUnlocking([SECOND, FIRST]), owner), r[4..][1..]);
    assert Run(Lone([Hold(FIRST, 1)], GroupLocking([], [FIRST], [SECOND]), map[FIRST := 0]), r[2..]) ==
           Run(Lone([Hold(SECOND, 1), Hold(FIRST, 1)], Running, owner), r[2..][1..]);
    assert r[4..][1..] == [(0, UnlockOne)] && r[2..][1..] == [r[3]] + r[4..] && r[1..] == [r[1]] + r[2..];
  }
}
