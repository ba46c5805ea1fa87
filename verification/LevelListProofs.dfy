/** Properties of the list functions: what every check keeps, and what the two
    container checks decide. */
module LevelListProofs {
  import opened Wrappers
  import opened LevelLists

  /** The mutexes of a list, head first. */
  function Ids(h: seq<Hold>): (ids: seq<Id>)
    ensures |ids| == |h| && forall i :: 0 <= i < |h| ==> ids[i] == h[i].id
  {
    seq(|h|, i requires 0 <= i < |h| => h[i].id)
  }

  lemma {:induction false} IncrementAt(h: seq<Hold>, id: Id)
    ensures |Increment(h, id)| == |h|
    ensures forall i :: 0 <= i < |h| ==>
      Increment(h, id)[i] == Hold(h[i].id, if h[i].id == id then h[i].count + 1 else h[i].count)
  {
    if h != [] {
      IncrementAt(h[1..], id);
    }
  }

  lemma {:induction false} DecrementAt(h: seq<Hold>, id: Id)
    ensures |Decrement(h, id)| == |h|
    ensures forall i :: 0 <= i < |h| ==>
      Decrement(h, id)[i] ==
      Hold(h[i].id, if h[i].id == id && h[i].count > 1 then h[i].count - 1 else h[i].count)
  {
    if h != [] {
      DecrementAt(h[1..], id);
    }
  }

  /** The count of an entry is found wherever the entry is. */
  lemma {:induction false} CountOfEntry(h: seq<Hold>, i: nat)
    requires Ordered(h) && i < |h|
    ensures CountOf(h, h[i].id) == h[i].count
  {
    if i > 0 {
      assert Before(h[i].id, h[0].id);
      CountOfEntry(h[1..], i - 1);
    }
  }

  lemma {:induction false} CountOfAbsent(h: seq<Hold>, id: Id)
    requires !Holds(h, id)
    ensures CountOf(h, id) == 0
  {
    if h != [] {
      assert h[0].id != id;
      assert forall i :: 0 <= i < |h[1..]| ==> h[1..][i] == h[i + 1];
      CountOfAbsent(h[1..], id);
    }
  }

  /** Locking a mutex below the current level keeps the list ordered. */
  lemma {:induction false} PushOrdered(h: seq<Hold>, id: Id)
    requires Ordered(h) && id.level < UNLOCKED_LEVEL
    requires forall i :: 0 <= i < |h| ==> Before(h[i].id, id)
    ensures Ordered([Hold(id, 1)] + h)
  {
  }

  /** A thread at a higher level holds only mutexes that come earlier. */
  lemma {:induction false} BelowCurrentLevel(h: seq<Hold>, id: Id)
    requires Ordered(h) && id.level < CurrentLevel(h)
    ensures forall i :: 0 <= i < |h| ==> Before(h[i].id, id)
  {
    forall i | 0 <= i < |h|
      ensures Before(h[i].id, id)
    {
      if i > 0 {
        assert Before(h[i].id, h[0].id);
      }
    }
  }

  /** `PreLockCheck` never reorders the list and never changes which mutexes are in it; a
      success counts up the one mutex. */
  lemma {:induction false} PreLockKeepsMutexes(h: seq<Hold>, id: Id, forTryLock: bool, isLocked: bool)
    requires Ordered(h)
    ensures var (r, after) := LockVerdict(h, id, forTryLock, isLocked);
            && Ordered(after) && Ids(after) == Ids(h)
            && (r == NoProblem ==> after == h && id.level < CurrentLevel(h))
            && (r == Success <==> Holds(h, id) && CurrentLevel(h) == id.level)
            && (r != Success ==> after == h)
            && forall i :: 0 <= i < |h| ==>
                 after[i].count == h[i].count + if r == Success && h[i].id == id then 1 else 0
  {
    IncrementAt(h, id);
    if i :| 0 <= i < |h| && h[i].id == id {
      if i > 0 { assert Before(h[i].id, h[0].id); }
    }
  }

  lemma {:induction false} DecrementKeepsMutexes(h: seq<Hold>, id: Id)
    requires Ordered(h)
    ensures Ordered(Decrement(h, id)) && Ids(Decrement(h, id)) == Ids(h)
  {
    DecrementAt(h, id);
  }

  /** Nor does `PreUnlockCheck`; a success counts down the one mutex. */
  lemma {:induction false} PreUnlockKeepsMutexes(h: seq<Hold>, id: Id, lockCount: nat)
    requires Ordered(h)
    ensures var (r, after) := UnlockVerdict(h, id, lockCount);
            && Ordered(after) && Ids(after) == Ids(h)
            && (r == NoProblem ==> after == h && Holds(h, id) && lockCount == 1)
            && (r == Success ==> Holds(h, id) && lockCount > 1)
            && forall i :: 0 <= i < |h| ==>
                 after[i].count == h[i].count - if r == Success && h[i].id == id && h[i].count > 1 then 1 else 0
  {
    DecrementAt(h, id);
    DecrementKeepsMutexes(h, id);
  }

  /** Releasing one lock keeps order; the mutex leaves the list exactly when
      its count was 1, and nothing else leaves. */
  lemma {:induction false} ReleaseKeepsOrder(h: seq<Hold>, id: Id)
    requires Ordered(h) && MayRelease(h, id)
    ensures Ordered(Release(h, id))
    ensures CountOf(h, id) > 1 ==> Ids(Release(h, id)) == Ids(h)
    ensures CountOf(h, id) <= 1 ==> [id] + Ids(Release(h, id)) == Ids(h)
  {
    if CountOf(h, id) <= 1 {
      assert Ids(h) == [id] + Ids(h[1..]);
    } else {
      DecrementKeepsMutexes(h, id);
    }
  }

  // ----- sorting -----

  predicate AscendingAddresses(s: seq<Id>) {
    forall i, j :: 0 <= i < j < |s| ==> s[i].address <= s[j].address
  }

  lemma {:induction false} InsertElements(id: Id, s: seq<Id>)
    ensures multiset(InsertByAddress(id, s)) == multiset(s) + multiset{id}
  {
    if s != [] && id.address > s[0].address {
      assert s == [s[0]] + s[1..];
      InsertElements(id, s[1..]);
    }
  }

  lemma {:induction false} InsertSorted(id: Id, s: seq<Id>)
    requires AscendingAddresses(s)
    ensures AscendingAddresses(InsertByAddress(id, s))
  {
    if s != [] && id.address > s[0].address {
      InsertSorted(id, s[1..]);
      var r := InsertByAddress(id, s[1..]);
      forall i | 0 <= i < |r|
        ensures s[0].address <= r[i].address
      {
        InsertElements(id, s[1..]);
        assert r[i] in multiset(r);
        assert r[i] == id || r[i] in s[1..];
      }
    }
  }

  lemma {:induction false} SortSorted(s: seq<Id>)
    ensures AscendingAddresses(SortByAddress(s))
    ensures multiset(SortByAddress(s)) == multiset(s)
  {
    if s != [] {
      assert s == [s[0]] + s[1..];
      SortSorted(s[1..]);
      InsertSorted(s[0], SortByAddress(s[1..]));
      InsertElements(s[0], SortByAddress(s[1..]));
    }
  }

  /** A group of one level whose members are taken in this sequence is taken in
      the order `Before`. */
  predicate Ascending(s: seq<Id>) {
    forall i, j :: 0 <= i < j < |s| ==> Before(s[i], s[j])
  }

  predicate Distinct<T(==)>(s: seq<T>) {
    forall i, j :: 0 <= i < j < |s| ==> s[i] != s[j]
  }

  lemma {:induction false} DistinctByMultiset<T>(s: seq<T>)
    ensures Distinct(s) <==> forall x :: x in s ==> multiset(s)[x] == 1
  {
    if s != [] {
      assert s == [s[0]] + s[1..];
      DistinctByMultiset(s[1..]);
      if Distinct(s) {
        forall x | x in s
          ensures multiset(s)[x] == 1
        {
          if x == s[0] { assert x !in s[1..]; } else { assert x in s[1..]; }
        }
      }
      if forall x :: x in s ==> multiset(s)[x] == 1 {
        assert multiset(s)[s[0]] == multiset(s[1..])[s[0]] + 1;
        assert s[0] !in s[1..];
        forall x | x in s[1..]
          ensures multiset(s[1..])[x] == 1
        {
          assert x in s;
        }
        assert Distinct(s[1..]);
        forall i, j | 0 <= i < j < |s|
          ensures s[i] != s[j]
        {
          assert s[j] == s[1..][j - 1];
          if i > 0 { assert s[i] == s[1..][i - 1]; }
        }
      }
    }
  }

  lemma {:induction false} SortAscending(s: seq<Id>, level: nat)
    requires Distinct(s)
    requires forall i :: 0 <= i < |s| ==> s[i].level == level
    ensures Ascending(SortByAddress(s)) && |SortByAddress(s)| == |s|
    ensures forall i :: 0 <= i < |SortByAddress(s)| ==> SortByAddress(s)[i].level == level && SortByAddress(s)[i] in s
  {
    var t := SortByAddress(s);
    SortSorted(s);
    assert |t| == |multiset(t)| == |multiset(s)| == |s|;
    DistinctByMultiset(s);
    forall x | x in t
      ensures x in s && multiset(t)[x] == 1
    {
      assert x in multiset(t);
    }
    DistinctByMultiset(t);
    forall i | 0 <= i < |t|
      ensures t[i] in s && t[i].level == level
    {
      assert t[i] in t;
    }
    forall i, j | 0 <= i < j < |t|
      ensures Before(t[i], t[j])
    {
      assert t[i] != t[j] && t[i].address <= t[j].address;
    }
  }

  /** What sorting a duplicate-free group of one level yields. */
  lemma {:induction false} SortedGroup(c: seq<Option<Id>>, level: nat)
    requires AllPresent(c) && Distinct(c)
    requires forall i :: 0 <= i < |c| ==> c[i].value.level == level
    ensures var up := SortByAddress(Values(c));
            && Ascending(up) && |up| == |c| && multiset(up) == multiset(Values(c))
            && forall i :: 0 <= i < |up| ==> up[i].level == level
  {
    SortAscending(Values(c), level);
    SortSorted(Values(c));
  }

  // ----- what the container checks decide -----

  lemma {:induction false} ScanAccepts(c: seq<Option<Id>>, level: nat, i: nat)
    requires i <= |c|
    ensures ScanFrom(c, level, i) == Success <==>
            && (forall k :: i <= k < |c| ==> c[k].Some? && c[k].value.level == level)
            && (forall k, l :: i <= k < l < |c| ==> c[k] != c[l])
    decreases |c| - i
  {
    if i < |c| {
      ScanAccepts(c, level, i + 1);
      assert c[i] in c[i + 1..] <==> exists l :: i + 1 <= l < |c| && c[l] == c[i] by {
        if l :| i + 1 <= l < |c| && c[l] == c[i] { assert c[i + 1..][l - i - 1] == c[i]; }
      }
    }
  }

  /** A group that `MultiLock` goes on to lock has no null, no duplicate, one level, and
      that level is below the current one. */
  lemma {:induction false} LockGroupPlan(h: seq<Hold>, c: seq<Option<Id>>)
    ensures MultiLockPlan(h, c) == LockGroup <==>
            && c != [] && AllPresent(c) && Distinct(c)
            && (forall i :: 0 <= i < |c| ==> c[i].value.level == c[0].value.level)
            && c[0].value.level < CurrentLevel(h)
  {
    if c != [] && c[0].Some? {
      ScanAccepts(c, c[0].value.level, 1);
      assert c[0] in c[1..] <==> exists l :: 1 <= l < |c| && c[l] == c[0] by {
        if l :| 1 <= l < |c| && c[l] == c[0] { assert c[1..][l - 1] == c[0]; }
      }
    }
  }

  lemma {:induction false} LeadingCountIsSegment(h: seq<Hold>, level: nat)
    ensures LeadingCount(h, level) <= |h|
    ensures forall i :: 0 <= i < LeadingCount(h, level) ==> h[i].id.level == level
    ensures LeadingCount(h, level) < |h| ==> h[LeadingCount(h, level)].id.level != level
  {
    if h != [] && h[0].id.level == level {
      LeadingCountIsSegment(h[1..], level);
    }
  }

  /** Success of the matching loop, spelled out. */
  lemma {:induction false} MatchAccepts(h: seq<Hold>, c: seq<Option<Id>>, i: nat)
    requires i <= |c|
    ensures MatchFrom(h, c, i) == Success <==>
            && (forall k :: i <= k < |c| ==>
                  && c[k].Some? && c[k].value.level == CurrentLevel(h)
                  && RecentlyHeld(h, c[k].value, |c|))
            && (forall k, l :: i <= k < l < |c| ==> c[k] != c[l])
            && |c| == LeadingCount(h, CurrentLevel(h))
    decreases |c| - i
  {
    if i < |c| {
      MatchAccepts(h, c, i + 1);
      assert c[i] in c[i + 1..] <==> exists l :: i + 1 <= l < |c| && c[l] == c[i] by {
        if l :| i + 1 <= l < |c| && c[l] == c[i] { assert c[i + 1..][l - i - 1] == c[i]; }
      }
    }
  }

  /** Pigeonhole: a duplicate-free sequence drawn from an equally long one is a permutation of it. */
  lemma {:induction false} DistinctSubsetPermutes<T>(a: seq<T>, b: seq<T>)
    requires Distinct(a) && |a| == |b|
    requires forall i :: 0 <= i < |a| ==> a[i] in b
    ensures multiset(a) == multiset(b)
  {
    if a != [] {
      var k :| 0 <= k < |b| && b[k] == a[0];
      var rest := b[..k] + b[k + 1..];
      assert b == b[..k] + [b[k]] + b[k + 1..];
      assert a == [a[0]] + a[1..];
      forall i | 0 <= i < |a[1..]|
        ensures a[1..][i] in rest
      {
        var j :| 0 <= j < |b| && b[j] == a[i + 1];
        assert a[i + 1] != a[0];
        if j < k { assert rest[j] == a[i + 1]; } else { assert rest[j - 1] == a[i + 1]; }
      }
      DistinctSubsetPermutes(a[1..], rest);
      assert multiset(b) == multiset(rest) + multiset{b[k]};
    }
  }

  /** The pointers of a sequence, as container entries. */
  function Wrap(ids: seq<Id>): (c: seq<Option<Id>>)
    ensures |c| == |ids| && forall i :: 0 <= i < |c| ==> c[i] == Some(ids[i])
  {
    seq(|ids|, i requires 0 <= i < |ids| => Some(ids[i]))
  }

  /** The leading entries of a list at its current level, as container entries. */
  function LeadingGroup(h: seq<Hold>): (g: seq<Option<Id>>)
    ensures |g| == LeadingCount(h, CurrentLevel(h))
    ensures |g| <= |h| && forall i :: 0 <= i < |g| ==> g[i] == Some(h[i].id)
  {
    LeadingCountIsSegment(h, CurrentLevel(h));
    Wrap(Ids(h)[..LeadingCount(h, CurrentLevel(h))])
  }

  /** `DoMutexesMatchContainer` succeeds exactly when the container is a non-empty
      permutation of the leading part of the list at the current level. */
  lemma {:induction false} MatchIffPermutation(h: seq<Hold>, c: seq<Option<Id>>)
    requires Ordered(h)
    ensures Match(h, c) == Success <==> c != [] && multiset(c) == multiset(LeadingGroup(h))
  {
    var g := LeadingGroup(h);
    LeadingCountIsSegment(h, CurrentLevel(h));
    if c != [] {
      MatchAccepts(h, c, 0);
    }
    if Match(h, c) == Success {
      forall i | 0 <= i < |c|
        ensures c[i] in g
      {
        var k :| 0 <= k < |h| && k < |c| && h[k].id == c[i].value;
        assert g[k] == c[i];
      }
      DistinctSubsetPermutes(c, g);
    }
    if c != [] && multiset(c) == multiset(g) {
      assert |c| == |multiset(c)| == |multiset(g)| == |g|;
      assert Distinct(g) by {
        forall i, j | 0 <= i < j < |g|
          ensures g[i] != g[j]
        {
          assert Before(h[j].id, h[i].id);
        }
      }
      DistinctByMultiset(g);
      forall x | x in c
        ensures x in g && multiset(c)[x] == 1
      {
        assert x in multiset(c);
      }
      DistinctByMultiset(c);
      forall i | 0 <= i < |c|
        ensures c[i].Some? && c[i].value.level == CurrentLevel(h) && RecentlyHeld(h, c[i].value, |c|)
      {
        assert c[i] in c;
        var k :| 0 <= k < |g| && g[k] == c[i];
        assert h[k].id == c[i].value;
      }
    }
  }
}
