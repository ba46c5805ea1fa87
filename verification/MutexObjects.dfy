/**
  `LevelMutexInfo` objects and the thread-specific list that links them.
 */
module MutexObjects {
  import opened Wrappers
  import opened LevelLists

  /** What a policy mutex can answer: `Success`, or an error. */
  type Answer = e: MutexError | e != NoProblem witness Success

  /** A mutex. `owner` is the thread the wrapped policy mutex is granted to; `lockAnswer` is what
      that one answers when it is locked while no thread has it, and `unlockAnswer` what it
      answers when it is unlocked. The answers are up to the environment, which may change them
      from call to call. */
  class Mutex {
    const level: nat
    const address: nat
    var count: nat
    var previous: Mutex?
    var owner: object?
    var lockAnswer: Answer
    var unlockAnswer: Answer

    constructor (level: nat, address: nat)
      requires level < UNLOCKED_LEVEL
      ensures this.level == level && this.address == address
      ensures count == 0 && previous == null && owner == null
    {
      this.level, this.address := level, address;
      count, previous, owner := 0, null, null;
      lockAnswer, unlockAnswer := Success, Success;
    }

    function Ident(): Id {
      Id(level, address)
    }
  }

  /** Following `previous` from `start` visits exactly `list` and ends. */
  ghost predicate Linked(start: Mutex?, list: seq<Mutex>)
    reads list`previous
  {
    if list == [] then start == null
    else start == list[0] && Linked(list[0].previous, list[1..])
  }

  ghost predicate LevelsRise(list: seq<Mutex>) {
    forall i :: 0 < i < |list| ==> list[i - 1].level <= list[i].level
  }

  // ----- walking an arbitrary pointer graph -----

  ghost predicate Closed(start: Mutex?, all: set<Mutex>)
    reads all
  {
    && (start != null ==> start in all)
    && forall m :: m in all && m.previous != null ==> m.previous in all
  }

  /** Where `k` steps along `previous` lead; null stays null. */
  ghost function Walk(start: Mutex?, all: set<Mutex>, k: nat): (m: Mutex?)
    requires Closed(start, all)
    reads all
    ensures m != null ==> m in all
  {
    if k == 0 then start
    else
      var before := Walk(start, all, k - 1);
      if before == null then null else before.previous
  }

  lemma {:induction false} WalkNullStays(start: Mutex?, all: set<Mutex>, j: nat, k: nat)
    requires Closed(start, all) && j <= k && Walk(start, all, j) == null
    ensures Walk(start, all, k) == null
    decreases k
  {
    if j < k { WalkNullStays(start, all, j, k - 1); }
  }

  /** Equal points of a walk stay equal. */
  lemma {:induction false} WalkRepeats(start: Mutex?, all: set<Mutex>, i: nat, j: nat, d: nat)
    requires Closed(start, all) && Walk(start, all, i) == Walk(start, all, j)
    ensures Walk(start, all, i + d) == Walk(start, all, j + d)
    decreases d
  {
    if d > 0 {
      WalkRepeats(start, all, i, j, d - 1);
      assert i + d - 1 == i + (d - 1) && j + d - 1 == j + (d - 1);
    }
  }

  lemma {:induction false} WalkPeriod(start: Mutex?, all: set<Mutex>, i: nat, period: nat, times: nat)
    requires Closed(start, all) && Walk(start, all, i) == Walk(start, all, i + period)
    ensures Walk(start, all, i) == Walk(start, all, i + times * period)
    decreases times
  {
    if times > 0 {
      WalkPeriod(start, all, i, period, times - 1);
      WalkRepeats(start, all, i, i + period, (times - 1) * period);
      assert i + period + (times - 1) * period == i + times * period;
    }
  }

  lemma {:induction false} ProductBound(k: nat, period: nat)
    requires period > 0
    ensures k <= k * period
  {
    if k > 0 { ProductBound(k - 1, period); }
  }

  /** A walk that comes back to a mutex never ends. */
  lemma {:induction false} CycleNeverEnds(start: Mutex?, all: set<Mutex>, i: nat, j: nat, k: nat)
    requires Closed(start, all) && i < j
    requires Walk(start, all, i) == Walk(start, all, j) != null
    ensures Walk(start, all, k) != null
  {
    if Walk(start, all, k) == null {
      var period := j - i;
      assert i + period == j;
      WalkPeriod(start, all, i, period, k);
      ProductBound(k, period);
      WalkNullStays(start, all, k, i + k * period);
    }
  }

  ghost function Trail(start: Mutex?, all: set<Mutex>, n: nat): (s: seq<Mutex>)
    requires Closed(start, all) && forall k :: 0 <= k < n ==> Walk(start, all, k) != null
    reads all
    ensures |s| == n && forall k :: 0 <= k < n ==> s[k] == Walk(start, all, k)
  {
    if n == 0 then [] else Trail(start, all, n - 1) + [Walk(start, all, n - 1)]
  }

  /** Pigeonhole: a duplicate-free sequence over a set is no longer than the set. */
  lemma {:induction false} DistinctFits<T>(s: seq<T>, all: set<T>)
    requires forall i, j :: 0 <= i < j < |s| ==> s[i] != s[j]
    requires forall i :: 0 <= i < |s| ==> s[i] in all
    ensures |s| <= |all|
  {
    if s != [] {
      forall i | 0 <= i < |s[1..]|
        ensures s[1..][i] in all - {s[0]}
      {
        assert s[1..][i] == s[i + 1];
      }
      DistinctFits(s[1..], all - {s[0]});
    }
  }

  /** Every walk either ends or repeats: a bound by which the two-speed search of
      `IsValidList` has met one or the other. */
  lemma {:induction false} SearchBound(start: Mutex?, all: set<Mutex>) returns (bound: nat)
    requires Closed(start, all)
    ensures Walk(start, all, 2 * bound) == null || Walk(start, all, bound) == Walk(start, all, 2 * bound + 1)
  {
    var n := |all| + 1;
    if k :| 0 <= k < n && Walk(start, all, k) == null {
      WalkNullStays(start, all, k, 2 * k);
      return k;
    }
    if forall i, j :: 0 <= i < j < n ==> Walk(start, all, i) != Walk(start, all, j) {
      DistinctFits(Trail(start, all, n), all);
    }
    var i, j :| 0 <= i < j < n && Walk(start, all, i) == Walk(start, all, j);
    var period := j - i;
    bound := (i + 1) * period - 1;
    ProductBound(i + 1, period);
    WalkPeriod(start, all, i, period, i + 1);
    WalkRepeats(start, all, i, i + (i + 1) * period, bound - i);
    assert i + (bound - i) == bound && i + (i + 1) * period + (bound - i) == 2 * bound + 1;
  }

  // ----- lists -----

  /** A walk that ends spells out a list. */
  lemma {:induction false} WalkToList(start: Mutex?, all: set<Mutex>, n: nat) returns (list: seq<Mutex>)
    requires Closed(start, all) && Walk(start, all, n) == null
    ensures Linked(start, list)
    ensures forall m :: m in list ==> m in all
    decreases n
  {
    if start == null {
      list := [];
    } else {
      ShiftWalk(start, all, n - 1);
      var tail := WalkToList(start.previous, all, n - 1);
      list := [start] + tail;
    }
  }

  lemma {:induction false} ShiftWalk(start: Mutex, all: set<Mutex>, k: nat)
    requires Closed(start, all)
    ensures Walk(start, all, k + 1) == Walk(start.previous, all, k)
  {
    if k > 0 {
      ShiftWalk(start, all, k - 1);
    }
  }

  lemma {:induction false} ListToWalk(start: Mutex?, all: set<Mutex>, list: seq<Mutex>, k: nat)
    requires Closed(start, all) && Linked(start, list) && k <= |list|
    ensures Walk(start, all, k) == if k < |list| then list[k] else null
    decreases k
  {
    if k > 0 && list != [] {
      ListToWalk(start.previous, all, list[1..], k - 1);
      ShiftWalk(start, all, k - 1);
    }
  }

  lemma {:induction false} LinkedUnique(start: Mutex?, a: seq<Mutex>, b: seq<Mutex>)
    requires Linked(start, a) && Linked(start, b)
    ensures a == b
  {
    if a != [] && b != [] {
      LinkedUnique(a[0].previous, a[1..], b[1..]);
      assert a == [a[0]] + a[1..] && b == [b[0]] + b[1..];
    }
  }

  lemma {:induction false} LinkedAt(start: Mutex?, list: seq<Mutex>, i: nat)
    requires Linked(start, list) && i <= |list|
    ensures Linked(if i == 0 then start else list[i - 1].previous, list[i..])
    decreases i
  {
    if i > 0 {
      LinkedAt(list[0].previous, list[1..], i - 1);
      assert list[1..][i - 1..] == list[i..];
    }
  }

  /** `IsValidList`, on any finite graph of mutexes, cyclic ones included: it
      terminates, and says whether the pointers from `current` form a list that ends and
      whose levels never fall away from the head. */
  method IsValidList(current: Mutex?, ghost all: set<Mutex>) returns (ok: bool)
    requires Closed(current, all)
    ensures ok <==> exists list :: Linked(current, list) && LevelsRise(list)
  {
    var mutex1 := current;
    var mutex2 := current;
    if mutex1 == null {
      ghost var none: seq<Mutex> := [];
      assert Linked(current, none) && LevelsRise(none);
      return true;
    }
    ghost var bound := SearchBound(current, all);
    ghost var k: nat := 0;
    while mutex2 != null
      invariant k <= bound
      invariant mutex1 == Walk(current, all, k) != null
      invariant mutex2 == Walk(current, all, 2 * k)
      decreases bound - k
    {
      mutex2 := mutex2.previous;
      assert mutex2 == Walk(current, all, 2 * k + 1);
      if mutex1 == mutex2 {
        NoListThrough(current, all, k, 2 * k + 1);
        return false;
      }
      if mutex2 == null {
        WalkNullStays(current, all, 2 * k + 1, 2 * (k + 1));
        break;
      }
      mutex2 := mutex2.previous;
      assert mutex2 == Walk(current, all, 2 * k + 2);
      if mutex1 == mutex2 {
        NoListThrough(current, all, k, 2 * k + 2);
        return false;
      }
      if mutex2 == null {
        break;
      }
      mutex1 := mutex1.previous;
      assert mutex1 == Walk(current, all, k + 1);
      if mutex1 == null {
        WalkNullStays(current, all, k + 1, 2 * k + 2);
        break;
      }
      k := k + 1;
    }
    assert exists j: nat :: Walk(current, all, j) == null;
    ghost var j: nat :| Walk(current, all, j) == null;
    ghost var list := WalkToList(current, all, j);

    mutex1 := current;
    var level := mutex1.level;
    ghost var i: nat := 0;
    while mutex1 != null
      invariant i <= |list|
      invariant Linked(mutex1, list[i..])
      invariant i == 0 ==> level == current.level
      invariant i > 0 ==> level == list[i - 1].level
      invariant forall x :: 0 < x < i ==> list[x - 1].level <= list[x].level
      decreases |list| - i
    {
      if level > mutex1.level {
        forall other | Linked(current, other)
          ensures !LevelsRise(other)
        {
          LinkedUnique(current, list, other);
        }
        return false;
      }
      level := mutex1.level;
      mutex1 := mutex1.previous;
      i := i + 1;
    }
    assert LevelsRise(list);
    return true;
  }

  lemma {:induction false} NoListThrough(start: Mutex?, all: set<Mutex>, i: nat, j: nat)
    requires Closed(start, all) && i < j
    requires Walk(start, all, i) == Walk(start, all, j) != null
    ensures forall list :: !Linked(start, list)
  {
    forall list
      ensures !Linked(start, list)
    {
      if Linked(start, list) {
        ListToWalk(start, all, list, |list|);
        CycleNeverEnds(start, all, i, j, |list|);
      }
    }
  }
}
