/**
  The list of mutexes one thread holds, as a value, and what each check of
  `LevelMutexInfo` answers about it.

  A list is written head first: element 0 is the mutex `s_currentMutex` points
  at, and following `m_previous` goes to higher indices.
 */
module LevelLists {
  import opened Wrappers

  /** Level of a thread that holds nothing; no mutex may have it. */
  const UNLOCKED_LEVEL: nat := 0xFFFF_FFFF

  datatype MutexError =
    | Success
    | NoProblem
    | WrongLevel
    | LevelTooLow
    | LevelTooHigh
    | TryFailed
    | NullMutexPointer
    | DuplicateMutex
    | EmptyContainer
    | AlreadyLocked
    | WasntLocked
    | NotRecentLock
    | NotLockedByThread
    | MultiUnlockFailed
    | TimedOut
    | OtherError

  /** What identifies a mutex to the checks: its level and its address. */
  datatype Id = Id(level: nat, address: nat)

  datatype Hold = Hold(id: Id, count: nat)

  /** The order in which a thread may take mutexes: levels go down, and inside one
      level addresses go up. */
  predicate Before(a: Id, b: Id) {
    a.level > b.level || (a.level == b.level && a.address < b.address)
  }

  /** A well-formed list: every entry is locked, and every entry was taken
      after all entries behind it, in the order `Before`. */
  predicate Ordered(h: seq<Hold>) {
    && (forall i :: 0 <= i < |h| ==> h[i].count > 0 && h[i].id.level < UNLOCKED_LEVEL)
    && (forall i, j :: 0 <= i < j < |h| ==> Before(h[j].id, h[i].id))
  }

  function CurrentLevel(h: seq<Hold>): nat {
    if h == [] then UNLOCKED_LEVEL else h[0].id.level
  }

  predicate Holds(h: seq<Hold>, id: Id) {
    exists i :: 0 <= i < |h| && h[i].id == id
  }

  /** Lock count of `id` in the list, 0 when it is not there. */
  function CountOf(h: seq<Hold>, id: Id): nat {
    if h == [] then 0 else if h[0].id == id then h[0].count else CountOf(h[1..], id)
  }

  /** The list with one more lock on `id`. */
  function Increment(h: seq<Hold>, id: Id): seq<Hold> {
    if h == [] then []
    else (if h[0].id == id then [Hold(id, h[0].count + 1)] else [h[0]]) + Increment(h[1..], id)
  }

  /** The list with one lock fewer on `id`, which keeps at least one. */
  function Decrement(h: seq<Hold>, id: Id): seq<Hold> {
    if h == [] then []
    else (if h[0].id == id && h[0].count > 1 then [Hold(id, h[0].count - 1)] else [h[0]]) + Decrement(h[1..], id)
  }

  // ----- checks before one mutex is locked or unlocked -----

  /** `PreLockCheck`: the verdict and the list after it. `isLocked` is what
      reading `m_count` of the mutex shows. */
  function LockVerdict(h: seq<Hold>, id: Id, forTryLock: bool, isLocked: bool): (MutexError, seq<Hold>) {
    if CurrentLevel(h) < id.level then (LevelTooHigh, h)
    else if !Holds(h, id) && forTryLock && isLocked then (AlreadyLocked, h)
    else if CurrentLevel(h) == id.level then
      if Holds(h, id) then (Success, Increment(h, id)) else (LevelTooHigh, h)
    else (NoProblem, h)
  }

  /** `PreUnlockCheck`: the verdict and the list after it. */
  function UnlockVerdict(h: seq<Hold>, id: Id, lockCount: nat): (MutexError, seq<Hold>) {
    if lockCount == 0 then (WasntLocked, h)
    else if CurrentLevel(h) > id.level then (LevelTooLow, h)
    else if CurrentLevel(h) < id.level then (LevelTooHigh, h)
    else if !Holds(h, id) then (NotLockedByThread, h)
    else if lockCount > 1 then (Success, Decrement(h, id))
    else (NoProblem, h)
  }

  /** `UnlockThis` and the end of `Unlock` are allowed on a mutex locked
      more than once, or on the head of the list. */
  predicate MayRelease(h: seq<Hold>, id: Id) {
    CountOf(h, id) > 1 || (h != [] && h[0].id == id)
  }

  function Release(h: seq<Hold>, id: Id): seq<Hold>
    requires MayRelease(h, id)
  {
    if CountOf(h, id) > 1 then Decrement(h, id) else h[1..]
  }

  // ----- checks on a container of mutexes -----

  /** Length of the leading part of the list whose level is `level`. */
  function LeadingCount(h: seq<Hold>, level: nat): nat {
    if h == [] || h[0].id.level != level then 0 else 1 + LeadingCount(h[1..], level)
  }

  /** `IsRecentLock(count)`: among the `count` most recent entries. */
  predicate RecentlyHeld(h: seq<Hold>, id: Id, count: nat) {
    exists i :: 0 <= i < |h| && i < count && h[i].id == id
  }

  /** The loop of `DoMutexesMatchContainer`, from position `i` on. A null
      pointer is `None`. */
  function MatchFrom(h: seq<Hold>, c: seq<Option<Id>>, i: nat): MutexError
    requires i <= |c|
    decreases |c| - i
  {
    if i == |c| then
      if |c| == LeadingCount(h, CurrentLevel(h)) then Success else LevelTooHigh
    else if c[i].None? then NullMutexPointer
    else if CurrentLevel(h) != c[i].value.level then
      if CurrentLevel(h) == UNLOCKED_LEVEL then NotRecentLock else WrongLevel
    else if !RecentlyHeld(h, c[i].value, |c|) then NotRecentLock
    else if c[i] in c[i + 1..] then DuplicateMutex
    else MatchFrom(h, c, i + 1)
  }

  function Match(h: seq<Hold>, c: seq<Option<Id>>): MutexError {
    if c == [] then EmptyContainer else MatchFrom(h, c, 0)
  }

  /** The checks `MultiLock` makes on the second and later members. */
  function ScanFrom(c: seq<Option<Id>>, level: nat, i: nat): MutexError
    requires i <= |c|
    decreases |c| - i
  {
    if i == |c| then Success
    else if c[i].None? then NullMutexPointer
    else if c[i].value.level != level then WrongLevel
    else if c[i] in c[i + 1..] then DuplicateMutex
    else ScanFrom(c, level, i + 1)
  }

  /** What `MultiLock` decides before it touches a mutex: give up with an
      error, add one to every count, or lock the whole group. */
  datatype Plan = Refuse(error: MutexError) | Relock | LockGroup

  function MultiLockPlan(h: seq<Hold>, c: seq<Option<Id>>): Plan {
    if c == [] then Refuse(EmptyContainer)
    else if c[0].None? then Refuse(NullMutexPointer)
    else if c[0] in c[1..] then Refuse(DuplicateMutex)
    else if CurrentLevel(h) < c[0].value.level then Refuse(LevelTooHigh)
    else if CurrentLevel(h) == c[0].value.level then
      var result := Match(h, c);
      if result == Success then Relock
      else if CurrentLevel(h) == UNLOCKED_LEVEL then Refuse(result)
      else Refuse(LevelTooHigh)
    else
      var result := ScanFrom(c, c[0].value.level, 1);
      if result == Success then LockGroup else Refuse(result)
  }

  predicate AllPresent(c: seq<Option<Id>>) {
    forall i :: 0 <= i < |c| ==> c[i].Some?
  }

  function Values(c: seq<Option<Id>>): (ids: seq<Id>)
    requires AllPresent(c)
    ensures |ids| == |c| && forall i :: 0 <= i < |c| ==> ids[i] == c[i].value
  {
    seq(|c|, i requires 0 <= i < |c| => c[i].value)
  }

  /** Increment every member of a group. */
  function IncrementAll(h: seq<Hold>, ids: seq<Id>): seq<Hold>
    decreases |ids|
  {
    if ids == [] then h else IncrementAll(Increment(h, ids[0]), ids[1..])
  }

  // ----- sorting by address -----

  function InsertByAddress(id: Id, s: seq<Id>): seq<Id> {
    if s == [] then [id]
    else if id.address <= s[0].address then [id] + s
    else [s[0]] + InsertByAddress(id, s[1..])
  }

  function SortByAddress(s: seq<Id>): seq<Id> {
    if s == [] then [] else InsertByAddress(s[0], SortByAddress(s[1..]))
  }

  function Reverse<T>(s: seq<T>): seq<T> {
    if s == [] then [] else Reverse(s[1..]) + [s[0]]
  }

  /** Entries for freshly locked mutexes, each locked once. */
  function Once(ids: seq<Id>): (h: seq<Hold>)
    ensures |h| == |ids| && forall i :: 0 <= i < |h| ==> h[i] == Hold(ids[i], 1)
  {
    seq(|ids|, i requires 0 <= i < |ids| => Hold(ids[i], 1))
  }
}
