/**
  `rw_semaphore`: any number of threads spinning on one 32-bit word, as a step system. Loads,
  stores and compare-and-swaps are single steps; between them a thread keeps the value it
  last saw, which may be stale.
 */
module Semaphores {
  import opened Basics

  const FLAG := 0x8000_0000
  const WORD := 0x1_0000_0000

  type Tid = nat

  /** Where a thread is; `seen` is its `cur_state`. */
  datatype Phase =
    | Idle
    | ReadTry(seen: nat)
    | Reading
    | ReadDrop(seen: nat)
    | WriteTry(seen: nat)
    | WriteWait
    | Writing

  datatype State = State(threads: map<Tid, Phase>, word: nat)

  datatype Action =
    | LockShared
    | UnlockShared
    | Lock
    | Unlock
    | Spin
    | HandOver(to: Tid)

  /** A step leads on, cannot be taken, or trips a `DCHECK`. */
  datatype Outcome = Next(s: State) | Impossible | CheckFails

  /** `w & kNumReadersMask`. */
  function Masked(w: nat): (r: nat)
    ensures r < FLAG && (w < FLAG ==> r == w) && (FLAG <= w < WORD ==> r == w - FLAG)
  {
    w % FLAG
  }

  function Move(s: State, t: Tid, p: Phase): State {
    s.(threads := s.threads[t := p])
  }

  function Store(s: State, t: Tid, p: Phase, w: nat): State {
    State(s.threads[t := p], w % WORD)
  }

  /** One step of thread `t`: the start of a call with its load, one turn of a spinning loop, or
      passing a lock on to another thread. */
  function Step(s: State, t: Tid, a: Action): Outcome {
    if t !in s.threads then Impossible
    else
      match (s.threads[t], a)
      case (Idle, LockShared) => Next(Move(s, t, ReadTry(s.word)))
      case (Idle, Lock) => Next(Move(s, t, WriteTry(s.word)))
      case (Reading, UnlockShared) => Next(Move(s, t, ReadDrop(s.word)))
      case (Writing, Unlock) => if s.word == FLAG then Next(Store(s, t, Idle, 0)) else CheckFails
      case (Reading, HandOver(u)) =>
        if u in s.threads && s.threads[u] == Idle then Next(Move(Move(s, t, Idle), u, Reading)) else Impossible
      case (Writing, HandOver(u)) =>
        if u in s.threads && s.threads[u] == Idle then Next(Move(Move(s, t, Idle), u, Writing)) else Impossible
      case (p, Spin) => SpinOnce(s, t, p)
      case _ => Impossible
  }

  /** A turn of the loop thread `t` is in: a compare-and-swap that succeeds only on the word
      expected, or a look at the readers still pending. */
  function SpinOnce(s: State, t: Tid, p: Phase): Outcome {
    match p
    case ReadTry(seen) =>
      var expected := Masked(seen);
      if s.word == expected then Next(Store(s, t, Reading, expected + 1)) else Next(Move(s, t, ReadTry(s.word)))
    case ReadDrop(seen) =>
      if Masked(seen) == 0 then CheckFails
      else if s.word == seen then Next(Store(s, t, Idle, seen - 1))
      else Next(Move(s, t, ReadDrop(s.word)))
    case WriteTry(seen) =>
      var expected := Masked(seen);
      if s.word == expected then Next(Store(s, t, WriteWait, FLAG + expected)) else Next(Move(s, t, WriteTry(s.word)))
    case WriteWait => if Masked(s.word) > 0 then Next(s) else Next(Move(s, t, Writing))
    case _ => Impossible
  }

  // ----- who holds what -----

  /** Counted in the word: reading, until the release goes through. */
  predicate Reads(p: Phase) {
    p.Reading? || p.ReadDrop?
  }

  /** Has set the flag. */
  predicate Owns(p: Phase) {
    p.WriteWait? || p.Writing?
  }

  function Readers(s: State): set<Tid> {
    set t | t in s.threads && Reads(s.threads[t])
  }

  function Owners(s: State): set<Tid> {
    set t | t in s.threads && Owns(s.threads[t])
  }

  /** The word is the flag of the one owner, if there is one, and the number of readers; a
      writer past its wait is alone; a reader letting go has seen itself counted. */
  ghost predicate Inv(s: State) {
    && |s.threads| < FLAG
    && |Owners(s)| <= 1
    && s.word == (if |Owners(s)| == 0 then 0 else FLAG) + |Readers(s)|
    && (forall t :: t in s.threads && s.threads[t].Writing? ==> |Readers(s)| == 0)
    && (forall t :: t in s.threads && s.threads[t].ReadDrop? ==> Masked(s.threads[t].seen) > 0)
  }

  lemma {:induction false} FewReaders(s: State)
    requires Inv(s)
    ensures |Readers(s)| <= |s.threads| < FLAG
    ensures Masked(s.word) == |Readers(s)|
    ensures s.word < FLAG <==> |Owners(s)| == 0
  {
    Subset(Readers(s), s.threads.Keys);
  }

  lemma {:induction false} Counted(s: State, t: Tid)
    requires t in s.threads
    ensures Reads(s.threads[t]) ==> |Readers(s)| > 0
    ensures Owns(s.threads[t]) ==> |Owners(s)| > 0
  {
    if Reads(s.threads[t]) { Subset({t}, Readers(s)); }
    if Owns(s.threads[t]) { Subset({t}, Owners(s)); }
  }

  /** A thread that is no reader leaves room for one more. */
  lemma {:induction false} RoomForOne(s: State, t: Tid)
    requires |s.threads| < FLAG && t in s.threads && !Reads(s.threads[t])
    ensures |Readers(s)| + 1 < FLAG
  {
    Subset(Readers(s) + {t}, s.threads.Keys);
  }

  lemma {:induction false} OnlyOwner(s: State, t: Tid, u: Tid)
    requires Inv(s) && t in s.threads && u in s.threads && Owns(s.threads[t]) && Owns(s.threads[u])
    ensures t == u
  {
    Subset({t, u}, Owners(s));
    Split({t, u}, t);
    Split({t, u} - {t}, u);
  }

  /** What the move of one thread does to the two counts. */
  lemma {:induction false} MoveCounts(s: State, t: Tid, p: Phase)
    requires t in s.threads
    ensures var after := Move(s, t, p);
            && |after.threads| == |s.threads|
            && |Readers(after)| == |Readers(s)| - One(Reads(s.threads[t])) + One(Reads(p))
            && |Owners(after)| == |Owners(s)| - One(Owns(s.threads[t])) + One(Owns(p))
  {
    var after := Move(s, t, p);
    assert after.threads.Keys == s.threads.Keys;
    assert Readers(after) - {t} == Readers(s) - {t};
    assert Owners(after) - {t} == Owners(s) - {t};
    Split(Readers(s), t);
    Split(Readers(after), t);
    Split(Owners(s), t);
    Split(Owners(after), t);
  }

  /** A move and a new word keep the invariant if they agree. */
  lemma {:induction false} MoveKeepsInv(s: State, t: Tid, p: Phase, w: nat)
    requires Inv(s) && t in s.threads
    requires var r := |Readers(s)| - One(Reads(s.threads[t])) + One(Reads(p));
             var o := |Owners(s)| - One(Owns(s.threads[t])) + One(Owns(p));
             && o <= 1 && w == (if o == 0 then 0 else FLAG) + r
             && (p.Writing? ==> r == 0)
             && (Reads(p) && !Reads(s.threads[t]) ==> |Owners(s)| == 0)
             && (p.ReadDrop? ==> Masked(p.seen) > 0)
    ensures Inv(State(s.threads[t := p], w))
  {
    var after := State(s.threads[t := p], w);
    MoveCounts(s, t, p);
    SameCounts(after, Move(s, t, p));
    forall u | u in after.threads && after.threads[u].Writing?
      ensures |Readers(after)| == 0
    {
      if u != t {
        Counted(s, u);
        Counted(s, t);
      }
    }
  }

  lemma {:induction false} SameCounts(s: State, s': State)
    requires s.threads == s'.threads
    ensures |Readers(s)| == |Readers(s')| && |Owners(s)| == |Owners(s')|
  {
    assert Readers(s) == Readers(s') && Owners(s) == Owners(s');
  }

  lemma {:induction false} SpinKeepsInv(s: State, t: Tid)
    requires Inv(s) && t in s.threads && SpinOnce(s, t, s.threads[t]).Next?
    ensures Inv(SpinOnce(s, t, s.threads[t]).s)
  {
    var after := SpinOnce(s, t, s.threads[t]).s;
    FewReaders(s);
    Counted(s, t);
    if !Reads(s.threads[t]) { RoomForOne(s, t); }
    if after != s {
      MoveKeepsInv(s, t, after.threads[t], after.word);
    }
  }

  lemma {:induction false} HandOverKeepsInv(s: State, t: Tid, u: Tid)
    requires Inv(s) && Step(s, t, HandOver(u)).Next?
    ensures var after := Step(s, t, HandOver(u)).s;
            Inv(after) && |Readers(after)| == |Readers(s)| && |Owners(after)| == |Owners(s)|
  {
    var middle := Move(s, t, Idle);
    MoveCounts(s, t, Idle);
    MoveCounts(middle, u, s.threads[t]);
    Counted(s, t);
    var after := Step(s, t, HandOver(u)).s;
    forall v | v in after.threads && after.threads[v].Writing?
      ensures |Readers(after)| == 0
    {
      if v == u { assert s.threads[t].Writing?; } else { assert s.threads[v].Writing?; }
    }
  }

  /** Every step keeps the invariant. */
  lemma {:induction false} StepKeepsInv(s: State, t: Tid, a: Action)
    requires Inv(s) && Step(s, t, a).Next?
    ensures Inv(Step(s, t, a).s)
  {
    match a
    case Spin => SpinKeepsInv(s, t);
    case HandOver(u) => HandOverKeepsInv(s, t, u);
    case _ =>
      var after := Step(s, t, a).s;
      FewReaders(s);
      Counted(s, t);
      MoveKeepsInv(s, t, after.threads[t], after.word);
  }

  /** No `DCHECK` is ever tripped: a reader that lets go finds readers counted, and a writer
      that lets go finds the flag and nothing else. */
  lemma {:induction false} ChecksHold(s: State, t: Tid, a: Action)
    requires Inv(s)
    ensures !Step(s, t, a).CheckFails?
  {
    if t in s.threads { Counted(s, t); }
  }

  // ----- runs -----

  predicate Start(s: State) {
    s.word == 0 && |s.threads| < 0x8000_0000 && forall t :: t in s.threads ==> s.threads[t] == Idle
  }

  function Run(s: State, steps: seq<(Tid, Action)>): Outcome
    decreases |steps|
  {
    if steps == [] then Next(s)
    else
      match Step(s, steps[0].0, steps[0].1)
      case Next(after) => Run(after, steps[1..])
      case o => o
  }

  lemma {:induction false} RunKeepsInv(s: State, steps: seq<(Tid, Action)>)
    requires Inv(s)
    ensures !Run(s, steps).CheckFails?
    ensures Run(s, steps).Next? ==> Inv(Run(s, steps).s)
    decreases |steps|
  {
    if steps != [] {
      var (t, a) := steps[0];
      ChecksHold(s, t, a);
      if Step(s, t, a).Next? {
        StepKeepsInv(s, t, a);
        RunKeepsInv(Step(s, t, a).s, steps[1..]);
      }
    }
  }

  /** Inside a critical section, reading or writing. */
  predicate MayTouch(p: Phase) {
    p.Reading? || p.Writing?
  }

  /** In every interleaving: no check fails; the word is exactly flag and readers, the count
      never reaching the flag; and a writer past its wait excludes everybody else. */
  lemma {:induction false} Exclusion(s: State, steps: seq<(Tid, Action)>)
    requires Start(s)
    ensures var o := Run(s, steps);
            && !o.CheckFails?
            && (o.Next? ==>
                  && o.s.word == (if |Owners(o.s)| == 0 then 0 else FLAG) + |Readers(o.s)|
                  && |Readers(o.s)| < FLAG && |Owners(o.s)| <= 1
                  && forall t :: t in o.s.threads && o.s.threads[t].Writing? ==>
                       forall u :: u in o.s.threads && u != t ==> !MayTouch(o.s.threads[u]))
  {
    assert Readers(s) == {} && Owners(s) == {};
    RunKeepsInv(s, steps);
    var o := Run(s, steps);
    if o.Next? {
      FewReaders(o.s);
      forall t, u | t in o.s.threads && o.s.threads[t].Writing? && u in o.s.threads && u != t
        ensures !MayTouch(o.s.threads[u])
      {
        Counted(o.s, u);
        if Owns(o.s.threads[u]) { OnlyOwner(o.s, t, u); }
      }
    }
  }

  // ----- writers are not starved by new readers -----

  /** A release that goes through. */
  predicate Releases(s: State, t: Tid, a: Action) {
    a == Spin && t in s.threads && s.threads[t].ReadDrop? && s.threads[t].seen == s.word
  }

  predicate Unlocks(s: State, t: Tid, a: Action) {
    a == Unlock && t in s.threads && s.threads[t].Writing?
  }

  /** With the flag set, the number of readers changes only by releases, each of which takes
      one away, and the flag stays until a writer unlocks. */
  lemma {:induction false} FlagStopsReaders(s: State, t: Tid, a: Action)
    requires Inv(s) && |Owners(s)| != 0 && Step(s, t, a).Next?
    ensures var after := Step(s, t, a).s;
            && |Readers(s)| == |Readers(after)| + (if Releases(s, t, a) then 1 else 0)
            && (Unlocks(s, t, a) <==> |Owners(after)| == 0)
  {
    var after := Step(s, t, a).s;
    FewReaders(s);
    Counted(s, t);
    if a.HandOver? {
      HandOverKeepsInv(s, t, a.to);
    } else if after != s {
      MoveCounts(s, t, after.threads[t]);
      SameCounts(after, Move(s, t, after.threads[t]));
    }
  }

  /** How many releases a run has. */
  function ReleasesIn(s: State, steps: seq<(Tid, Action)>): nat
    decreases |steps|
  {
    if steps == [] then 0
    else
      match Step(s, steps[0].0, steps[0].1)
      case Next(after) => (if Releases(s, steps[0].0, steps[0].1) then 1 else 0) + ReleasesIn(after, steps[1..])
      case _ => 0
  }

  predicate NobodyUnlocks(s: State, steps: seq<(Tid, Action)>)
    decreases |steps|
  {
    steps == [] ||
    match Step(s, steps[0].0, steps[0].1)
    case Next(after) => !Unlocks(s, steps[0].0, steps[0].1) && NobodyUnlocks(after, steps[1..])
    case _ => false
  }

  /** From the moment the flag is set, the readers still in and the releases that have gone
      through add up to the readers there were: a waiting writer waits for those releases and
      no others. */
  lemma {:induction false} WaitIsBounded(s: State, steps: seq<(Tid, Action)>)
    requires Inv(s) && |Owners(s)| != 0 && NobodyUnlocks(s, steps)
    ensures Run(s, steps).Next? && |Owners(Run(s, steps).s)| != 0
    ensures |Readers(Run(s, steps).s)| + ReleasesIn(s, steps) == |Readers(s)|
    decreases |steps|
  {
    if steps != [] {
      var (t, a) := steps[0];
      FlagStopsReaders(s, t, a);
      StepKeepsInv(s, t, a);
      WaitIsBounded(Step(s, t, a).s, steps[1..]);
    }
  }

  /** The waiting writer gets in with its next look exactly when the last of them is out. */
  lemma {:induction false} WriterGetsIn(s: State, t: Tid)
    requires Inv(s) && t in s.threads && s.threads[t].WriteWait?
    ensures Step(s, t, Spin).Next?
    ensures Step(s, t, Spin).s.threads[t].Writing? <==> |Readers(s)| == 0
  {
    FewReaders(s);
  }

  /** A release goes through with the next try, taking one off the word, unless the word has
      moved since the thread last looked: only another thread's success can delay it. */
  lemma {:induction false} RetryOnlyAfterChange(s: State, t: Tid)
    requires Inv(s) && t in s.threads && s.threads[t].ReadDrop?
    ensures var o := Step(s, t, Spin);
            && o.Next?
            && (o.s.threads[t] == Idle <==> s.threads[t].seen == s.word)
            && (o.s.threads[t] == ReadDrop(s.word) || o.s.word + 1 == s.word)
  {
    FewReaders(s);
  }

  // ----- getting in -----

  /** A turn of a reader on its way in succeeds exactly if the word is the number of readers it
      last saw, with no flag, however many there are; otherwise it has only looked again. */
  lemma {:induction false} ReaderTurn(s: State, t: Tid)
    requires Inv(s) && t in s.threads && s.threads[t].ReadTry?
    ensures var o := Step(s, t, Spin);
            && o.Next?
            && (if |Owners(s)| == 0 && |Readers(s)| == Masked(s.threads[t].seen)
                then o.s.threads == s.threads[t := Reading] && o.s.word == s.word + 1
                else o.s == Move(s, t, ReadTry(s.word)))
  {
    FewReaders(s);
    RoomForOne(s, t);
  }

  /** The same for a writer; success sets the flag on top of whatever readers there are. */
  lemma {:induction false} WriterTurn(s: State, t: Tid)
    requires Inv(s) && t in s.threads && s.threads[t].WriteTry?
    ensures var o := Step(s, t, Spin);
            && o.Next?
            && (if |Owners(s)| == 0 && |Readers(s)| == Masked(s.threads[t].seen)
                then o.s.threads == s.threads[t := WriteWait] && o.s.word == FLAG + |Readers(s)|
                else o.s == Move(s, t, WriteTry(s.word)))
  {
    FewReaders(s);
  }

  lemma {:induction false} RunTwo(s: State, t: Tid, a: Action, b: Action)
    requires Step(s, t, a).Next?
    ensures Run(s, [(t, a), (t, b)]) == Step(Step(s, t, a).s, t, b)
  {
    var steps: seq<(Tid, Action)> := [(t, a), (t, b)];
    var after := Step(s, t, a).s;
    assert steps[1..] == [(t, b)] && |steps[1..][1..]| == 0;
    assert Run(s, steps) == Run(after, steps[1..]);
    match Step(after, t, b)
    case Next(end) => assert Run(end, steps[1..][1..]) == Next(end);
    case _ =>
  }

  /** While no writer has the flag a reader gets in at once, beside any number of readers. */
  lemma {:induction false} ReaderGetsIn(s: State, t: Tid)
    requires Inv(s) && |Owners(s)| == 0 && t in s.threads && s.threads[t].Idle?
    ensures var o := Run(s, [(t, LockShared), (t, Spin)]);
            && o.Next? && o.s.threads == s.threads[t := Reading]
            && |Readers(o.s)| == |Readers(s)| + 1 && |Owners(o.s)| == 0
  {
    var trying := Step(s, t, LockShared).s;
    RunTwo(s, t, LockShared, Spin);
    StepKeepsInv(s, t, LockShared);
    MoveCounts(s, t, ReadTry(s.word));
    FewReaders(s);
    ReaderTurn(trying, t);
    var o := Run(s, [(t, LockShared), (t, Spin)]);
    assert o.s.threads == s.threads[t := Reading];
    MoveCounts(s, t, Reading);
    SameCounts(o.s, Move(s, t, Reading));
  }

  /** And a writer has the flag at once, with those readers to wait for. */
  lemma {:induction false} WriterGetsFlag(s: State, t: Tid)
    requires Inv(s) && |Owners(s)| == 0 && t in s.threads && s.threads[t].Idle?
    ensures var o := Run(s, [(t, Lock), (t, Spin)]);
            && o.Next? && o.s.threads == s.threads[t := WriteWait]
            && |Readers(o.s)| == |Readers(s)| && |Owners(o.s)| == 1
  {
    var trying := Step(s, t, Lock).s;
    RunTwo(s, t, Lock, Spin);
    StepKeepsInv(s, t, Lock);
    MoveCounts(s, t, WriteTry(s.word));
    FewReaders(s);
    WriterTurn(trying, t);
    var o := Run(s, [(t, Lock), (t, Spin)]);
    assert o.s.threads == s.threads[t := WriteWait];
    MoveCounts(s, t, WriteWait);
    SameCounts(o.s, Move(s, t, WriteWait));
  }

  /** Letting go takes exactly the caller out: a reader by two steps of its own, a writer by one,
      which leaves the semaphore free. */
  lemma {:induction false} ReaderGetsOut(s: State, t: Tid)
    requires Inv(s) && t in s.threads && s.threads[t].Reading?
    ensures var o := Run(s, [(t, UnlockShared), (t, Spin)]);
            && o.Next? && o.s.threads == s.threads[t := Idle]
            && |Readers(o.s)| == |Readers(s)| - 1 && |Owners(o.s)| == |Owners(s)|
  {
    FewReaders(s);
    Counted(s, t);
    RunTwo(s, t, UnlockShared, Spin);
    var o := Run(s, [(t, UnlockShared), (t, Spin)]);
    assert o.s.threads == s.threads[t := Idle];
    MoveCounts(s, t, Idle);
    SameCounts(o.s, Move(s, t, Idle));
  }

  lemma {:induction false} WriterGetsOut(s: State, t: Tid)
    requires Inv(s) && t in s.threads && s.threads[t].Writing?
    ensures var o := Step(s, t, Unlock);
            o.Next? && o.s.threads == s.threads[t := Idle] && o.s.word == 0 && |Owners(o.s)| == 0
  {
    ChecksHold(s, t, Unlock);
    StepKeepsInv(s, t, Unlock);
    FewReaders(Step(s, t, Unlock).s);
  }

  /** A lock handed over has changed hands, and nothing else has happened. */
  lemma {:induction false} HandedOver(s: State, t: Tid, u: Tid)
    requires Inv(s) && t in s.threads && MayTouch(s.threads[t]) && u in s.threads && s.threads[u].Idle?
    ensures var o := Step(s, t, HandOver(u));
            && o.Next? && o.s.word == s.word
            && o.s.threads[u] == s.threads[t] && o.s.threads[t].Idle?
            && forall v :: v in s.threads && v != t && v != u ==> o.s.threads[v] == s.threads[v]
  {
  }
}
