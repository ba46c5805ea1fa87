/**
  What a pool of chunks amounts to: the address and free list of each chunk, and the three
  cursors. All as values; `FixedAllocators` keeps its objects in step with them.
 */
module SlotPools {
  import opened Basics
  import opened Wrappers
  import opened Chunks

  datatype Slot = Slot(base: int, free: seq<nat>)

  /** A sensible free list, for a chunk of `blocks` blocks. */
  predicate SlotOk(s: Slot, blocks: nat) {
    NoDup(s.free) && Below(blocks, s.free)
  }

  predicate SlotsOk(slots: seq<Slot>, blocks: nat) {
    forall c {:trigger SlotOk(slots[c], blocks)} :: 0 <= c < |slots| ==> SlotOk(slots[c], blocks)
  }

  /** Addresses of the live blocks of one chunk. */
  ghost function LiveOf(s: Slot, size: nat, blocks: nat): set<int> {
    set i | i in Naturals(blocks) && i !in s.free :: s.base + i * size
  }

  /** Addresses of all live blocks. */
  ghost function Live(slots: seq<Slot>, size: nat, blocks: nat): set<int> {
    set c, a | 0 <= c < |slots| && a in LiveOf(slots[c], size, blocks) :: a
  }

  /** The address lies in the memory of the chunk. */
  predicate Covers(s: Slot, length: nat, p: int) {
    s.base <= p < s.base + length
  }

  predicate Clear(at: int, other: int, length: nat) {
    Beside(at, length, other, length)
  }

  /** Two pieces of memory do not overlap. */
  predicate Beside(at: int, length: nat, other: int, otherLength: nat) {
    at + length <= other || other + otherLength <= at
  }

  /** Addresses of the chunks. */
  ghost function Bases(slots: seq<Slot>): set<int> {
    set c | 0 <= c < |slots| :: slots[c].base
  }

  /** No two chunks overlap. */
  predicate Apart(slots: seq<Slot>, length: nat) {
    forall c, d {:trigger Clear(slots[c].base, slots[d].base, length)} ::
      0 <= c < |slots| && 0 <= d < |slots| && c != d ==> Clear(slots[c].base, slots[d].base, length)
  }

  /** The cursors: allocation and deallocation cursor stay in range, and the empty cursor names
      the wholly free chunk, of which there is one at most. */
  predicate Booked(slots: seq<Slot>, blocks: nat, alloc: Option<nat>, dealloc: Option<nat>, empty: Option<nat>) {
    && (slots == [] ==> alloc == None && dealloc == None)
    && (slots != [] ==> alloc.Some? && alloc.value < |slots| && dealloc.Some? && dealloc.value < |slots|)
    && (empty.Some? ==> empty.value < |slots|)
    && EmptyIs(slots, blocks, empty)
  }

  predicate AllFree(s: Slot, blocks: nat) {
    |s.free| == blocks
  }

  predicate EmptyIs(slots: seq<Slot>, blocks: nat, empty: Option<nat>) {
    forall c {:trigger AllFree(slots[c], blocks)} :: 0 <= c < |slots| ==> (AllFree(slots[c], blocks) <==> empty == Some(c))
  }

  // ----- live blocks -----

  lemma {:induction false} LiveBlock(s: Slot, size: nat, blocks: nat, a: int) returns (i: nat)
    requires a in LiveOf(s, size, blocks)
    ensures i < blocks && i !in s.free && a == s.base + i * size
  {
    i :| i in Naturals(blocks) && i !in s.free && a == s.base + i * size;
  }

  lemma {:induction false} LiveCovered(s: Slot, size: nat, blocks: nat, a: int)
    requires 0 < size && a in LiveOf(s, size, blocks)
    ensures Covers(s, blocks * size, a) && a + size <= s.base + blocks * size
  {
    var i := LiveBlock(s, size, blocks, a);
    MulGap(i, blocks, size);
  }

  /** Two numbers of the same address are the same. */
  lemma {:induction false} SameBlock(i: nat, j: nat, size: nat)
    requires 0 < size && i * size == j * size
    ensures i == j
  {
    if i < j { MulGap(i, j, size); }
    if j < i { MulGap(j, i, size); }
  }

  /** Live blocks are whole blocks of one chunk and do not overlap. */
  lemma {:induction false} LiveDisjoint(slots: seq<Slot>, size: nat, blocks: nat, a: int, b: int)
    requires 0 < size && Apart(slots, blocks * size)
    requires a in Live(slots, size, blocks) && b in Live(slots, size, blocks) && a != b
    ensures a + size <= b || b + size <= a
  {
    var c :| 0 <= c < |slots| && a in LiveOf(slots[c], size, blocks);
    var d :| 0 <= d < |slots| && b in LiveOf(slots[d], size, blocks);
    LiveCovered(slots[c], size, blocks, a);
    LiveCovered(slots[d], size, blocks, b);
    if c == d {
      var i := LiveBlock(slots[c], size, blocks, a);
      var j := LiveBlock(slots[c], size, blocks, b);
      if i < j { MulGap(i, j, size); } else { MulGap(j, i, size); }
      assert i != j;
      BlocksApart(i, j, size);
    } else {
      assert Clear(slots[c].base, slots[d].base, blocks * size);
    }
  }

  lemma {:induction false} BlocksApart(i: nat, j: nat, size: nat)
    requires i != j
    ensures i * size + size <= j * size || j * size + size <= i * size
  {
    if i < j { MulGap(i, j, size); } else { MulGap(j, i, size); }
  }

  /** Only the owner covers an address of one of its blocks. */
  lemma {:induction false} OneOwner(slots: seq<Slot>, length: nat, c: nat, d: nat, p: int)
    requires Apart(slots, length) && c < |slots| && d < |slots|
    requires Covers(slots[c], length, p) && Covers(slots[d], length, p)
    ensures c == d
  {
    assert c != d ==> Clear(slots[c].base, slots[d].base, length);
  }

  // ----- what a pool does -----

  /** Block `free[0]` of chunk `c` is handed out. */
  function Take(slots: seq<Slot>, c: nat): (r: seq<Slot>)
    requires c < |slots| && slots[c].free != []
    ensures |r| == |slots|
  {
    slots[c := slots[c].(free := slots[c].free[1..])]
  }

  /** Block `i` of chunk `c` comes back. */
  function Give(slots: seq<Slot>, c: nat, i: nat): (r: seq<Slot>)
    requires c < |slots|
    ensures |r| == |slots|
  {
    slots[c := slots[c].(free := [i] + slots[c].free)]
  }

  /** Chunk `c` goes; the last one takes its place. */
  function Drop(slots: seq<Slot>, c: nat): (r: seq<Slot>)
    requires c < |slots|
    ensures |r| == |slots| - 1
    ensures forall d :: 0 <= d < |r| ==> r[d] == slots[if d == c then |slots| - 1 else d]
  {
    slots[c := slots[|slots| - 1]][..|slots| - 1]
  }

  /** No chunk gets a new address by any of these. */
  lemma {:induction false} KeepBases(slots: seq<Slot>, c: nat)
    requires c < |slots|
    ensures slots[c].free != [] ==> Bases(Take(slots, c)) == Bases(slots)
    ensures forall i: nat :: Bases(Give(slots, c, i)) == Bases(slots)
    ensures Bases(Drop(slots, c)) <= Bases(slots)
  {
    if slots[c].free != [] { SameBases(slots, Take(slots, c)); }
    forall i: nat
      ensures Bases(Give(slots, c, i)) == Bases(slots)
    {
      SameBases(slots, Give(slots, c, i));
    }
  }

  lemma {:induction false} AddBases(slots: seq<Slot>, s: Slot)
    ensures Bases(slots + [s]) == Bases(slots) + {s.base}
  {
    var after := slots + [s];
    assert after[|slots|] == s;
    forall c | 0 <= c < |slots|
      ensures slots[c].base in Bases(after)
    {
      assert after[c] == slots[c];
    }
  }

  lemma {:induction false} SameBases(slots: seq<Slot>, after: seq<Slot>)
    requires |slots| == |after| && forall d :: 0 <= d < |slots| ==> after[d].base == slots[d].base
    ensures Bases(after) == Bases(slots)
  {
  }

  lemma {:induction false} TakeOne(s: Slot, size: nat, blocks: nat)
    requires 0 < size && SlotOk(s, blocks) && s.free != []
    ensures var t := s.(free := s.free[1..]);
            var a := s.base + s.free[0] * size;
            && SlotOk(t, blocks) && a !in LiveOf(s, size, blocks)
            && LiveOf(t, size, blocks) == LiveOf(s, size, blocks) + {a}
  {
    var t := s.(free := s.free[1..]);
    var a := s.base + s.free[0] * size;
    if a in LiveOf(s, size, blocks) {
      var i := LiveBlock(s, size, blocks, a);
      SameBlock(i, s.free[0], size);
    }
    forall b | b in LiveOf(t, size, blocks)
      ensures b in LiveOf(s, size, blocks) + {a}
    {
      var i := LiveBlock(t, size, blocks, b);
      if i != s.free[0] { assert i !in s.free; }
    }
    forall b | b in LiveOf(s, size, blocks) + {a}
      ensures b in LiveOf(t, size, blocks)
    {
      if b == a {
        assert s.free[0] in Naturals(blocks) && s.free[0] !in t.free;
      } else {
        var i := LiveBlock(s, size, blocks, b);
        assert i !in t.free;
      }
    }
  }

  /** Returning a block is taking it, backwards. */
  lemma {:induction false} GiveOne(s: Slot, size: nat, blocks: nat, i: nat)
    requires 0 < size && SlotOk(s, blocks) && i < blocks && i !in s.free
    ensures var t := s.(free := [i] + s.free);
            var a := s.base + i * size;
            && SlotOk(t, blocks) && a in LiveOf(s, size, blocks)
            && LiveOf(t, size, blocks) == LiveOf(s, size, blocks) - {a}
  {
    var t := s.(free := [i] + s.free);
    assert t.free[1..] == s.free;
    assert s == t.(free := t.free[1..]);
    TakeOne(t, size, blocks);
  }

  lemma {:induction false} LiveParts(slots: seq<Slot>, size: nat, blocks: nat, c: nat, s: Slot)
    requires c < |slots| && 0 < size && Apart(slots, blocks * size) && s.base == slots[c].base
    ensures var after := slots[c := s];
            && Live(after, size, blocks) ==
               Live(slots, size, blocks) - LiveOf(slots[c], size, blocks) + LiveOf(s, size, blocks)
            && Apart(after, blocks * size)
  {
    var after := slots[c := s];
    forall a | a in Live(after, size, blocks)
      ensures a in Live(slots, size, blocks) - LiveOf(slots[c], size, blocks) + LiveOf(s, size, blocks)
    {
      var d: nat :| d < |after| && a in LiveOf(after[d], size, blocks);
      if d != c {
        LiveCovered(slots[d], size, blocks, a);
        if a in LiveOf(slots[c], size, blocks) {
          LiveCovered(slots[c], size, blocks, a);
          OneOwner(slots, blocks * size, c, d, a);
        }
      }
    }
    forall a | a in Live(slots, size, blocks) - LiveOf(slots[c], size, blocks) + LiveOf(s, size, blocks)
      ensures a in Live(after, size, blocks)
    {
      if a in LiveOf(s, size, blocks) {
        assert a in LiveOf(after[c], size, blocks);
      } else {
        var d: nat :| d < |slots| && a in LiveOf(slots[d], size, blocks);
        assert a in LiveOf(after[d], size, blocks);
      }
    }
  }

  /** Taking adds one live block that was not live before. */
  lemma {:induction false} TakeLive(slots: seq<Slot>, size: nat, blocks: nat, c: nat)
    requires 0 < size && SlotsOk(slots, blocks) && Apart(slots, blocks * size)
    requires c < |slots| && slots[c].free != []
    ensures var after := Take(slots, c);
            var a := slots[c].base + slots[c].free[0] * size;
            && SlotsOk(after, blocks) && Apart(after, blocks * size)
            && a !in Live(slots, size, blocks)
            && Live(after, size, blocks) == Live(slots, size, blocks) + {a}
  {
    var s := slots[c];
    var a := s.base + s.free[0] * size;
    TakeOne(s, size, blocks);
    LiveParts(slots, size, blocks, c, s.(free := s.free[1..]));
    MulGap(s.free[0], blocks, size);
    if a in Live(slots, size, blocks) { LiveThere(slots, size, blocks, c, a); }
  }

  /** A live block is a live block of the chunk that covers it. */
  lemma {:induction false} LiveThere(slots: seq<Slot>, size: nat, blocks: nat, c: nat, a: int)
    requires 0 < size && Apart(slots, blocks * size) && c < |slots|
    requires a in Live(slots, size, blocks) && Covers(slots[c], blocks * size, a)
    ensures a in LiveOf(slots[c], size, blocks)
  {
    var d: nat :| d < |slots| && a in LiveOf(slots[d], size, blocks);
    LiveCovered(slots[d], size, blocks, a);
    OneOwner(slots, blocks * size, c, d, a);
  }

  /** A block of a chunk is live exactly if it is not in the free list. */
  lemma {:induction false} LiveExactly(slots: seq<Slot>, size: nat, blocks: nat, c: nat, i: nat)
    requires 0 < size && Apart(slots, blocks * size) && c < |slots| && i < blocks
    ensures slots[c].base + i * size in Live(slots, size, blocks) <==> i !in slots[c].free
  {
    var a := slots[c].base + i * size;
    if i !in slots[c].free {
      assert i in Naturals(blocks);
      assert a in LiveOf(slots[c], size, blocks);
    } else if a in Live(slots, size, blocks) {
      MulGap(i, blocks, size);
      LiveThere(slots, size, blocks, c, a);
      var j := LiveBlock(slots[c], size, blocks, a);
      SameBlock(i, j, size);
    }
  }

  /** Giving back removes exactly that block from the live ones. */
  lemma {:induction false} GiveLive(slots: seq<Slot>, size: nat, blocks: nat, c: nat, i: nat)
    requires 0 < size && SlotsOk(slots, blocks) && Apart(slots, blocks * size)
    requires c < |slots| && i < blocks && i !in slots[c].free
    ensures var after := Give(slots, c, i);
            var a := slots[c].base + i * size;
            && SlotsOk(after, blocks) && Apart(after, blocks * size)
            && a in Live(slots, size, blocks)
            && Live(after, size, blocks) == Live(slots, size, blocks) - {a}
  {
    var s := slots[c];
    GiveOne(s, size, blocks, i);
    LiveParts(slots, size, blocks, c, s.(free := [i] + s.free));
  }

  /** All its blocks being free, a chunk has no live ones. */
  lemma {:induction false} WhollyFree(s: Slot, size: nat, blocks: nat)
    requires SlotOk(s, blocks) && |s.free| == blocks
    ensures LiveOf(s, size, blocks) == {}
  {
    forall i: nat | i < blocks
      ensures i in s.free
    {
      if i !in s.free { Pigeonhole(s.free, i, blocks); }
    }
  }

  /** Dropping a wholly free chunk changes no live block. */
  lemma {:induction false} DropLive(slots: seq<Slot>, size: nat, blocks: nat, c: nat)
    requires SlotsOk(slots, blocks) && Apart(slots, blocks * size)
    requires c < |slots| && AllFree(slots[c], blocks)
    ensures var after := Drop(slots, c);
            && SlotsOk(after, blocks) && Apart(after, blocks * size)
            && Live(after, size, blocks) == Live(slots, size, blocks)
  {
    var after := Drop(slots, c);
    var last := |slots| - 1;
    WhollyFree(slots[c], size, blocks);
    forall a | a in Live(slots, size, blocks)
      ensures a in Live(after, size, blocks)
    {
      var d :| 0 <= d < |slots| && a in LiveOf(slots[d], size, blocks);
      assert after[if d == last then c else d] == slots[d];
    }
    forall a | a in Live(after, size, blocks)
      ensures a in Live(slots, size, blocks)
    {
      var d :| 0 <= d < |after| && a in LiveOf(after[d], size, blocks);
      assert after[d] == slots[if d == c then last else d];
    }
  }

  lemma {:induction false} AddApart(slots: seq<Slot>, length: nat, s: Slot)
    requires Apart(slots, length)
    requires forall c {:trigger Clear(slots[c].base, s.base, length)} ::
               0 <= c < |slots| ==> Clear(slots[c].base, s.base, length)
    ensures Apart(slots + [s], length)
  {
    var after := slots + [s];
    forall d: nat, e: nat | d < |after| && e < |after| && d != e
      ensures Clear(after[d].base, after[e].base, length)
    {
      if d == |slots| { assert Clear(slots[e].base, s.base, length); }
      else if e == |slots| { assert Clear(slots[d].base, s.base, length); }
      else { assert Clear(slots[d].base, slots[e].base, length); }
    }
  }

  /** A new chunk, all of it free, changes no live block. */
  lemma {:induction false} AddLive(slots: seq<Slot>, size: nat, blocks: nat, base: int)
    requires SlotsOk(slots, blocks) && Apart(slots, blocks * size)
    requires forall c {:trigger Clear(slots[c].base, base, blocks * size)} ::
               0 <= c < |slots| ==> Clear(slots[c].base, base, blocks * size)
    ensures var after := slots + [Slot(base, UpTo(0, blocks))];
            && SlotsOk(after, blocks) && Apart(after, blocks * size)
            && Live(after, size, blocks) == Live(slots, size, blocks)
  {
    var s := Slot(base, UpTo(0, blocks));
    var after := slots + [s];
    WhollyFree(s, size, blocks);
    AddApart(slots, blocks * size, s);
    forall a | a in Live(slots, size, blocks)
      ensures a in Live(after, size, blocks)
    {
      var d :| 0 <= d < |slots| && a in LiveOf(slots[d], size, blocks);
      assert after[d] == slots[d];
    }
    forall a | a in Live(after, size, blocks)
      ensures a in Live(slots, size, blocks)
    {
      var d :| 0 <= d < |after| && a in LiveOf(after[d], size, blocks);
    }
  }

  // ----- counting -----

  function Available(slots: seq<Slot>): nat {
    if slots == [] then 0 else |slots[|slots| - 1].free| + Available(slots[..|slots| - 1])
  }

  lemma {:induction false} CardOf(s: Slot, size: nat, blocks: nat)
    requires 0 < size && SlotOk(s, blocks)
    ensures |LiveOf(s, size, blocks)| + |s.free| == blocks
    decreases blocks - |s.free|
  {
    if x: nat :| x < blocks && x !in s.free {
      Pigeonhole(s.free, x, blocks);
      GiveOne(s, size, blocks, x);
      CardOf(s.(free := [x] + s.free), size, blocks);
    } else {
      assert LiveOf(s, size, blocks) == {};
      Subset(Naturals(blocks), Elements(s.free));
      Subset(Elements(s.free), Naturals(blocks));
    }
  }

  /** Every block of every chunk is either available or live. */
  lemma {:induction false} AvailableOrLive(slots: seq<Slot>, size: nat, blocks: nat)
    requires 0 < size && SlotsOk(slots, blocks) && Apart(slots, blocks * size)
    ensures Available(slots) + |Live(slots, size, blocks)| == |slots| * blocks
  {
    if slots == [] {
      assert Live(slots, size, blocks) == {};
    } else {
      var n := |slots| - 1;
      AvailableOrLive(slots[..n], size, blocks);
      CardOf(slots[n], size, blocks);
      LiveSplit(slots, size, blocks);
      assert |slots| * blocks == n * blocks + blocks;
    }
  }

  lemma {:induction false} LiveSplit(slots: seq<Slot>, size: nat, blocks: nat)
    requires slots != [] && 0 < size && Apart(slots, blocks * size)
    ensures var n := |slots| - 1;
            && Live(slots, size, blocks) == Live(slots[..n], size, blocks) + LiveOf(slots[n], size, blocks)
            && Live(slots[..n], size, blocks) !! LiveOf(slots[n], size, blocks)
  {
    var n := |slots| - 1;
    forall a | a in Live(slots[..n], size, blocks)
      ensures a in Live(slots, size, blocks) && a !in LiveOf(slots[n], size, blocks)
    {
      var d :| 0 <= d < n && a in LiveOf(slots[..n][d], size, blocks);
      assert a in LiveOf(slots[d], size, blocks);
      LiveCovered(slots[d], size, blocks, a);
      if a in LiveOf(slots[n], size, blocks) {
        LiveCovered(slots[n], size, blocks, a);
        OneOwner(slots, blocks * size, d, n, a);
      }
    }
    forall a | a in Live(slots, size, blocks)
      ensures a in Live(slots[..n], size, blocks) + LiveOf(slots[n], size, blocks)
    {
      var d :| 0 <= d < |slots| && a in LiveOf(slots[d], size, blocks);
      if d < n { assert a in LiveOf(slots[..n][d], size, blocks); }
    }
  }

  lemma {:induction false} FrontEmptyIs(slots: seq<Slot>, blocks: nat, empty: Option<nat>)
    requires slots != [] && EmptyIs(slots, blocks, empty)
    ensures EmptyIs(slots[..|slots| - 1], blocks, empty)
    ensures AllFree(slots[|slots| - 1], blocks) <==> empty == Some(|slots| - 1)
  {
    var front := slots[..|slots| - 1];
    forall c: nat | c < |front|
      ensures AllFree(front[c], blocks) <==> empty == Some(c)
    {
      assert AllFree(slots[c], blocks) <==> empty == Some(c);
    }
  }

  /** With one wholly free chunk at most, there are at most as many chunks as live blocks,
      and one. */
  lemma {:induction false} FewChunks(slots: seq<Slot>, size: nat, blocks: nat, empty: Option<nat>)
    requires 0 < size && SlotsOk(slots, blocks) && Apart(slots, blocks * size) && EmptyIs(slots, blocks, empty)
    ensures |slots| <= |Live(slots, size, blocks)| + (if empty.Some? && empty.value < |slots| then 1 else 0)
  {
    if slots != [] {
      var n := |slots| - 1;
      FrontEmptyIs(slots, blocks, empty);
      FewChunks(slots[..n], size, blocks, empty);
      CardOf(slots[n], size, blocks);
      LiveSplit(slots, size, blocks);
    }
  }

  // ----- the cursors -----

  lemma {:induction false} FreeBound(s: Slot, blocks: nat)
    requires SlotOk(s, blocks)
    ensures |s.free| <= blocks
  {
    Subset(Elements(s.free), Naturals(blocks));
  }

  /** The cursors while a block is about to be taken from chunk `c`: the empty cursor names the
      wholly free chunk among the others. */
  predicate Detached(slots: seq<Slot>, blocks: nat, c: nat, empty: Option<nat>) {
    && (empty.Some? ==> empty.value < |slots| && empty.value != c)
    && (forall d {:trigger AllFree(slots[d], blocks)} ::
          0 <= d < |slots| && d != c ==> (AllFree(slots[d], blocks) <==> empty == Some(d)))
  }

  lemma {:induction false} DetachedBooked(slots: seq<Slot>, blocks: nat, c: nat, dealloc: Option<nat>, empty: Option<nat>)
    requires SlotsOk(slots, blocks) && c < |slots| && slots[c].free != []
    requires dealloc.Some? && dealloc.value < |slots| && Detached(slots, blocks, c, empty)
    ensures Booked(Take(slots, c), blocks, Some(c), dealloc, empty)
  {
    FreeBound(slots[c], blocks);
    var after := Take(slots, c);
    forall d: nat | d < |after|
      ensures AllFree(after[d], blocks) <==> empty == Some(d)
    {
      if d != c { assert AllFree(slots[d], blocks) <==> empty == Some(d); }
    }
  }

  /** No block is available. */
  predicate AllFull(slots: seq<Slot>) {
    forall c :: 0 <= c < |slots| ==> slots[c].free == []
  }

  lemma {:induction false} GiveEmptyIs(slots: seq<Slot>, blocks: nat, c: nat, i: nat, empty: Option<nat>)
    requires c < |slots| && EmptyIs(slots, blocks, empty)
    requires SlotsOk(slots, blocks) && i < blocks && i !in slots[c].free
    ensures empty != Some(c)
    ensures var after := Give(slots, c, i);
            forall d {:trigger AllFree(after[d], blocks)} :: 0 <= d < |after| && d != c ==>
              (AllFree(after[d], blocks) <==> empty == Some(d))
  {
    var after := Give(slots, c, i);
    assert SlotOk(slots[c], blocks);
    Pigeonhole(slots[c].free, i, blocks);
    assert AllFree(slots[c], blocks) <==> empty == Some(c);
    forall d: nat | d < |after| && d != c
      ensures AllFree(after[d], blocks) <==> empty == Some(d)
    {
      assert AllFree(slots[d], blocks) <==> empty == Some(d);
    }
  }

  /** Of two wholly free chunks, that just freed and the one freed before, which is dropped
      and where the other is then. */
  lemma {:induction false} DropOne(slots: seq<Slot>, blocks: nat, d: nat, e: nat)
    requires d < |slots| && e < |slots| && d != e
    requires forall c {:trigger AllFree(slots[c], blocks)} ::
               0 <= c < |slots| ==> (AllFree(slots[c], blocks) <==> c == d || c == e)
    ensures var last := |slots| - 1;
            var keep := if d == last then e else d;
            && keep < last
            && EmptyIs(Drop(slots, if d == last then last else e), blocks, Some(keep))
  {
    var last := |slots| - 1;
    var gone := if d == last then last else e;
    var after := Drop(slots, gone);
    forall c: nat | c < |after|
      ensures AllFree(after[c], blocks) <==> c == if d == last then e else d
    {
      var before := if c == gone then last else c;
      assert AllFree(slots[before], blocks) <==> before == d || before == e;
    }
  }

  function Swapped(slots: seq<Slot>, a: nat, b: nat): (r: seq<Slot>)
    requires a < |slots| && b < |slots|
    ensures |r| == |slots|
    ensures forall d :: 0 <= d < |r| ==> r[d] == slots[if d == a then b else if d == b then a else d]
  {
    slots[a := slots[b]][b := slots[a]]
  }

  lemma {:induction false} SwappedOk(slots: seq<Slot>, length: nat, blocks: nat, a: nat, b: nat)
    requires a < |slots| && b < |slots| && SlotsOk(slots, blocks) && Apart(slots, length)
    ensures SlotsOk(Swapped(slots, a, b), blocks) && Apart(Swapped(slots, a, b), length)
  {
    var after := Swapped(slots, a, b);
    forall c: nat | c < |after|
      ensures SlotOk(after[c], blocks)
    {
      assert SlotOk(slots[if c == a then b else if c == b then a else c], blocks);
    }
    forall c: nat, d: nat | c < |after| && d < |after| && c != d
      ensures Clear(after[c].base, after[d].base, length)
    {
      assert Clear(slots[if c == a then b else if c == b then a else c].base,
                   slots[if d == a then b else if d == b then a else d].base, length);
    }
  }

  // ----- trimming -----

  /** Where the cursors are after chunk `e` of `n` was given back by `TrimEmptyChunk`. */
  function TrimmedAlloc(n: nat, e: nat, alloc: Option<nat>): Option<nat>
    requires n > 0
  {
    if n == 1 then None else if alloc == Some(e) then Some(n - 2) else alloc
  }

  function TrimmedDealloc(n: nat, e: nat, dealloc: Option<nat>): Option<nat>
    requires n > 0
  {
    if n == 1 then None else if dealloc == Some(e) then Some(0) else dealloc
  }

  /** No cursor is on the last chunk, unless that is the one given back. */
  predicate CursorsStay(n: nat, e: nat, alloc: Option<nat>, dealloc: Option<nat>)
    requires n > 0
  {
    e == n - 1 || (alloc != Some(n - 1) && dealloc != Some(n - 1))
  }

  /** Trimming moves the last chunk into the place of the wholly free one, but a cursor that was
      on it stays behind, on a chunk that is gone. */
  lemma {:induction false} TrimBooked(slots: seq<Slot>, blocks: nat, alloc: Option<nat>, dealloc: Option<nat>, e: nat)
    requires e < |slots| && Booked(slots, blocks, alloc, dealloc, Some(e))
    ensures var n := |slots|;
            Booked(Drop(slots, e), blocks, TrimmedAlloc(n, e, alloc), TrimmedDealloc(n, e, dealloc), None) <==>
            CursorsStay(n, e, alloc, dealloc)
  {
    var after := Drop(slots, e);
    forall c: nat | c < |after|
      ensures !AllFree(after[c], blocks)
    {
      var before := if c == e then |slots| - 1 else c;
      assert AllFree(slots[before], blocks) <==> before == e;
    }
  }

  /** Two chunks, the first wholly free, the second filled and the one last allocated from:
      here a cursor is lost, whatever the number of blocks and their size. */
  lemma {:induction false} TrimLosesCursor(blocks: nat, length: nat)
    requires 0 < blocks
    ensures var slots := [Slot(0, UpTo(0, blocks)), Slot(length, [])];
            && SlotsOk(slots, blocks) && Apart(slots, length)
            && Booked(slots, blocks, Some(1), Some(0), Some(0))
            && !Booked(Drop(slots, 0), blocks, TrimmedAlloc(2, 0, Some(1)), TrimmedDealloc(2, 0, Some(0)), None)
  {
    var slots := [Slot(0, UpTo(0, blocks)), Slot(length, [])];
    assert AllFree(slots[0], blocks) && !AllFree(slots[1], blocks);
    TrimBooked(slots, blocks, Some(1), Some(0), 0);
  }
}
