/**
  `SmallObjAllocator`: requests are routed by size to one of a row of `FixedAllocator`s.
 */
module SmallObjects {
  import opened Basics
  import opened Wrappers
  import opened Chunks
  import opened SlotPools
  import opened FixedAllocators

  /** `GetOffset`. */
  function GetOffset(numBytes: nat, alignment: nat): nat
    requires 0 < alignment
  {
    (numBytes + (alignment - 1)) / alignment
  }

  /** It rounds up: so many times the alignment cover the size, and one time fewer does not. */
  lemma {:induction false} OffsetRoundsUp(numBytes: nat, alignment: nat)
    requires 0 < alignment
    ensures var n := GetOffset(numBytes, alignment);
            && numBytes <= n * alignment < numBytes + alignment
            && (numBytes > 0 ==> n > 0)
  {
    var m := numBytes + (alignment - 1);
    assert m == m / alignment * alignment + m % alignment;
    if numBytes > 0 && m / alignment == 0 { assert false; }
  }

  lemma {:induction false} OffsetMonotone(a: nat, b: nat, alignment: nat)
    requires 0 < alignment && a <= b
    ensures GetOffset(a, alignment) <= GetOffset(b, alignment)
  {
    OffsetRoundsUp(a, alignment);
    OffsetRoundsUp(b, alignment);
    var n, m := GetOffset(a, alignment), GetOffset(b, alignment);
    if m < n { MulGap(m, n, alignment); }
  }

  /** No memory at an address of the first set overlaps memory at one of the second. */
  predicate AllBeside(bases: set<int>, length: nat, others: set<int>, otherLength: nat) {
    forall x, y :: x in bases && y in others ==> Beside(x, length, y, otherLength)
  }

  /** The two share no chunk and no memory. */
  ghost predicate Separate(a: FixedAllocator, b: FixedAllocator)
    reads a, b
  {
    && a.Repr() !! b.Repr()
    && AllBeside(a.ChunkBases(), a.ChunkLength(), b.ChunkBases(), b.ChunkLength())
  }

  /** The memory belongs to no chunk of the allocator and overlaps none. */
  ghost predicate Unused(a: FixedAllocator, mem: array<byte>, at: int)
    reads a
  {
    mem !in a.Repr() && AllBeside(a.ChunkBases(), a.ChunkLength(), {at}, mem.Length)
  }

  ghost predicate InChunk(a: FixedAllocator, c: nat, p: int)
    reads a
  {
    c < |a.slots| && Covers(a.slots[c], a.ChunkLength(), p)
  }

  /** The objects all but one of the allocators are made of. */
  ghost function ReprBut(pool: seq<FixedAllocator>, index: nat): set<object>
    reads pool
  {
    set i, o | 0 <= i < |pool| && i != index && o in pool[i].Repr() :: o
  }

  /** Block sizes are the multiples of the alignment. */
  ghost predicate Stepped(pool: seq<FixedAllocator>, alignSize: nat)
    reads pool
  {
    forall i :: 0 <= i < |pool| ==> pool[i].blockSize == (i + 1) * alignSize
  }

  /** Every allocator is in order, and no two have anything to do with each other. */
  ghost predicate AllValid(pool: seq<FixedAllocator>)
    reads pool, ReprBut(pool, |pool|)
  {
    && (forall i :: 0 <= i < |pool| ==> pool[i].Valid())
    && (forall i, j :: 0 <= i < |pool| && 0 <= j < |pool| && i != j ==> Separate(pool[i], pool[j]))
  }

  lemma {:induction false} BesideOthers(pool: seq<FixedAllocator>, index: nat)
    requires index < |pool| && AllValid(pool)
    ensures pool[index].Repr() !! ReprBut(pool, index)
  {
    forall o | o in ReprBut(pool, index)
      ensures o !in pool[index].Repr()
    {
      var i :| 0 <= i < |pool| && i != index && o in pool[i].Repr();
      assert Separate(pool[i], pool[index]);
    }
  }

  /** Allocators without chunks have nothing to do with each other. */
  lemma {:induction false} EmptyPool(pool: seq<FixedAllocator>)
    requires forall k :: 0 <= k < |pool| ==> Untouched(pool[k])
    requires forall k, l :: 0 <= k < |pool| && 0 <= l < |pool| && k != l ==> pool[k] != pool[l]
    ensures AllValid(pool) && forall k :: 0 <= k < |pool| ==> pool[k].LiveBlocks() == {}
  {
  }

  /** Without chunks. */
  ghost predicate Untouched(a: FixedAllocator)
    reads a.Repr()
  {
    a.Valid() && a.owner == map[] && a.home == map[] && a.slots == []
  }

  /** Live blocks of the whole pool do not overlap; in particular a block is live in one
      allocator at most. */
  lemma {:induction false} PoolDisjoint(pool: seq<FixedAllocator>, i: nat, a: int, j: nat, b: int)
    requires AllValid(pool) && i < |pool| && j < |pool|
    requires a in pool[i].LiveBlocks() && b in pool[j].LiveBlocks() && (i != j || a != b)
    ensures Beside(a, pool[i].blockSize, b, pool[j].blockSize)
  {
    if i == j {
      LiveDisjoint(pool[i].slots, pool[i].blockSize, pool[i].numBlocks, a, b);
    } else {
      assert Separate(pool[i], pool[j]);
      var x := pool[i].Home(a);
      var y := pool[j].Home(b);
      assert Beside(x, pool[i].ChunkLength(), y, pool[j].ChunkLength());
    }
  }

  lemma {:induction false} LiveInOne(pool: seq<FixedAllocator>, p: int, k: nat)
    requires AllValid(pool) && k < |pool| && p in pool[k].LiveBlocks()
    ensures forall i :: 0 <= i < |pool| && i != k ==> p !in pool[i].LiveBlocks()
  {
    forall i | 0 <= i < |pool| && i != k && p in pool[i].LiveBlocks()
      ensures false
    {
      PoolDisjoint(pool, i, p, k, p);
    }
  }

  lemma {:induction false} NowhereLive(pool: seq<FixedAllocator>, p: int)
    requires AllValid(pool) && forall i :: 0 <= i < |pool| ==> pool[i].Misses(0, |pool[i].slots|, p)
    ensures forall i :: 0 <= i < |pool| ==> p !in pool[i].LiveBlocks()
  {
    forall i | 0 <= i < |pool|
      ensures p !in pool[i].LiveBlocks()
    {
      pool[i].MissedIsNotLive(p);
    }
  }

  /** No other allocator covers a live block. */
  lemma {:induction false} OthersMiss(pool: seq<FixedAllocator>, p: int, k: nat)
    requires AllValid(pool) && k < |pool| && p in pool[k].LiveBlocks()
    ensures forall i :: 0 <= i < |pool| && i != k ==> pool[i].Misses(0, |pool[i].slots|, p)
  {
    forall i | 0 <= i < |pool| && i != k
      ensures pool[i].Misses(0, |pool[i].slots|, p)
    {
      assert Separate(pool[i], pool[k]);
      OtherMisses(pool[i], pool[k], p);
    }
  }

  lemma {:induction false} OtherMisses(a: FixedAllocator, b: FixedAllocator, p: int)
    requires b.Valid() && p in b.LiveBlocks()
    requires AllBeside(a.ChunkBases(), a.ChunkLength(), b.ChunkBases(), b.ChunkLength())
    ensures a.Misses(0, |a.slots|, p)
  {
    var base := b.Home(p);
    forall c | 0 <= c < |a.slots|
      ensures !Covers(a.slots[c], a.ChunkLength(), p)
    {
      assert a.slots[c].base in a.ChunkBases();
      assert Beside(a.slots[c].base, a.ChunkLength(), base, b.ChunkLength());
    }
  }

  // ----- what a call on one of the allocators keeps -----

  /** No other allocator uses memory at these addresses. */
  ghost predicate Spare(pool: seq<FixedAllocator>, index: nat, bases: set<int>)
    requires index < |pool|
    reads pool
  {
    forall i :: 0 <= i < |pool| && i != index ==>
      AllBeside(pool[i].ChunkBases(), pool[i].ChunkLength(), bases, pool[index].ChunkLength())
  }

  /** The allocator has grown by newly made chunks only, at such addresses. */
  twostate predicate Grown(pool: seq<FixedAllocator>, new index: nat, new bases: set<int>)
    requires index < |pool|
    reads pool
  {
    && pool[index].blockSize == old(pool[index].blockSize) && pool[index].numBlocks == old(pool[index].numBlocks)
    && pool[index].Repr() !! old(ReprBut(pool, index))
    && pool[index].ChunkBases() <= old(pool[index].ChunkBases()) + bases
  }

  twostate lemma {:induction false} OthersKept(pool: seq<FixedAllocator>, new index: nat)
    requires old(AllValid(pool)) && unchanged(old(ReprBut(pool, index)))
    ensures forall i :: 0 <= i < |pool| && i != index ==> pool[i].Valid() && unchanged(pool[i])
  {
    forall i | 0 <= i < |pool| && i != index
      ensures pool[i].Valid() && unchanged(pool[i])
    {
      assert old(pool[i].Repr() <= ReprBut(pool, index));
      assert pool[i] in old(ReprBut(pool, index));
    }
  }

  twostate lemma {:induction false} SeparateKept(pool: seq<FixedAllocator>, new index: nat, new i: nat, new bases: set<int>)
    requires index < |pool| && i < |pool| && i != index
    requires old(Separate(pool[i], pool[index]) && Spare(pool, index, bases)) && unchanged(old(ReprBut(pool, index))) && Grown(pool, index, bases)
    ensures Separate(pool[i], pool[index]) && Separate(pool[index], pool[i])
  {
    assert old(pool[i].Repr() <= ReprBut(pool, index));
    assert pool[i] in old(ReprBut(pool, index));
  }

  twostate lemma {:induction false} AllKept(pool: seq<FixedAllocator>, new index: nat, new bases: set<int>)
    requires index < |pool| && old(AllValid(pool) && Spare(pool, index, bases))
    requires pool[index].Valid() && unchanged(old(ReprBut(pool, index))) && Grown(pool, index, bases)
    ensures AllValid(pool)
    ensures forall i :: 0 <= i < |pool| && i != index ==>
              pool[i].LiveBlocks() == old(pool[i].LiveBlocks()) && pool[i].blockSize == old(pool[i].blockSize)
  {
    OthersKept(pool, index);
    forall i, j | 0 <= i < |pool| && 0 <= j < |pool| && i != j
      ensures Separate(pool[i], pool[j])
    {
      assert old(Separate(pool[i], pool[j]));
      if i == index {
        SeparateKept(pool, index, j, bases);
      } else if j == index {
        SeparateKept(pool, index, i, bases);
      }
    }
  }

  /** A block that has become live was live in none. */
  twostate lemma {:induction false} NewInOne(pool: seq<FixedAllocator>, new p: int, new index: nat)
    requires AllValid(pool) && index < |pool|
    requires p in pool[index].LiveBlocks() && p !in old(pool[index].LiveBlocks())
    requires forall i :: 0 <= i < |pool| && i != index ==> pool[i].LiveBlocks() == old(pool[i].LiveBlocks())
    ensures forall i :: 0 <= i < |pool| ==> p !in old(pool[i].LiveBlocks())
  {
    LiveInOne(pool, p, index);
  }

  class SmallObjAllocator {
    const maxSmallObjectSize: nat
    const objectAlignSize: nat
    const pool: seq<FixedAllocator>

    /** The pool has an allocator for each multiple of the alignment up to the maximum. */
    ghost predicate Routed()
      reads pool
    {
      && 0 < objectAlignSize
      && |pool| == GetOffset(maxSmallObjectSize, objectAlignSize)
      && Stepped(pool, objectAlignSize)
    }

    /** The class invariant. */
    ghost predicate Valid()
      reads pool, ReprBut(pool, |pool|)
    {
      Routed() && AllValid(pool)
    }

    constructor (pageSize: nat, maxObjectSize: nat, alignSize: nat)
      requires 0 < alignSize
      ensures Valid() && maxSmallObjectSize == maxObjectSize && objectAlignSize == alignSize
      ensures forall i :: 0 <= i < |pool| ==> fresh(pool[i].Repr()) && pool[i].LiveBlocks() == {}
    {
      var allocCount := GetOffset(maxObjectSize, alignSize);
      var allocators := MakePool(allocCount, pageSize, alignSize);
      maxSmallObjectSize, objectAlignSize := maxObjectSize, alignSize;
      pool := allocators;
      new;
      assert AllValid(pool);
    }

    /** An allocator without chunks for each of the first multiples of the alignment. */
    static method MakePool(allocCount: nat, pageSize: nat, alignSize: nat) returns (pool: seq<FixedAllocator>)
      requires 0 < alignSize
      ensures |pool| == allocCount && AllValid(pool) && Stepped(pool, alignSize)
      ensures forall i :: 0 <= i < |pool| ==> fresh(pool[i].Repr()) && pool[i].LiveBlocks() == {}
    {
      pool := [];
      for i := 0 to allocCount
        invariant |pool| == i && Stepped(pool, alignSize)
        invariant forall k :: 0 <= k < i ==> fresh(pool[k]) && Untouched(pool[k])
        invariant forall k, l :: 0 <= k < i && 0 <= l < i && k != l ==> pool[k] != pool[l]
      {
        Product(i, alignSize);
        assert (i + 1) * alignSize == i * alignSize + alignSize;
        var allocator := new FixedAllocator((i + 1) * alignSize, pageSize);
        pool := pool + [allocator];
      }
      EmptyPool(pool);
    }

    /** Which allocator serves a request of so many bytes. */
    function Index(numBytes: nat): int
      requires 0 < objectAlignSize
    {
      GetOffset(if numBytes == 0 then 1 else numBytes, objectAlignSize) - 1
    }

    /** It exists, its blocks are large enough, and smaller ones would not be. */
    lemma {:induction false} RouteFits(numBytes: nat)
      requires Routed() && numBytes <= maxSmallObjectSize && 0 < maxSmallObjectSize
      ensures var n := if numBytes == 0 then 1 else numBytes;
              var i := Index(numBytes);
              && 0 <= i < |pool|
              && n <= pool[i].blockSize < n + objectAlignSize
              && (forall k :: 0 <= k < i ==> pool[k].blockSize < n)
    {
      var n := if numBytes == 0 then 1 else numBytes;
      OffsetRoundsUp(n, objectAlignSize);
      OffsetMonotone(n, maxSmallObjectSize, objectAlignSize);
      var i := Index(numBytes);
      forall k | 0 <= k < i
        ensures pool[k].blockSize < n
      {
        Product(i - k - 1, objectAlignSize);
        assert (i + 1) * objectAlignSize == (k + 1) * objectAlignSize + (i - k - 1) * objectAlignSize + objectAlignSize;
      }
    }

    /** The allocator for requests of so many bytes. */
    ghost function Serving(numBytes: nat): FixedAllocator
      reads pool
      requires Routed() && numBytes <= maxSmallObjectSize && 0 < maxSmallObjectSize
    {
      RouteFits(numBytes);
      pool[Index(numBytes)]
    }

    /** What the system may deliver: memory that overlaps no chunk of any allocator. */
    ghost predicate Delivered(mem: array<byte>, at: int)
      reads pool
    {
      forall i :: 0 <= i < |pool| ==> Unused(pool[i], mem, at)
    }

    lemma {:induction false} DeliveredSpare(mem: array<byte>, at: int, i: nat)
      requires Delivered(mem, at) && i < |pool| && mem.Length == pool[i].ChunkLength()
      ensures pool[i].Fresh(mem, at) && Spare(pool, i, {at})
      ensures mem !in ReprBut(pool, i)
    {
      var a := pool[i];
      assert Unused(a, mem, at);
      forall c | 0 <= c < |a.slots|
        ensures Clear(a.slots[c].base, at, a.ChunkLength())
      {
        assert a.slots[c].base in a.ChunkBases() && at in {at};
      }
    }

    /** `Allocate` for a small request: a block that was live in no allocator is live in the
        one for its size. `mem` and `at` are what the system has to offer should a chunk be
        needed. */
    method Allocate(numBytes: nat, mem: array?<byte>, at: int) returns (p: Option<int>)
      requires Valid() && numBytes <= maxSmallObjectSize && 0 < maxSmallObjectSize
      requires mem != null ==> Delivered(mem, at) && mem.Length == Serving(numBytes).ChunkLength()
      modifies Serving(numBytes), Serving(numBytes).owner.Keys, mem
      ensures Valid() && numBytes <= Serving(numBytes).blockSize
      ensures p.Some? ==> forall i :: 0 <= i < |pool| ==> p.value !in old(pool[i].LiveBlocks())
      ensures p.None? ==> mem == null && AllFull(Serving(numBytes).slots)
      ensures fresh(Serving(numBytes).Repr() - old(Serving(numBytes).Repr()) - {mem})
      ensures forall i :: 0 <= i < |pool| ==>
                pool[i].LiveBlocks() ==
                old(pool[i].LiveBlocks()) + (if i == Index(numBytes) && p.Some? then {p.value} else {})
    {
      RouteFits(numBytes);
      var n := if numBytes == 0 then 1 else numBytes;
      var index := GetOffset(n, objectAlignSize) - 1;
      p := AllocateFrom(index, mem, at);
    }

    method AllocateFrom(index: nat, mem: array?<byte>, at: int) returns (p: Option<int>)
      requires AllValid(pool) && index < |pool|
      requires mem != null ==> Delivered(mem, at) && mem.Length == pool[index].ChunkLength()
      modifies pool[index], pool[index].owner.Keys, mem
      ensures AllValid(pool) && forall i :: 0 <= i < |pool| ==> pool[i].blockSize == old(pool[i].blockSize)
      ensures p.Some? ==> forall i :: 0 <= i < |pool| ==> p.value !in old(pool[i].LiveBlocks())
      ensures p.None? ==> mem == null && AllFull(pool[index].slots)
      ensures fresh(pool[index].Repr() - old(pool[index].Repr()) - {mem})
      ensures forall i :: 0 <= i < |pool| ==>
                pool[i].LiveBlocks() ==
                old(pool[i].LiveBlocks()) + (if i == index && p.Some? then {p.value} else {})
    {
      ghost var bases: set<int> := {};
      if mem != null {
        bases := {at};
        DeliveredSpare(mem, at, index);
      }
      BesideOthers(pool, index);
      p := AllocateBeside(pool[index], mem, at, ReprBut(pool, index));
      AllKept(pool, index, bases);
      if p.Some? { NewInOne(pool, p.value, index); }
    }

    /** Nothing else of the pool is touched. */
    static method AllocateBeside(a: FixedAllocator, mem: array?<byte>, at: int, ghost rest: set<object>) returns (p: Option<int>)
      requires a.Valid() && (mem != null ==> a.Fresh(mem, at))
      requires a.Repr() !! rest && mem !in rest
      modifies a, a.owner.Keys, mem
      ensures a.Valid() && unchanged(rest) && a.Repr() !! rest && fresh(a.Repr() - old(a.Repr()) - {mem})
      ensures a.blockSize == old(a.blockSize) && a.numBlocks == old(a.numBlocks)
      ensures a.ChunkBases() <= old(a.ChunkBases()) + (if mem == null then {} else {at})
      ensures p.Some? ==> p.value !in old(a.LiveBlocks())
      ensures p.None? ==> mem == null && AllFull(a.slots)
      ensures a.LiveBlocks() == old(a.LiveBlocks()) + (if p.Some? then {p.value} else {})
    {
      forall o | o in rest
        ensures o != a && o !in a.owner.Keys && o != mem
      {
      }
      p := a.Allocate(mem, at);
    }

    /** `Deallocate` with the size that was allocated: finds the same allocator. */
    method Deallocate(p: int, numBytes: nat)
      requires Valid() && numBytes <= maxSmallObjectSize && 0 < maxSmallObjectSize
      requires p in Serving(numBytes).LiveBlocks()
      modifies Serving(numBytes).Repr()
      ensures Valid() && Serving(numBytes).Repr() <= old(Serving(numBytes).Repr())
      ensures forall i :: 0 <= i < |pool| ==> pool[i].LiveBlocks() == old(pool[i].LiveBlocks()) - {p}
    {
      RouteFits(numBytes);
      var n := if numBytes == 0 then 1 else numBytes;
      var index := GetOffset(n, objectAlignSize) - 1;
      var found := DeallocateFrom(index, p, None);
      assert found;
    }

    /** `Deallocate` without a size: the first allocator with a chunk that covers the address gets
        the block back, and it is the one the block came from; an address of none is left to the
        default deallocator. `k` is the allocator the block came from, or the number of
        allocators. */
    method DeallocateAny(p: int, ghost k: nat) returns (found: bool)
      requires Valid() && k <= |pool|
      requires k < |pool| ==> p in pool[k].LiveBlocks()
      requires k == |pool| ==> forall i :: 0 <= i < |pool| ==> pool[i].Misses(0, |pool[i].slots|, p)
      modifies if k < |pool| then pool[k].Repr() else {}
      ensures Valid() && found == (k < |pool|)
      ensures k < |pool| ==> pool[k].Repr() <= old(pool[k].Repr())
      ensures forall i :: 0 <= i < |pool| ==> pool[i].LiveBlocks() == old(pool[i].LiveBlocks()) - {p}
    {
      var i, chunk := FindAllocator(p, k);
      if i == |pool| {
        return false;
      }
      found := DeallocateFrom(i, p, chunk);
    }

    /** The search over all allocators and their chunks. */
    method FindAllocator(p: int, ghost k: nat) returns (i: nat, chunk: Option<nat>)
      requires AllValid(pool) && k <= |pool|
      requires k < |pool| ==> p in pool[k].LiveBlocks()
      requires k == |pool| ==> forall i :: 0 <= i < |pool| ==> pool[i].Misses(0, |pool[i].slots|, p)
      ensures i == k && (i < |pool| ==> chunk.Some? && InChunk(pool[i], chunk.value, p))
      ensures i == |pool| ==> forall j :: 0 <= j < |pool| ==> p !in pool[j].LiveBlocks()
    {
      chunk := None;
      i := 0;
      if k < |pool| { OthersMiss(pool, p, k); } else { NowhereLive(pool, p); }
      while i < |pool|
        invariant i <= k
      {
        chunk := pool[i].HasBlock(p);
        if chunk.Some? {
          return;
        }
        if i == k { pool[k].MissedIsNotLive(p); }
        i := i + 1;
      }
    }

    method DeallocateFrom(index: nat, p: int, hint: Option<nat>) returns (found: bool)
      requires AllValid(pool) && index < |pool| && p in pool[index].LiveBlocks()
      requires hint.Some? ==> InChunk(pool[index], hint.value, p)
      modifies pool[index].Repr()
      ensures AllValid(pool) && found && pool[index].Repr() <= old(pool[index].Repr())
      ensures forall i :: 0 <= i < |pool| ==> pool[i].blockSize == old(pool[i].blockSize)
      ensures forall i :: 0 <= i < |pool| ==> pool[i].LiveBlocks() == old(pool[i].LiveBlocks()) - {p}
    {
      BesideOthers(pool, index);
      LiveInOne(pool, p, index);
      found := DeallocateBeside(pool[index], p, hint, ReprBut(pool, index));
      AllKept(pool, index, {});
    }

    static method DeallocateBeside(a: FixedAllocator, p: int, hint: Option<nat>, ghost rest: set<object>) returns (found: bool)
      requires a.Valid() && p in a.LiveBlocks() && a.Repr() !! rest
      requires hint.Some? ==> InChunk(a, hint.value, p)
      modifies a.Repr()
      ensures a.Valid() && unchanged(rest) && a.Repr() !! rest && a.Repr() <= old(a.Repr()) && found
      ensures a.blockSize == old(a.blockSize) && a.numBlocks == old(a.numBlocks)
      ensures a.ChunkBases() <= old(a.ChunkBases())
      ensures a.LiveBlocks() == old(a.LiveBlocks()) - {p}
    {
      forall o | o in rest
        ensures o !in a.Repr()
      {
      }
      found := a.Deallocate(p, hint);
    }
  }
}
