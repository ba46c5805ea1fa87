/**
  `Chunk`: a block of bytes cut into equal blocks. The first byte of each free block holds
  the index of the next free one; live blocks belong to the client.
 */
module Chunks {
  import opened Basics
  import opened Wrappers

  type byte = x: int | 0 <= x < 256

  // ----- the list hidden in the bytes -----

  /** First byte of block `i`. */
  function Head(data: seq<byte>, blockSize: nat, i: nat): byte {
    if i * blockSize < |data| then data[i * blockSize] else 0
  }

  predicate Follows(data: seq<byte>, blockSize: nat, list: seq<nat>) {
    forall i :: 0 <= i < |list| - 1 ==> Head(data, blockSize, list[i]) == list[i + 1]
  }

  predicate Below(n: nat, list: seq<nat>) {
    forall i :: 0 <= i < |list| ==> list[i] < n
  }

  /** `free` lists `available` different blocks, from `first` on, each naming the next. */
  predicate FreeList(data: seq<byte>, blockSize: nat, blocks: nat, first: byte, available: nat, free: seq<nat>) {
    && |free| == available <= blocks
    && Below(blocks, free) && NoDup(free)
    && (free != [] ==> free[0] == first)
    && Follows(data, blockSize, free)
  }

  lemma {:induction false} NoDupAt(s: seq<nat>, i: nat, j: nat)
    requires NoDup(s) && i < j < |s|
    ensures s[i] != s[j]
    decreases s
  {
    if i > 0 { NoDupAt(s[1..], i - 1, j - 1); }
  }

  /** The bytes determine the list. */
  lemma {:induction false} FreeListUnique(data: seq<byte>, blockSize: nat, blocks: nat, first: byte, available: nat,
      free: seq<nat>, other: seq<nat>)
    requires FreeList(data, blockSize, blocks, first, available, free)
    requires FreeList(data, blockSize, blocks, first, available, other)
    ensures free == other
  {
    SamePrefix(data, blockSize, free, other, |free|);
  }

  lemma {:induction false} SamePrefix(data: seq<byte>, blockSize: nat, free: seq<nat>, other: seq<nat>, n: nat)
    requires Follows(data, blockSize, free) && Follows(data, blockSize, other)
    requires n <= |free| == |other| && (free != [] ==> free[0] == other[0])
    ensures free[..n] == other[..n]
  {
    if n > 1 {
      SamePrefix(data, blockSize, free, other, n - 1);
      assert free[..n - 1][n - 2] == other[..n - 1][n - 2];
      assert Head(data, blockSize, free[n - 2]) == free[n - 2 + 1];
      assert Head(data, blockSize, other[n - 2]) == other[n - 2 + 1];
    }
  }

  // ----- blocks and their bytes -----

  /** A byte of block `i` is not the first byte of another block. */
  lemma {:induction false} OtherHead(i: nat, k: nat, j: nat, blockSize: nat)
    requires k < blockSize && i != j
    ensures j * blockSize != i * blockSize + k
  {
    if j < i { MulGap(j, i, blockSize); } else { MulGap(i, j, blockSize); }
  }

  /** Writing into a block outside a list leaves the list. */
  lemma {:induction false} WriteKeepsFollows(data: seq<byte>, blockSize: nat, list: seq<nat>, i: nat, k: nat, v: byte)
    requires k < blockSize && i * blockSize + k < |data|
    requires i !in list && Follows(data, blockSize, list)
    ensures Follows(data[i * blockSize + k := v], blockSize, list)
  {
    var after := data[i * blockSize + k := v];
    forall j | 0 <= j < |list| - 1
      ensures Head(after, blockSize, list[j]) == list[j + 1]
    {
      OtherHead(i, k, list[j], blockSize);
      assert Head(data, blockSize, list[j]) == list[j + 1];
    }
  }

  /** `i, i + 1, ..., n - 1`. */
  function UpTo(i: nat, n: nat): (s: seq<nat>)
    requires i <= n
    ensures |s| == n - i && forall k :: 0 <= k < |s| ==> s[k] == i + k
    ensures NoDup(s)
    decreases n - i
  {
    if i == n then [] else [i] + UpTo(i + 1, n)
  }

  /** The first `n` blocks name their successors. */
  predicate Numbered(data: seq<byte>, blockSize: nat, n: nat) {
    forall j :: 0 <= j < n ==> Head(data, blockSize, j) == j + 1
  }

  lemma {:induction false} NumberNext(data: seq<byte>, blockSize: nat, i: nat)
    requires Numbered(data, blockSize, i) && i * blockSize < |data| && 0 < blockSize && i < UCHAR_MAX
    ensures Numbered(data[i * blockSize := i + 1], blockSize, i + 1)
  {
    var after := data[i * blockSize := i + 1];
    forall j | 0 <= j < i + 1
      ensures Head(after, blockSize, j) == j + 1
    {
      if j < i {
        OtherHead(i, 0, j, blockSize);
        assert Head(data, blockSize, j) == j + 1;
      }
    }
  }

  /** `seen` was met on the way from `first` to `index`. */
  predicate Walked(data: seq<byte>, blockSize: nat, blocks: nat, first: byte, seen: seq<nat>, index: nat) {
    && Below(blocks, seen) && NoDup(seen) && Follows(data, blockSize, seen)
    && (seen == [] ==> index == first)
    && (seen != [] ==> seen[0] == first && Head(data, blockSize, seen[|seen| - 1]) == index)
  }

  lemma {:induction false} WalkOn(data: seq<byte>, blockSize: nat, blocks: nat, first: byte, seen: seq<nat>, index: nat)
    requires Walked(data, blockSize, blocks, first, seen, index) && index < blocks && index !in seen
    ensures Walked(data, blockSize, blocks, first, seen + [index], Head(data, blockSize, index))
  {
    NoDupExtend(seen, index);
    var more := seen + [index];
    forall i | 0 <= i < |more| - 1
      ensures Head(data, blockSize, more[i]) == more[i + 1]
    {
      if i < |seen| - 1 { assert Head(data, blockSize, seen[i]) == seen[i + 1]; }
    }
  }

  /** Any free list goes the way walked; so a bad next index means there is none. */
  lemma {:induction false} WalkedIsForced(data: seq<byte>, blockSize: nat, blocks: nat, first: byte, available: nat,
      seen: seq<nat>, index: nat)
    requires Walked(data, blockSize, blocks, first, seen, index) && 0 < |seen| < available
    requires index >= blocks || index in seen
    ensures forall list :: !FreeList(data, blockSize, blocks, first, available, list)
  {
    forall list | FreeList(data, blockSize, blocks, first, available, list)
      ensures false
    {
      var n := |seen|;
      SamePrefix(data, blockSize, seen, list[..n], n);
      assert seen == list[..n];
      assert Head(data, blockSize, list[n - 1]) == list[n - 1 + 1];
      assert list[n] == index;
      if index in seen {
        var j :| 0 <= j < n && seen[j] == index;
        NoDupAt(list, j, n);
      }
    }
  }

  class Chunk {
    var data: array<byte>
    /** Address of `data`. */
    var base: int
    var first: byte
    var available: byte
    ghost var free: seq<nat>

    ghost predicate Valid(blockSize: nat, blocks: nat)
      reads this, data
    {
      && 0 < blockSize && 0 < blocks <= UCHAR_MAX
      && data.Length == blocks * blockSize
      && FreeList(data[..], blockSize, blocks, first, available, free)
    }

    /** `Init`: memory delivered, or not, by the system. */
    constructor (mem: array<byte>, at: int, blockSize: nat, blocks: nat)
      requires 0 < blockSize && 0 < blocks <= UCHAR_MAX && mem.Length == blocks * blockSize
      modifies mem
      ensures Valid(blockSize, blocks) && data == mem && base == at
      ensures free == UpTo(0, blocks)
    {
      data := mem;
      base := at;
      first, available := 0, 0;
      free := [];
      new;
      Reset(blockSize, blocks);
    }

    /** `Reset`: all blocks free, in address order. */
    method Reset(blockSize: nat, blocks: nat)
      requires 0 < blockSize && 0 < blocks <= UCHAR_MAX && data.Length == blocks * blockSize
      modifies `first, `available, `free, data
      ensures Valid(blockSize, blocks) && free == UpTo(0, blocks)
    {
      first := 0;
      available := blocks;
      var i, p := 0, 0;
      while i != blocks
        invariant 0 <= i <= blocks && p == i * blockSize
        invariant Numbered(data[..], blockSize, i)
        decreases blocks - i
        modifies data
      {
        MulGap(i, blocks, blockSize);
        NumberNext(data[..], blockSize, i);
        i := i + 1;
        data[p] := i;
        p := p + blockSize;
      }
      free := UpTo(0, blocks);
    }

    function HasBlock(p: int, chunkLength: nat): bool
      reads this
    {
      base <= p < base + chunkLength
    }

    predicate HasAvailable(blocks: nat)
      reads this
    {
      available == blocks
    }

    predicate IsFilled()
      reads this
    {
      available == 0
    }

    /** `Allocate`: the first free block; its next one becomes the first. */
    method Allocate(blockSize: nat, ghost blocks: nat) returns (p: Option<int>)
      requires Valid(blockSize, blocks)
      modifies `first, `available, `free
      ensures Valid(blockSize, blocks)
      ensures old(free) == [] ==> p == None && free == []
      ensures old(free) != [] ==> p == Some(base + old(free)[0] * blockSize) && free == old(free)[1..]
    {
      if IsFilled() {
        return None;
      }
      MulGap(first, blocks, blockSize);
      ghost var list := free;
      assert |list| > 1 ==> Head(data[..], blockSize, list[0]) == list[0 + 1];
      var result := first * blockSize;
      first := data[result];
      available := available - 1;
      free := list[1..];
      p := Some(base + result);
    }

    /** `Deallocate`: the block becomes the first free one. */
    method Deallocate(p: int, blockSize: nat, ghost blocks: nat, ghost i: nat)
      requires Valid(blockSize, blocks)
      requires i < blocks && p == base + i * blockSize && i !in free
      modifies `first, `available, `free, data
      ensures Valid(blockSize, blocks)
      ensures free == [i] + old(free)
      ensures i * blockSize < data.Length && data[..] == old(data[..])[i * blockSize := old(first)]
    {
      MulGap(i, blocks, blockSize);
      IndexOf(i, blockSize);
      Pigeonhole(free, i, blocks);
      WriteKeepsFollows(data[..], blockSize, free, i, 0, first);
      var index: byte := (p - base) / blockSize % 256;
      data[p - base] := first;
      first := index;
      available := available + 1;
      free := [i] + free;
    }

    /** `IsCorrupt`: with all checks, true exactly when the bytes hide no list of as many
        blocks as are said to be available. */
    method IsCorrupt(blocks: nat, blockSize: nat, checkIndexes: bool) returns (corrupt: bool)
      requires 0 < blockSize && 0 < blocks <= UCHAR_MAX && data.Length == blocks * blockSize
      ensures checkIndexes ==>
                (corrupt <==> forall list :: !FreeList(data[..], blockSize, blocks, first, available, list))
      ensures !checkIndexes ==> (corrupt <==> available > blocks || (available > 0 && first >= blocks))
    {
      if blocks < available {
        return true;
      }
      if IsFilled() {
        assert FreeList(data[..], blockSize, blocks, first, available, []);
        return false;
      }
      var index: byte := first;
      if blocks <= index {
        return true;
      }
      if !checkIndexes {
        return false;
      }
      var found: set<nat> := {};
      ghost var seen: seq<nat> := [];
      var cc := 0;
      while true
        invariant 0 <= cc == |seen| < available && index < blocks
        invariant Walked(data[..], blockSize, blocks, first, seen, index)
        invariant index !in seen && forall k :: k in found <==> k in seen
        invariant |found| == cc
        decreases available - cc
      {
        MulGap(index, blocks, blockSize);
        found := found + {index};
        WalkOn(data[..], blockSize, blocks, first, seen, index);
        seen := seen + [index];
        cc := cc + 1;
        if cc >= available {
          break;
        }
        index := data[index * blockSize];
        if blocks <= index || index in found {
          WalkedIsForced(data[..], blockSize, blocks, first, available, seen, index);
          return true;
        }
      }
      if |found| != available {
        assert false;
      }
      assert FreeList(data[..], blockSize, blocks, first, available, seen);
      return false;
    }

    /** `IsBlockAvailable`: whether block `i` is in the free list. */
    method IsBlockAvailable(p: int, blocks: nat, blockSize: nat, ghost i: nat) returns (yes: bool)
      requires Valid(blockSize, blocks) && i < blocks && p == base + i * blockSize
      ensures yes <==> i in free
    {
      if IsFilled() {
        return false;
      }
      IndexOf(i, blockSize);
      var blockIndex := (p - base) / blockSize % 256;
      yes := Search(blockIndex, blocks, blockSize);
    }

    /** The walk along the free list in search of a block. */
    method Search(blockIndex: nat, blocks: nat, blockSize: nat) returns (yes: bool)
      requires Valid(blockSize, blocks) && free != []
      ensures yes <==> blockIndex in free
    {
      var index := first;
      if index == blockIndex {
        return true;
      }
      var cc := 0;
      while true
        invariant 0 <= cc < available && index == free[cc]
        invariant forall k :: 0 <= k <= cc ==> free[k] != blockIndex
        decreases available - cc
      {
        MulGap(index, blocks, blockSize);
        cc := cc + 1;
        if cc >= available {
          break;
        }
        assert Head(data[..], blockSize, free[cc - 1]) == free[cc - 1 + 1];
        index := data[index * blockSize];
        if index == blockIndex {
          return true;
        }
      }
      return false;
    }

    /** `std::swap` of two chunks. */
    method SwapWith(that: Chunk, ghost blockSize: nat, ghost blocks: nat)
      requires Valid(blockSize, blocks) && that.Valid(blockSize, blocks)
      modifies this, that
      ensures Valid(blockSize, blocks) && that.Valid(blockSize, blocks)
      ensures data == old(that.data) && base == old(that.base) && free == old(that.free)
      ensures that.data == old(data) && that.base == old(base) && that.free == old(free)
    {
      data, that.data := that.data, data;
      base, that.base := that.base, base;
      first, that.first := that.first, first;
      available, that.available := that.available, available;
      free, that.free := that.free, free;
    }

    /** The client writes byte `k` of the live block at `p`. */
    method Write(p: int, k: nat, v: byte, ghost blockSize: nat, ghost blocks: nat, ghost i: nat)
      requires Valid(blockSize, blocks) && i < blocks && k < blockSize && i !in free
      requires p == base + i * blockSize
      modifies data
      ensures Valid(blockSize, blocks)
      ensures 0 <= p - base + k < data.Length && data[..] == old(data[..])[p - base + k := v]
    {
      MulGap(i, blocks, blockSize);
      WriteKeepsFollows(data[..], blockSize, free, i, k, v);
      data[p - base + k] := v;
    }
  }

  const UCHAR_MAX := 255

  lemma {:induction false} IndexOf(i: nat, blockSize: nat)
    requires 0 < blockSize
    ensures i * blockSize / blockSize == i
  {
    var n := i * blockSize;
    var q, r := n / blockSize, n % blockSize;
    assert n == q * blockSize + r;
    if q < i { MulGap(q, i, blockSize); }
    if i < q { MulGap(i, q, blockSize); }
  }

  function Naturals(n: nat): (r: set<nat>)
    ensures |r| == n && forall k: nat :: k in r <==> k < n
  {
    if n == 0 then {} else Naturals(n - 1) + {n - 1}
  }

  function Elements(s: seq<nat>): (r: set<nat>)
    requires NoDup(s)
    ensures |r| == |s| && forall k :: k in r <==> k in s
  {
    if s == [] then {} else Elements(s[1..]) + {s[0]}
  }

  /** Different numbers below `n`, and one more, are at most `n`. */
  lemma {:induction false} Pigeonhole(s: seq<nat>, x: nat, n: nat)
    requires NoDup(s) && Below(n, s) && x < n && x !in s
    ensures |s| < n
  {
    Subset(Elements(s) + {x}, Naturals(n));
  }
}
