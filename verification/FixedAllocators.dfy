/**
  `FixedAllocator`: a growing sequence of chunks with three cursors. Ghost fields keep the
  pool of `SlotPools` the chunks amount to.
 */
module FixedAllocators {
  import opened Basics
  import opened Wrappers
  import opened Chunks
  import opened SlotPools

  const MIN_OBJECTS := 8
  const MAX_OBJECTS := UCHAR_MAX

  /** Blocks per chunk. */
  function BlocksPerChunk(blockSize: nat, pageSize: nat): (n: nat)
    requires 0 < blockSize
    ensures 8 <= n <= 255
    ensures n * blockSize <= pageSize || n == 8
    ensures n == 255 || (n + 1) * blockSize > pageSize
  {
    var n := pageSize / blockSize;
    if n > MAX_OBJECTS then MAX_OBJECTS else if n < MIN_OBJECTS then MIN_OBJECTS else n
  }

  /** Of memory at `base`, the byte at address `q` has become `v`, if it is there, and all other
      bytes are as before. */
  predicate Written(base: int, before: seq<byte>, after: seq<byte>, q: int, v: byte) {
    && |after| == |before|
    && forall j :: 0 <= j < |after| ==> after[j] == if base + j == q then v else before[j]
  }

  class FixedAllocator {
    var blockSize: nat
    var numBlocks: nat
    var chunks: seq<Chunk>
    /** Cursors into `chunks`; `None` for the null pointer. */
    var alloc: Option<nat>
    var dealloc: Option<nat>
    var empty: Option<nat>
    ghost var slots: seq<Slot>
    /** The position of each chunk, and which chunk a piece of memory belongs to. */
    ghost var owner: map<Chunk, nat>
    ghost var home: map<array<byte>, nat>

    /** Chunk `c` is what `slots` says, and shares nothing with the others. */
    ghost predicate Placed(c: nat)
      reads `blockSize, `numBlocks, `chunks, `slots, `owner, `home, owner.Keys, home.Keys
      requires c < |chunks| == |slots|
    {
      && chunks[c] in owner && owner[chunks[c]] == c
      && chunks[c].data in home && home[chunks[c].data] == c
      && chunks[c].Valid(blockSize, numBlocks)
      && chunks[c].base == slots[c].base && chunks[c].free == slots[c].free
    }

    ghost predicate Linked()
      reads `blockSize, `numBlocks, `chunks, `slots, `owner, `home, owner.Keys, home.Keys
    {
      && 0 < blockSize && MIN_OBJECTS <= numBlocks <= MAX_OBJECTS
      && |chunks| == |slots|
      && (forall c :: 0 <= c < |chunks| ==> Placed(c))
      && SlotsOk(slots, numBlocks) && Apart(slots, numBlocks * blockSize)
    }

    /** The class invariant. */
    ghost predicate Valid()
      reads Repr()
    {
      Linked() && Booked(slots, numBlocks, alloc, dealloc, empty)
    }

    /** The objects the allocator is made of. */
    ghost function Repr(): set<object>
      reads `owner, `home
    {
      {this} + owner.Keys + home.Keys
    }

    /** Addresses of the blocks in the clients' hands. */
    ghost function LiveBlocks(): set<int>
      reads `slots, `blockSize, `numBlocks
    {
      Live(slots, blockSize, numBlocks)
    }

    /** `Initialize`, after the constructor. */
    constructor (size: nat, pageSize: nat)
      requires 0 < size
      ensures Valid() && LiveBlocks() == {} && blockSize == size && chunks == [] && owner == map[] && home == map[]
      ensures numBlocks == BlocksPerChunk(size, pageSize)
    {
      blockSize := size;
      var n := pageSize / size;
      if n > MAX_OBJECTS {
        n := MAX_OBJECTS;
      } else if n < MIN_OBJECTS {
        n := MIN_OBJECTS;
      }
      numBlocks := n;
      chunks, slots := [], [];
      alloc, dealloc, empty := None, None, None;
      owner, home := map[], map[];
    }

    /** None of these chunks covers `p`. */
    ghost predicate Misses(from: nat, to: nat, p: int)
      reads this
    {
      forall c :: from <= c < to && c < |slots| ==> !Covers(slots[c], numBlocks * blockSize, p)
    }

    /** `Chunk::HasBlock` on chunk `c`. */
    method ChunkHas(c: nat, p: int, chunkLength: nat) returns (has: bool)
      requires Linked() && c < |chunks| && chunkLength == numBlocks * blockSize
      ensures has == Covers(slots[c], numBlocks * blockSize, p)
    {
      assert Placed(c);
      has := chunks[c].HasBlock(p, chunkLength);
    }

    /** `HasBlock`: the first chunk that covers `p`. */
    method HasBlock(p: int) returns (r: Option<nat>)
      requires Valid()
      ensures r.Some? ==> r.value < |slots| && Covers(slots[r.value], numBlocks * blockSize, p) && Misses(0, r.value, p)
      ensures r.None? ==> Misses(0, |slots|, p)
    {
      var chunkLength := numBlocks * blockSize;
      for i := 0 to |chunks|
        invariant Misses(0, i, p)
      {
        var has := ChunkHas(i, p, chunkLength);
        if has {
          return Some(i);
        }
      }
      return None;
    }

    /** `VicinityFind`: a chunk that covers `p`, searching both ways from the deallocation
        cursor. */
    method VicinityFind(p: int) returns (r: Option<nat>)
      requires Valid()
      ensures r.Some? ==> r.value < |slots| && Covers(slots[r.value], numBlocks * blockSize, p)
      ensures r.None? ==> Misses(0, |slots|, p)
    {
      if |chunks| == 0 {
        return None;
      }
      var chunkLength := numBlocks * blockSize;
      var lo: Option<nat> := dealloc;
      var hi: Option<nat> := Some(dealloc.value + 1);
      if hi.value == |chunks| {
        hi := None;
      }
      while true
        invariant lo.Some? || hi.Some?
        invariant lo.Some? ==> lo.value < |chunks|
        invariant hi.Some? ==> hi.value < |chunks| && (lo.Some? ==> lo.value < hi.value)
        invariant Misses(if lo.Some? then lo.value + 1 else 0, if hi.Some? then hi.value else |chunks|, p)
        decreases if lo.Some? then lo.value + 1 else 0, if hi.Some? then |chunks| - hi.value else 0
      {
        if lo.Some? {
          var has := ChunkHas(lo.value, p, chunkLength);
          if has {
            return lo;
          }
          if lo.value == 0 {
            lo := None;
            if hi.None? {
              break;
            }
          } else {
            lo := Some(lo.value - 1);
          }
        }
        if hi.Some? {
          var has := ChunkHas(hi.value, p, chunkLength);
          if has {
            return hi;
          }
          hi := Some(hi.value + 1);
          if hi.value == |chunks| {
            hi := None;
            if lo.None? {
              break;
            }
          }
        }
      }
      return None;
    }

    /** What the system may deliver: memory of the right size that overlaps no chunk. */
    ghost predicate Fresh(mem: array<byte>, at: int)
      reads this
    {
      && mem !in home && mem.Length == numBlocks * blockSize
      && forall c {:trigger Clear(slots[c].base, at, numBlocks * blockSize)} ::
           0 <= c < |slots| ==> Clear(slots[c].base, at, numBlocks * blockSize)
    }

    /** Length of the memory of a chunk. */
    function ChunkLength(): nat
      reads `blockSize, `numBlocks
    {
      Product(numBlocks, blockSize);
      numBlocks * blockSize
    }

    /** Addresses of the chunks. */
    ghost function ChunkBases(): set<int>
      reads `slots
    {
      Bases(slots)
    }

    /** `MakeNewChunk`: a new chunk at the end, if the system has memory for it. */
    method MakeNewChunk(mem: array?<byte>, at: int) returns (made: bool)
      requires Valid() && empty == None
      requires mem != null ==> Fresh(mem, at)
      modifies `chunks, `alloc, `dealloc, `slots, `owner, `home, mem
      ensures Linked()
      ensures made == (mem != null)
      ensures !made ==> unchanged(this)
      ensures made ==> slots == old(slots) + [Slot(at, UpTo(0, numBlocks))]
      ensures LiveBlocks() == old(LiveBlocks())
      ensures made ==> alloc == Some(|slots| - 1) && dealloc == Some(0)
      ensures fresh(owner.Keys - old(owner.Keys)) && home.Keys - {mem} <= old(home.Keys)
    {
      if mem == null {
        return false;
      }
      var chunk := InitChunk(mem, at);
      PushBack(chunk);
      return true;
    }

    method InitChunk(mem: array<byte>, at: int) returns (chunk: Chunk)
      requires Linked() && Fresh(mem, at)
      modifies mem
      ensures Linked() && fresh(chunk) && chunk.data == mem && chunk.base == at
      ensures chunk.Valid(blockSize, numBlocks) && chunk.free == UpTo(0, numBlocks)
    {
      chunk := new Chunk(mem, at, blockSize, numBlocks);
      forall c | 0 <= c < |chunks|
        ensures Placed(c)
      {
        assert old(Placed(c));
      }
    }

    /** The container grows by a chunk, all of it free; the cursors are set anew, since its
        elements may have moved. */
    method PushBack(chunk: Chunk)
      requires Linked() && chunk !in owner && chunk.data !in home
      requires chunk.Valid(blockSize, numBlocks) && chunk.free == UpTo(0, numBlocks)
      requires forall c {:trigger Clear(slots[c].base, chunk.base, numBlocks * blockSize)} ::
                 0 <= c < |slots| ==> Clear(slots[c].base, chunk.base, numBlocks * blockSize)
      modifies `chunks, `slots, `owner, `home, `alloc, `dealloc
      ensures Linked() && alloc == Some(|slots| - 1) && dealloc == Some(0)
      ensures chunks == old(chunks) + [chunk] && slots == old(slots) + [Slot(chunk.base, chunk.free)]
      ensures LiveBlocks() == old(LiveBlocks())
      ensures owner.Keys == old(owner.Keys) + {chunk} && home.Keys == old(home.Keys) + {chunk.data}
    {
      AddLive(slots, blockSize, numBlocks, chunk.base);
      var n := |chunks|;
      alloc, dealloc := Some(n), Some(0);
      owner, home := owner[chunk := n], home[chunk.data := n];
      chunks := chunks + [chunk];
      slots := slots + [Slot(chunk.base, UpTo(0, numBlocks))];
      forall c | 0 <= c < |chunks|
        ensures Placed(c)
      {
        if c < n { assert old(Placed(c)); }
      }
    }

    /** Chunk `c` is filled. */
    method ChunkFull(c: nat) returns (full: bool)
      requires Linked() && c < |chunks|
      ensures full == (slots[c].free == [])
    {
      assert Placed(c);
      full := chunks[c].IsFilled();
    }

    /** Chunk `c` has all its blocks available. */
    method ChunkHasAvailable(c: nat) returns (all: bool)
      requires Linked() && c < |chunks|
      ensures all == AllFree(slots[c], numBlocks)
    {
      assert Placed(c);
      all := chunks[c].HasAvailable(numBlocks);
    }

    /** The first chunk that is not filled. */
    method FirstNotFull() returns (r: Option<nat>)
      requires Linked()
      ensures r.Some? ==> r.value < |slots| && slots[r.value].free != [] && forall c :: 0 <= c < r.value ==> slots[c].free == []
      ensures r.None? ==> AllFull(slots)
    {
      for i := 0 to |chunks|
        invariant forall c :: 0 <= c < i ==> slots[c].free == []
      {
        var filled := ChunkFull(i);
        if !filled {
          return Some(i);
        }
      }
      return None;
    }

    /** A chunk with available blocks becomes the one to allocate from; a new one only if all
        are filled. */
    method PickChunk(mem: array?<byte>, at: int) returns (ok: bool)
      requires Valid()
      requires mem != null ==> Fresh(mem, at)
      modifies `chunks, `alloc, `dealloc, `empty, `slots, `owner, `home, mem
      ensures Linked() && LiveBlocks() == old(LiveBlocks())
      ensures !ok ==> mem == null && AllFull(slots) && unchanged(this)
      ensures ok ==> alloc.Some? && alloc.value < |slots| && slots[alloc.value].free != []
      ensures ok ==> dealloc.Some? && dealloc.value < |slots|
      ensures ok ==> Detached(slots, numBlocks, alloc.value, empty)
      ensures ok && old(alloc.Some? && slots[alloc.value].free != []) ==> alloc == old(alloc) && slots == old(slots)
      ensures ok && !old(alloc.Some? && slots[alloc.value].free != []) && old(empty).Some? ==> alloc == old(empty)
      ensures ok && !old(alloc.Some? && slots[alloc.value].free != []) && old(empty) == None ==>
                forall c :: 0 <= c < alloc.value ==> slots[c].free == []
      ensures ChunkBases() <= old(ChunkBases()) + (if mem == null then {} else {at})
      ensures slots == old(slots) ||
              (mem != null && AllFull(old(slots)) && slots == old(slots) + [Slot(at, UpTo(0, numBlocks))])
      ensures fresh(owner.Keys - old(owner.Keys)) && home.Keys - {mem} <= old(home.Keys)
    {
      var full := true;
      if alloc.Some? {
        full := ChunkFull(alloc.value);
      }
      if full {
        AddBases(slots, Slot(at, UpTo(0, numBlocks)));
        ok := PickOther(mem, at);
        return;
      }
      if alloc == empty {
        empty := None;
      }
      return true;
    }

    /** The wholly free chunk if there is one, or the first that is not filled, or a new one. */
    method PickOther(mem: array?<byte>, at: int) returns (ok: bool)
      requires Valid()
      requires mem != null ==> Fresh(mem, at)
      modifies `chunks, `alloc, `dealloc, `empty, `slots, `owner, `home, mem
      ensures Linked() && LiveBlocks() == old(LiveBlocks())
      ensures !ok ==> mem == null && AllFull(slots) && unchanged(this)
      ensures ok ==> alloc.Some? && alloc.value < |slots| && slots[alloc.value].free != []
      ensures ok ==> dealloc.Some? && dealloc.value < |slots|
      ensures ok ==> Detached(slots, numBlocks, alloc.value, empty)
      ensures ok ==> if old(empty).Some? then alloc == old(empty)
                     else forall c :: 0 <= c < alloc.value ==> slots[c].free == []
      ensures slots == old(slots) ||
              (mem != null && AllFull(old(slots)) && slots == old(slots) + [Slot(at, UpTo(0, numBlocks))])
      ensures fresh(owner.Keys - old(owner.Keys)) && home.Keys - {mem} <= old(home.Keys)
    {
      if empty.Some? {
        assert AllFree(slots[empty.value], numBlocks) <==> empty == Some(empty.value);
        alloc := empty;
        empty := None;
        return true;
      }
      var i := FirstNotFull();
      if i.Some? {
        alloc := i;
        return true;
      }
      ok := MakeNewChunk(mem, at);
    }

    /** The first free block of the chunk at the allocation cursor is handed out. */
    method TakeBlock() returns (p: int)
      requires Linked() && alloc.Some? && alloc.value < |slots| && slots[alloc.value].free != []
      requires dealloc.Some? && dealloc.value < |slots| && Detached(slots, numBlocks, alloc.value, empty)
      modifies owner.Keys, `slots
      ensures Valid() && slots == Take(old(slots), alloc.value)
      ensures p !in old(LiveBlocks()) && LiveBlocks() == old(LiveBlocks()) + {p}
      ensures ChunkBases() == old(ChunkBases())
    {
      assert Placed(alloc.value);
      DetachedBooked(slots, numBlocks, alloc.value, dealloc, empty);
      p := TakeFrom(alloc.value);
    }

    method TakeFrom(c: nat) returns (p: int)
      requires Linked() && c < |chunks| && slots[c].free != []
      modifies chunks[c], `slots
      ensures Linked() && slots == Take(old(slots), c)
      ensures p !in old(LiveBlocks()) && LiveBlocks() == old(LiveBlocks()) + {p}
      ensures ChunkBases() == old(ChunkBases())
    {
      assert Placed(c);
      ghost var chunk := chunks[c];
      TakeLive(slots, blockSize, numBlocks, c);
      KeepBases(slots, c);
      var place' := chunks[c].Allocate(blockSize, numBlocks);
      p := place'.value;
      slots := Take(slots, c);
      forall d | 0 <= d < |chunks|
        ensures Placed(d)
      {
        if d != c { assert old(Placed(d)) && chunks[d] != chunk; }
      }
    }

    /** `Allocate`: a block that was not live, or none if no chunk has one and the system has
        no memory for another chunk. No memory of an existing chunk is written. */
    method Allocate(mem: array?<byte>, at: int) returns (p: Option<int>)
      requires Valid()
      requires mem != null ==> Fresh(mem, at)
      modifies this, owner.Keys, mem
      ensures Valid() && unchanged(`blockSize) && unchanged(`numBlocks)
      ensures p.Some? ==> p.value !in old(LiveBlocks()) && LiveBlocks() == old(LiveBlocks()) + {p.value}
      ensures p.None? ==> mem == null && AllFull(slots) && unchanged(this)
      ensures |chunks| == |old(chunks)| || (|chunks| == |old(chunks)| + 1 && AllFull(old(slots)) && mem != null)
      ensures ChunkBases() <= old(ChunkBases()) + (if mem == null then {} else {at})
      ensures fresh(Repr() - old(Repr()) - {mem})
    {
      var ok := PickChunk(mem, at);
      if !ok {
        return None;
      }
      var block := TakeBlock();
      p := Some(block);
    }

    /** Block `i` of chunk `c` comes back. */
    method GiveTo(c: nat, p: int, ghost i: nat)
      requires Linked() && c < |chunks| && i < numBlocks && i !in slots[c].free
      requires p == slots[c].base + i * blockSize
      modifies chunks[c], chunks[c].data, `slots
      ensures Linked() && slots == Give(old(slots), c, i)
      ensures forall m: array<byte> :: m in home && m != old(chunks[c].data) ==> m[..] == old(m[..])
      ensures forall k :: 0 <= k < old(chunks[c].data).Length && old(chunks[c].base) + k != p ==>
                old(chunks[c].data)[k] == old(chunks[c].data[k])
    {
      assert Placed(c);
      ghost var chunk := chunks[c];
      GiveLive(slots, blockSize, numBlocks, c, i);
      chunks[c].Deallocate(p, blockSize, numBlocks, i);
      slots := Give(slots, c, i);
      forall d | 0 <= d < |chunks|
        ensures Placed(d)
      {
        if d != c { assert old(Placed(d)) && chunks[d] != chunk && chunks[d].data != chunk.data; }
      }
    }

    /** `std::swap` of two chunks: their contents change places. */
    method SwapChunks(a: nat, b: nat)
      requires Linked() && a < |chunks| && b < |chunks| && a != b
      modifies chunks[a], chunks[b], `slots, `home
      ensures Linked() && slots == Swapped(old(slots), a, b) && home.Keys == old(home.Keys)
    {
      assert Placed(a) && Placed(b);
      SwappedOk(slots, numBlocks * blockSize, numBlocks, a, b);
      var x, y := chunks[a], chunks[b];
      home := home[x.data := b][y.data := a];
      x.SwapWith(y, blockSize, numBlocks);
      slots := Swapped(slots, a, b);
      forall d | 0 <= d < |chunks|
        ensures Placed(d)
      {
        if d != a && d != b { assert old(Placed(d)) && chunks[d] != x && chunks[d] != y; }
      }
    }

    /** The last chunk is released. */
    method PopBack()
      requires Linked() && |chunks| > 0
      modifies `chunks, `slots, `owner, `home
      ensures Linked() && chunks == old(chunks)[..|old(chunks)| - 1] && slots == old(slots)[..|old(chunks)| - 1]
      ensures owner.Keys <= old(owner.Keys) && home.Keys <= old(home.Keys)
    {
      var n := |chunks| - 1;
      assert Placed(n);
      owner, home := owner - {chunks[n]}, home - {chunks[n].data};
      chunks := chunks[..n];
      slots := slots[..n];
      forall d | 0 <= d < n
        ensures Placed(d)
      {
        assert old(Placed(d));
      }
    }

    /** Of two wholly free chunks one is released: the older one, in whose place the last
        chunk is put, or the last chunk if that is the one just freed. */
    method ReleaseSpare(ghost e: nat)
      requires Linked() && dealloc.Some? && dealloc.value < |chunks|
      requires empty == Some(e) && e < |chunks| && e != dealloc.value
      requires alloc.Some? && alloc.value < |chunks|
      requires AllFree(slots[e], numBlocks) && AllFree(slots[dealloc.value], numBlocks)
      modifies this, chunks
      ensures Linked() && unchanged(`blockSize) && unchanged(`numBlocks)
      ensures var last := |old(slots)| - 1;
              && slots == Drop(old(slots), if old(dealloc) == Some(last) then last else e)
              && dealloc == (if old(dealloc) == Some(last) then Some(e) else old(dealloc))
      ensures alloc.Some? && alloc.value < |slots|
      ensures alloc == if old(alloc).value == |slots| || slots[old(alloc).value].free == [] then dealloc else old(alloc)
      ensures owner.Keys <= old(owner.Keys) && home.Keys <= old(home.Keys)
    {
      var last := |chunks| - 1;
      if last == dealloc.value {
        dealloc := empty;
      } else if last != empty.value {
        SwapChunks(empty.value, last);
      }
      PopBack();
      MoveAlloc(last);
    }

    /** The allocation cursor leaves a chunk that is gone or filled. */
    method MoveAlloc(last: nat)
      requires Linked() && |chunks| == last && dealloc.Some? && dealloc.value < last
      requires alloc.Some? && alloc.value <= last
      modifies `alloc
      ensures alloc.Some? && alloc.value < last
      ensures alloc == if old(alloc).value == last || slots[old(alloc).value].free == [] then dealloc else old(alloc)
    {
      var filled := false;
      if alloc.value != last {
        filled := ChunkFull(alloc.value);
      }
      if alloc.value == last || filled {
        alloc := dealloc;
      }
    }

    /** The chunk at the deallocation cursor has become wholly free: if another one was so
        before, one of the two goes. */
    method KeepOneEmpty()
      requires Linked() && alloc.Some? && alloc.value < |chunks|
      requires dealloc.Some? && dealloc.value < |chunks| && AllFree(slots[dealloc.value], numBlocks)
      requires empty.Some? ==> empty.value < |chunks| && empty != dealloc
      requires forall d {:trigger AllFree(slots[d], numBlocks)} :: 0 <= d < |slots| && d != dealloc.value ==>
                 (AllFree(slots[d], numBlocks) <==> empty == Some(d))
      modifies this, chunks
      ensures Valid() && unchanged(`blockSize) && unchanged(`numBlocks)
      ensures LiveBlocks() == old(LiveBlocks()) && ChunkBases() <= old(ChunkBases())
      ensures owner.Keys <= old(owner.Keys) && home.Keys <= old(home.Keys)
    {
      if empty.Some? {
        ghost var c, e := dealloc.value, empty.value;
        KeepBases(slots, if c == |slots| - 1 then c else e);
        assert AllFree(slots[e], numBlocks) <==> empty == Some(e);
        DropLive(slots, blockSize, numBlocks, if c == |slots| - 1 then c else e);
        DropOne(slots, numBlocks, c, e);
        ReleaseSpare(e);
      }
      empty := dealloc;
    }

    /** `TrimEmptyChunk`: the wholly free chunk is given back to the system. The class invariant
        is kept exactly if no cursor is on the last chunk, or that is the one given back. */
    method TrimEmptyChunk() returns (trimmed: bool)
      requires Valid()
      modifies this, owner.Keys
      ensures Linked() && LiveBlocks() == old(LiveBlocks()) && ChunkBases() <= old(ChunkBases())
      ensures unchanged(`blockSize) && unchanged(`numBlocks) && Repr() <= old(Repr())
      ensures trimmed == old(empty).Some? && (!trimmed ==> unchanged(this))
      ensures trimmed ==> |slots| == old(|slots|) - 1 && empty == None
      ensures trimmed && slots != [] && old(alloc == empty) ==> alloc == Some(|slots| - 1)
      ensures trimmed && slots != [] && old(dealloc == empty) ==> dealloc == Some(0)
      ensures trimmed ==> (Valid() <==> old(CursorsStay(|slots|, empty.value, alloc, dealloc)))
    {
      if empty.None? {
        return false;
      }
      TrimBooked(slots, numBlocks, alloc, dealloc, empty.value);
      assert AllFree(slots[empty.value], numBlocks) <==> empty == Some(empty.value);
      GiveBackChunk(empty.value);
      TrimCursors(empty.value);
      return true;
    }

    /** The cursors leave chunk `e`, and only that. */
    method TrimCursors(ghost e: nat)
      requires empty == Some(e)
      modifies `alloc, `dealloc, `empty
      ensures empty == None && alloc == TrimmedAlloc(|chunks| + 1, e, old(alloc))
      ensures dealloc == TrimmedDealloc(|chunks| + 1, e, old(dealloc))
    {
      if |chunks| == 0 {
        alloc, dealloc := None, None;
      } else {
        if dealloc == empty {
          dealloc := Some(0);
        }
        if alloc == empty {
          alloc := Some(|chunks| - 1);
        }
      }
      empty := None;
    }

    /** The wholly free chunk `e` goes; the last chunk is put in its place. */
    method GiveBackChunk(e: nat)
      requires Linked() && e < |chunks| && AllFree(slots[e], numBlocks)
      modifies `chunks, `slots, `owner, `home, owner.Keys
      ensures Linked() && slots == Drop(old(slots), e)
      ensures LiveBlocks() == old(LiveBlocks()) && ChunkBases() <= old(ChunkBases()) && Repr() <= old(Repr())
    {
      DropLive(slots, blockSize, numBlocks, e);
      KeepBases(slots, e);
      assert Placed(e) && Placed(|chunks| - 1);
      var last := |chunks| - 1;
      if last != e {
        SwapChunks(e, last);
      }
      PopBack();
    }

    lemma {:induction false} ChunksInPlace(c: nat)
      requires Linked() && c < |chunks|
      ensures forall x :: x in chunks ==> x in owner
      ensures forall d :: 0 <= d < |chunks| ==> chunks[d].data in home && (d != c ==> chunks[d].data != chunks[c].data)
    {
      forall d | 0 <= d < |chunks|
        ensures chunks[d] in owner && chunks[d].data in home && (d != c ==> chunks[d].data != chunks[c].data)
      {
        assert Placed(d) && Placed(c);
      }
    }

    /** `DoDeallocate`: back into the chunk at the deallocation cursor; if that makes a second
        wholly free chunk, one of the two goes. */
    method DoDeallocate(p: int, ghost i: nat)
      requires Valid() && dealloc.Some? && i < numBlocks && i !in slots[dealloc.value].free
      requires p == slots[dealloc.value].base + i * blockSize
      modifies this, owner.Keys, home.Keys
      ensures Valid() && unchanged(`blockSize) && unchanged(`numBlocks)
      ensures p in old(LiveBlocks()) && LiveBlocks() == old(LiveBlocks()) - {p}
      ensures ChunkBases() <= old(ChunkBases())
      ensures owner.Keys <= old(owner.Keys) && home.Keys <= old(home.Keys)
      ensures forall c, k {:trigger old(chunks[c].data[k])} ::
                0 <= c < |old(chunks)| && 0 <= k < old(chunks[c].data).Length && old(chunks[c].base) + k != p ==>
                old(chunks[c].data)[k] == old(chunks[c].data[k])
    {
      ghost var c := dealloc.value;
      ghost var before := slots;
      GiveLive(slots, blockSize, numBlocks, c, i);
      GiveEmptyIs(slots, numBlocks, c, i, empty);
      KeepBases(slots, c);
      ChunksInPlace(c);
      GiveTo(dealloc.value, p, i);
      var full := ChunkHasAvailable(dealloc.value);
      if full {
        KeepOneEmpty();
      }
    }

    /** `Deallocate`: a live block stops being live; an address of no chunk is refused. Apart
        from the first byte of that block, no memory is written. */
    method Deallocate(p: int, hint: Option<nat>) returns (found: bool)
      requires Valid() && chunks != []
      requires p in LiveBlocks() || Misses(0, |slots|, p)
      requires hint.Some? ==> hint.value < |slots| && Covers(slots[hint.value], numBlocks * blockSize, p)
      modifies Repr()
      ensures Valid() && unchanged(`blockSize) && unchanged(`numBlocks)
      ensures found == (p in old(LiveBlocks())) && LiveBlocks() == old(LiveBlocks()) - {p}
      ensures ChunkBases() <= old(ChunkBases())
      ensures Repr() <= old(Repr())
      ensures forall c, k {:trigger old(chunks[c].data[k])} ::
                0 <= c < |old(chunks)| && 0 <= k < old(chunks[c].data).Length && old(chunks[c].base) + k != p ==>
                old(chunks[c].data)[k] == old(chunks[c].data[k])
    {
      var foundChunk := hint;
      if hint.None? {
        foundChunk := VicinityFind(p);
      }
      if foundChunk.None? {
        MissedIsNotLive(p);
        return false;
      }
      ghost var i := LiveIndex(p, foundChunk.value);
      dealloc := foundChunk;
      DoDeallocate(p, i);
      return true;
    }

    /** The client writes a byte of a live block: that byte of that block changes and no other,
        and the pool is as before. */
    method ClientWrites(p: int, k: nat, v: byte)
      requires Valid() && p in LiveBlocks() && k < blockSize
      modifies home.Keys
      ensures Valid() && LiveBlocks() == old(LiveBlocks())
      ensures exists c :: 0 <= c < |chunks| && Covers(slots[c], numBlocks * blockSize, p + k)
      ensures forall c :: 0 <= c < |chunks| ==> Written(chunks[c].base, old(chunks[c].data[..]), chunks[c].data[..], p + k, v)
    {
      MissedIsNotLiveHere(p);
      var c := VicinityFind(p);
      ghost var i := LiveIndex(p, c.value);
      MulGap(i, numBlocks, blockSize);
      assert Placed(c.value);
      WriteTo(c.value, p, k, v, i);
    }

    method WriteTo(c: nat, p: int, k: nat, v: byte, ghost i: nat)
      requires Linked() && c < |chunks| && i < numBlocks && i !in slots[c].free && k < blockSize
      requires p == slots[c].base + i * blockSize
      modifies chunks[c].data
      ensures Linked()
      ensures forall d :: 0 <= d < |chunks| ==> Written(chunks[d].base, old(chunks[d].data[..]), chunks[d].data[..], p + k, v)
    {
      assert Placed(c);
      ghost var chunk := chunks[c];
      chunks[c].Write(p, k, v, blockSize, numBlocks, i);
      MulGap(i, numBlocks, blockSize);
      forall d | 0 <= d < |chunks|
        ensures Placed(d) && Written(chunks[d].base, old(chunks[d].data[..]), chunks[d].data[..], p + k, v)
      {
        if d != c {
          assert old(Placed(d)) && chunks[d].data != chunk.data;
          assert Clear(slots[d].base, slots[c].base, numBlocks * blockSize);
        }
      }
    }

    /** A live block lies in the memory of one of the chunks. */
    lemma {:induction false} Home(p: int) returns (base: int)
      requires Linked() && p in LiveBlocks()
      ensures base in ChunkBases() && base <= p && p + blockSize <= base + ChunkLength()
    {
      var c: nat :| c < |slots| && p in LiveOf(slots[c], blockSize, numBlocks);
      LiveCovered(slots[c], blockSize, numBlocks, p);
      base := slots[c].base;
    }

    lemma {:induction false} MissedIsNotLiveHere(p: int)
      requires Linked() && p in LiveBlocks()
      ensures !Misses(0, |slots|, p)
    {
      if Misses(0, |slots|, p) { MissedIsNotLive(p); }
    }

    lemma {:induction false} MissedIsNotLive(p: int)
      requires Linked() && Misses(0, |slots|, p)
      ensures p !in LiveBlocks()
    {
      if p in LiveBlocks() {
        var c: nat :| c < |slots| && p in LiveOf(slots[c], blockSize, numBlocks);
        LiveCovered(slots[c], blockSize, numBlocks, p);
      }
    }

    lemma {:induction false} LiveIndex(p: int, c: nat) returns (i: nat)
      requires Linked() && c < |slots| && Covers(slots[c], numBlocks * blockSize, p)
      requires p in LiveBlocks() || Misses(0, |slots|, p)
      ensures i < numBlocks && i !in slots[c].free && p == slots[c].base + i * blockSize
    {
      LiveThere(slots, blockSize, numBlocks, c, p);
      i := LiveBlock(slots[c], blockSize, numBlocks, p);
    }

    /** Between calls, available and live blocks make up all blocks of all chunks, and there is
        at most one chunk more than live blocks. */
    lemma {:induction false} Economy()
      requires Valid()
      ensures Available(slots) + |LiveBlocks()| == |chunks| * numBlocks
      ensures |chunks| <= |LiveBlocks()| + 1
    {
      AvailableOrLive(slots, blockSize, numBlocks);
      FewChunks(slots, blockSize, numBlocks, empty);
    }

    /** Live blocks do not overlap, and they are the blocks of the chunks that the hidden
        lists do not have. */
    lemma {:induction false} LiveLayout(a: int, b: int)
      requires Valid()
      ensures a in LiveBlocks() && b in LiveBlocks() && a != b ==> Clear(a, b, blockSize)
      ensures a in LiveBlocks() <==> exists c, i :: 0 <= c < |chunks| && 0 <= i < numBlocks && IsBlock(a, c, i)
    {
      if a in LiveBlocks() {
        if b in LiveBlocks() && a != b { LiveDisjoint(slots, blockSize, numBlocks, a, b); }
        var c, i := BlockOf(a);
      }
      if c, i :| 0 <= c < |chunks| && 0 <= i < numBlocks && IsBlock(a, c, i) {
        BlockLive(c, i);
      }
    }

    lemma {:induction false} BlockOf(a: int) returns (c: nat, i: nat)
      requires Linked() && a in LiveBlocks()
      ensures c < |chunks| && i < numBlocks && IsBlock(a, c, i)
    {
      c :| c < |slots| && a in LiveOf(slots[c], blockSize, numBlocks);
      i := LiveBlock(slots[c], blockSize, numBlocks, a);
      assert Placed(c);
    }

    /** A block is live exactly if the hidden list of its chunk does not have it. */
    lemma {:induction false} BlockLive(c: nat, i: nat)
      requires Linked() && c < |chunks| && i < numBlocks
      ensures chunks[c].base + i * blockSize in LiveBlocks() <==> i !in chunks[c].free
      ensures FreeList(chunks[c].data[..], blockSize, numBlocks, chunks[c].first, chunks[c].available, chunks[c].free)
    {
      assert Placed(c);
      LiveExactly(slots, blockSize, numBlocks, c, i);
    }

    /** Block `i` of chunk `c` is at `a`, and following the hidden indexes from `first` on
        does not meet it. */
    ghost predicate IsBlock(a: int, c: nat, i: nat)
      reads this, owner.Keys, home.Keys
      requires Linked() && c < |chunks|
    {
      && Placed(c)
      && a == chunks[c].base + i * blockSize
      && i !in chunks[c].free
      && FreeList(chunks[c].data[..], blockSize, numBlocks, chunks[c].first, chunks[c].available, chunks[c].free)
    }
  }
}
