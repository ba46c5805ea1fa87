/**
  What a caching factory knows: the pool of idle objects by key, the objects that are out
  with clients, the keys drawn from for eviction, and the number created. Each call is a
  function on such states.
 */
module FactoryStates {
  import opened Basics
  import opened Wrappers

  /** An object's address. */
  type Obj = nat

  /** `keys` is the vector of `EvictRandom`, `created` and `limit` belong to
      `AmountLimitedCreation`; `peak` is the highest limit there has been. */
  datatype Cache<K> = Cache(pool: map<K, seq<Obj>>, out: map<Obj, K>, keys: seq<Obj>,
                            created: nat, limit: nat, peak: nat)

  /** An object, or one of the three exceptions. */
  datatype Result = Got(obj: Obj) | NothingToEvict | DrawnIsOut | CreationFailed

  const RAND_MAX := 0x7fff_ffff

  /** `p` is idle under key `k`. */
  predicate Has<K>(c: Cache<K>, k: K, p: Obj) {
    k in c.pool && p in c.pool[k]
  }

  ghost function Pooled<K>(c: Cache<K>): set<Obj> {
    set k, p | k in c.pool.Keys && p in c.pool[k] :: p
  }

  /** Created and not destroyed. */
  ghost function Alive<K>(c: Cache<K>): set<Obj> {
    Pooled(c) + c.out.Keys
  }

  // ----- the calls -----

  /** The vector of idle objects for a key, made empty if it was not there. */
  function Idle<K>(c: Cache<K>, key: K): seq<Obj> {
    if key in c.pool then c.pool[key] else []
  }

  /** The key drawn for a random number. */
  function Draw(size: nat, random: nat): (i: nat)
    requires size > 0 && random <= RAND_MAX
    ensures i < size
  {
    DrawInRange(size, random);
    size * random / (RAND_MAX + 1)
  }

  lemma {:induction false} DrawInRange(size: nat, random: nat)
    requires size > 0 && random <= RAND_MAX
    ensures 0 <= size * random / (RAND_MAX + 1) < size
  {
    assert 0 <= size * random;
    assert size * random <= size * RAND_MAX < size * (RAND_MAX + 1);
  }

  /** `p` is destroyed. */
  function Destroyed<K>(c: Cache<K>, p: Obj): Cache<K>
    requires c.created > 0
  {
    c.(pool := map k | k in c.pool :: Strike(c.pool[k], p),
       keys := Strike(c.keys, p), created := c.created - 1)
  }

  /** Make room for one more object if the limit is reached; the drawn key may be of an object
      that is out. */
  ghost function MakeRoom<K>(c: Cache<K>, random: nat): (Cache<K>, Option<Result>)
    requires random <= RAND_MAX
  {
    if c.created < c.limit then (c, None)
    else if c.keys == [] then (c, Some(NothingToEvict))
    else
      var p := c.keys[Draw(|c.keys|, random)];
      if p in c.out || p !in Pooled(c) || c.created == 0 then (c, Some(DrawnIsOut)) else (Destroyed(c, p), None)
  }

  /** A new object goes out. */
  function Created<K>(c: Cache<K>, key: K, p: Obj): Cache<K> {
    c.(created := c.created + 1, out := c.out[p := key])
  }

  /** An idle object goes out, the one that came back last. */
  function Reused<K>(c: Cache<K>, key: K): Cache<K>
    requires Idle(c, key) != []
  {
    var n := |c.pool[key]| - 1;
    c.(pool := c.pool[key := c.pool[key][..n]], out := c.out[c.pool[key][n] := key])
  }

  /** `CreateObject`. `made` is what the creator delivers if asked. */
  ghost function Fetch<K>(c: Cache<K>, key: K, random: nat, made: Option<Obj>): (Cache<K>, Result)
    requires random <= RAND_MAX
  {
    if Idle(c, key) != [] then (Reused(c, key), Got(c.pool[key][|c.pool[key]| - 1]))
    else
      var (room, e) := MakeRoom(c, random);
      if e.Some? then (c, e.value)
      else if made.None? then (room, CreationFailed)
      else (Created(room, key, made.value), Got(made.value))
  }

  /** `ReleaseObject` of an object that is out. */
  function Released<K>(c: Cache<K>, p: Obj): Cache<K>
    requires p in c.out
  {
    var key := c.out[p];
    c.(pool := c.pool[key := Idle(c, key) + [p]], out := c.out - {p}, keys := c.keys + [p])
  }

  function Limited<K>(c: Cache<K>, limit: nat): Cache<K> {
    c.(limit := limit, peak := if limit > c.peak then limit else c.peak)
  }

  // ----- what they keep -----

  /** No object has two places in the pool. */
  ghost predicate OnePlace<K>(c: Cache<K>) {
    && (forall k {:trigger c.pool[k]} :: k in c.pool.Keys ==> NoDup(c.pool[k]))
    && (forall k, k', p {:trigger Has(c, k, p), Has(c, k', p)} ::
          k in c.pool.Keys && k' in c.pool.Keys && Has(c, k, p) && Has(c, k', p) ==> k == k')
  }

  /** No object is both idle and out. The count is of these objects and within the highest
      limit. Every idle object can be drawn, and only living objects. */
  predicate Books(pooled: set<Obj>, out: set<Obj>, keys: seq<Obj>, created: nat, limit: nat, peak: nat) {
    && pooled !! out
    && created == |pooled + out| <= peak && limit <= peak
    && (forall p :: p in pooled ==> p in keys)
    && (forall p :: p in keys ==> p in pooled || p in out)
  }

  ghost predicate Inv<K>(c: Cache<K>) {
    OnePlace(c) && Books(Pooled(c), c.out.Keys, c.keys, c.created, c.limit, c.peak)
  }

  lemma {:induction false} PooledAt<K>(c: Cache<K>, p: Obj) returns (k: K)
    requires p in Pooled(c)
    ensures Has(c, k, p)
  {
    k :| k in c.pool.Keys && p in c.pool[k];
  }

  lemma {:induction false} NoDupEnds(s: seq<Obj>, p: Obj)
    requires NoDup(s)
    ensures p !in s ==> NoDup(s + [p])
    ensures s != [] ==> NoDup(s[..|s| - 1]) && s[|s| - 1] !in s[..|s| - 1]
  {
    if s != [] {
      NoDupEnds(s[1..], p);
      assert (s + [p])[1..] == s[1..] + [p];
      assert s == [s[0]] + s[1..];
      if |s| > 1 {
        assert s[..|s| - 1] == [s[0]] + s[1..][..|s| - 2];
        assert s[1..][|s| - 2] == s[|s| - 1];
      }
    }
  }

  lemma {:induction false} LastOf(s: seq<Obj>)
    requires s != []
    ensures forall x :: x in s <==> x in s[..|s| - 1] || x == s[|s| - 1]
  {
    assert s == s[..|s| - 1] + [s[|s| - 1]];
  }

  lemma {:induction false} ReusedPool<K>(c: Cache<K>, key: K)
    requires OnePlace(c) && Idle(c, key) != []
    ensures var p := c.pool[key][|c.pool[key]| - 1];
            OnePlace(Reused(c, key)) && p in Pooled(c) && Pooled(Reused(c, key)) == Pooled(c) - {p}
  {
    var after := Reused(c, key);
    var n := |c.pool[key]| - 1;
    var p := c.pool[key][n];
    LastOf(c.pool[key]);
    NoDupEnds(c.pool[key], p);
    assert Has(c, key, p);
    forall k, q | k in c.pool.Keys
      ensures Has(after, k, q) <==> Has(c, k, q) && q != p
    {
      if Has(c, k, p) { assert k == key; }
    }
    SamePool(c, after, {p}, {});
  }

  /** The pools differ by what is struck out and what is put in. */
  lemma {:induction false} SamePool<K>(c: Cache<K>, c': Cache<K>, gone: set<Obj>, come: set<Obj>)
    requires c.pool.Keys <= c'.pool.Keys && gone !! come
    requires forall k, q {:trigger Has(c', k, q)} :: k in c.pool.Keys && q !in come ==>
               (Has(c', k, q) <==> Has(c, k, q) && q !in gone)
    requires forall k, q {:trigger Has(c', k, q)} :: k in c'.pool.Keys - c.pool.Keys && Has(c', k, q) ==> q in come
    requires forall q :: q in come ==> q in Pooled(c')
    ensures Pooled(c') == Pooled(c) - gone + come
  {
    forall q | q in Pooled(c')
      ensures q in Pooled(c) - gone + come
    {
      var k := PooledAt(c', q);
    }
    forall q | q in Pooled(c) - gone + come
      ensures q in Pooled(c')
    {
      if q !in come {
        var k := PooledAt(c, q);
        assert Has(c', k, q);
      }
    }
  }

  lemma {:induction false} ReusedKeepsInv<K>(c: Cache<K>, key: K)
    requires Inv(c) && Idle(c, key) != []
    ensures Inv(Reused(c, key)) && Alive(Reused(c, key)) == Alive(c)
  {
    ReusedPool(c, key);
    var p := c.pool[key][|c.pool[key]| - 1];
    assert Reused(c, key).out.Keys == c.out.Keys + {p};
    BooksOut(Pooled(c), c.out.Keys, c.keys, c.created, c.limit, c.peak, p);
  }

  lemma {:induction false} BooksOut(pooled: set<Obj>, out: set<Obj>, keys: seq<Obj>, created: nat, limit: nat,
      peak: nat, p: Obj)
    requires Books(pooled, out, keys, created, limit, peak) && p in pooled
    ensures Books(pooled - {p}, out + {p}, keys, created, limit, peak)
    ensures pooled - {p} + (out + {p}) == pooled + out
  {
    assert pooled - {p} + (out + {p}) == pooled + out;
  }

  lemma {:induction false} CreatedKeepsInv<K>(c: Cache<K>, key: K, p: Obj)
    requires Inv(c) && p !in Alive(c) && c.created < c.peak
    ensures Inv(Created(c, key, p)) && Alive(Created(c, key, p)) == Alive(c) + {p}
  {
    var after := Created(c, key, p);
    SamePoolMap(c, after);
    assert after.out.Keys == c.out.Keys + {p};
    BooksCreated(Pooled(c), c.out.Keys, c.keys, c.created, c.limit, c.peak, p);
  }

  lemma {:induction false} BooksCreated(pooled: set<Obj>, out: set<Obj>, keys: seq<Obj>, created: nat, limit: nat,
      peak: nat, p: Obj)
    requires Books(pooled, out, keys, created, limit, peak) && p !in pooled + out && created < peak
    ensures Books(pooled, out + {p}, keys, created + 1, limit, peak)
    ensures pooled + (out + {p}) == pooled + out + {p}
  {
    assert pooled + (out + {p}) == pooled + out + {p};
  }

  lemma {:induction false} SamePoolMap<K>(c: Cache<K>, c': Cache<K>)
    requires c.pool == c'.pool
    ensures Pooled(c) == Pooled(c') && (OnePlace(c) ==> OnePlace(c'))
  {
    assert forall k, q :: k in c.pool.Keys ==> (Has(c', k, q) <==> Has(c, k, q));
  }

  lemma {:induction false} ReleasedPool<K>(c: Cache<K>, p: Obj)
    requires OnePlace(c) && p in c.out && p !in Pooled(c)
    ensures OnePlace(Released(c, p)) && Pooled(Released(c, p)) == Pooled(c) + {p}
  {
    var after := Released(c, p);
    var key := c.out[p];
    forall k | k in c.pool.Keys
      ensures p !in c.pool[k]
    {
    }
    NoDupEnds(Idle(c, key), p);
    assert Has(after, key, p);
    forall k, q | k in after.pool.Keys && Has(after, k, q) && q != p
      ensures Has(c, k, q)
    {
    }
    assert forall k :: k in after.pool.Keys && Has(after, k, p) ==> k == key;
    SamePool(c, after, {}, {p});
  }

  lemma {:induction false} ReleasedKeepsInv<K>(c: Cache<K>, p: Obj)
    requires Inv(c) && p in c.out
    ensures Inv(Released(c, p)) && Alive(Released(c, p)) == Alive(c)
  {
    ReleasedPool(c, p);
    assert Released(c, p).out.Keys == c.out.Keys - {p};
    BooksBack(Pooled(c), c.out.Keys, c.keys, c.created, c.limit, c.peak, p);
  }

  lemma {:induction false} BooksBack(pooled: set<Obj>, out: set<Obj>, keys: seq<Obj>, created: nat, limit: nat,
      peak: nat, p: Obj)
    requires Books(pooled, out, keys, created, limit, peak) && p in out
    ensures Books(pooled + {p}, out - {p}, keys + [p], created, limit, peak)
    ensures pooled + {p} + (out - {p}) == pooled + out
  {
    assert pooled + {p} + (out - {p}) == pooled + out;
  }

  lemma {:induction false} DestroyedPool<K>(c: Cache<K>, p: Obj)
    requires OnePlace(c) && c.created > 0
    ensures OnePlace(Destroyed(c, p)) && Pooled(Destroyed(c, p)) == Pooled(c) - {p}
  {
    var after := Destroyed(c, p);
    forall k | k in c.pool.Keys
      ensures NoDup(after.pool[k])
    {
      StrikeNoDup(c.pool[k], p);
    }
    forall k, q | k in c.pool.Keys
      ensures Has(after, k, q) <==> Has(c, k, q) && q != p
    {
    }
    SamePool(c, after, {p}, {});
  }

  lemma {:induction false} DestroyedKeepsInv<K>(c: Cache<K>, p: Obj)
    requires Inv(c) && p in Pooled(c)
    ensures c.created > 0 && Inv(Destroyed(c, p)) && Alive(Destroyed(c, p)) == Alive(c) - {p}
  {
    BooksGone(Pooled(c), c.out.Keys, c.keys, c.created, c.limit, c.peak, p);
    DestroyedPool(c, p);
  }

  lemma {:induction false} BooksGone(pooled: set<Obj>, out: set<Obj>, keys: seq<Obj>, created: nat, limit: nat,
      peak: nat, p: Obj)
    requires Books(pooled, out, keys, created, limit, peak) && p in pooled
    ensures created > 0 && Books(pooled - {p}, out, Strike(keys, p), created - 1, limit, peak)
    ensures pooled - {p} + out == pooled + out - {p}
  {
    assert p in pooled + out;
    assert pooled - {p} + out == pooled + out - {p};
  }

  /** Making room: one idle object is destroyed, never one that is out; or nothing changes. */
  lemma {:induction false} MakeRoomKeepsInv<K>(c: Cache<K>, random: nat)
    requires Inv(c) && random <= RAND_MAX
    ensures var (room, e) := MakeRoom(c, random);
            && Inv(room) && room.out == c.out && room.limit == c.limit && room.peak == c.peak
            && (e.Some? ==> room == c)
            && (e.None? && c.created >= c.limit ==>
                  exists p :: p in Pooled(c) && Alive(room) == Alive(c) - {p} && room.created == c.created - 1)
  {
    if c.created >= c.limit && c.keys != [] {
      var p := c.keys[Draw(|c.keys|, random)];
      if p !in c.out && p in Pooled(c) { DestroyedKeepsInv(c, p); }
    }
  }

  lemma {:induction false} FetchKeepsInv<K>(c: Cache<K>, key: K, random: nat, made: Option<Obj>)
    requires Inv(c) && random <= RAND_MAX && c.limit > 0
    requires made.Some? ==> made.value !in Alive(MakeRoom(c, random).0)
    ensures Inv(Fetch(c, key, random, made).0)
  {
    if Idle(c, key) != [] {
      ReusedKeepsInv(c, key);
    } else {
      MakeRoomKeepsInv(c, random);
      var (room, e) := MakeRoom(c, random);
      if e.None? && made.Some? { CreatedKeepsInv(room, key, made.value); }
    }
  }

  /** When `CreateObject` fails, and why. With an idle object for the key it never does; below the
      limit only the creator can; at the limit it fails to make room exactly if no object was ever
      released, or if the object drawn is out again. */
  lemma {:induction false} FailsExactlyIf<K>(c: Cache<K>, key: K, random: nat, made: Option<Obj>)
    requires Inv(c) && random <= RAND_MAX
    ensures var r := Fetch(c, key, random, made).1;
            var full := Idle(c, key) == [] && c.created >= c.limit;
            && (r == NothingToEvict <==> full && c.keys == [])
            && (r == DrawnIsOut <==> full && c.keys != [] && c.keys[Draw(|c.keys|, random)] in c.out)
            && (r == CreationFailed <==> made == None && Idle(c, key) == [] && r != NothingToEvict && r != DrawnIsOut)
  {
    if c.created >= c.limit && c.keys != [] {
      var p := c.keys[Draw(|c.keys|, random)];
      assert p in Alive(c);
      if p !in c.out { DestroyedKeepsInv(c, p); }
    }
  }

  /** Every index is drawn by some random number, if there are as many of these. */
  lemma {:induction false} DrawnBy(size: nat, i: nat) returns (random: nat)
    requires i < size <= RAND_MAX + 1
    ensures random <= RAND_MAX && Draw(size, random) == i
  {
    var x := i * (RAND_MAX + 1) + size - 1;
    random := x / size;
    assert x == size * random + x % size;
    if random > RAND_MAX { Product(random - RAND_MAX - 1, size); }
    assert i * (RAND_MAX + 1) <= size * random < (i + 1) * (RAND_MAX + 1);
  }

  /** `CreateObject` would have to make room, and there are keys to draw from. */
  predicate MustEvict<K>(c: Cache<K>, key: K) {
    Idle(c, key) == [] && c.created >= c.limit && c.keys != [] && |c.keys| <= RAND_MAX + 1
  }

  /** Eviction can fail, by some draw, exactly if a key of the vector is of an object that is
      out; and it must fail, by every draw, exactly if all are, which is to say if no object is
      idle. */
  lemma {:induction false} SomeOrEveryDrawFails<K>(c: Cache<K>, key: K, made: Option<Obj>)
    requires Inv(c) && MustEvict(c, key)
    ensures (exists random: nat :: random <= RAND_MAX && Fetch(c, key, random, made).1 == DrawnIsOut) <==>
            exists p :: p in c.keys && p in c.out
    ensures (forall random: nat :: random <= RAND_MAX ==> Fetch(c, key, random, made).1 == DrawnIsOut) <==>
            forall p :: p in c.keys ==> p in c.out
    ensures (forall p :: p in c.keys ==> p in c.out) <==> Pooled(c) == {}
  {
    forall random: nat | random <= RAND_MAX
      ensures Fetch(c, key, random, made).1 == DrawnIsOut <==> c.keys[Draw(|c.keys|, random)] in c.out
    {
      FailsExactlyIf(c, key, random, made);
    }
    forall p | p in c.keys
      ensures exists random: nat :: random <= RAND_MAX && c.keys[Draw(|c.keys|, random)] == p
    {
      var i :| 0 <= i < |c.keys| && c.keys[i] == p;
      var random := DrawnBy(|c.keys|, i);
    }
  }

  /** The object that came back last for a key is the first to go out again, and all else is as
      before, but for the vector drawn from, which names it once more. */
  lemma {:induction false} LastInFirstOut<K>(c: Cache<K>, p: Obj, random: nat, made: Option<Obj>)
    requires p in c.out && random <= RAND_MAX
    ensures var key := c.out[p];
            var (after, r) := Fetch(Released(c, p), key, random, made);
            && r == Got(p) && Idle(after, key) == Idle(c, key) && (forall k :: k != key ==> Idle(after, k) == Idle(c, k))
            && after.out == c.out && after.created == c.created && after.limit == c.limit
            && after.keys == c.keys + [p]
  {
    var back, key := Released(c, p), c.out[p];
    ReleasedThenReused(c, p);
    assert Fetch(back, key, random, made) == (Reused(back, key), Got(back.pool[key][|back.pool[key]| - 1]));
  }

  lemma {:induction false} ReleasedThenReused<K>(c: Cache<K>, p: Obj)
    requires p in c.out
    ensures var back, key := Released(c, p), c.out[p];
            && Idle(back, key) == Idle(c, key) + [p] && key in back.pool
            && var after := Reused(back, key);
               && Idle(after, key) == Idle(c, key) && (forall k :: k != key ==> Idle(after, k) == Idle(c, k))
               && after.out == c.out
  {
    var idle := Idle(c, c.out[p]);
    assert (idle + [p])[..|idle|] == idle;
    assert (c.out - {p})[p := c.out[p]] == c.out;
  }

  /** Nothing to evict means just that: no object is idle. */
  lemma {:induction false} NothingToEvictMeans<K>(c: Cache<K>)
    requires Inv(c) && c.keys == []
    ensures Pooled(c) == {}
  {
  }

  /** A failing eviction changes no set of objects; a successful call destroys no object that is
      out. */
  lemma {:induction false} FetchSets<K>(c: Cache<K>, key: K, random: nat, made: Option<Obj>)
    requires Inv(c) && random <= RAND_MAX
    ensures var (after, r) := Fetch(c, key, random, made);
            && (r == NothingToEvict || r == DrawnIsOut ==> after == c)
            && (forall p :: p in c.out ==> p in after.out)
            && (r.Got? ==> r.obj in after.out && after.out[r.obj] == key)
            && (Idle(c, key) != [] ==> r.Got? && Has(c, key, r.obj))
  {
    MakeRoomKeepsInv(c, random);
    if Idle(c, key) != [] {
      ReusedPool(c, key);
    }
  }

  // ----- runs -----

  datatype Op<K> =
    | FetchOp(key: K, random: nat, made: Option<Obj>)
    | ReleaseOp(p: Obj)
    | LimitOp(limit: nat)

  /** One call; `None` where the machine or the client would have to break a rule: an object
      created at the address of a living one, a limit of 0. */
  ghost function Apply<K>(c: Cache<K>, op: Op<K>): Option<Cache<K>> {
    match op
    case FetchOp(key, random, made) =>
      if random > RAND_MAX || (made.Some? && made.value in Alive(MakeRoom(c, random).0)) then None
      else Some(Fetch(c, key, random, made).0)
    case ReleaseOp(p) => Some(if p in c.out then Released(c, p) else c)
    case LimitOp(limit) => if limit == 0 then None else Some(Limited(c, limit))
  }

  ghost function Run<K>(c: Cache<K>, ops: seq<Op<K>>): Option<Cache<K>>
    decreases |ops|
  {
    if ops == [] then Some(c)
    else
      match Apply(c, ops[0])
      case None => None
      case Some(after) => Run(after, ops[1..])
  }

  lemma {:induction false} LimitedKeepsInv<K>(c: Cache<K>, limit: nat)
    requires Inv(c)
    ensures Inv(Limited(c, limit))
  {
    SamePoolMap(c, Limited(c, limit));
  }

  lemma {:induction false} ApplyKeepsInv<K>(c: Cache<K>, op: Op<K>)
    requires Inv(c) && c.limit > 0 && Apply(c, op).Some?
    ensures Inv(Apply(c, op).value) && Apply(c, op).value.limit > 0
  {
    match op
    case FetchOp(key, random, made) =>
      FetchKeepsInv(c, key, random, made);
      MakeRoomKeepsInv(c, random);
    case ReleaseOp(p) => if p in c.out { ReleasedKeepsInv(c, p); }
    case LimitOp(limit) => LimitedKeepsInv(c, limit);
  }

  function Empty<K>(limit: nat): Cache<K> {
    Cache(map[], map[], [], 0, limit, limit)
  }

  lemma {:induction false} RunKeepsInv<K>(c: Cache<K>, ops: seq<Op<K>>)
    requires Inv(c) && c.limit > 0 && Run(c, ops).Some?
    ensures Inv(Run(c, ops).value)
    decreases |ops|
  {
    if ops != [] {
      ApplyKeepsInv(c, ops[0]);
      RunKeepsInv(Apply(c, ops[0]).value, ops[1..]);
    }
  }

  /** The peak is the highest limit set. */
  predicate NeverAbove<K>(ops: seq<Op<K>>, limit: nat) {
    forall i :: 0 <= i < |ops| && ops[i].LimitOp? ==> ops[i].limit <= limit
  }

  lemma {:induction false} PeakIs<K>(c: Cache<K>, ops: seq<Op<K>>)
    requires Run(c, ops).Some? && NeverAbove(ops, c.peak)
    ensures Run(c, ops).value.peak == c.peak
    decreases |ops|
  {
    if ops != [] {
      var after := Apply(c, ops[0]).value;
      assert after.peak == c.peak;
      PeakIs(after, ops[1..]);
    }
  }

  /** Over any run: every living object is idle in one place or out, never both; the count of
      created objects is theirs, and it is within the limit if that was never set higher. */
  lemma {:induction false} Accounted<K>(ops: seq<Op<K>>, limit: nat)
    requires 0 < limit && Run(Empty<K>(limit), ops).Some? && NeverAbove(ops, limit)
    ensures var c := Run(Empty<K>(limit), ops).value;
            && OnePlace(c) && Pooled(c) !! c.out.Keys
            && c.created == |Pooled(c)| + |c.out| <= limit
  {
    var c := Run(Empty<K>(limit), ops).value;
    RunKeepsInv(Empty<K>(limit), ops);
    PeakIs(Empty<K>(limit), ops);
    assert |c.out.Keys| == |c.out|;
  }

  /** Five calls on an empty cache for two objects. */
  const FIVE_CALLS: seq<Op<nat>> :=
    [FetchOp(0, 0, Some(1)), ReleaseOp(1), FetchOp(0, 0, None), FetchOp(1, 0, Some(2)), ReleaseOp(2)]

  /** Object 1, with key 0, is out again, and 2, with key 1, is idle. */
  const AFTER_FIVE: Cache<nat> := Cache(map[0 := [], 1 := [2]], map[1 := 0], [1, 2], 2, 2, 2)

  lemma {:induction false} FiveCalls()
    ensures Run(Empty<nat>(2), FIVE_CALLS) == Some(AFTER_FIVE)
  {
    var c1: Cache<nat> := Cache(map[], map[1 := 0], [], 1, 2, 2);
    var c2: Cache<nat> := Cache(map[0 := [1]], map[], [1], 1, 2, 2);
    var c3: Cache<nat> := Cache(map[0 := []], map[1 := 0], [1], 1, 2, 2);
    var c4: Cache<nat> := Cache(map[0 := []], map[1 := 0, 2 := 1], [1], 2, 2, 2);
    var ops := FIVE_CALLS;
    CreatedIs(Empty<nat>(2), 0, 1, c1);
    ReleasedIs(c1, 1, c2);
    assert Reused(c2, 0) == c3;
    CreatedIs(c3, 1, 2, c4);
    ReleasedIs(c4, 2, AFTER_FIVE);
    RunLast(c4, [ops[4]], AFTER_FIVE);
    RunFirst(c3, ops[3..], c4);
    RunFirst(c2, ops[2..], c3);
    RunFirst(c1, ops[1..], c2);
    RunFirst(Empty<nat>(2), ops, c1);
    assert ops[1..][1..] == ops[2..] && ops[2..][1..] == ops[3..] && ops[3..][1..] == [ops[4]];
  }

  /** The documentation has eviction fail when no object is available. It can also fail while
      one is, as in the state after these calls: a key stays in the vector when its object goes
      out again, and may be drawn. */
  lemma {:induction false} EvictionFailsBesideIdleObject()
    ensures 2 in Pooled(AFTER_FIVE) && Fetch(AFTER_FIVE, 7, 0, Some(3)) == (AFTER_FIVE, DrawnIsOut)
  {
    FiveCalls();
    RunKeepsInv(Empty<nat>(2), FIVE_CALLS);
    assert Has(AFTER_FIVE, 1, 2);
    assert Draw(2, 0) == 0;
    FailsExactlyIf(AFTER_FIVE, 7, 0, Some(3));
    FetchSets(AFTER_FIVE, 7, 0, Some(3));
  }

  lemma {:induction false} CreatedIs<K>(c: Cache<K>, key: K, p: Obj, c': Cache<K>)
    requires Idle(c, key) == [] && c.created < c.limit && p !in Alive(c)
    requires c' == Created(c, key, p)
    ensures Apply(c, FetchOp(key, 0, Some(p))) == Some(c')
  {
  }

  lemma {:induction false} RunFirst<K>(c: Cache<K>, ops: seq<Op<K>>, after: Cache<K>)
    requires ops != [] && Apply(c, ops[0]) == Some(after)
    ensures Run(c, ops) == Run(after, ops[1..])
  {
  }

  lemma {:induction false} RunLast<K>(c: Cache<K>, ops: seq<Op<K>>, after: Cache<K>)
    requires |ops| == 1 && Apply(c, ops[0]) == Some(after)
    ensures Run(c, ops) == Some(after)
  {
  }

  lemma {:induction false} ReleasedIs<K>(c: Cache<K>, p: Obj, c': Cache<K>)
    requires p in c.out && c'.out == c.out - {p} && c'.keys == c.keys + [p]
    requires c'.pool.Keys == c.pool.Keys + {c.out[p]} && c'.pool[c.out[p]] == Idle(c, c.out[p]) + [p]
    requires forall k :: k in c.pool.Keys && k != c.out[p] ==> c'.pool[k] == c.pool[k]
    requires c'.created == c.created && c'.limit == c.limit && c'.peak == c.peak
    ensures Released(c, p) == c'
  {
    assert Released(c, p).pool == c'.pool;
  }
}
