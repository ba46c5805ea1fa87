/**
  `CachedFactory` with `AmountLimitedCreation`, `EvictRandom` and `SimpleStatisticPolicy`.
 */
module CachedFactories {
  import opened Basics
  import opened Wrappers
  import opened FactoryStates

  const UINT := 0x1_0000_0000

  /** Unsigned 32-bit arithmetic wraps around. */
  function Wrap(x: int): nat {
    x % UINT
  }

  lemma {:induction false} WrapOnce(x: int, d: int)
    ensures Wrap(Wrap(x) + d) == Wrap(x + d)
  {
  }

  lemma {:induction false} WrapDifference(x: int, y: int)
    ensures Wrap(Wrap(x) - Wrap(y)) == Wrap(x - y)
  {
    var q, r := x / UINT, y / UINT;
    assert x == q * UINT + Wrap(x) && y == r * UINT + Wrap(y);
    WrapMultiple(Wrap(x) - Wrap(y), q - r);
  }

  lemma {:induction false} WrapMultiple(d: int, k: int)
    ensures Wrap(k * UINT + d) == Wrap(d)
  {
  }

  /** `SimpleStatisticPolicy`. */
  class Statistics {
    var allocatedNow: nat
    var created: nat
    var hit: nat
    var out: nat
    var fetched: nat
    /** The same events counted without bound. */
    ghost var fetches: nat
    ghost var creations: nat
    ghost var living: nat
    ghost var abroad: nat

    /** What the counters mean. `hit` is decremented for a creation before the fetch it belongs to
        is counted; wrapping around, it comes out right. */
    ghost predicate Valid()
      reads this
    {
      && allocatedNow == Wrap(living) && created == Wrap(creations)
      && out == Wrap(abroad) && fetched == Wrap(fetches)
      && hit == Wrap(fetches - creations)
    }

    constructor ()
      ensures Valid() && fetches == creations == living == abroad == 0
    {
      allocatedNow, created, hit, out, fetched := 0, 0, 0, 0, 0;
      fetches, creations, living, abroad := 0, 0, 0, 0;
    }

    method OnFetch()
      requires Valid()
      modifies this
      ensures Valid() && fetches == old(fetches) + 1 && abroad == old(abroad) + 1
      ensures creations == old(creations) && living == old(living)
    {
      WrapOnce(fetches, 1);
      WrapOnce(abroad, 1);
      WrapOnce(fetches - creations, 1);
      fetched, out, hit := Wrap(fetched + 1), Wrap(out + 1), Wrap(hit + 1);
      fetches, abroad := fetches + 1, abroad + 1;
    }

    method OnRelease()
      requires Valid() && abroad > 0
      modifies this
      ensures Valid() && abroad == old(abroad) - 1
      ensures creations == old(creations) && living == old(living) && fetches == old(fetches)
    {
      WrapOnce(abroad, -1);
      out := Wrap(out - 1);
      abroad := abroad - 1;
    }

    method OnCreate()
      requires Valid()
      modifies this
      ensures Valid() && creations == old(creations) + 1 && living == old(living) + 1
      ensures fetches == old(fetches) && abroad == old(abroad)
    {
      WrapOnce(creations, 1);
      WrapOnce(living, 1);
      WrapOnce(fetches - creations, -1);
      created, allocatedNow, hit := Wrap(created + 1), Wrap(allocatedNow + 1), Wrap(hit - 1);
      creations, living := creations + 1, living + 1;
    }

    method OnDestroy()
      requires Valid() && living > 0
      modifies this
      ensures Valid() && living == old(living) - 1
      ensures fetches == old(fetches) && creations == old(creations) && abroad == old(abroad)
    {
      WrapOnce(living, -1);
      allocatedNow := Wrap(allocatedNow - 1);
      living := living - 1;
    }

    /** `getMissed`: every miss is a creation. */
    function GetMissed(): (n: nat)
      requires Valid()
      reads this
      ensures n == created
    {
      WrapDifference(fetches, fetches - creations);
      Wrap(fetched - hit)
    }

    /** `getDestroyed`. */
    function GetDestroyed(): (n: nat)
      requires Valid()
      reads this
      ensures n == Wrap(creations - living)
    {
      WrapDifference(creations, living);
      Wrap(created - allocatedNow)
    }
  }

  class CachedFactory<K(==)> {
    var pool: map<K, seq<Obj>>
    var provided: map<Obj, K>
    var keys: seq<Obj>
    var created: nat
    var maxCreation: nat
    /** The state these fields hold, and the highest limit so far. */
    ghost var value: Cache<K>
    const stats: Statistics

    ghost predicate Same()
      reads this
    {
      value == Cache(pool, provided, keys, created, maxCreation, value.peak)
    }

    ghost predicate Counted()
      reads this, stats
    {
      stats.Valid() && stats.living == created && stats.abroad == |provided|
    }

    ghost predicate Valid()
      reads this, stats
    {
      Same() && Counted() && Inv(value) && maxCreation > 0
    }

    constructor ()
      ensures Valid() && value == Empty(10) && fresh(stats)
    {
      pool, provided, keys := map[], map[], [];
      created, maxCreation := 0, 10;
      value := Empty(10);
      stats := new Statistics();
      new;
      assert Alive(value) == {};
    }

    /** The limit may be set at any time. */
    method SetMaxCreation(limit: nat)
      requires Valid() && limit > 0
      modifies this
      ensures Valid() && value == Limited(old(value), limit) && maxCreation == limit
      ensures unchanged(`pool) && unchanged(`provided) && unchanged(`keys) && unchanged(`created)
    {
      LimitedKeepsInv(value, limit);
      maxCreation := limit;
      value := Limited(value, limit);
    }

    /** The object goes from its vector and from the keys, and is deleted. */
    method Delete(k: K, p: Obj)
      requires Same() && Counted() && k in pool && created > 0
      requires Destroyed(value, p).pool == pool[k := Strike(pool[k], p)]
      modifies this, stats
      ensures Same() && Counted() && value == Destroyed(old(value), p) && stats.fetches == old(stats.fetches)
      ensures maxCreation == old(maxCreation)
    {
      stats.OnDestroy();
      pool := pool[k := Strike(pool[k], p)];
      keys := Strike(keys, p);
      created := created - 1;
      value := Destroyed(value, p);
    }

    /** The search of `remove` for the vector the object is in. */
    method FindVector(p: Obj) returns (k: K)
      requires Same() && p in Pooled(value)
      ensures Has(value, k, p)
    {
      var todo := pool.Keys;
      ghost var home := PooledAt(value, p);
      while true
        invariant todo <= pool.Keys && home in todo
        decreases |todo|
      {
        k :| k in todo;
        todo := todo - {k};
        if |Strike(pool[k], p)| != |pool[k]| {
          return;
        }
      }
    }

    /** `remove`: the object is destroyed, unless it is out. */
    method Remove(p: Obj) returns (ok: bool)
      requires Valid() && p in Alive(value)
      modifies this, stats
      ensures Valid() && ok == (p in old(Pooled(value)))
      ensures ok ==> old(created) > 0 && value == Destroyed(old(value), p)
      ensures !ok ==> value == old(value)
      ensures stats.fetches == old(stats.fetches)
    {
      if p in provided {
        return false;
      }
      DestroyedKeepsInv(value, p);
      var k := FindVector(p);
      OnlyVector(value, k, p);
      Delete(k, p);
      return true;
    }

    /** `EvictRandom::evict`. */
    method Evict(random: nat) returns (e: Option<Result>)
      requires Valid() && random <= RAND_MAX && created >= maxCreation
      modifies this, stats
      ensures Valid() && (value, e) == MakeRoom(old(value), random)
      ensures stats.fetches == old(stats.fetches)
    {
      if keys == [] {
        return Some(NothingToEvict);
      }
      DrawInRange(|keys|, random);
      var i := |keys| * random / (RAND_MAX + 1);
      assert keys[i] in Alive(value);
      var ok := Remove(keys[i]);
      e := if ok then None else Some(DrawnIsOut);
    }

    /** An idle object goes out. */
    method HandOut(key: K) returns (p: Obj)
      requires Same() && Counted() && key in pool && pool[key] != []
      requires pool[key][|pool[key]| - 1] !in provided
      modifies this, stats
      ensures Same() && Counted() && value == Reused(old(value), key) && stats.fetches == old(stats.fetches) + 1
      ensures p == old(pool)[key][|old(pool)[key]| - 1] && maxCreation == old(maxCreation)
    {
      var n := |pool[key]| - 1;
      p := pool[key][n];
      pool := pool[key := pool[key][..n]];
      stats.OnFetch();
      provided := provided[p := key];
      value := Reused(value, key);
    }

    /** A new object goes out. */
    method BringIn(key: K, p: Obj)
      requires Same() && Counted() && p !in provided
      modifies this, stats
      ensures Same() && Counted() && value == Created(old(value), key, p) && stats.fetches == old(stats.fetches) + 1
      ensures maxCreation == old(maxCreation)
    {
      created := created + 1;
      stats.OnCreate();
      stats.OnFetch();
      provided := provided[p := key];
      value := Created(value, key, p);
    }

    /** `CreateObject`. `made` is what the creator would deliver: no living object. */
    method CreateObject(key: K, random: nat, made: Option<Obj>) returns (r: Result)
      requires Valid() && random <= RAND_MAX
      requires made.Some? ==> made.value !in Alive(MakeRoom(value, random).0)
      modifies this, stats
      ensures Valid() && (value, r) == Fetch(old(value), key, random, made)
      ensures stats.fetches == old(stats.fetches) + (if r.Got? then 1 else 0)
    {
      if key in pool && pool[key] != [] {
        var p := TakeIdle(key);
        return Got(p);
      }
      var e := ShouldCreate(random);
      if e.Some? {
        return e.value;
      }
      if made.None? {
        return CreationFailed;
      }
      TakeNew(key, made.value);
      return Got(made.value);
    }

    /** An idle object is fetched. */
    method TakeIdle(key: K) returns (p: Obj)
      requires Valid() && Idle(value, key) != []
      modifies this, stats
      ensures Valid() && value == Reused(old(value), key) && stats.fetches == old(stats.fetches) + 1
      ensures p == old(value.pool)[key][|old(value.pool)[key]| - 1]
    {
      ReusedKeepsInv(value, key);
      ReusedPool(value, key);
      p := HandOut(key);
    }

    /** A new object is created and fetched. */
    method TakeNew(key: K, p: Obj)
      requires Valid() && p !in Alive(value) && created < value.peak
      modifies this, stats
      ensures Valid() && value == Created(old(value), key, p) && stats.fetches == old(stats.fetches) + 1
    {
      CreatedKeepsInv(value, key, p);
      BringIn(key, p);
    }

    /** `shouldCreateObject` where there is no idle object: room is made if the limit is reached. */
    method ShouldCreate(random: nat) returns (e: Option<Result>)
      requires Valid() && random <= RAND_MAX
      modifies this, stats
      ensures Valid() && (value, e) == MakeRoom(old(value), random)
      ensures e.None? ==> created < value.peak
      ensures stats.fetches == old(stats.fetches)
    {
      MakeRoomKeepsInv(value, random);
      e := None;
      if !(created < maxCreation) {
        e := Evict(random);
      }
    }

    /** An object comes back. */
    method TakeBack(p: Obj)
      requires Same() && Counted() && p in provided
      modifies this, stats
      ensures Same() && Counted() && value == Released(old(value), p) && maxCreation == old(maxCreation)
    {
      stats.OnRelease();
      keys := keys + [p];
      var key := provided[p];
      pool := pool[key := (if key in pool then pool[key] else []) + [p]];
      provided := provided - {p};
      value := Released(value, p);
    }

    /** `ReleaseObject`: refused for an object that is not out. */
    method ReleaseObject(p: Obj) returns (ok: bool)
      requires Valid()
      modifies this, stats
      ensures Valid() && ok == (p in old(provided))
      ensures value == if ok then Released(old(value), p) else old(value)
    {
      if p !in provided {
        return false;
      }
      ReleasedKeepsInv(value, p);
      TakeBack(p);
      return true;
    }
  }

  /** The vector found is the only one with the object in it. */
  lemma {:induction false} OnlyVector<K>(c: Cache<K>, k: K, p: Obj)
    requires OnePlace(c) && Has(c, k, p) && c.created > 0
    ensures Destroyed(c, p).pool == c.pool[k := Strike(c.pool[k], p)]
  {
    forall k' | k' in c.pool && k' != k
      ensures Strike(c.pool[k'], p) == c.pool[k']
    {
      assert !Has(c, k', p);
    }
  }
}
