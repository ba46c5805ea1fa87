/**
  `v1::Lru`: a set of limited size that forgets the key used longest ago. A list holds the
  keys by last use, a map the place of each key in the list.
 */
module LruCaches {
  import opened Basics

  // ----- lists of keys by last use -----

  datatype Op<T> = Has(key: T) | Put(key: T)

  /** The keys after an operation, the latest used last. */
  function After<T(==)>(keys: seq<T>, op: Op<T>, limit: nat): seq<T>
    requires 0 < limit
  {
    if op.key in keys then Strike(keys, op.key) + [op.key]
    else if op.Has? then keys
    else (if |keys| >= limit then keys[1..] else keys) + [op.key]
  }

  function Run<T(==)>(keys: seq<T>, ops: seq<Op<T>>, limit: nat): seq<T>
    requires 0 < limit
    decreases |ops|
  {
    if ops == [] then keys else Run(After(keys, ops[0], limit), ops[1..], limit)
  }

  /** Duplicate-free and within the limit, always; a key used is the latest, the others staying in
      their order but for the first, which goes exactly if a new key finds the list full. */
  lemma {:induction false} AfterOk<T>(keys: seq<T>, op: Op<T>, limit: nat)
    requires 0 < limit && NoDup(keys) && |keys| <= limit
    ensures var r := After(keys, op, limit);
            && NoDup(r) && |r| <= limit
            && (op.Put? || op.key in keys ==> r != [] && r[|r| - 1] == op.key)
            && (op.Has? && op.key !in keys ==> r == keys)
            && Strike(r, op.key) ==
               Strike(if op.Put? && op.key !in keys && |keys| == limit then keys[1..] else keys, op.key)
  {
    StrikeEnd(Strike(keys, op.key), op.key);
    StrikeEnd(keys, op.key);
    StrikeEnd(if |keys| >= limit then keys[1..] else keys, op.key);
    StrikeNoDup(keys, op.key);
    if op.key in keys {
      NoDupExtend(Strike(keys, op.key), op.key);
    } else if op.Put? {
      NoDupExtend(if |keys| >= limit then keys[1..] else keys, op.key);
    }
  }

  lemma {:induction false} StrikeEnd<T>(s: seq<T>, x: T)
    ensures Strike(s + [x], x) == Strike(s, x)
    ensures Strike(Strike(s, x), x) == Strike(s, x)
  {
    if s == [] {
      assert (s + [x])[1..] == [];
    } else {
      assert (s + [x])[1..] == s[1..] + [x];
      StrikeEnd(s[1..], x);
    }
  }

  // ----- order of use -----

  /** Whether an operation, made after those of `before`, uses a key: a hit, or a Put. */
  predicate Uses<T(==)>(before: seq<Op<T>>, op: Op<T>, key: T, limit: nat)
    requires 0 < limit
  {
    op.key == key && (op.Put? || key in Run([], before, limit))
  }

  /** The number of the latest operation that used the key, counted from 1; 0 if none did. */
  function LastUse<T(==)>(ops: seq<Op<T>>, key: T, limit: nat): nat
    requires 0 < limit
  {
    if ops == [] then 0
    else
      var n := |ops| - 1;
      if Uses(ops[..n], ops[n], key, limit) then n + 1 else LastUse(ops[..n], key, limit)
  }

  lemma {:induction false} LastUseBound<T>(ops: seq<Op<T>>, key: T, limit: nat)
    requires 0 < limit
    ensures LastUse(ops, key, limit) <= |ops|
  {
    if ops != [] { LastUseBound(ops[..|ops| - 1], key, limit); }
  }

  lemma {:induction false} RunLast<T>(keys: seq<T>, ops: seq<Op<T>>, limit: nat)
    requires 0 < limit && ops != []
    ensures var n := |ops| - 1;
            Run(keys, ops, limit) == After(Run(keys, ops[..n], limit), ops[n], limit)
    decreases |ops|
  {
    var n := |ops| - 1;
    if n == 0 {
      assert ops[1..] == [] && ops[..n] == [];
    } else {
      RunLast(After(keys, ops[0], limit), ops[1..], limit);
      assert ops[1..][..n - 1] == ops[..n][1..];
    }
  }

  /** Later elements have been used later, and all have been. */
  predicate Rising<T>(list: seq<T>, use: T -> nat) {
    list == [] ||
    (use(list[0]) > 0 && (forall i :: 0 < i < |list| ==> use(list[0]) < use(list[i])) && Rising(list[1..], use))
  }

  lemma {:induction false} RisingAt<T>(list: seq<T>, use: T -> nat)
    requires Rising(list, use)
    ensures forall i :: 0 <= i < |list| ==> use(list[i]) > 0
    ensures forall i, j :: 0 <= i < j < |list| ==> use(list[i]) < use(list[j])
  {
    if list != [] {
      RisingAt(list[1..], use);
      forall i, j | 0 <= i < j < |list|
        ensures use(list[i]) < use(list[j])
      {
        if i > 0 { assert use(list[1..][i - 1]) < use(list[1..][j - 1]); }
      }
    }
  }

  lemma {:induction false} RisingSame<T>(list: seq<T>, use: T -> nat, use': T -> nat)
    requires Rising(list, use) && forall x :: x in list ==> use'(x) == use(x)
    ensures Rising(list, use')
  {
    if list != [] { RisingSame(list[1..], use, use'); }
  }

  lemma {:induction false} RisingStrike<T>(list: seq<T>, use: T -> nat, x: T)
    requires Rising(list, use)
    ensures Rising(Strike(list, x), use)
  {
    if list != [] {
      RisingStrike(list[1..], use, x);
      if list[0] == x {
        assert Strike(list, x) == Strike(list[1..], x);
      } else {
        var r := Strike(list, x);
        assert r[1..] == Strike(list[1..], x);
        forall i | 0 < i < |r|
          ensures use(r[0]) < use(r[i])
        {
          assert r[i] == Strike(list[1..], x)[i - 1] && r[i] in list[1..];
        }
      }
    }
  }

  lemma {:induction false} RisingPush<T>(list: seq<T>, use: T -> nat, x: T)
    requires Rising(list, use) && use(x) > 0 && forall y :: y in list ==> use(y) < use(x)
    ensures Rising(list + [x], use)
  {
    if list == [] {
      assert (list + [x])[1..] == [];
    } else {
      RisingPush(list[1..], use, x);
      assert (list + [x])[1..] == list[1..] + [x];
    }
  }

  /** The keys are in the order of their last use, and `x`, if ever used, is among them unless
      there are as many as there is room for, all used later. */
  predicate LatestUsed<T(==)>(keys: seq<T>, use: T -> nat, limit: nat, x: T) {
    && Rising(keys, use)
    && (x !in keys && use(x) > 0 ==> |keys| == limit && forall y :: y in keys ==> use(x) < use(y))
  }

  /** After any run from the empty cache: the list has exactly the keys used latest, as many as
      there is room for. */
  lemma {:induction false} KeepsLatestUsed<T>(ops: seq<Op<T>>, limit: nat, x: T)
    requires 0 < limit
    ensures var keys := Run([], ops, limit);
            NoDup(keys) && |keys| <= limit && LatestUsed(keys, k => LastUse(ops, k, limit), limit, x)
  {
    if ops != [] {
      var n := |ops| - 1;
      var before, op := ops[..n], ops[n];
      RunLast([], ops, limit);
      KeepsLatestUsed(before, limit, x);
      KeepsLatestUsed(before, limit, op.key);
      AfterOk(Run([], before, limit), op, limit);
      forall k
        ensures LastUse(before, k, limit) <= n
      {
        LastUseBound(before, k, limit);
      }
      OneMoreUse(Run([], before, limit), op, limit, k => LastUse(before, k, limit), k => LastUse(ops, k, limit), n, x);
    }
  }

  /** One operation more, after `n`. */
  lemma {:induction false} OneMoreUse<T>(keys: seq<T>, op: Op<T>, limit: nat, use: T -> nat, use': T -> nat, n: nat, x: T)
    requires 0 < limit && |keys| <= limit && NoDup(keys)
    requires LatestUsed(keys, use, limit, x) && LatestUsed(keys, use, limit, op.key)
    requires forall k :: use(k) <= n
    requires forall k :: use'(k) == if k == op.key && (op.Put? || k in keys) then n + 1 else use(k)
    ensures LatestUsed(After(keys, op, limit), use', limit, x)
  {
    if op.key in keys {
      OneMoreHit(keys, op.key, limit, use, use', n, x);
    } else if op.Has? {
      RisingSame(keys, use, use');
    } else {
      OneMoreKey(keys, op.key, limit, use, use', n, x);
    }
  }

  lemma {:induction false} OneMoreHit<T>(keys: seq<T>, key: T, limit: nat, use: T -> nat, use': T -> nat, n: nat, x: T)
    requires NoDup(keys) && key in keys && LatestUsed(keys, use, limit, x)
    requires forall k :: use(k) <= n
    requires forall k :: use'(k) == if k == key then n + 1 else use(k)
    ensures LatestUsed(Strike(keys, key) + [key], use', limit, x)
  {
    StrikeNoDup(keys, key);
    RisingStrike(keys, use, key);
    RisingSame(Strike(keys, key), use, use');
    RisingPush(Strike(keys, key), use', key);
  }

  lemma {:induction false} OneMoreKey<T>(keys: seq<T>, key: T, limit: nat, use: T -> nat, use': T -> nat, n: nat, x: T)
    requires 0 < limit && |keys| <= limit && key !in keys && LatestUsed(keys, use, limit, x)
    requires forall k :: use(k) <= n
    requires forall k :: use'(k) == if k == key then n + 1 else use(k)
    ensures LatestUsed((if |keys| >= limit then keys[1..] else keys) + [key], use', limit, x)
  {
    var kept := if |keys| >= limit then keys[1..] else keys;
    assert keys != [] ==> keys == [keys[0]] + keys[1..];
    RisingAt(keys, use);
    RisingSame(kept, use, use');
    RisingPush(kept, use', key);
  }

  /** So the key a full cache gives up for a new one is the one whose last use lies furthest
      back. */
  lemma {:induction false} EvictsOldest<T>(ops: seq<Op<T>>, limit: nat, key: T)
    requires 0 < limit && key !in Run([], ops, limit) && |Run([], ops, limit)| == limit
    ensures var keys := Run([], ops, limit);
            && Run([], ops + [Op.Put(key)], limit) == keys[1..] + [key]
            && forall i :: 0 < i < |keys| ==> LastUse(ops, keys[0], limit) < LastUse(ops, keys[i], limit)
  {
    var keys, more := Run([], ops, limit), ops + [Op.Put(key)];
    assert more[..|more| - 1] == ops;
    RunLast([], more, limit);
    KeepsLatestUsed(ops, limit, key);
    RisingAt(keys, k => LastUse(ops, k, limit));
  }

  // ----- a larger cache includes a smaller one -----

  /** `a` is what is left of `b` when some elements are struck out. */
  predicate Sub<T(==)>(a: seq<T>, b: seq<T>) {
    a == [] || (b != [] && ((a[0] == b[0] && Sub(a[1..], b[1..])) || Sub(a, b[1..])))
  }

  lemma {:induction false} SubMembers<T>(a: seq<T>, b: seq<T>)
    requires Sub(a, b)
    ensures |a| <= |b| && forall x :: x in a ==> x in b
    decreases b
  {
    if a != [] {
      assert a == [a[0]] + a[1..] && b == [b[0]] + b[1..];
      if Sub(a, b[1..]) { SubMembers(a, b[1..]); } else { SubMembers(a[1..], b[1..]); }
    }
  }

  lemma {:induction false} SubRefl<T>(a: seq<T>)
    ensures Sub(a, a)
  {
    if a != [] { SubRefl(a[1..]); }
  }

  lemma {:induction false} SubDrop<T>(a: seq<T>, b: seq<T>)
    requires Sub(a, b) && a != []
    ensures Sub(a[1..], b) && Sub(a[1..], b[1..])
    decreases b
  {
    if Sub(a, b[1..]) {
      SubDrop(a, b[1..]);
    }
    if |b| > 1 && a[0] == b[0] && Sub(a[1..], b[1..]) { assert Sub(a[1..], b); }
  }

  lemma {:induction false} SubExtend<T>(a: seq<T>, b: seq<T>, x: T)
    requires Sub(a, b)
    ensures Sub(a + [x], b + [x])
    decreases b
  {
    if b == [] {
      assert Sub(([x])[1..], ([x])[1..]);
    } else {
      assert (b + [x])[1..] == b[1..] + [x];
      if a == [] {
        SubExtend(a, b[1..], x);
      } else {
        assert (a + [x])[1..] == a[1..] + [x];
        if Sub(a, b[1..]) { SubExtend(a, b[1..], x); } else { SubExtend(a[1..], b[1..], x); }
      }
    }
  }

  lemma {:induction false} SubStrike<T>(a: seq<T>, b: seq<T>, x: T)
    requires Sub(a, b)
    ensures Sub(Strike(a, x), Strike(b, x))
    decreases b
  {
    if a != [] {
      if Sub(a, b[1..]) {
        SubStrike(a, b[1..], x);
        assert [] + Strike(b[1..], x) == Strike(b[1..], x);
      } else {
        SubStrike(a[1..], b[1..], x);
        if a[0] == x {
          assert Strike(a, x) == Strike(a[1..], x) && Strike(b, x) == Strike(b[1..], x);
        } else {
          assert Strike(a, x)[1..] == Strike(a[1..], x) && Strike(b, x)[1..] == Strike(b[1..], x);
        }
      }
    }
  }

  /** The smaller cache's list can be had from the larger one's by striking out keys, and a
      smaller cache not yet full has the same list. */
  ghost predicate Included<T>(a: seq<T>, b: seq<T>, k: nat, m: nat) {
    && NoDup(a) && NoDup(b) && |a| <= k && |b| <= m
    && Sub(a, b) && (|a| < k ==> a == b)
  }

  lemma {:induction false} AfterIncluded<T>(a: seq<T>, b: seq<T>, op: Op<T>, k: nat, m: nat)
    requires 1 <= k <= m && Included(a, b, k, m)
    ensures Included(After(a, op, k), After(b, op, m), k, m)
    ensures op.key in a ==> op.key in b
  {
    var x := op.key;
    AfterOk(a, op, k);
    AfterOk(b, op, m);
    SubMembers(a, b);
    StrikeNoDup(a, x);
    if x in b {
      SubStrike(a, b, x);
      SubExtend(Strike(a, x), Strike(b, x), x);
      if x !in a {
        SubLonger(a, Strike(b, x), x);
        if op.Put? {
          SubDrop(a, Strike(b, x));
          SubExtend(a[1..], Strike(b, x), x);
        }
      }
    } else if op.Put? {
      if |a| < k {
        SubRefl(a + [x]);
      } else {
        SubDrop(a, b);
        SubExtend(a[1..], if |b| >= m then b[1..] else b, x);
      }
    }
  }

  lemma {:induction false} SubLonger<T>(a: seq<T>, b: seq<T>, x: T)
    requires Sub(a, b)
    ensures Sub(a, b + [x])
    decreases b
  {
    if a != [] {
      assert (b + [x])[1..] == b[1..] + [x];
      if Sub(a, b[1..]) { SubLonger(a, b[1..], x); } else { SubLonger(a[1..], b[1..], x); }
    }
  }

  /** Inclusion: fed the same operations, whatever a smaller cache has, a larger one has, in the
      same order of use. So every hit of the smaller one is a hit of the larger. */
  lemma {:induction false} Inclusion<T>(a: seq<T>, b: seq<T>, ops: seq<Op<T>>, k: nat, m: nat)
    requires 1 <= k <= m && Included(a, b, k, m)
    ensures var small, large := Run(a, ops, k), Run(b, ops, m);
            Included(small, large, k, m) && forall x :: x in small ==> x in large
    decreases |ops|
  {
    if ops == [] {
      SubMembers(a, b);
    } else {
      AfterIncluded(a, b, ops[0], k, m);
      Inclusion(After(a, ops[0], k), After(b, ops[0], m), ops[1..], k, m);
    }
  }

  /** In particular for caches that start out empty. */
  lemma {:induction false} InclusionFromEmpty<T>(ops: seq<Op<T>>, k: nat, m: nat)
    requires 1 <= k <= m
    ensures var small, large := Run<T>([], ops, k), Run<T>([], ops, m);
            && Sub(small, large) && |small| <= k && |large| <= m && NoDup(large)
            && forall x :: x in small ==> x in large
  {
    Inclusion<T>([], [], ops, k, m);
  }

  // ----- the cache -----

  /** A list node; `id` stands for its address. */
  datatype Node<T> = Node(id: nat, key: T)

  function KeysOf<T>(list: seq<Node<T>>): (r: seq<T>)
    ensures |r| == |list| && forall i :: 0 <= i < |list| ==> r[i] == list[i].key
  {
    seq(|list|, i requires 0 <= i < |list| => list[i].key)
  }

  /** `list::erase` of the node with this address. */
  function Erase<T>(list: seq<Node<T>>, id: nat): seq<Node<T>> {
    if list == [] then [] else if list[0].id == id then list[1..] else [list[0]] + Erase(list[1..], id)
  }

  /** Every node is registered under its key and its address. */
  predicate Registered<T(==)>(list: seq<Node<T>>, index: map<T, nat>, keyAt: map<nat, T>) {
    forall n :: n in list ==>
      && n.key in index && index[n.key] == n.id
      && n.id in keyAt && keyAt[n.id] == n.key
  }

  /** Erasing the node the map names erases the key. */
  lemma {:induction false} EraseKey<T>(list: seq<Node<T>>, id: nat, key: T)
    requires NoDup(KeysOf(list))
    requires forall n :: n in list ==> (n.key == key <==> n.id == id)
    ensures KeysOf(Erase(list, id)) == Strike(KeysOf(list), key)
    ensures forall n :: n in Erase(list, id) ==> n in list && n.key != key
  {
    var keys := KeysOf(list);
    if list != [] {
      assert keys[1..] == KeysOf(list[1..]);
      if list[0].id == id {
        assert Strike(keys, key) == keys[1..];
      } else {
        EraseKey(list[1..], id, key);
        assert Strike(keys, key) == [keys[0]] + Strike(keys[1..], key);
      }
    }
  }

  class Lru<T(==)> {
    var list: seq<Node<T>>
    var index: map<T, nat>
    const maxSize: nat
    /** The next new address. */
    var next: nat
    ghost var keyAt: map<nat, T>

    /** List and map agree: the map has the address of the one node of each key in the list,
        and no other keys. */
    ghost predicate Valid()
      reads this
    {
      && 0 < maxSize && |list| <= maxSize
      && Registered(list, index, keyAt)
      && (forall id :: id in keyAt ==> id < next)
      && (forall k :: k in index ==> k in KeysOf(list))
      && NoDup(KeysOf(list))
    }

    constructor (maxSize: nat)
      requires 0 < maxSize
      ensures Valid() && KeysOf(list) == [] && this.maxSize == maxSize
    {
      this.maxSize := maxSize;
      list, index, next, keyAt := [], map[], 0, map[];
    }

    /** `list_.insert(list_.end(), key)`, and the map told. */
    method InsertAtEnd(key: T)
      requires Registered(list, index, keyAt) && (forall id :: id in keyAt ==> id < next)
      requires key !in KeysOf(list) && |list| < maxSize && NoDup(KeysOf(list))
      requires forall k :: k in index ==> k in KeysOf(list) || k == key
      modifies this
      ensures Valid() && KeysOf(list) == old(KeysOf(list)) + [key]
    {
      NoDupExtend(KeysOf(list), key);
      var it := next;
      next := it + 1;
      assert KeysOf(list + [Node(it, key)]) == KeysOf(list) + [key];
      list := list + [Node(it, key)];
      keyAt := keyAt[it := key];
      index := index[key := it];
    }

    /** The key's node moves to the end of the list. */
    method Touch(key: T)
      requires Valid() && key in index
      modifies this
      ensures Valid() && KeysOf(list) == Strike(old(KeysOf(list)), key) + [key]
    {
      EraseKey(list, index[key], key);
      StrikeNoDup(KeysOf(list), key);
      list := Erase(list, index[key]);
      InsertAtEnd(key);
    }

    method Has(key: T) returns (hit: bool)
      requires Valid()
      modifies this
      ensures Valid() && hit == (key in old(KeysOf(list)))
      ensures hit ==> list != [] && list[|list| - 1].key == key
      ensures KeysOf(list) == After(old(KeysOf(list)), Op.Has(key), maxSize)
    {
      if key !in index {
        return false;
      }
      Touch(key);
      return true;
    }

    method Put(key: T) returns (added: bool)
      requires Valid()
      modifies this
      ensures Valid() && added == (key !in old(KeysOf(list)))
      ensures KeysOf(list) == After(old(KeysOf(list)), Op.Put(key), maxSize)
    {
      if key in index {
        Touch(key);
        return false;
      }
      if |list| == maxSize {
        PopFront();
      }
      InsertAtEnd(key);
      return true;
    }

    /** The key used longest ago is forgotten. */
    method PopFront()
      requires Valid() && list != []
      modifies `list, `index
      ensures Valid() && KeysOf(list) == old(KeysOf(list))[1..] && index.Keys <= old(index.Keys)
    {
      assert KeysOf(list)[1..] == KeysOf(list[1..]);
      var last := list[0].key;
      list := list[1..];
      index := index - {last};
    }
  }
}
