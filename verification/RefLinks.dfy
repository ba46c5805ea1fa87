/**
  `RefLinkedBase`: owners of one object linked in a ring, and the smart pointer
  built on it. Rewiring happens in place on `prev` and `next`.
 */
module RefLinks {
  import opened OwnerRings

  /** A smart pointer with reference-linked ownership; `pointee` 0 is the null pointer. */
  class Owner {
    var prev: Owner?
    var next: Owner?
    var pointee: nat

    /** From a raw pointer: a ring of its own. */
    constructor (p: nat)
      ensures prev == this && next == this && pointee == p
    {
      prev, next := this, this;
      pointee := p;
    }

    /** Copying: the new node goes in right behind `rhs`. */
    constructor Copy(rhs: Owner)
      requires rhs.next != null
      modifies rhs, rhs.next
      ensures pointee == rhs.pointee == old(rhs.pointee)
      ensures prev == rhs && next == old(rhs.next) && rhs.next == this
      ensures old(rhs.next) == rhs ==> rhs.prev == this
      ensures old(rhs.next) != rhs ==>
                && rhs.prev == old(rhs.prev)
                && old(rhs.next).prev == this && old(rhs.next).next == old(rhs.next.next)
                && old(rhs.next).pointee == old(rhs.next.pointee)
    {
      pointee := rhs.pointee;
      prev := rhs;
      next := rhs.next;
      new;
      prev.next := this;
      next.prev := this;
    }
  }

  /** The neighbours of `x` are in `s` and point back at it. */
  predicate Mated(x: Owner, s: set<Owner>)
    reads s, x
  {
    && x.next != null && x.prev != null && x.next in s && x.prev in s
    && x.next.prev == x && x.prev.next == x
  }

  /** On `s`, `next` and `prev` stay inside and undo each other. */
  ghost predicate Inverse(s: set<Owner>)
    reads s
  {
    forall x {:trigger Mated(x, s)} :: x in s ==> Mated(x, s)
  }

  lemma {:induction false} OnlyNeighbours(a: Owner, s: set<Owner>)
    requires a in s && Inverse(s)
    ensures Mated(a, s)
    ensures forall x :: x in s ==> (x.next == a <==> x == a.prev) && (x.prev == a <==> x == a.next)
  {
    assert Mated(a, s);
    forall x | x in s
      ensures (x.next == a <==> x == a.prev) && (x.prev == a <==> x == a.next)
    {
      assert Mated(x, s);
    }
  }

  /** The links are those of before with `a` and `b` exchanged: `next` and `prev` are
      conjugated by the transposition. */
  twostate predicate Exchanged(a: Owner, b: Owner, s: set<Owner>)
    reads s, a, b
  {
    && (forall x :: x in s && x != a && x != b ==>
          x.next == Tau<Owner?>(a, b, old(x.next)) && x.prev == Tau<Owner?>(a, b, old(x.prev)))
    && a.next == Tau<Owner?>(a, b, old(b.next)) && a.prev == Tau<Owner?>(a, b, old(b.prev))
    && b.next == Tau<Owner?>(a, b, old(a.next)) && b.prev == Tau<Owner?>(a, b, old(a.prev))
  }

  /** Exchanging two nodes keeps `prev` the inverse of `next`. */
  twostate lemma {:induction false} ExchangedInverse(a: Owner, b: Owner, s: set<Owner>)
    requires a in s && b in s && old(Inverse(s)) && Exchanged(a, b, s)
    ensures Inverse(s)
  {
    forall x | x in s
      ensures Mated(x, s)
    {
      var y := Tau(a, b, x);
      assert old(Mated(y, s));
      assert x.next == Tau<Owner?>(a, b, old(y.next)) && x.prev == Tau<Owner?>(a, b, old(y.prev));
    }
  }

  /** `RefLinkedBase::Swap`: whatever the aliasing of the two nodes and their
      neighbours, it exchanges them. */
  method SwapLinks(a: Owner, b: Owner, ghost s: set<Owner>)
    requires a in s && b in s && Inverse(s)
    modifies s`prev, s`next
    ensures Exchanged(a, b, s)
    decreases if a.next == a then 0 else 1
  {
    OnlyNeighbours(a, s);
    OnlyNeighbours(b, s);
    if a.next == a {
      if b.next == b {
        return;
      }
      a.prev := b.prev;
      a.next := b.next;
      a.prev.next := a;
      a.next.prev := a;
      b.next, b.prev := b, b;
      return;
    }
    if b.next == b {
      SwapLinks(b, a, s);
      return;
    }
    if a.next == b {
      if a.prev == b {
        return;
      }
      a.prev, a.next := a.next, a.prev;
      b.prev, b.next := b.next, b.prev;
      b.prev, a.next := a.next, b.prev;
      var before, behind := b.prev, a.next;
      before.next, behind.prev := behind.prev, before.next;
    } else if a.prev == b {
      a.prev, a.next := a.next, a.prev;
      b.next, b.prev := b.prev, b.next;
      b.next, a.prev := a.prev, b.next;
      var behind, before := b.next, a.prev;
      behind.prev, before.next := before.next, behind.prev;
    } else {
      a.prev, b.prev := b.prev, a.prev;
      a.next, b.next := b.next, a.next;
      a.prev.next, b.prev.next := b.prev.next, a.prev.next;
      a.next.prev, b.next.prev := b.next.prev, a.next.prev;
    }
  }

  /** The links of before with `x` left out. */
  twostate predicate Skipped(x: Owner, y: Owner)
    reads y, x
  {
    && y.next == (if old(y.next) == x then old(x.next) else old(y.next))
    && y.prev == (if old(y.prev) == x then old(x.prev) else old(y.prev))
  }

  /** `RefLinkedBase::Release`: true for the last owner of its ring; otherwise the
      neighbours are linked past it. */
  method Release(x: Owner, ghost s: set<Owner>) returns (last: bool)
    requires x.next == null ==> x.prev == null
    requires x.next != null ==> x in s && Inverse(s)
    modifies s
    ensures last <==> old(x.next) == x
    ensures last ==> x.next == null && x.prev == null
    ensures old(x.next) == null ==> forall y :: y in s ==> y.next == old(y.next) && y.prev == old(y.prev)
    ensures old(x.next) != null ==> forall y :: y in s && y != x ==> Skipped(x, y)
    ensures forall y :: y in s ==> y.pointee == old(y.pointee)
  {
    if x.next == null {
      return false;
    }
    OnlyNeighbours(x, s);
    if x.next == x {
      x.prev := null;
      x.next := null;
      return true;
    }
    x.prev.next := x.next;
    x.next.prev := x.prev;
    return false;
  }
}
