/**
  `SmartPtr` with the reference-linked ownership policy: objects on the heap whose links
  agree with a world of rings, and operations that keep it so.
 */
module SmartPointers {
  import opened OwnerRings
  import opened RefLinks

  function Succ(i: nat, n: nat): nat
    requires i < n
  {
    if i + 1 == n then 0 else i + 1
  }

  ghost function AllOf(w: World<Owner>): set<Owner> {
    set id, i | id in w.rings.Keys && 0 <= i < |w.rings[id].members| :: w.rings[id].members[i]
  }

  /** The owner at this spot is linked with the next one, and points at the ring's object. */
  ghost predicate Fits(w: World<Owner>, id: nat, i: nat)
    requires Spot(w, id, i)
    reads w.rings[id].members
  {
    && Who(w, id, i).next == Who(w, id, Succ(i, |w.rings[id].members|))
    && Who(w, id, Succ(i, |w.rings[id].members|)).prev == Who(w, id, i)
    && Who(w, id, i).pointee == w.rings[id].obj
  }

  /** The heap agrees with the world. */
  ghost predicate Good(w: World<Owner>)
    reads AllOf(w)
  {
    WF(w) && forall id, i {:trigger Fits(w, id, i)} :: Spot(w, id, i) ==> Fits(w, id, i)
  }

  lemma {:induction false} SpotOf(w: World<Owner>, x: Owner) returns (id: nat, i: nat)
    requires x in AllOf(w)
    ensures Spot(w, id, i) && Who(w, id, i) == x
  {
    id, i :| id in w.rings.Keys && 0 <= i < |w.rings[id].members| && w.rings[id].members[i] == x;
  }

  lemma {:induction false} LiveIsMember(w: World<Owner>, x: Owner)
    ensures Live(w, x) <==> x in AllOf(w)
  {
    if x in AllOf(w) { var id, i := SpotOf(w, x); }
  }

  function Pred(i: nat, n: nat): nat
    requires i < n
  {
    if i == 0 then n - 1 else i - 1
  }

  /** In a good world every owner is mated with its neighbours. */
  lemma {:induction false} GoodInverse(w: World<Owner>)
    requires Good(w)
    ensures Inverse(AllOf(w))
  {
    forall x | x in AllOf(w)
      ensures Mated(x, AllOf(w))
    {
      var id, i := SpotOf(w, x);
      var n := |w.rings[id].members|;
      assert Fits(w, id, i) && Fits(w, id, Pred(i, n));
      assert Spot(w, id, Succ(i, n)) && Spot(w, id, Pred(i, n));
    }
  }

  /** A smart pointer made from a raw pointer no smart pointer has had before. */
  method Create(p: nat, ghost w: World<Owner>, ghost id: nat) returns (x: Owner, ghost after: World<Owner>)
    requires Good(w) && id !in w.rings && p !in w.made
    ensures fresh(x) && after == Make(w, id, x, p) && Good(after)
  {
    x := new Owner(p);
    after := Make(w, id, x, p);
    LiveIsMember(w, x);
    MakeWF(w, id, x, p);
    forall k: nat, i: nat | Spot(after, k, i)
      ensures Fits(after, k, i)
    {
      if k != id { assert Spot(w, k, i) && old(Fits(w, k, i)); }
    }
  }

  /** What stood at `x` stands at the node `x` is exchanged with. */
  twostate predicate Moved(a: Owner, b: Owner, x: Owner)
    reads a, b, x
  {
    var y := Tau(a, b, x);
    && y.next == Tau<Owner?>(a, b, old(x.next)) && y.prev == Tau<Owner?>(a, b, old(x.prev))
    && y.pointee == old(x.pointee)
  }

  /** If every owner's links and pointee have moved to the node it is exchanged with, the heap
      fits the exchanged world. */
  twostate lemma {:induction false} SwapFits(w: World<Owner>, new a: Owner, new b: Owner)
    requires old(Good(w)) && a in AllOf(w) && b in AllOf(w)
    requires forall x :: x in AllOf(w) ==> Moved(a, b, x)
    ensures Good(Exchange(w, a, b))
  {
    ExchangeWF(w, a, b);
    forall k: nat, i: nat | Spot(Exchange(w, a, b), k, i)
      ensures Fits(Exchange(w, a, b), k, i)
    {
      assert Spot(w, k, i) && old(Fits(w, k, i));
      assert Who(w, k, i) in AllOf(w) && Who(w, k, Succ(i, |w.rings[k].members|)) in AllOf(w);
    }
  }

  /** `SmartPtr::Swap`: the links, then the pointees. */
  method Swap(a: Owner, b: Owner, ghost w: World<Owner>)
    requires Good(w) && a in AllOf(w) && b in AllOf(w)
    modifies AllOf(w)
    ensures Good(Exchange(w, a, b))
    ensures forall x :: x in AllOf(w) ==> Moved(a, b, x)
    ensures a.pointee == old(b.pointee) && b.pointee == old(a.pointee)
  {
    GoodInverse(w);
    SwapLinks(a, b, AllOf(w));
    a.pointee, b.pointee := b.pointee, a.pointee;
    SwapFits(w, a, b);
  }

  /** Links in which `x` stands right behind the owner at spot `i` of ring `id` fit the
      world in which it has joined there. */
  twostate lemma {:induction false} JoinFits(w: World<Owner>, new id: nat, new i: nat, new x: Owner)
    requires old(Good(w)) && Spot(w, id, i) && WF(Join(w, id, i, x))
    requires var src := Who(w, id, i);
             && x.prev == src && x.next == old(src.next) && src.next == x && x.pointee == old(src.pointee)
             && (forall y :: y in AllOf(w) && y != src ==> y.next == old(y.next))
             && (forall y :: y in AllOf(w) ==> y.prev == if y == old(src.next) then x else old(y.prev))
             && (forall y :: y in AllOf(w) ==> y.pointee == old(y.pointee))
             && x !in AllOf(w)
    ensures Good(Join(w, id, i, x))
  {
    var after := Join(w, id, i, x);
    assert old(Fits(w, id, i));
    forall k: nat, j: nat | Spot(after, k, j)
      ensures Fits(after, k, j)
    {
      var m := |after.rings[k].members|;
      JoinSpots(w, id, i, x, k, j);
      JoinSpots(w, id, i, x, k, Succ(j, m));
      if !(k == id && j == i + 1) {
        var j' := if k == id then BeforeInsert(i, j) else j;
        assert old(Fits(w, k, j'));
        assert Who(w, k, j') in AllOf(w);
      }
      if !(k == id && Succ(j, m) == i + 1) {
        var j' := if k == id then BeforeInsert(i, Succ(j, m)) else Succ(j, m);
        assert Who(w, k, j') in AllOf(w);
      }
    }
  }

  /** Copying an owner: same pointee, and a place right behind it in its ring. */
  method Copy(src: Owner, ghost w: World<Owner>, ghost id: nat, ghost i: nat)
      returns (x: Owner, ghost after: World<Owner>)
    requires Good(w) && Spot(w, id, i) && Who(w, id, i) == src
    modifies AllOf(w)
    ensures fresh(x) && after == Join(w, id, i, x) && Good(after)
    ensures x.pointee == src.pointee == old(src.pointee)
    ensures forall y :: y in AllOf(w) ==> y.pointee == old(y.pointee)
  {
    CopyNeighbours(w, id, i);
    x := new Owner.Copy(src);
    after := Join(w, id, i, x);
    LiveIsMember(w, x);
    JoinWF(w, id, i, x);
    JoinFits(w, id, i, x);
  }

  /** Nobody but `src` is linked to its successor. */
  lemma {:induction false} CopyNeighbours(w: World<Owner>, id: nat, i: nat)
    requires Good(w) && Spot(w, id, i)
    ensures var src := Who(w, id, i);
            && src in AllOf(w) && src.next in AllOf(w)
            && forall y :: y in AllOf(w) ==> (y.next == src.next <==> y == src)
  {
    GoodInverse(w);
    OnlyNeighbours(Who(w, id, i), AllOf(w));
    OnlyNeighbours(Who(w, id, i).next, AllOf(w));
  }

  lemma {:induction false} LeaveMembers(w: World<Owner>, id: nat, i: nat)
    requires WF(w) && Spot(w, id, i)
    ensures forall y :: y in AllOf(Leave(w, id, i)) ==> y in AllOf(w) && y != Who(w, id, i)
  {
    var after := Leave(w, id, i);
    forall y | y in AllOf(after)
      ensures y in AllOf(w) && y != Who(w, id, i)
    {
      var k, j := SpotOf(after, y);
      if |w.rings[id].members| == 1 {
        assert Spot(w, k, j);
      } else {
        LeaveSpots(w, id, i, k, j);
      }
    }
  }

  /** Links that skip the owner at spot `i` of ring `id` fit the world it has left. */
  twostate lemma {:induction false} LeaveFits(w: World<Owner>, new id: nat, new i: nat)
    requires old(Good(w)) && Spot(w, id, i) && WF(Leave(w, id, i))
    requires forall y :: y in AllOf(Leave(w, id, i)) ==> y.pointee == old(y.pointee)
    requires |w.rings[id].members| > 1 ==>
               forall y :: y in AllOf(Leave(w, id, i)) ==> Skipped(Who(w, id, i), y)
    requires |w.rings[id].members| == 1 ==>
               forall y :: y in AllOf(Leave(w, id, i)) ==> y.next == old(y.next) && y.prev == old(y.prev)
    ensures Good(Leave(w, id, i))
  {
    var after := Leave(w, id, i);
    forall k: nat, j: nat | Spot(after, k, j)
      ensures Fits(after, k, j)
    {
      var s := Succ(j, |after.rings[k].members|);
      assert Spot(after, k, s) && Who(after, k, j) in AllOf(after) && Who(after, k, s) in AllOf(after);
      if |w.rings[id].members| > 1 {
        SkipFits(w, id, i, k, j);
      } else {
        assert Spot(w, k, j) && old(Fits(w, k, j));
      }
    }
  }

  /** The same for one spot, if others stay in the ring. */
  twostate lemma {:induction false} SkipFits(w: World<Owner>, new id: nat, new i: nat, new k: nat, new j: nat)
    requires old(Good(w)) && Spot(w, id, i) && |w.rings[id].members| > 1 && Spot(Leave(w, id, i), k, j)
    requires var after := Leave(w, id, i);
             var x, y, z := Who(w, id, i), Who(after, k, j), Who(after, k, Succ(j, |after.rings[k].members|));
             Skipped(x, y) && Skipped(x, z) && y.pointee == old(y.pointee)
    ensures Fits(Leave(w, id, i), k, j)
  {
    var l := Succ(j, |Leave(w, id, i).rings[k].members|);
    var j' := if k == id && j >= i then j + 1 else j;
    var l' := if k == id && l >= i then l + 1 else l;
    LeaveSpots(w, id, i, k, j);
    LeaveSpots(w, id, i, k, l);
    assert old(Fits(w, id, i)) && old(Fits(w, k, j'));
    OneSpot(w, id, i, k, j');
    OneSpot(w, id, i, k, l');
    var n := |w.rings[k].members|;
    if k == id && Succ(j', n) == i {
      assert l' == Succ(i, n);
    } else {
      assert l' == Succ(j', n);
    }
  }

  lemma {:induction false} OneSpot(w: World<Owner>, id: nat, i: nat, k: nat, j: nat)
    requires OnePlace(w) && Spot(w, id, i) && Spot(w, k, j)
    ensures Who(w, id, i) == Who(w, k, j) ==> id == k && i == j
  {
  }

  /** The destructor. `destroyed` is the object deleted, 0 when none is. */
  method Destroy(x: Owner, ghost w: World<Owner>, ghost id: nat, ghost i: nat)
      returns (destroyed: nat, ghost after: World<Owner>)
    requires Good(w) && Spot(w, id, i) && Who(w, id, i) == x
    modifies AllOf(w)
    ensures after == Leave(w, id, i) && Good(after)
    ensures destroyed == if |w.rings[id].members| == 1 then w.rings[id].obj else 0
    ensures forall y :: y in AllOf(after) ==> y.pointee == old(y.pointee)
  {
    assert Fits(w, id, i);
    GoodInverse(w);
    AloneIffLinkedToSelf(w, id, i);
    LeaveMembers(w, id, i);
    OtherNeighbours(w, id, i);
    var last := Release(x, AllOf(w));
    destroyed := if last then x.pointee else 0;
    after := Leave(w, id, i);
    if last { LastLeaves(w, id); } else { OneOfManyLeaves(w, id, i); }
    LeaveFits(w, id, i);
  }

  /** The last owner of a ring is nobody else's neighbour. */
  lemma {:induction false} OtherNeighbours(w: World<Owner>, id: nat, i: nat)
    requires Good(w) && Spot(w, id, i)
    ensures Who(w, id, i).next == Who(w, id, i) ==>
              forall y :: y in AllOf(w) && y != Who(w, id, i) ==> y.next != Who(w, id, i) && y.prev != Who(w, id, i)
  {
    GoodInverse(w);
    OnlyNeighbours(Who(w, id, i), AllOf(w));
  }

  lemma {:induction false} AloneIffLinkedToSelf(w: World<Owner>, id: nat, i: nat)
    requires Good(w) && Spot(w, id, i)
    ensures Who(w, id, i).next == Who(w, id, i) <==> |w.rings[id].members| == 1
  {
    assert Fits(w, id, i) && Spot(w, id, Succ(i, |w.rings[id].members|));
  }

  /** `lhs = rhs`: a copy of `rhs` is swapped with `lhs` and dies in its place, so that `lhs`
      leaves its ring, taking the object with it if it was the last, and stands behind `rhs`. */
  method Assign(lhs: Owner, rhs: Owner, ghost w: World<Owner>,
      ghost idl: nat, ghost il: nat, ghost idr: nat, ghost ir: nat)
      returns (destroyed: nat, ghost after: World<Owner>)
    requires Good(w)
    requires Spot(w, idl, il) && Who(w, idl, il) == lhs
    requires Spot(w, idr, ir) && Who(w, idr, ir) == rhs
    modifies AllOf(w)
    ensures after == Rehang(w, idl, il, idr, ir) && Good(after)
    ensures destroyed == if idl != idr && |w.rings[idl].members| == 1 then w.rings[idl].obj else 0
    ensures lhs.pointee == old(rhs.pointee)
  {
    RehangKeeps(w, idl, il, idr, ir);
    var temp, joined := Copy(rhs, w, idr, ir);
    LiveIsMember(w, temp);
    RehangByCopy(w, idl, il, idr, ir, temp);
    JoinedMembers(w, idl, il, idr, ir, temp);
    Swap(temp, lhs, joined);
    destroyed, after := Destroy(temp, Exchange(joined, temp, lhs), idl, if idl == idr && il > ir then il + 1 else il);
    LiveIsMember(after, lhs);
  }

  lemma {:induction false} ExchangedMembers(w: World<Owner>, a: Owner, b: Owner)
    requires a in AllOf(w) && b in AllOf(w)
    ensures AllOf(Exchange(w, a, b)) <= AllOf(w)
  {
    forall y | y in AllOf(Exchange(w, a, b))
      ensures y in AllOf(w)
    {
      var k, j := SpotOf(Exchange(w, a, b), y);
      assert Spot(w, k, j) && Who(w, k, j) in AllOf(w);
    }
  }

  lemma {:induction false} JoinedMembers(w: World<Owner>, id: nat, i: nat, idr: nat, ir: nat, x: Owner)
    requires Spot(w, id, i) && Spot(w, idr, ir)
    ensures x in AllOf(Join(w, idr, ir, x)) && Who(w, id, i) in AllOf(Join(w, idr, ir, x))
    ensures AllOf(Join(w, idr, ir, x)) <= AllOf(w) + {x}
    ensures AllOf(Exchange(Join(w, idr, ir, x), x, Who(w, id, i))) <= AllOf(w) + {x}
  {
    var joined := Join(w, idr, ir, x);
    forall y | y in AllOf(joined)
      ensures y in AllOf(w) + {x}
    {
      var k, j := SpotOf(joined, y);
      JoinSpots(w, idr, ir, x, k, j);
    }
    assert Spot(joined, idr, ir + 1) && Who(joined, idr, ir + 1) == x;
    var at := if id == idr && i > ir then i + 1 else i;
    assert Spot(joined, id, at) && Who(joined, id, at) == Who(w, id, i);
    ExchangedMembers(joined, x, Who(w, id, i));
  }

  /** `CountNextCycle`: the number of owners in the ring. */
  method CountNextCycle(x: Owner?, ghost w: World<Owner>, ghost id: nat, ghost i: nat) returns (count: nat)
    requires x != null && x.next != null ==> Good(w) && Spot(w, id, i) && Who(w, id, i) == x
    ensures count == if x == null || x.next == null then 0 else |w.rings[id].members|
  {
    if x == null || x.next == null {
      return 0;
    }
    ghost var n := |w.rings[id].members|;
    ghost var j: nat := Succ(i, n);
    assert Fits(w, id, i);
    var p := x.next;
    if x == p {
      AloneIffLinkedToSelf(w, id, i);
      return 1;
    }
    count := 1;
    while p != x
      invariant j < n && p == Who(w, id, j)
      invariant count == if j > i then j - i else j - i + n
      decreases n - count
    {
      assert Fits(w, id, j);
      p := p.next;
      j := Succ(j, n);
      count := count + 1;
    }
    assert Spot(w, id, i) && Spot(w, id, j);
  }

  /** `CountPrevCycle`: as many the other way round. */
  method CountPrevCycle(x: Owner?, ghost w: World<Owner>, ghost id: nat, ghost i: nat) returns (count: nat)
    requires x != null && x.prev != null ==> Good(w) && Spot(w, id, i) && Who(w, id, i) == x
    ensures count == if x == null || x.prev == null then 0 else |w.rings[id].members|
  {
    if x == null || x.prev == null {
      return 0;
    }
    ghost var n := |w.rings[id].members|;
    ghost var j: nat := Pred(i, n);
    assert Fits(w, id, j);
    var p := x.prev;
    if x == p {
      assert Spot(w, id, i) && Spot(w, id, j);
      return 1;
    }
    count := 1;
    while p != x
      invariant j < n && p == Who(w, id, j)
      invariant count == if j < i then i - j else i - j + n
      decreases n - count
    {
      j := Pred(j, n);
      assert Fits(w, id, j);
      p := p.prev;
      count := count + 1;
    }
    assert Spot(w, id, i) && Spot(w, id, j);
  }
}
