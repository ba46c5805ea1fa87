/**
  Who owns what: rings of owners, one ring per object, as values. The smart
  pointers of `SmartPointers` keep their links in step with such a world.
 */
module OwnerRings {
  import opened Wrappers

  /** The owners of one object, in link order; object 0 is the null pointer. */
  datatype Ring<T> = Ring(obj: nat, members: seq<T>)

  /** All rings, the objects ever handed to a smart pointer, and how often each was destroyed. */
  datatype World<T> = World(rings: map<nat, Ring<T>>, made: set<nat>, freed: multiset<nat>)

  function Tau<T(==)>(a: T, b: T, x: T): T {
    if x == a then b else if x == b then a else x
  }

  function MapTau<T(==)>(a: T, b: T, s: seq<T>): (r: seq<T>)
    ensures |r| == |s| && forall i :: 0 <= i < |s| ==> r[i] == Tau(a, b, s[i])
  {
    seq(|s|, i requires 0 <= i < |s| => Tau(a, b, s[i]))
  }

  /** Ring `id` has a position `i`. */
  predicate Spot<T>(w: World<T>, id: nat, i: nat) {
    id in w.rings && i < |w.rings[id].members|
  }

  /** The owner there. */
  function Who<T>(w: World<T>, id: nat, i: nat): T
    requires Spot(w, id, i)
  {
    w.rings[id].members[i]
  }

  ghost predicate Live<T>(w: World<T>, x: T) {
    exists id, i :: Spot(w, id, i) && Who(w, id, i) == x
  }

  ghost predicate Owned<T>(w: World<T>, p: nat) {
    exists id :: id in w.rings && w.rings[id].obj == p
  }

  // ----- operations -----

  /** A smart pointer made from raw pointer `p`. */
  function Make<T>(w: World<T>, id: nat, x: T, p: nat): World<T> {
    World(w.rings[id := Ring(p, [x])], if p == 0 then w.made else w.made + {p}, w.freed)
  }

  /** `x` put in right behind position `i`. */
  function InsertBehind<T>(s: seq<T>, i: nat, x: T): (r: seq<T>)
    requires i < |s|
    ensures |r| == |s| + 1
    ensures forall k :: 0 <= k <= |s| ==> r[k] == if k <= i then s[k] else if k == i + 1 then x else s[k - 1]
  {
    s[..i + 1] + [x] + s[i + 1..]
  }

  /** `x` made as a copy of the owner at position `i` of ring `id`. */
  function Join<T>(w: World<T>, id: nat, i: nat, x: T): World<T>
    requires id in w.rings && i < |w.rings[id].members|
  {
    w.(rings := w.rings[id := Ring(w.rings[id].obj, InsertBehind(w.rings[id].members, i, x))])
  }

  /** `a` and `b` take each other's places. */
  function Exchange<T(==)>(w: World<T>, a: T, b: T): World<T> {
    w.(rings := map id | id in w.rings :: Ring(w.rings[id].obj, MapTau(a, b, w.rings[id].members)))
  }

  function Without<T>(s: seq<T>, i: nat): (r: seq<T>)
    requires i < |s|
    ensures |r| == |s| - 1 && forall k :: 0 <= k < |s| - 1 ==> r[k] == s[if k < i then k else k + 1]
  {
    s[..i] + s[i + 1..]
  }

  /** The owner at position `i` of ring `id` dies; the last one takes the object with it. */
  function Leave<T>(w: World<T>, id: nat, i: nat): World<T>
    requires id in w.rings && i < |w.rings[id].members|
  {
    var ring := w.rings[id];
    if |ring.members| == 1 then
      World(w.rings - {id}, w.made, if ring.obj == 0 then w.freed else w.freed + multiset{ring.obj})
    else w.(rings := w.rings[id := Ring(ring.obj, Without(ring.members, i))])
  }

  /** The owner at position `il` of ring `idl` leaves it and joins behind position `ir` of ring
      `idr`; behind itself, it stays where it is. */
  function Rehang<T>(w: World<T>, idl: nat, il: nat, idr: nat, ir: nat): World<T>
    requires Spot(w, idl, il) && Spot(w, idr, ir)
  {
    if idl == idr && il == ir then w
    else
      var behind := if idl == idr && ir > il then ir - 1 else ir;
      Join(Leave(w, idl, il), idr, behind, Who(w, idl, il))
  }

  // ----- what they keep -----

  /** Every owner has one place. */
  ghost predicate OnePlace<T>(w: World<T>) {
    forall id, i, id', j {:trigger Spot(w, id, i), Spot(w, id', j)} ::
      Spot(w, id, i) && Spot(w, id', j) && Who(w, id, i) == Who(w, id', j) ==> id == id' && i == j
  }

  /** An object has one ring at most, and every object made is owned or was destroyed, never
      both and never twice. */
  ghost predicate Accounted<T>(w: World<T>) {
    && (forall id, id' :: id in w.rings && id' in w.rings && w.rings[id].obj == w.rings[id'].obj != 0 ==> id == id')
    && (forall p :: p in w.made ==> p != 0 && w.freed[p] == if Owned(w, p) then 0 else 1)
    && (forall p :: p in w.freed ==> p in w.made)
    && (forall id :: id in w.rings && w.rings[id].obj != 0 ==> w.rings[id].obj in w.made)
  }

  ghost predicate WF<T>(w: World<T>) {
    && (forall id :: id in w.rings ==> w.rings[id].members != [])
    && OnePlace(w) && Accounted(w)
  }

  lemma {:induction false} MakeWF<T>(w: World<T>, id: nat, x: T, p: nat)
    requires WF(w) && id !in w.rings && !Live(w, x) && p !in w.made
    ensures WF(Make(w, id, x, p))
  {
    var w' := Make(w, id, x, p);
    forall k: nat, i: nat, k': nat, j: nat | Spot(w', k, i) && Spot(w', k', j) && Who(w', k, i) == Who(w', k', j)
      ensures k == k' && i == j
    {
      assert k != id ==> Spot(w, k, i) && Who(w, k, i) == Who(w', k, i);
      assert k' != id ==> Spot(w, k', j) && Who(w, k', j) == Who(w', k', j);
    }
    forall q | q in w'.made
      ensures q != 0 && w'.freed[q] == if Owned(w', q) then 0 else 1
    {
      OwnedMake(w, id, x, p, q);
    }
  }

  lemma {:induction false} OwnedMake<T>(w: World<T>, id: nat, x: T, p: nat, q: nat)
    requires id !in w.rings
    ensures Owned(Make(w, id, x, p), q) <==> q == p || Owned(w, q)
  {
    var w' := Make(w, id, x, p);
    assert w'.rings[id].obj == p;
    if k :| k in w.rings && w.rings[k].obj == q { assert w'.rings[k].obj == q; }
  }

  /** Membership and objects decide what is accounted for. */
  lemma {:induction false} SameObjects<T>(w: World<T>, w': World<T>)
    requires Accounted(w) && w.rings.Keys == w'.rings.Keys && w'.made == w.made && w'.freed == w.freed
    requires forall id :: id in w.rings ==> w'.rings[id].obj == w.rings[id].obj
    ensures Accounted(w')
  {
    forall q | q in w'.made
      ensures Owned(w', q) <==> Owned(w, q)
    {
      if k :| k in w.rings && w.rings[k].obj == q { assert w'.rings[k].obj == q; }
      if k :| k in w'.rings && w'.rings[k].obj == q { assert w.rings[k].obj == q; }
    }
  }

  /** Where the owner at position `j` of a ring was before one was inserted behind position `i`. */
  function BeforeInsert(i: nat, j: nat): nat {
    if j <= i then j else j - 1
  }

  lemma {:induction false} JoinSpots<T>(w: World<T>, id: nat, i: nat, x: T, k: nat, j: nat)
    requires Spot(w, id, i) && Spot(Join(w, id, i, x), k, j)
    ensures if k == id && j == i + 1 then Who(Join(w, id, i, x), k, j) == x
            else var j' := if k == id then BeforeInsert(i, j) else j;
                 Spot(w, k, j') && Who(w, k, j') == Who(Join(w, id, i, x), k, j)
  {
  }

  lemma {:induction false} JoinWF<T>(w: World<T>, id: nat, i: nat, x: T)
    requires WF(w) && Spot(w, id, i) && !Live(w, x)
    ensures WF(Join(w, id, i, x))
  {
    var w' := Join(w, id, i, x);
    SameObjects(w, w');
    forall k: nat, j: nat, k': nat, j': nat |
        Spot(w', k, j) && Spot(w', k', j') && Who(w', k, j) == Who(w', k', j')
      ensures k == k' && j == j'
    {
      JoinSpots(w, id, i, x, k, j);
      JoinSpots(w, id, i, x, k', j');
    }
  }

  lemma {:induction false} ExchangeWF<T>(w: World<T>, a: T, b: T)
    requires WF(w)
    ensures WF(Exchange(w, a, b))
  {
    var w' := Exchange(w, a, b);
    SameObjects(w, w');
    forall k: nat, j: nat, k': nat, j': nat |
        Spot(w', k, j) && Spot(w', k', j') && Who(w', k, j) == Who(w', k', j')
      ensures k == k' && j == j'
    {
      assert Spot(w, k, j) && Spot(w, k', j');
      assert Who(w, k, j) == Tau(a, b, Who(w', k, j)) && Who(w, k', j') == Tau(a, b, Who(w', k', j'));
    }
  }

  lemma {:induction false} OwnedLeave<T>(w: World<T>, id: nat, q: nat)
    requires WF(w) && id in w.rings && q != 0
    ensures var w' := w.(rings := w.rings - {id});
            Owned(w', q) <==> q != w.rings[id].obj && Owned(w, q)
  {
    var w' := w.(rings := w.rings - {id});
    if k :| k in w.rings && w.rings[k].obj == q {
      if k != id { assert w'.rings[k].obj == q; }
    }
  }

  lemma {:induction false} LastLeaves<T>(w: World<T>, id: nat)
    requires WF(w) && id in w.rings && |w.rings[id].members| == 1
    ensures WF(Leave(w, id, 0))
  {
    var w' := Leave(w, id, 0);
    var obj := w.rings[id].obj;
    forall k: nat, j: nat, k': nat, j': nat |
        Spot(w', k, j) && Spot(w', k', j') && Who(w', k, j) == Who(w', k', j')
      ensures k == k' && j == j'
    {
      assert Spot(w, k, j) && Spot(w, k', j');
    }
    forall q | q in w'.made
      ensures q != 0 && w'.freed[q] == if Owned(w', q) then 0 else 1
    {
      OwnedLeave(w, id, q);
      if q == obj { assert Owned(w, q); }
    }
  }

  lemma {:induction false} LeaveSpots<T>(w: World<T>, id: nat, i: nat, k: nat, j: nat)
    requires Spot(w, id, i) && |w.rings[id].members| > 1 && Spot(Leave(w, id, i), k, j)
    ensures var j' := if k == id && j >= i then j + 1 else j;
            Spot(w, k, j') && Who(w, k, j') == Who(Leave(w, id, i), k, j)
  {
  }

  lemma {:induction false} OneOfManyLeaves<T>(w: World<T>, id: nat, i: nat)
    requires WF(w) && Spot(w, id, i) && |w.rings[id].members| > 1
    ensures WF(Leave(w, id, i))
  {
    var w' := Leave(w, id, i);
    SameObjects(w, w');
    forall k: nat, j: nat, k': nat, j': nat |
        Spot(w', k, j) && Spot(w', k', j') && Who(w', k, j) == Who(w', k', j')
      ensures k == k' && j == j'
    {
      LeaveSpots(w, id, i, k, j);
      LeaveSpots(w, id, i, k', j');
    }
  }

  /** `b` stands in `s` at `i` only, and `a` nowhere. */
  ghost predicate OnlyAt<T>(a: T, b: T, s: seq<T>, i: nat) {
    i < |s| && s[i] == b && forall k :: 0 <= k < |s| && k != i ==> s[k] != a && s[k] != b
  }

  /** Exchanging `a` and `b` then only changes that place. */
  lemma {:induction false} TauOnce<T>(a: T, b: T, s: seq<T>, i: nat)
    requires OnlyAt(a, b, s, i)
    ensures Without(MapTau(a, b, s), i) == Without(s, i)
  {
    var r := MapTau(a, b, s);
    assert r[..i] == s[..i] && r[i + 1..] == s[i + 1..];
  }

  lemma {:induction false} TauInserted<T>(a: T, b: T, s: seq<T>, i: nat)
    requires i < |s| && a !in s && b !in s
    ensures MapTau(a, b, InsertBehind(s, i, a)) == InsertBehind(s, i, b)
  {
  }

  lemma {:induction false} TauMoved<T>(a: T, b: T, s: seq<T>, i: nat, j: nat)
    requires OnlyAt(a, b, s, i) && i != j && j < |s|
    ensures Without(MapTau(a, b, InsertBehind(s, j, a)), if i > j then i + 1 else i) ==
            InsertBehind(Without(s, i), if j > i then j - 1 else j, b)
  {
    var inserted := InsertBehind(s, j, a);
    var at := if i > j then i + 1 else i;
    var got := Without(MapTau(a, b, inserted), at);
    var rest := Without(s, i);
    var want := InsertBehind(rest, if j > i then j - 1 else j, b);
    forall k | 0 <= k < |s|
      ensures got[k] == want[k]
    {
      var m := if k < at then k else k + 1;
      assert got[k] == Tau(a, b, inserted[m]);
    }
  }

  lemma {:induction false} TauBehindItself<T>(a: T, b: T, s: seq<T>, i: nat)
    requires OnlyAt(a, b, s, i)
    ensures Without(MapTau(a, b, InsertBehind(s, i, a)), i) == s
  {
    assert MapTau(a, b, InsertBehind(s, i, a)) == s[..i] + [a, b] + s[i + 1..];
  }

  lemma {:induction false} LiveAt<T>(w: World<T>, x: T, k: nat)
    requires k in w.rings && x in w.rings[k].members
    ensures Live(w, x)
  {
    var j: nat :| j < |w.rings[k].members| && w.rings[k].members[j] == x;
    assert Spot(w, k, j) && Who(w, k, j) == x;
  }

  lemma {:induction false} NotLive<T>(w: World<T>, x: T, k: nat)
    requires k in w.rings && !Live(w, x)
    ensures x !in w.rings[k].members
  {
    if x in w.rings[k].members { LiveAt(w, x, k); }
  }

  lemma {:induction false} OnlyHere<T>(w: World<T>, id: nat, i: nat, k: nat)
    requires OnePlace(w) && Spot(w, id, i) && k in w.rings && k != id
    ensures Who(w, id, i) !in w.rings[k].members
  {
    if Who(w, id, i) in w.rings[k].members {
      var j: nat :| j < |w.rings[k].members| && w.rings[k].members[j] == Who(w, id, i);
      assert Spot(w, k, j);
    }
  }

  lemma {:induction false} OnlyThisSpot<T>(w: World<T>, id: nat, i: nat, x: T)
    requires OnePlace(w) && Spot(w, id, i) && !Live(w, x)
    ensures OnlyAt(x, Who(w, id, i), w.rings[id].members, i)
  {
    NotLive(w, x, id);
    forall j: nat | j < |w.rings[id].members| && j != i
      ensures w.rings[id].members[j] != Who(w, id, i)
    {
      assert Spot(w, id, j);
    }
  }

  lemma {:induction false} RehangOther<T>(w: World<T>, idl: nat, il: nat, idr: nat, ir: nat, x: T, k: nat)
    requires OnePlace(w) && Spot(w, idl, il) && Spot(w, idr, ir) && !Live(w, x)
    requires k in w.rings && k != idl && k != idr
    ensures Exchange(Join(w, idr, ir, x), x, Who(w, idl, il)).rings[k] == w.rings[k]
  {
    NotLive(w, x, k);
    OnlyHere(w, idl, il, k);
  }

  /** Copy, exchange and drop: together they rehang an owner, and leave no trace of the copy. */
  lemma {:induction false} RehangByCopy<T>(w: World<T>, idl: nat, il: nat, idr: nat, ir: nat, x: T)
    requires OnePlace(w) && Spot(w, idl, il) && Spot(w, idr, ir) && !Live(w, x)
    ensures var at := if idl == idr && il > ir then il + 1 else il;
            var exchanged := Exchange(Join(w, idr, ir, x), x, Who(w, idl, il));
            && Spot(exchanged, idl, at) && Who(exchanged, idl, at) == x
            && exchanged.rings[idl].obj == w.rings[idl].obj
            && |exchanged.rings[idl].members| == |w.rings[idl].members| + (if idl == idr then 1 else 0)
            && Leave(exchanged, idl, at) == Rehang(w, idl, il, idr, ir)
  {
    if idl == idr { RehangWithin(w, idl, il, ir, x); } else { RehangAcross(w, idl, il, idr, ir, x); }
  }

  lemma {:induction false} RehangWithin<T>(w: World<T>, id: nat, il: nat, ir: nat, x: T)
    requires OnePlace(w) && Spot(w, id, il) && Spot(w, id, ir) && !Live(w, x)
    ensures var at := if il > ir then il + 1 else il;
            var exchanged := Exchange(Join(w, id, ir, x), x, Who(w, id, il));
            && Spot(exchanged, id, at) && Who(exchanged, id, at) == x
            && Leave(exchanged, id, at) == Rehang(w, id, il, id, ir)
  {
    var lhs := Who(w, id, il);
    ExchangedWithin(w, id, il, ir, x);
    var inserted := InsertBehind(w.rings[id].members, ir, x);
    assert inserted[if il > ir then il + 1 else il] == lhs;
    OnlyThisSpot(w, id, il, x);
    if il == ir {
      TauBehindItself(x, lhs, w.rings[id].members, il);
    } else {
      TauMoved(x, lhs, w.rings[id].members, il, ir);
    }
  }

  lemma {:induction false} ExchangedWithin<T>(w: World<T>, id: nat, il: nat, ir: nat, x: T)
    requires OnePlace(w) && Spot(w, id, il) && Spot(w, id, ir) && !Live(w, x)
    ensures var lhs, ring := Who(w, id, il), w.rings[id];
            Exchange(Join(w, id, ir, x), x, lhs).rings ==
            w.rings[id := Ring(ring.obj, MapTau(x, lhs, InsertBehind(ring.members, ir, x)))]
  {
    forall k: nat | k in w.rings && k != id
      ensures Exchange(Join(w, id, ir, x), x, Who(w, id, il)).rings[k] == w.rings[k]
    {
      RehangOther(w, id, il, id, ir, x, k);
    }
  }

  lemma {:induction false} RehangAcross<T>(w: World<T>, idl: nat, il: nat, idr: nat, ir: nat, x: T)
    requires OnePlace(w) && Spot(w, idl, il) && Spot(w, idr, ir) && idl != idr && !Live(w, x)
    ensures var exchanged := Exchange(Join(w, idr, ir, x), x, Who(w, idl, il));
            && Spot(exchanged, idl, il) && Who(exchanged, idl, il) == x
            && Leave(exchanged, idl, il) == Rehang(w, idl, il, idr, ir)
  {
    var lhs, left, right := Who(w, idl, il), w.rings[idl], w.rings[idr];
    OnlyThisSpot(w, idl, il, x);
    TauOnce(x, lhs, left.members, il);
    ExchangedAcross(w, idl, il, idr, ir, x);
    var r := Ring(right.obj, InsertBehind(right.members, ir, lhs));
    if |left.members| == 1 {
      assert w.rings[idl := Ring(left.obj, MapTau(x, lhs, left.members))][idr := r] - {idl} == (w.rings - {idl})[idr := r];
    } else {
      var l := Ring(left.obj, Without(left.members, il));
      assert w.rings[idl := Ring(left.obj, MapTau(x, lhs, left.members))][idr := r][idl := l] == w.rings[idl := l][idr := r];
    }
  }

  lemma {:induction false} ExchangedAcross<T>(w: World<T>, idl: nat, il: nat, idr: nat, ir: nat, x: T)
    requires OnePlace(w) && Spot(w, idl, il) && Spot(w, idr, ir) && idl != idr && !Live(w, x)
    ensures var lhs, left, right := Who(w, idl, il), w.rings[idl], w.rings[idr];
            Exchange(Join(w, idr, ir, x), x, lhs).rings ==
            w.rings[idl := Ring(left.obj, MapTau(x, lhs, left.members))]
                   [idr := Ring(right.obj, InsertBehind(right.members, ir, lhs))]
  {
    var lhs := Who(w, idl, il);
    OnlyHere(w, idl, il, idr);
    NotLive(w, x, idr);
    TauInserted(x, lhs, w.rings[idr].members, ir);
    forall k: nat | k in w.rings && k != idl && k != idr
      ensures Exchange(Join(w, idr, ir, x), x, lhs).rings[k] == w.rings[k]
    {
      RehangOther(w, idl, il, idr, ir, x, k);
    }
  }

  /** The owner rehung is still there, now behind the other. */
  lemma {:induction false} RehangKeeps<T>(w: World<T>, idl: nat, il: nat, idr: nat, ir: nat)
    requires Spot(w, idl, il) && Spot(w, idr, ir)
    ensures Live(Rehang(w, idl, il, idr, ir), Who(w, idl, il))
  {
    assert Spot(Rehang(w, idl, il, idr, ir), idr, if idl == idr && il <= ir then ir else ir + 1);
  }

  // ----- runs -----

  datatype Op<T> =
    | MakeOp(id: nat, x: T, p: nat)
    | CopyOp(id: nat, i: nat, x: T)
    | SwapOp(a: T, b: T)
    | DropOp(id: nat, i: nat)

  /** One operation of the client; `None` where the client would misuse a pointer: a raw pointer
      wrapped twice, or a dead or absent owner named. */
  ghost function Apply<T>(w: World<T>, op: Op<T>): Option<World<T>> {
    match op
    case MakeOp(id, x, p) =>
      if id in w.rings || Live(w, x) || p in w.made then None else Some(Make(w, id, x, p))
    case CopyOp(id, i, x) =>
      if id !in w.rings || i >= |w.rings[id].members| || Live(w, x) then None else Some(Join(w, id, i, x))
    case SwapOp(a, b) =>
      if !Live(w, a) || !Live(w, b) then None else Some(Exchange(w, a, b))
    case DropOp(id, i) =>
      if id !in w.rings || i >= |w.rings[id].members| then None else Some(Leave(w, id, i))
  }

  ghost function Run<T>(w: World<T>, ops: seq<Op<T>>): Option<World<T>>
    decreases |ops|
  {
    if ops == [] then Some(w)
    else
      match Apply(w, ops[0])
      case None => None
      case Some(next) => Run(next, ops[1..])
  }

  lemma {:induction false} ApplyWF<T>(w: World<T>, op: Op<T>)
    requires WF(w) && Apply(w, op).Some?
    ensures WF(Apply(w, op).value)
  {
    match op
    case MakeOp(id, x, p) => MakeWF(w, id, x, p);
    case CopyOp(id, i, x) => JoinWF(w, id, i, x);
    case SwapOp(a, b) => ExchangeWF(w, a, b);
    case DropOp(id, i) =>
      if |w.rings[id].members| == 1 { LastLeaves(w, id); } else { OneOfManyLeaves(w, id, i); }
  }

  /** An operation destroys an object exactly if it takes away its last owner, and then once. */
  lemma {:induction false} FreedByLastOwner<T>(w: World<T>, op: Op<T>, p: nat)
    requires WF(w) && Apply(w, op).Some? && p != 0
    ensures var w' := Apply(w, op).value;
            w'.freed[p] == w.freed[p] + if Owned(w, p) && !Owned(w', p) then 1 else 0
  {
    ApplyWF(w, op);
  }

  function Empty<T>(): World<T> {
    World(map[], {}, multiset{})
  }

  /** Over any run: an object handed to a smart pointer has exactly one ring of owners and was
      never destroyed, or has none and was destroyed exactly once. */
  lemma {:induction false} DestroyedExactlyOnce<T>(ops: seq<Op<T>>, p: nat)
    requires Run(Empty<T>(), ops).Some?
    ensures var w := Run(Empty<T>(), ops).value;
            && WF(w)
            && (p in w.made ==> w.freed[p] == if Owned(w, p) then 0 else 1)
            && (forall id, id' ::
                  (id in w.rings && id' in w.rings && w.rings[id].obj == p && w.rings[id'].obj == p && p != 0)
                  ==> id == id')
  {
    RunWF(Empty<T>(), ops);
  }

  lemma {:induction false} RunWF<T>(w: World<T>, ops: seq<Op<T>>)
    requires WF(w) && Run(w, ops).Some?
    ensures WF(Run(w, ops).value)
    decreases |ops|
  {
    if ops != [] {
      ApplyWF(w, ops[0]);
      RunWF(Apply(w, ops[0]).value, ops[1..]);
    }
  }
}
