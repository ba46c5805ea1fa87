/** Facts about numbers, sets and sequences that several components need. */
module Basics {

  lemma {:induction false} Product(x: int, y: int)
    requires x >= 0 && y >= 0
    ensures x * y >= 0
  {
  }

  /** Between two multiples of `n` there is room for `n`. */
  lemma {:induction false} MulGap(a: nat, b: nat, n: nat)
    requires a < b
    ensures a * n + n <= b * n
  {
    Product(b - a - 1, n);
    assert b * n == (a + 1) * n + (b - a - 1) * n;
  }

  lemma {:induction false} Subset<T>(a: set<T>, b: set<T>)
    requires a <= b
    ensures |a| <= |b|
  {
    assert b == a + (b - a);
  }

  function One(b: bool): nat {
    if b then 1 else 0
  }

  lemma {:induction false} Split<T>(a: set<T>, t: T)
    ensures |a| == |a - {t}| + One(t in a)
  {
    if t in a { assert a == a - {t} + {t}; } else { assert a == a - {t}; }
  }

  predicate NoDup<T(==)>(s: seq<T>) {
    s == [] || (s[0] !in s[1..] && NoDup(s[1..]))
  }

  lemma {:induction false} NoDupExtend<T>(s: seq<T>, x: T)
    requires NoDup(s) && x !in s
    ensures NoDup(s + [x])
  {
    if s != [] {
      NoDupExtend(s[1..], x);
      assert (s + [x])[1..] == s[1..] + [x];
    }
  }

  /** The sequence without any `x`. */
  function Strike<T(==)>(s: seq<T>, x: T): (r: seq<T>)
    ensures x !in r && |r| <= |s|
    ensures (forall y :: y in r ==> y in s) && (forall y :: y in s && y != x ==> y in r)
    ensures x !in s ==> r == s
    ensures |r| == |s| ==> x !in s
  {
    if s == [] then [] else (if s[0] == x then [] else [s[0]]) + Strike(s[1..], x)
  }

  lemma {:induction false} StrikeNoDup<T>(s: seq<T>, x: T)
    requires NoDup(s)
    ensures NoDup(Strike(s, x)) && |Strike(s, x)| == |s| - One(x in s)
  {
    if s != [] {
      StrikeNoDup(s[1..], x);
      if s[0] == x { assert Strike(s, x) == Strike(s[1..], x); }
      else { assert Strike(s, x)[1..] == Strike(s[1..], x); }
    }
  }
}
