/**
  The zigzag conversion: letters are dealt to rows along a triangle wave, and the rows are
  read one after the other.
 */
module ZigzagRows {
  import opened Basics

  /** Letters from one passage of the first row to the next. */
  function Stride(rows: nat): (n: nat)
    requires rows >= 2
    ensures n >= 2
  {
    (rows - 1) * 2
  }

  /** How far along the wave letter `i` is. */
  function Phase(i: nat, rows: nat): (p: nat)
    requires rows >= 2
    ensures p < Stride(rows)
  {
    if i == 0 then 0
    else
      var p := Phase(i - 1, rows);
      if p + 1 == Stride(rows) then 0 else p + 1
  }

  /** The row of letter `i`: down to the last row, and up again. */
  function Row(i: nat, rows: nat): (r: nat)
    requires rows >= 2
    ensures r < rows
  {
    if Phase(i, rows) < rows then Phase(i, rows) else Stride(rows) - Phase(i, rows)
  }

  /** The phase is the remainder by the stride. */
  lemma {:induction false} PhaseIsRemainder(i: nat, rows: nat)
    requires rows >= 2
    ensures exists q: nat :: i == q * Stride(rows) + Phase(i, rows)
    ensures Phase(i, rows) == i % Stride(rows)
  {
    var q := PhaseQuotient(i, rows);
    Remainder(i, q, Phase(i, rows), Stride(rows));
  }

  lemma {:induction false} PhaseQuotient(i: nat, rows: nat) returns (q: nat)
    requires rows >= 2
    ensures i == q * Stride(rows) + Phase(i, rows)
  {
    if i == 0 {
      q := 0;
    } else {
      var p := PhaseQuotient(i - 1, rows);
      q := if Phase(i - 1, rows) + 1 == Stride(rows) then p + 1 else p;
    }
  }

  lemma {:induction false} Remainder(i: nat, q: nat, p: nat, n: nat)
    requires 0 < n && i == q * n + p && p < n
    ensures i % n == p
  {
    var d := i / n;
    assert i == d * n + i % n;
    if d < q { MulGap(d, q, n); }
    if q < d { MulGap(q, d, n); }
  }

  /** The letters of row `r` among the first `k`. */
  function Letters(s: string, rows: nat, r: nat, k: nat): (t: string)
    requires rows >= 2 && k <= |s|
    ensures |t| <= k
  {
    if k == 0 then "" else Letters(s, rows, r, k - 1) + (if Row(k - 1, rows) == r then [s[k - 1]] else "")
  }

  /** The first `m` rows, one after the other. */
  function Rows(s: string, rows: nat, m: nat): string
    requires rows >= 2
  {
    if m == 0 then "" else Rows(s, rows, m - 1) + Letters(s, rows, m - 1, |s|)
  }

  function Zigzag(s: string, rows: nat): string
    requires rows >= 1
  {
    if rows == 1 then s else Rows(s, rows, rows)
  }

  lemma {:induction false} RowsGrow(s: string, rows: nat, m: nat, n: nat)
    requires rows >= 2 && m <= n
    ensures |Rows(s, rows, m)| <= |Rows(s, rows, n)|
    decreases n - m
  {
    if m < n { RowsGrow(s, rows, m, n - 1); }
  }

  lemma {:induction false} RowsFit(s: string, rows: nat, m: nat)
    requires rows >= 2 && m <= rows
    ensures |Rows(s, rows, m)| <= |s|
  {
    RowsGrow(s, rows, m, rows);
    ZigzagLength(s, rows);
  }

  /** Letter `i` is in row `i` at most, so rows beyond the length are empty. */
  lemma {:induction false} RowAtMost(i: nat, rows: nat)
    requires rows >= 2
    ensures Phase(i, rows) <= i && Row(i, rows) <= i
  {
    if i > 0 { RowAtMost(i - 1, rows); }
  }

  lemma {:induction false} NoLetters(s: string, rows: nat, r: nat, k: nat)
    requires rows >= 2 && k <= |s| && r >= k
    ensures Letters(s, rows, r, k) == ""
  {
    if k > 0 {
      RowAtMost(k - 1, rows);
      NoLetters(s, rows, r, k - 1);
    }
  }

  lemma {:induction false} RowsBeyond(s: string, rows: nat, m: nat)
    requires rows >= 2 && m >= |s|
    ensures Rows(s, rows, m) == Rows(s, rows, |s|)
    decreases m
  {
    if m > |s| {
      NoLetters(s, rows, m - 1, |s|);
      RowsBeyond(s, rows, m - 1);
    }
  }

  // ----- where each letter goes -----

  /** How many of the first `k` letters are in row `r`. */
  function Count(rows: nat, r: nat, k: nat): (n: nat)
    requires rows >= 2
    ensures n <= k
  {
    if k == 0 then 0 else Count(rows, r, k - 1) + if Row(k - 1, rows) == r then 1 else 0
  }

  /** How many of `length` letters are in the first `m` rows. */
  function CountRows(rows: nat, m: nat, length: nat): nat
    requires rows >= 2
  {
    if m == 0 then 0 else CountRows(rows, m - 1, length) + Count(rows, m - 1, length)
  }

  /** The place of letter `i` of `length`: behind the earlier rows and the earlier letters of its
      own row. */
  function Place(i: nat, rows: nat, length: nat): nat
    requires rows >= 2
  {
    CountRows(rows, Row(i, rows), length) + Count(rows, Row(i, rows), i)
  }

  lemma {:induction false} LettersCount(s: string, rows: nat, r: nat, k: nat)
    requires rows >= 2 && k <= |s|
    ensures |Letters(s, rows, r, k)| == Count(rows, r, k)
  {
    if k > 0 { LettersCount(s, rows, r, k - 1); }
  }

  lemma {:induction false} RowsCount(s: string, rows: nat, m: nat)
    requires rows >= 2
    ensures |Rows(s, rows, m)| == CountRows(rows, m, |s|)
  {
    if m > 0 {
      RowsCount(s, rows, m - 1);
      LettersCount(s, rows, m - 1, |s|);
    }
  }

  /** One more letter adds one to its row. */
  lemma {:induction false} CountOneMore(rows: nat, m: nat, k: nat)
    requires rows >= 2 && 0 < k
    ensures CountRows(rows, m, k) == CountRows(rows, m, k - 1) + if Row(k - 1, rows) < m then 1 else 0
    decreases m
  {
    if m > 0 { CountOneMore(rows, m - 1, k); }
  }

  lemma {:induction false} CountNone(rows: nat, m: nat)
    requires rows >= 2
    ensures CountRows(rows, m, 0) == 0
  {
    if m > 0 { CountNone(rows, m - 1); }
  }

  lemma {:induction false} CountAll(rows: nat, length: nat)
    requires rows >= 2
    ensures CountRows(rows, rows, length) == length
  {
    if length == 0 {
      CountNone(rows, rows);
    } else {
      CountOneMore(rows, rows, length);
      CountAll(rows, length - 1);
    }
  }

  lemma {:induction false} ZigzagLength(s: string, rows: nat)
    requires rows >= 1
    ensures |Zigzag(s, rows)| == |s|
  {
    if rows >= 2 {
      RowsCount(s, rows, rows);
      CountAll(rows, |s|);
    }
  }

  lemma {:induction false} LetterAt(s: string, rows: nat, r: nat, i: nat, k: nat)
    requires rows >= 2 && i < k <= |s| && Row(i, rows) == r
    ensures var t := Letters(s, rows, r, k);
            Count(rows, r, i) < |t| && t[Count(rows, r, i)] == s[i]
    decreases k
  {
    if i == k - 1 { LettersCount(s, rows, r, i); } else { LetterAt(s, rows, r, i, k - 1); }
  }

  lemma {:induction false} RowsStart(s: string, rows: nat, m: nat, j: nat)
    requires rows >= 2 && m <= j
    ensures Rows(s, rows, m) <= Rows(s, rows, j)
    decreases j - m
  {
    if m < j { RowsStart(s, rows, m, j - 1); }
  }

  /** Each letter is found at its place in the result. */
  lemma {:induction false} LetterPlace(s: string, rows: nat, i: nat)
    requires rows >= 2 && i < |s|
    ensures Place(i, rows, |s|) < |s| == |Zigzag(s, rows)|
    ensures Zigzag(s, rows)[Place(i, rows, |s|)] == s[i]
  {
    var r := Row(i, rows);
    LetterAt(s, rows, r, i, |s|);
    RowsCount(s, rows, r);
    RowInZigzag(s, rows, r);
    ZigzagLength(s, rows);
  }

  lemma {:induction false} RowInZigzag(s: string, rows: nat, r: nat)
    requires rows >= 2 && r < rows
    ensures Rows(s, rows, r) + Letters(s, rows, r, |s|) <= Rows(s, rows, rows)
  {
    RowsStart(s, rows, r + 1, rows);
  }

  lemma {:induction false} CountGrows(rows: nat, r: nat, i: nat, j: nat)
    requires rows >= 2 && i < j && Row(i, rows) == r
    ensures Count(rows, r, i) < Count(rows, r, j)
    decreases j
  {
    if i < j - 1 { CountGrows(rows, r, i, j - 1); }
  }

  lemma {:induction false} CountRowsGrow(rows: nat, m: nat, n: nat, length: nat)
    requires rows >= 2 && m <= n
    ensures CountRows(rows, m, length) <= CountRows(rows, n, length)
    decreases n - m
  {
    if m < n { CountRowsGrow(rows, m, n - 1, length); }
  }

  /** No two letters share a place. */
  lemma {:induction false} PlacesDiffer(i: nat, j: nat, rows: nat, length: nat)
    requires rows >= 2 && i < length && j < length && i != j
    ensures Place(i, rows, length) != Place(j, rows, length)
  {
    var q, r := Row(i, rows), Row(j, rows);
    if q == r {
      if i < j { CountGrows(rows, r, i, j); } else { CountGrows(rows, r, j, i); }
    } else if q < r {
      CountGrows(rows, q, i, length);
      CountRowsGrow(rows, q + 1, r, length);
    } else {
      CountGrows(rows, r, j, length);
      CountRowsGrow(rows, r + 1, q, length);
    }
  }

  // ----- nothing is lost -----

  /** How often `c` occurs. */
  function Occurs(s: string, c: char): nat {
    if s == "" then 0 else Occurs(s[..|s| - 1], c) + if s[|s| - 1] == c then 1 else 0
  }

  lemma {:induction false} OccursOneMore(s: string, x: char, c: char)
    ensures Occurs(s + [x], c) == Occurs(s, c) + if x == c then 1 else 0
  {
    assert (s + [x])[..|s|] == s;
  }

  lemma {:induction false} OccursJoin(a: string, b: string, c: char)
    ensures Occurs(a + b, c) == Occurs(a, c) + Occurs(b, c)
  {
    if b == "" {
      assert a + b == a;
    } else {
      var n := |b| - 1;
      OccursJoin(a, b[..n], c);
      OccursOneMore(a + b[..n], b[n], c);
      assert a + b == a + b[..n] + [b[n]];
    }
  }

  lemma {:induction false} OccursMultiset(s: string, c: char)
    ensures multiset(s)[c] == Occurs(s, c)
  {
    if s != "" {
      var n := |s| - 1;
      OccursMultiset(s[..n], c);
      assert s == s[..n] + [s[n]];
    }
  }

  /** Occurrences in the first `m` rows, `k` letters having been dealt. */
  function Dealt(s: string, rows: nat, m: nat, k: nat, c: char): nat
    requires rows >= 2 && k <= |s|
  {
    if m == 0 then 0 else Dealt(s, rows, m - 1, k, c) + Occurs(Letters(s, rows, m - 1, k), c)
  }

  lemma {:induction false} DealOne(s: string, rows: nat, m: nat, k: nat, c: char)
    requires rows >= 2 && 0 < k <= |s|
    ensures Dealt(s, rows, m, k, c) ==
            Dealt(s, rows, m, k - 1, c) + if Row(k - 1, rows) < m && s[k - 1] == c then 1 else 0
    decreases m
  {
    if m > 0 {
      DealOne(s, rows, m - 1, k, c);
      OccursOneMore(Letters(s, rows, m - 1, k - 1), s[k - 1], c);
      assert Letters(s, rows, m - 1, k - 1) + "" == Letters(s, rows, m - 1, k - 1);
    }
  }

  lemma {:induction false} DealNone(s: string, rows: nat, m: nat, c: char)
    requires rows >= 2
    ensures Dealt(s, rows, m, 0, c) == 0
  {
    if m > 0 { DealNone(s, rows, m - 1, c); }
  }

  lemma {:induction false} OccursPrefix(s: string, k: nat, c: char)
    requires 0 < k <= |s|
    ensures Occurs(s[..k], c) == Occurs(s[..k - 1], c) + if s[k - 1] == c then 1 else 0
  {
    OccursOneMore(s[..k - 1], s[k - 1], c);
    assert s[..k] == s[..k - 1] + [s[k - 1]];
  }

  lemma {:induction false} DealAll(s: string, rows: nat, k: nat, c: char)
    requires rows >= 2 && k <= |s|
    ensures Dealt(s, rows, rows, k, c) == Occurs(s[..k], c)
    decreases k
  {
    if k == 0 {
      DealNone(s, rows, rows, c);
    } else {
      DealAll(s, rows, k - 1, c);
      OccursPrefix(s, k, c);
      DealOne(s, rows, rows, k, c);
    }
  }

  lemma {:induction false} RowsDealt(s: string, rows: nat, m: nat, c: char)
    requires rows >= 2
    ensures Occurs(Rows(s, rows, m), c) == Dealt(s, rows, m, |s|, c)
  {
    if m > 0 {
      RowsDealt(s, rows, m - 1, c);
      OccursJoin(Rows(s, rows, m - 1), Letters(s, rows, m - 1, |s|), c);
    }
  }

  /** The result has the same letters, each as often. */
  lemma {:induction false} ZigzagPermutes(s: string, rows: nat)
    requires rows >= 1
    ensures multiset(Zigzag(s, rows)) == multiset(s)
  {
    forall c: char
      ensures multiset(Zigzag(s, rows))[c] == multiset(s)[c]
    {
      OccursMultiset(s, c);
      OccursMultiset(Zigzag(s, rows), c);
      if rows >= 2 {
        RowsDealt(s, rows, rows, c);
        DealAll(s, rows, |s|, c);
        assert s[..|s|] == s;
      }
    }
  }
}
