/**
  The reference conversion and its faster versions. Two of them write the first row into
  the string they are still reading. All compute the same function.
 */
module ZigzagConversions {
  import opened Basics
  import opened ZigzagRows

  /** Row buffers hold what the rows from `first` on got of the first `k` letters. */
  predicate Holding(buffers: seq<string>, s: string, rows: nat, first: nat, k: nat)
    requires rows >= 2 && k <= |s|
  {
    forall r :: 0 <= r < |buffers| ==> buffers[r] == Letters(s, rows, first + r, k)
  }

  /** Dealing letter `k` to its row; a letter of a row before `first` leaves the buffers as they
      are. */
  lemma {:induction false} HoldingNext(buffers: seq<string>, s: string, rows: nat, first: nat, k: nat)
    requires rows >= 2 && k < |s| && Holding(buffers, s, rows, first, k)
    ensures var r := Row(k, rows) - first;
            && (0 <= r < |buffers| ==> Holding(buffers[r := buffers[r] + [s[k]]], s, rows, first, k + 1))
            && (r < 0 ==> Holding(buffers, s, rows, first, k + 1))
  {
    forall q | 0 <= q < |buffers| && first + q != Row(k, rows)
      ensures buffers[q] == Letters(s, rows, first + q, k + 1)
    {
      assert Letters(s, rows, first + q, k + 1) == Letters(s, rows, first + q, k) + "";
    }
  }

  /** Where the wave is after letter `read`. */
  predicate Stepped(read: nat, numRows: nat)
    requires numRows >= 2
  {
    Phase(read + 1, numRows) == if Phase(read, numRows) + 1 == Stride(numRows) then 0 else Phase(read, numRows) + 1
  }

  /** Dealing letter `k` to row buffer `r`. */
  method Deal(before: seq<string>, r: nat, s: string, k: nat, ghost numRows: nat) returns (rows: seq<string>)
    requires numRows >= 2 && k < |s| && Holding(before, s, numRows, 0, k) && r == Row(k, numRows) < |before|
    ensures |rows| == |before| && Holding(rows, s, numRows, 0, k + 1) && Stepped(k, numRows)
  {
    HoldingNext(before, s, numRows, 0, k);
    rows := before[r := before[r] + [s[k]]];
  }

  /** `convert_ref`. */
  method ConvertRef(s: string, numRows: nat) returns (ret: string)
    requires numRows >= 1
    ensures ret == Zigzag(s, numRows)
  {
    if numRows == 1 {
      return s;
    }
    var n := if numRows < |s| then numRows else |s|;
    var rows := seq(n, _ => "");
    var curRow := 0;
    var goingDown := false;
    for i := 0 to |s|
      invariant |rows| == n && Holding(rows, s, numRows, 0, i)
      invariant curRow == Row(i, numRows)
      invariant goingDown <==> 1 <= Phase(i, numRows) < numRows
    {
      RowAtMost(i, numRows);
      rows := Deal(rows, curRow, s, i, numRows);
      if curRow == 0 || curRow == numRows - 1 {
        goingDown := !goingDown;
      }
      curRow := curRow + if goingDown then 1 else -1;
    }
    ret := "";
    for r := 0 to n
      invariant ret == Rows(s, numRows, r)
    {
      ret := ret + rows[r];
    }
    if n < numRows { RowsBeyond(s, numRows, numRows); }
  }

  /** The rows after the first are appended to it. */
  method Append(rows: seq<string>, ghost s: string, ghost numRows: nat) returns (result: string)
    requires numRows >= 2 && |rows| == numRows && Holding(rows, s, numRows, 0, |s|)
    ensures result == Zigzag(s, numRows)
  {
    result := rows[0];
    FirstRow(s, numRows);
    for i := 1 to |rows|
      invariant result == Rows(s, numRows, i)
    {
      result := result + rows[i];
    }
  }

  /** How many boxes of `kStride` letters, the last one perhaps not full. */
  method BoxCount(length: nat, kStride: nat) returns (size: nat)
    requires 0 < kStride
    ensures size * kStride >= length
    ensures size > 0 ==> (size - 1) * kStride < length
  {
    var q, r := length / kStride, length % kStride;
    assert length == q * kStride + r;
    if r != 0 {
      size := q + 1;
      assert size * kStride == q * kStride + kStride;
    } else {
      size := q;
      if q > 0 { MulGap(q - 1, q, kStride); }
    }
  }

  /** `convert_base`: box by box. */
  method ConvertBase(s: string, numRows: nat) returns (result: string)
    requires numRows >= 1
    ensures result == Zigzag(s, numRows)
  {
    if numRows == 1 {
      return s;
    }
    var rows := seq(numRows, _ => "");
    var kStride := (numRows - 1) * 2;
    var size := BoxCount(|s|, kStride);
    ghost var at := 0;
    for iter := 0 to size
      invariant at <= |s| && at == (if iter * kStride <= |s| then iter * kStride else |s|)
      invariant at < |s| ==> Phase(at, numRows) == 0
      invariant |rows| == numRows && Holding(rows, s, numRows, 0, at)
    {
      MulGap(iter, iter + 1, kStride);
      rows, at := BaseBox(s, numRows, iter, rows, at);
    }
    result := Append(rows, s, numRows);
  }

  /** One box of `convert_base`. */
  method BaseBox(s: string, numRows: nat, iter: nat, before: seq<string>, ghost from: nat)
      returns (rows: seq<string>, ghost at: nat)
    requires numRows >= 2 && from <= |s| && |before| == numRows && Holding(before, s, numRows, 0, from)
    requires from < |s| ==> from == iter * Stride(numRows) && Phase(from, numRows) == 0
    requires from == |s| ==> iter * Stride(numRows) >= |s|
    ensures from <= at <= |s| && |rows| == numRows && Holding(rows, s, numRows, 0, at)
    ensures at == if (iter + 1) * Stride(numRows) <= |s| then (iter + 1) * Stride(numRows) else |s|
    ensures at < |s| ==> Phase(at, numRows) == 0
  {
    rows, at := before, from;
    var kStride := (numRows - 1) * 2;
    assert (iter + 1) * kStride == iter * kStride + kStride;
    var counter := 0;
    var direction := 1;
    var subidx := 0;
    while subidx < kStride
      decreases kStride - subidx
      invariant 0 <= subidx <= kStride && from <= at <= |s|
      invariant |rows| == numRows && Holding(rows, s, numRows, 0, at)
      invariant at == if iter * kStride + subidx <= |s| then iter * kStride + subidx else |s|
      invariant at < |s| && subidx < kStride ==> Phase(at, numRows) == subidx
      invariant at < |s| && subidx == kStride ==> Phase(at, numRows) == 0
      invariant direction == if subidx <= numRows then 1 else -1
      invariant counter == if subidx <= numRows then subidx else kStride - subidx
    {
      var internal := iter * kStride + subidx;
      if internal >= |s| {
        break;
      }
      if subidx == numRows {
        counter := counter - 2;
        direction := -1;
      }
      rows := Deal(rows, counter, s, internal, numRows);
      counter := counter + direction;
      at := at + 1;
      subidx := subidx + 1;
    }
  }

  /** `convert_forge`: one pass, starting over after each stride. */
  method ConvertForge(s: string, numRows: nat) returns (result: string)
    requires numRows >= 1
    ensures result == Zigzag(s, numRows)
  {
    if numRows == 1 {
      return s;
    }
    var rows := seq(numRows, _ => "");
    var kStride := (numRows - 1) * 2;
    var subidx := 0;
    var counter := 0;
    var direction := 1;
    for i := 0 to |s|
      invariant |rows| == numRows && Holding(rows, s, numRows, 0, i)
      invariant subidx == Phase(i, numRows)
      invariant direction == if subidx <= numRows then 1 else -1
      invariant counter == if subidx <= numRows then subidx else kStride - subidx
    {
      if subidx == numRows {
        counter := counter - 2;
        direction := -1;
      }
      rows := Deal(rows, counter, s, i, numRows);
      counter := counter + direction;
      subidx := subidx + 1;
      if subidx >= kStride {
        subidx := 0;
        counter := 0;
        direction := 1;
      }
    }
    result := Append(rows, s, numRows);
  }

  // ----- in place -----

  /** Where an in-place conversion is: `read` letters read, the first row of them at the front,
      the other rows in buffers, the letters from `read` on still as they were. */
  ghost predicate Underway(s: array<char>, was: string, numRows: nat, buffers: seq<string>, written: nat, read: nat)
    requires numRows >= 2
    reads s
  {
    && s.Length == |was| && written <= read <= |was|
    && |buffers| == numRows - 1 && Holding(buffers, was, numRows, 1, read)
    && s[..written] == Letters(was, numRows, 0, read)
    && s[read..] == was[read..]
  }

  /** Reading a letter of the first row and writing it to the front: the place written is no
      unread one. */
  method ToFront(s: array<char>, written: nat, read: nat, ghost was: string, ghost numRows: nat,
      ghost buffers: seq<string>)
    requires numRows >= 2 && Underway(s, was, numRows, buffers, written, read) && read < |was|
    requires Row(read, numRows) == 0
    modifies s
    ensures Underway(s, was, numRows, buffers, written + 1, read + 1) && Stepped(read, numRows)
  {
    HoldingNext(buffers, was, numRows, 1, read);
    assert s[read..][0] == was[read..][0];
    var letter := s[read];
    s[written] := letter;
    assert s[..written + 1] == s[..written] + [letter];
    assert s[read + 1..] == was[read..][1..];
  }

  /** Any other letter goes to its buffer. */
  method ToBuffer(s: array<char>, before: seq<string>, r: nat, ghost written: nat, read: nat, ghost was: string,
      ghost numRows: nat) returns (buffers: seq<string>)
    requires numRows >= 2 && Underway(s, was, numRows, before, written, read) && read < |was|
    requires Row(read, numRows) == r + 1
    ensures Underway(s, was, numRows, buffers, written, read + 1) && Stepped(read, numRows)
  {
    HoldingNext(before, was, numRows, 1, read);
    assert s[read..][0] == was[read..][0];
    buffers := before[r := before[r] + [s[read]]];
    assert Letters(was, numRows, 0, read + 1) == Letters(was, numRows, 0, read) + "";
    assert s[read + 1..] == was[read..][1..];
  }

  /** One letter, to the front or to its buffer. */
  method PutLetter(s: array<char>, before: seq<string>, row: nat, wrote: nat, read: nat, ghost was: string,
      ghost numRows: nat) returns (buffers: seq<string>, written: nat)
    requires numRows >= 2 && Underway(s, was, numRows, before, wrote, read) && read < |was|
    requires Row(read, numRows) == row
    modifies s
    ensures Underway(s, was, numRows, buffers, written, read + 1) && Stepped(read, numRows)
  {
    if row == 0 {
      ToFront(s, wrote, read, was, numRows, before);
      buffers, written := before, wrote + 1;
    } else {
      buffers := ToBuffer(s, before, row - 1, wrote, read, was, numRows);
      written := wrote;
    }
  }

  /** `s.replace(pos, t.size(), t)`. */
  method Replace(s: array<char>, pos: nat, t: string)
    requires pos + |t| <= s.Length
    modifies s
    ensures s[..pos + |t|] == old(s[..pos]) + t && s[pos + |t|..] == old(s[pos + |t|..])
  {
    for j := 0 to |t|
      invariant s[..pos] == old(s[..pos]) && s[pos + |t|..] == old(s[pos + |t|..])
      invariant forall k :: 0 <= k < j ==> s[pos + k] == t[k]
    {
      s[pos + j] := t[j];
    }
  }

  /** The front of the string is the first `m` rows. */
  ghost predicate Filled(s: array<char>, counter: nat, was: string, numRows: nat, m: nat)
    requires numRows >= 2
    reads s
  {
    counter <= s.Length == |was| && s[..counter] == Rows(was, numRows, m)
  }

  /** Buffered row `i` is put behind the rows before it. */
  method PutRow(s: array<char>, rows: seq<string>, i: nat, start: nat, ghost was: string, ghost numRows: nat, ghost m: nat)
      returns (counter: nat)
    requires numRows >= 2 && i < |rows| == numRows - 1 && Holding(rows, was, numRows, 1, |was|)
    requires m == i + 1 && Filled(s, start, was, numRows, m)
    modifies s
    ensures Filled(s, counter, was, numRows, m + 1)
  {
    RowsFit(was, numRows, m + 1);
    Replace(s, start, rows[i]);
    counter := start + |rows[i]|;
  }

  /** The buffered rows are put behind the first one. */
  method PutBack(s: array<char>, rows: seq<string>, start: nat, ghost was: string, ghost numRows: nat)
    requires numRows >= 2 && |rows| == numRows - 1 && Holding(rows, was, numRows, 1, |was|)
    requires Filled(s, start, was, numRows, 1)
    modifies s
    ensures s[..] == Zigzag(was, numRows)
  {
    var counter: nat := start;
    ghost var m := 1;
    for i := 0 to |rows|
      invariant m == i + 1 && Filled(s, counter, was, numRows, m)
    {
      counter := PutRow(s, rows, i, counter, was, numRows, m);
      m := m + 1;
    }
    WholeString(s[..], counter, was, numRows);
  }

  lemma {:induction false} FirstRow(s: string, numRows: nat)
    requires numRows >= 2
    ensures Rows(s, numRows, 1) == Letters(s, numRows, 0, |s|)
  {
    assert Rows(s, numRows, 1) == "" + Letters(s, numRows, 0, |s|);
  }

  lemma {:induction false} WholeString(t: string, counter: nat, was: string, numRows: nat)
    requires numRows >= 2 && |t| == |was| && counter <= |t| && t[..counter] == Rows(was, numRows, numRows)
    ensures t == Zigzag(was, numRows)
  {
    ZigzagLength(was, numRows);
    assert t[..counter] == t;
  }

  /** `convert_best`. */
  method ConvertBest(s: array<char>, numRows: nat)
    requires numRows >= 1
    modifies s
    ensures s[..] == Zigzag(old(s[..]), numRows)
  {
    if numRows == 1 {
      return;
    }
    ghost var was := s[..];
    var rows := seq(numRows - 1, _ => "");
    var kStride := (numRows - 1) * 2;
    var size := BoxCount(s.Length, kStride);
    var written: nat, siter: nat := 0, 0;
    for iter := 0 to size
      invariant Underway(s, was, numRows, rows, written, siter)
      invariant siter == if iter * kStride <= |was| then iter * kStride else |was|
      invariant siter < |was| ==> Phase(siter, numRows) == 0
    {
      assert (iter + 1) * kStride == iter * kStride + kStride;
      rows, written, siter := BestBox(s, was, numRows, rows, written, siter);
    }
    FirstRow(was, numRows);
    PutBack(s, rows, written, was, numRows);
  }

  /** One box of `convert_best`. */
  method BestBox(s: array<char>, ghost was: string, numRows: nat, before: seq<string>, wrote: nat, from: nat)
      returns (rows: seq<string>, written: nat, siter: nat)
    requires numRows >= 2 && Underway(s, was, numRows, before, wrote, from)
    requires from < |was| ==> Phase(from, numRows) == 0
    modifies s
    ensures Underway(s, was, numRows, rows, written, siter)
    ensures siter == if from + Stride(numRows) <= |was| then from + Stride(numRows) else |was|
    ensures siter < |was| ==> Phase(siter, numRows) == 0
  {
    rows, written, siter := before, wrote, from;
    var kStride := (numRows - 1) * 2;
    var counter := 0;
    var direction := 1;
    var subidx := 0;
    while subidx < kStride
      decreases kStride - subidx
      invariant 0 <= subidx <= kStride
      invariant Underway(s, was, numRows, rows, written, siter)
      invariant siter == from + subidx
      invariant siter < |was| ==> Phase(siter, numRows) == if subidx < kStride then subidx else 0
      invariant direction == if subidx <= numRows then 1 else -1
      invariant counter == if subidx <= numRows then subidx else kStride - subidx
    {
      if siter == s.Length {
        break;
      }
      if subidx == numRows {
        counter := counter - 2;
        direction := -1;
      }
      rows, written := PutLetter(s, rows, counter, written, siter, was, numRows);
      siter := siter + 1;
      counter := counter + direction;
      subidx := subidx + 1;
    }
  }

  /** `convert_best1`. */
  method ConvertBest1(s: array<char>, numRows: nat)
    requires numRows >= 1
    modifies s
    ensures s[..] == Zigzag(old(s[..]), numRows)
  {
    if numRows == 1 {
      return;
    }
    ghost var was := s[..];
    var rows := seq(numRows - 1, _ => "");
    var kStride := (numRows - 1) * 2;
    var size := BoxCount(s.Length, kStride);
    var written: nat, siter: nat := 0, 0;
    for iter := 0 to size
      invariant Underway(s, was, numRows, rows, written, siter)
      invariant siter == if iter * kStride <= |was| then iter * kStride else |was|
      invariant siter < |was| ==> Phase(siter, numRows) == 0
    {
      assert (iter + 1) * kStride == iter * kStride + kStride;
      ghost var from := siter;
      rows, written, siter := GoDown(s, was, numRows, rows, written, siter);
      rows, siter := GoUp(s, was, numRows, rows, written, siter, from);
    }
    FirstRow(was, numRows);
    PutBack(s, rows, written, was, numRows);
  }

  /** From the first row down to the last. */
  method GoDown(s: array<char>, ghost was: string, numRows: nat, before: seq<string>, wrote: nat, from: nat)
      returns (rows: seq<string>, written: nat, siter: nat)
    requires numRows >= 2 && Underway(s, was, numRows, before, wrote, from)
    requires from < |was| ==> Phase(from, numRows) == 0
    modifies s
    ensures Underway(s, was, numRows, rows, written, siter)
    ensures siter == if from + numRows <= |was| then from + numRows else |was|
    ensures siter < |was| ==> Phase(siter, numRows) == if numRows == Stride(numRows) then 0 else numRows
  {
    rows, written, siter := before, wrote, from;
    var subidx := 0;
    while subidx < numRows
      decreases numRows - subidx
      invariant 0 <= subidx <= numRows
      invariant Underway(s, was, numRows, rows, written, siter)
      invariant siter == from + subidx
      invariant siter < |was| ==> Phase(siter, numRows) == if subidx < Stride(numRows) then subidx else 0
    {
      if siter == s.Length {
        break;
      }
      rows, written := PutLetter(s, rows, subidx, written, siter, was, numRows);
      siter := siter + 1;
      subidx := subidx + 1;
    }
  }

  /** And up again to the second one. */
  method GoUp(s: array<char>, ghost was: string, numRows: nat, before: seq<string>, written: nat, at: nat, ghost from: nat)
      returns (rows: seq<string>, siter: nat)
    requires numRows >= 2 && Underway(s, was, numRows, before, written, at)
    requires at == if from + numRows <= |was| then from + numRows else |was|
    requires at < |was| ==> Phase(at, numRows) == if numRows == Stride(numRows) then 0 else numRows
    ensures Underway(s, was, numRows, rows, written, siter)
    ensures siter == if from + Stride(numRows) <= |was| then from + Stride(numRows) else |was|
    ensures siter < |was| ==> Phase(siter, numRows) == 0
  {
    rows, siter := before, at;
    var subidx := numRows - 2;
    while subidx > 0
      decreases subidx
      invariant 0 <= subidx <= numRows - 2
      invariant Underway(s, was, numRows, rows, written, siter)
      invariant siter == if from + Stride(numRows) - subidx <= |was| then from + Stride(numRows) - subidx else |was|
      invariant siter < |was| ==> Phase(siter, numRows) == if subidx == 0 then 0 else Stride(numRows) - subidx
    {
      if siter == s.Length {
        break;
      }
      rows := ToBuffer(s, rows, subidx - 1, written, siter, was, numRows);
      siter := siter + 1;
      subidx := subidx - 1;
    }
  }
}
