/**
 Interval subtraction as rules.go does it: each pass writes its result over the very slice it is still
 reading. The write position can overtake the read position; what that loses, and what it never does,
 is stated exactly.
 */
module Intervals {

  datatype Interval = Interval(start: int, end: int)

  predicate In(i: Interval, m: int)
  {
    i.start <= m < i.end
  }

  ghost predicate Has(list: seq<Interval>, m: int)
  {
    exists i :: 0 <= i < |list| && In(list[i], m)
  }

  // ---------------------------------------------------------------- the pass as intended

  /** What is left of one interval. */
  function Pieces(cur: Interval, block: Interval): (r: seq<Interval>)
    ensures |r| <= 2
  {
    if block.end <= cur.start || block.start >= cur.end then
      [cur]
    else
      (if block.start > cur.start then [Interval(cur.start, block.start)] else [])
      + (if block.end < cur.end then [Interval(block.end, cur.end)] else [])
  }

  lemma PiecesMinutes(cur: Interval, block: Interval, m: int)
    ensures Has(Pieces(cur, block), m) <==> In(cur, m) && !In(block, m)
  {
    var p := Pieces(cur, block);
    if In(cur, m) && !In(block, m) {
      assert In(p[0], m) || In(p[|p| - 1], m);
    }
  }

  /** Every interval replaced by what is left of it. */
  function Trimmed(list: seq<Interval>, block: Interval): seq<Interval>
  {
    if list == [] then [] else Trimmed(list[..|list| - 1], block) + Pieces(list[|list| - 1], block)
  }

  lemma TrimmedSnoc(list: seq<Interval>, k: nat, block: Interval)
    requires k < |list|
    ensures Trimmed(list[..k + 1], block) == Trimmed(list[..k], block) + Pieces(list[k], block)
  {
    assert list[..k + 1][..k] == list[..k];
  }

  lemma HasAppend(a: seq<Interval>, b: seq<Interval>, m: int)
    ensures Has(a + b, m) <==> Has(a, m) || Has(b, m)
  {
    var l := a + b;
    if Has(a, m) {
      var i :| 0 <= i < |a| && In(a[i], m);
      assert In(l[i], m);
    }
    if Has(b, m) {
      var i :| 0 <= i < |b| && In(b[i], m);
      assert In(l[|a| + i], m);
    }
  }

  lemma HasOne(i: Interval, m: int)
    ensures Has([i], m) <==> In(i, m)
  {
    assert [i][0] == i;
  }

  /** The intended pass keeps exactly the minutes outside the block. */
  lemma {:induction false} TrimmedMinutes(list: seq<Interval>, block: Interval, m: int)
    ensures Has(Trimmed(list, block), m) <==> Has(list, m) && !In(block, m)
  {
    if list != [] {
      var front, last := list[..|list| - 1], list[|list| - 1];
      assert list == front + [last];
      TrimmedMinutes(front, block, m);
      PiecesMinutes(last, block, m);
      HasAppend(Trimmed(front, block), Pieces(last, block), m);
    }
  }

  // ---------------------------------------------------------------- the pass as it runs

  /** After k intervals the pass has written over interval k before reading it. */
  ghost predicate Overtaken(list: seq<Interval>, block: Interval, k: nat)
  {
    k < |list| && |Trimmed(list[..k], block)| > k
  }

  /** Where the pass first overtakes itself from k on, or the length of the list. */
  ghost function CutFrom(list: seq<Interval>, block: Interval, k: nat): (c: nat)
    requires k <= |list|
    ensures k <= c <= |list| && (c < |list| ==> Overtaken(list, block, c))
    ensures forall j | k <= j < c :: !Overtaken(list, block, j)
    decreases |list| - k
  {
    if k == |list| || Overtaken(list, block, k) then k else CutFrom(list, block, k + 1)
  }

  ghost function Cut(list: seq<Interval>, block: Interval): (c: nat)
    ensures c <= |list| && (c < |list| ==> Overtaken(list, block, c))
    ensures forall j | 0 <= j < c :: !Overtaken(list, block, j)
  {
    CutFrom(list, block, 0)
  }

  function Repeat(x: Interval, n: nat): (r: seq<Interval>)
    ensures |r| == n && forall i | 0 <= i < n :: r[i] == x
  {
    seq(n, _ => x)
  }

  /** What a pass has written once it has gone round j times: from the cut on it reads its own last write. */
  ghost function Written(list: seq<Interval>, block: Interval, j: nat): seq<Interval>
    requires j <= |list|
  {
    var c := Cut(list, block);
    if j <= c then Trimmed(list[..j], block)
    else
      var done := Trimmed(list[..c], block);
      if done == [] then [] else done + Repeat(done[|done| - 1], j - c)
  }

  ghost function PassResult(list: seq<Interval>, block: Interval): seq<Interval>
  {
    Written(list, block, |list|)
  }

  /** At the cut the pass is one write ahead, and its last write lies clear of the block. */
  lemma CutShape(list: seq<Interval>, block: Interval)
    requires Cut(list, block) < |list|
    ensures var c := Cut(list, block);
      var done := Trimmed(list[..c], block);
      0 < c && |done| == c + 1 && Pieces(done[c], block) == [done[c]]
  {
    hide Trimmed, Cut, CutFrom;
    var c := Cut(list, block);
    TrimmedNone(list, block);
    assert 0 < c && !Overtaken(list, block, c - 1);
    var before, pieces := Trimmed(list[..c - 1], block), Pieces(list[c - 1], block);
    TrimmedSnoc(list, c - 1, block);
  }

  lemma TrimmedNone(list: seq<Interval>, block: Interval)
    ensures Trimmed(list[..0], block) == []
  {
  }

  /** Each round appends what is left of the interval it reads. */
  lemma WrittenStep(list: seq<Interval>, block: Interval, j: nat)
    requires j < |list|
    ensures j < Cut(list, block) ==>
      && |Written(list, block, j)| <= j
      && Written(list, block, j + 1) == Written(list, block, j) + Pieces(list[j], block)
    ensures j >= Cut(list, block) ==>
      && |Written(list, block, j)| == j + 1
      && Pieces(Written(list, block, j)[j], block) == [Written(list, block, j)[j]]
      && Written(list, block, j + 1) == Written(list, block, j) + [Written(list, block, j)[j]]
  {
    hide Trimmed, Cut, CutFrom, Pieces;
    var c := Cut(list, block);
    if j < c {
      assert !Overtaken(list, block, j);
      TrimmedSnoc(list, j, block);
    } else {
      CutShape(list, block);
    }
  }

  /** A pass keeps exactly the minutes of the intervals before the cut that lie outside the block. */
  lemma PassMinutes(list: seq<Interval>, block: Interval, m: int)
    ensures Has(PassResult(list, block), m) <==> Has(list[..Cut(list, block)], m) && !In(block, m)
  {
    hide Trimmed, Cut, Repeat;
    var c := Cut(list, block);
    var done := Trimmed(list[..c], block);
    TrimmedMinutes(list[..c], block, m);
    if c < |list| && done != [] {
      HasRepeat(done, |list| - c, m);
    }
  }

  /** Repeating the last interval adds no minute. */
  lemma HasRepeat(list: seq<Interval>, n: nat, m: int)
    requires list != []
    ensures Has(list + Repeat(list[|list| - 1], n), m) <==> Has(list, m)
  {
    var more := Repeat(list[|list| - 1], n);
    HasAppend(list, more, m);
    if i :| 0 <= i < |more| && In(more[i], m) {
      assert In(list[|list| - 1], m);
    }
  }

  /** So a pass is complete exactly when the intervals it never read had nothing more to offer. */
  lemma PassCompleteIff(list: seq<Interval>, block: Interval)
    ensures (forall m :: Has(list, m) && !In(block, m) ==> Has(PassResult(list, block), m)) <==>
      (forall m :: Has(list[Cut(list, block)..], m) && !In(block, m) ==> Has(list[..Cut(list, block)], m))
  {
    hide Has, Cut, PassResult;
    var c := Cut(list, block);
    assert list == list[..c] + list[c..];
    forall m
      ensures Has(list, m) <==> Has(list[..c], m) || Has(list[c..], m)
      ensures Has(PassResult(list, block), m) <==> Has(list[..c], m) && !In(block, m)
    {
      HasAppend(list[..c], list[c..], m);
      PassMinutes(list, block, m);
    }
  }

  // ---------------------------------------------------------------- when a pass loses minutes

  /** Separate, non-empty intervals. */
  ghost predicate Separate(list: seq<Interval>)
  {
    && (forall i | 0 <= i < |list| :: list[i].start < list[i].end)
    && (forall i, j | 0 <= i < |list| && 0 <= j < |list| && i != j :: Apart(list[i], list[j]))
  }

  predicate Apart(a: Interval, b: Interval)
  {
    a.end <= b.start || b.end <= a.start
  }

  /** The block falls strictly inside the interval and leaves a piece on either side. */
  predicate Splits(block: Interval, i: Interval)
  {
    i.start < block.start <= block.end < i.end
  }

  lemma {:induction false} TrimmedUntouched(list: seq<Interval>, block: Interval, k: nat)
    requires k <= |list|
    requires forall i | 0 <= i < k :: Pieces(list[i], block) == [list[i]]
    ensures Trimmed(list[..k], block) == list[..k]
  {
    hide Pieces, Trimmed;
    if k == 0 {
      TrimmedNone(list, block);
    } else {
      TrimmedUntouched(list, block, k - 1);
      TrimmedSnoc(list, k - 1, block);
    }
  }

  lemma TrimmedAway(list: seq<Interval>, block: Interval, i: nat, k: nat)
    requires Separate(list) && i < |list| && Splits(block, list[i]) && k <= i
    ensures Trimmed(list[..k], block) == list[..k]
  {
    hide Trimmed;
    TrimmedUntouched(list, block, k);
  }

  lemma {:induction false} TrimmedNoLonger(list: seq<Interval>, block: Interval, k: nat)
    requires k <= |list| && block.start <= block.end
    requires forall i | 0 <= i < k :: !Splits(block, list[i])
    ensures |Trimmed(list[..k], block)| <= k
  {
    if k > 0 {
      TrimmedNoLonger(list, block, k - 1);
      TrimmedSnoc(list, k - 1, block);
    }
  }

  /** On separate intervals a pass stops reading exactly behind an interval that the block splits. */
  lemma CutIsSplit(list: seq<Interval>, block: Interval)
    requires Separate(list) && block.start <= block.end
    ensures Cut(list, block) < |list| <==> exists i :: 0 <= i < |list| - 1 && Splits(block, list[i])
    ensures Cut(list, block) < |list| ==>
      Cut(list, block) > 0 && Splits(block, list[Cut(list, block) - 1])
  {
    hide Trimmed, Pieces, CutFrom;
    if i :| 0 <= i < |list| - 1 && Splits(block, list[i]) {
      TrimmedAway(list, block, i, i);
      TrimmedSnoc(list, i, block);
      assert |Pieces(list[i], block)| == 2 by {
        SplitInTwo(list[i], block);
      }
      assert Overtaken(list, block, i + 1);
      forall k | 0 <= k <= i
        ensures !Overtaken(list, block, k)
      {
        TrimmedAway(list, block, i, k);
      }
    } else {
      forall k | 0 <= k < |list|
        ensures !Overtaken(list, block, k)
      {
        TrimmedNoLonger(list, block, k);
      }
    }
  }

  lemma SplitInTwo(i: Interval, block: Interval)
    requires Splits(block, i)
    ensures |Pieces(i, block)| == 2
  {
  }

  /** So on separate intervals a pass loses minutes if and only if it splits an interval before the last. */
  lemma LosesIffSplits(list: seq<Interval>, block: Interval)
    requires Separate(list) && block.start <= block.end
    ensures (exists m :: Has(list, m) && !In(block, m) && !Has(PassResult(list, block), m)) <==>
      (exists i :: 0 <= i < |list| - 1 && Splits(block, list[i]))
  {
    hide PassResult, Cut;
    var c := Cut(list, block);
    CutIsSplit(list, block);
    if c < |list| {
      var m := list[|list| - 1].start;
      PassMinutes(list, block, m);
    } else {
      forall m
        ensures Has(PassResult(list, block), m) <==> Has(list, m) && !In(block, m)
      {
        PassMinutes(list, block, m);
      }
    }
  }

  // ---------------------------------------------------------------- all the passes

  ghost function Subtracted(allowed: seq<Interval>, blocked: seq<Interval>): seq<Interval>
  {
    if blocked == [] then allowed
    else PassResult(Subtracted(allowed, blocked[..|blocked| - 1]), blocked[|blocked| - 1])
  }

  /** Minutes that pass k never read. */
  ghost predicate SkippedAt(allowed: seq<Interval>, blocked: seq<Interval>, k: nat, m: int)
    requires k < |blocked|
  {
    var list := Subtracted(allowed, blocked[..k]);
    Has(list, m) && !Has(list[..Cut(list, blocked[k])], m)
  }

  ghost predicate Skipped(allowed: seq<Interval>, blocked: seq<Interval>, m: int)
  {
    exists k :: 0 <= k < |blocked| && SkippedAt(allowed, blocked, k, m)
  }

  lemma SkippedSnoc(allowed: seq<Interval>, front: seq<Interval>, last: Interval, m: int)
    ensures Skipped(allowed, front + [last], m) <==>
      Skipped(allowed, front, m) || SkippedAt(allowed, front + [last], |front|, m)
  {
    var blocked := front + [last];
    forall k | 0 <= k < |front|
      ensures SkippedAt(allowed, front, k, m) == SkippedAt(allowed, blocked, k, m)
    {
      assert blocked[..k] == front[..k];
    }
  }

  /** Nothing blocked survives, nothing is invented, and what else goes missing is what some pass skipped. */
  lemma {:induction false} SubtractMinutes(allowed: seq<Interval>, blocked: seq<Interval>, m: int)
    ensures Has(Subtracted(allowed, blocked), m) <==>
      Has(allowed, m) && !Has(blocked, m) && !Skipped(allowed, blocked, m)
  {
    hide PassResult, Cut;
    if blocked != [] {
      var front, last := blocked[..|blocked| - 1], blocked[|blocked| - 1];
      assert blocked == front + [last];
      SubtractMinutes(allowed, front, m);
      SkippedSnoc(allowed, front, last, m);
      var list := Subtracted(allowed, front);
      PassMinutes(list, last, m);
    }
  }

  /** Every interval stays inside the window it came from. */
  ghost predicate Within(list: seq<Interval>, lo: int, hi: int)
  {
    forall i | 0 <= i < |list| :: lo <= list[i].start && list[i].end <= hi
  }

  lemma {:induction false} TrimmedWithin(list: seq<Interval>, block: Interval, lo: int, hi: int)
    requires Within(list, lo, hi)
    ensures Within(Trimmed(list, block), lo, hi)
  {
    if list != [] {
      TrimmedWithin(list[..|list| - 1], block, lo, hi);
    }
  }

  lemma {:induction false} SubtractWithin(allowed: seq<Interval>, blocked: seq<Interval>, lo: int, hi: int)
    requires Within(allowed, lo, hi)
    ensures Within(Subtracted(allowed, blocked), lo, hi)
  {
    hide Trimmed, Cut;
    if blocked != [] {
      var front, last := blocked[..|blocked| - 1], blocked[|blocked| - 1];
      SubtractWithin(allowed, front, lo, hi);
      var list := Subtracted(allowed, front);
      TrimmedWithin(list[..Cut(list, last)], last, lo, hi);
    }
  }

  // A single window and blocks in the order of the day: every pass touches the last interval only.

  ghost predicate InOrder(blocked: seq<Interval>)
  {
    && (forall i | 0 <= i < |blocked| :: blocked[i].start < blocked[i].end)
    && (forall i, j | 0 <= i < j < |blocked| :: blocked[i].end <= blocked[j].start)
  }

  ghost predicate EndBy(list: seq<Interval>, bound: int)
  {
    forall i | 0 <= i < |list| - 1 :: list[i].end <= bound
  }

  lemma TrimmedBefore(list: seq<Interval>, block: Interval, k: nat)
    requires k < |list| && EndBy(list, block.start)
    ensures Trimmed(list[..k], block) == list[..k]
  {
    hide Trimmed;
    TrimmedUntouched(list, block, k);
  }

  lemma PassInOrder(list: seq<Interval>, block: Interval)
    requires EndBy(list, block.start) && block.start < block.end
    ensures Cut(list, block) == |list|
    ensures EndBy(PassResult(list, block), block.end)
  {
    hide CutFrom, Trimmed;
    forall k | 0 <= k < |list|
      ensures !Overtaken(list, block, k)
    {
      TrimmedBefore(list, block, k);
    }
    if list == [] {
      TrimmedNone(list, block);
    } else {
      var n := |list| - 1;
      TrimmedBefore(list, block, n);
      TrimmedSnoc(list, n, block);
    }
  }

  lemma {:induction false} OnePieceInOrder(window: Interval, blocked: seq<Interval>)
    requires InOrder(blocked)
    ensures forall k | 0 <= k < |blocked| ::
      Cut(Subtracted([window], blocked[..k]), blocked[k]) == |Subtracted([window], blocked[..k])|
    ensures blocked != [] ==> EndBy(Subtracted([window], blocked), blocked[|blocked| - 1].end)
  {
    hide Cut, PassResult;
    if blocked != [] {
      var n := |blocked| - 1;
      var front := blocked[..n];
      OnePieceInOrder(window, front);
      forall k | 0 <= k < n
        ensures Cut(Subtracted([window], blocked[..k]), blocked[k]) == |Subtracted([window], blocked[..k])|
      {
        assert front[..k] == blocked[..k] && front[k] == blocked[k];
      }
      PassInOrder(Subtracted([window], front), blocked[n]);
    }
  }

  /** With one window and the blocks in order, subtraction is exact. */
  lemma InOrderIsExact(window: Interval, blocked: seq<Interval>, m: int)
    requires InOrder(blocked)
    ensures Has(Subtracted([window], blocked), m) <==> In(window, m) && !Has(blocked, m)
  {
    hide Cut, Subtracted, InOrder;
    OnePieceInOrder(window, blocked);
    SubtractMinutes([window], blocked, m);
    HasOne(window, m);
  }

  /** Out of order it is not: a lunch break listed before a morning break loses the whole afternoon. */
  lemma AfternoonLost()
    ensures var left := Subtracted([Interval(0, 1440)], [Interval(720, 780), Interval(480, 540)]);
      left == [Interval(0, 480), Interval(540, 720), Interval(540, 720)] && !Has(left, 1000)
  {
    hide Cut, Trimmed;
    var day, lunch, morning := Interval(0, 1440), Interval(720, 780), Interval(480, 540);
    var halves := [Interval(0, 720), Interval(780, 1440)];
    OneAlone(day, lunch);
    assert Subtracted([day], [lunch]) == PassResult([day], lunch) == halves;
    FirstOfTwo(halves[0], halves[1], morning);
  }

  /** A third block over the morning then leaves nothing at all, though no block touches the afternoon. */
  lemma DayLost(m: int)
    ensures !Has(Subtracted([Interval(0, 1440)], [Interval(720, 780), Interval(480, 540), Interval(0, 720)]), m)
  {
    hide PassResult, Cut;
    var blocks := [Interval(720, 780), Interval(480, 540), Interval(0, 720)];
    assert blocks[..2] == [Interval(720, 780), Interval(480, 540)];
    AfternoonLost();
    var left := Subtracted([Interval(0, 1440)], blocks[..2]);
    PassMinutes(left, blocks[2], m);
    assert Has(left[..Cut(left, blocks[2])], m) ==> In(blocks[2], m);
  }

  lemma OneAlone(i: Interval, block: Interval)
    requires i.start < i.end && block.start <= block.end
    ensures PassResult([i], block) == Pieces(i, block)
  {
  }

  /** A block that splits the first of two intervals puts its second piece in place of the other interval. */
  lemma FirstOfTwo(i: Interval, j: Interval, block: Interval)
    requires Separate([i, j]) && Splits(block, i)
    ensures PassResult([i, j], block) == Pieces(i, block) + [Interval(block.end, i.end)]
  {
    hide Trimmed;
    var list := [i, j];
    CutIsSplit(list, block);
    TrimmedSnoc(list, 0, block);
  }

  // ---------------------------------------------------------------- the loops

  /** Go's append: writes in place while there is room, else moves to a larger array. */
  method Append(a: array<Interval>, w: nat, v: Interval) returns (r: array<Interval>)
    requires w <= a.Length
    modifies a
    ensures if w < a.Length then r == a else fresh(r)
    ensures forall i | 0 <= i < a.Length && i != w :: a[i] == old(a[i])
    ensures w < r.Length && r[..w + 1] == old(a[..w]) + [v]
  {
    if w < a.Length {
      a[w] := v;
      r := a;
    } else {
      r := new Interval[2 * w + 1];
      for i := 0 to w
        invariant r[..i] == a[..i]
        invariant fresh(r) && a[..] == old(a[..])
      {
        r[i] := a[i];
      }
      r[w] := v;
    }
  }

  /** The body of the inner loop. */
  method Keep(next: array<Interval>, w: nat, cur: Interval, block: Interval)
    returns (r: array<Interval>, n: nat)
    requires w <= next.Length
    modifies next
    ensures n <= r.Length && r[..n] == old(next[..w]) + Pieces(cur, block)
    ensures n <= next.Length ==> r == next && forall i | n <= i < next.Length :: next[i] == old(next[i])
    ensures n > next.Length ==> fresh(r)
  {
    if block.end <= cur.start || block.start >= cur.end {
      r := Append(next, w, cur);
      return r, w + 1;
    }
    r, n := next, w;
    ghost var kept := next[..w];
    ghost var front := if block.start > cur.start then [Interval(cur.start, block.start)] else [];
    if block.start > cur.start {
      r := Append(r, n, Interval(cur.start, block.start));
      n := n + 1;
    }
    assert r[..n] == kept + front;
    if block.end < cur.end {
      r := Append(r, n, Interval(block.end, cur.end));
      n := n + 1;
    }
  }

  /** One pass over the n intervals in a, writing from the start of a itself. */
  method Pass(a: array<Interval>, n: nat, block: Interval) returns (next: array<Interval>, w: nat)
    requires n <= a.Length
    modifies a
    ensures w <= next.Length && next[..w] == PassResult(old(a[..n]), block)
  {
    hide Written, Pieces, Cut;
    ghost var list := a[..n];
    next, w := a, 0;
    WrittenStart(list, block);
    for j := 0 to n
      invariant w <= next.Length && next[..w] == Written(list, block, j)
      invariant j < n ==> next == a
      invariant next == a || fresh(next)
      invariant j < Cut(list, block) ==> forall i | j <= i < n :: a[i] == list[i]
    {
      WrittenStep(list, block, j);
      next, w := Keep(next, w, a[j], block);
      if j + 1 < n {
        WrittenStep(list, block, j + 1);
      }
    }
  }

  lemma WrittenStart(list: seq<Interval>, block: Interval)
    ensures Written(list, block, 0) == []
  {
  }

  /** Copies a slice into an array of its own; how much room is left over is up to the allocator. */
  method Copy(s: seq<Interval>) returns (a: array<Interval>)
    ensures fresh(a) && |s| <= a.Length && a[..|s|] == s
  {
    var spare :| 0 <= spare;
    a := new Interval[|s| + spare];
    for i := 0 to |s|
      invariant a[..i] == s[..i]
    {
      a[i] := s[i];
    }
  }

  method SubtractIntervals(allowed: seq<Interval>, blocked: seq<Interval>) returns (r: seq<Interval>)
    ensures r == Subtracted(allowed, blocked)
  {
    r := allowed;
    for k := 0 to |blocked|
      invariant r == Subtracted(allowed, blocked[..k])
    {
      var out := Copy(r);
      var next, w := Pass(out, |r|, blocked[k]);
      r := next[..w];
      assert blocked[..k + 1][..k] == blocked[..k];
    }
    assert blocked[..|blocked|] == blocked;
  }
}
