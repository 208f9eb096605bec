/** The longest free stretch of an event that moving at most one meeting can make. */
module MaxFreeTime {

  /** Meetings `start[i]..end[i]`, in order, not overlapping, inside `0..eventTime`. */
  ghost predicate Calendar(eventTime: int, start: seq<int>, end: seq<int>) {
    && |start| == |end| && 0 <= eventTime
    && (forall i :: 0 <= i < |start| ==> 0 <= start[i] <= end[i] <= eventTime)
    && (forall i, j :: 0 <= i < j < |start| ==> end[i] <= start[j])
  }

  /** No meeting overlaps a..b. */
  ghost predicate Avoids(start: seq<int>, end: seq<int>, a: int, b: int)
    requires |start| == |end|
  {
    forall j :: 0 <= j < |start| ==> end[j] <= a || b <= start[j]
  }

  /** Meeting `i` may be held from `t`, with its length kept and the other meetings where they are. */
  ghost predicate Movable(eventTime: int, start: seq<int>, end: seq<int>, i: nat, t: int)
    requires |start| == |end|
  {
    && i < |start| && 0 <= t && t + end[i] - start[i] <= eventTime
    && forall j :: 0 <= j < |start| && j != i ==> end[j] <= t || t + end[i] - start[i] <= start[j]
  }

  /** a..b can be made free by moving at most one meeting. */
  ghost predicate CanFree(eventTime: int, start: seq<int>, end: seq<int>, a: int, b: int)
    requires |start| == |end|
  {
    && 0 <= a <= b <= eventTime
    && (Avoids(start, end, a, b)
        || exists i: nat, t :: Movable(eventTime, start, end, i, t)
            && Avoids(start[i := t], end[i := t + end[i] - start[i]], a, b))
  }

  ghost predicate IsBest(eventTime: int, start: seq<int>, end: seq<int>, free: int)
    requires |start| == |end|
  {
    && (exists a, b :: CanFree(eventTime, start, end, a, b) && b - a == free)
    && (forall a, b :: CanFree(eventTime, start, end, a, b) ==> b - a <= free)
  }

  /** One unit of time without any meeting is free, but the result is 0. */
  lemma NoMeetingExample()
    ensures !IsBest(1, [], [], 0)
  {
    assert CanFree(1, [], [], 0, 1);
  }

  /** A meeting that just fits between two others may move there: 0..1 goes to 8..9 and frees 0..7. */
  lemma ExactFitExample()
    ensures IsBest(10, [0, 7, 9], [1, 8, 10], 7)
  {
    var start, end := [0, 7, 9], [1, 8, 10];
    assert Movable(10, start, end, 0, 8);
    assert Avoids(start[0 := 8], end[0 := 9], 0, 7);
    assert CanFree(10, start, end, 0, 7);
    forall a, b | CanFree(10, start, end, a, b) ensures b - a <= 7 {
      ExactFitBound(a, b);
    }
  }

  lemma ExactFitBound(a: int, b: int)
    requires CanFree(10, [0, 7, 9], [1, 8, 10], a, b)
    ensures b - a <= 7
  {
    var start, end := [0, 7, 9], [1, 8, 10];
    assert Calendar(10, start, end);
    forall i: nat | i < 3 ensures Around(10, start, end, i) <= 7 {}
    NoMoveBeats(10, start, end, 7, a, b);
  }

  // ----- gaps -----

  /** Where gap `k`, between meetings k - 1 and k, begins and ends. */
  function GapStart(end: seq<int>, k: nat): int
    requires k <= |end|
  {
    if k == 0 then 0 else end[k - 1]
  }

  function GapEnd(eventTime: int, start: seq<int>, k: nat): int
    requires k <= |start|
  {
    if k == |start| then eventTime else start[k]
  }

  function Gap(eventTime: int, start: seq<int>, end: seq<int>, k: nat): int
    requires k <= |start| == |end|
  {
    GapEnd(eventTime, start, k) - GapStart(end, k)
  }

  /** Meeting `i` fits into some gap that it does not border. */
  ghost predicate FitsElsewhere(eventTime: int, start: seq<int>, end: seq<int>, i: nat)
    requires i < |start| == |end|
  {
    end[i] - start[i] <= 0
    || exists k: nat :: k <= |start| && k != i && k != i + 1 && end[i] - start[i] <= Gap(eventTime, start, end, k)
  }

  /** The free stretch around meeting `i` once it has moved as far away as it can. */
  ghost function Around(eventTime: int, start: seq<int>, end: seq<int>, i: nat): int
    requires i < |start| == |end|
  {
    GapEnd(eventTime, start, i + 1) - GapStart(end, i)
    - if FitsElsewhere(eventTime, start, end, i) then 0 else end[i] - start[i]
  }

  /** A stretch that avoids every meeting but `i` lies between two neighbours of the others. */
  lemma LocateGap(eventTime: int, start: seq<int>, end: seq<int>, i: nat, a: int, b: int) returns (k: nat)
    requires Calendar(eventTime, start, end) && i < |start| && 0 <= a < b <= eventTime
    requires forall j :: 0 <= j < |start| && j != i ==> end[j] <= a || b <= start[j]
    ensures k <= |start| && k != i + 1
    ensures b <= GapEnd(eventTime, start, if k == i then i + 1 else k) && GapStart(end, k) <= a
    ensures k != i ==> b - a <= Gap(eventTime, start, end, k)
  {
    k := 0;
    while k < |start| && (k == i || start[k] < b)
      invariant k <= |start| && forall j :: 0 <= j < k && j != i ==> end[j] <= a
    {
      k := k + 1;
    }
    if k == i + 1 {
      k := i;
    }
  }

  lemma StillBest(eventTime: int, start: seq<int>, end: seq<int>, k: nat, i: nat)
    requires Calendar(eventTime, start, end) && i < |start| && k <= |start| && (k == i || k == i + 1)
    ensures Gap(eventTime, start, end, k) <= Around(eventTime, start, end, i)
  {
  }

  /** No legal move frees more than the best `Around`. */
  lemma NoMoveBeats(eventTime: int, start: seq<int>, end: seq<int>, out: int, a: int, b: int)
    requires Calendar(eventTime, start, end) && start != []
    requires forall i: nat :: i < |start| ==> Around(eventTime, start, end, i) <= out
    requires CanFree(eventTime, start, end, a, b)
    ensures b - a <= out
  {
    StillBest(eventTime, start, end, 0, 0);
    if a < b {
      if Avoids(start, end, a, b) {
        MoveBounded(eventTime, start, end, out, 0, start[0], a, b);
      } else {
        var i: nat, t :| Movable(eventTime, start, end, i, t)
            && Avoids(start[i := t], end[i := t + end[i] - start[i]], a, b);
        assert forall j :: 0 <= j < |start| && j != i ==>
            start[i := t][j] == start[j] && end[i := t + end[i] - start[i]][j] == end[j];
        assert end[i := t + end[i] - start[i]][i] <= a || b <= start[i := t][i];
        MoveBounded(eventTime, start, end, out, i, t, a, b);
      }
    }
  }

  lemma MoveBounded(eventTime: int, start: seq<int>, end: seq<int>, out: int, i: nat, t: int, a: int, b: int)
    requires Calendar(eventTime, start, end) && start != [] && 0 <= a < b <= eventTime
    requires forall i: nat :: i < |start| ==> Around(eventTime, start, end, i) <= out
    requires Movable(eventTime, start, end, i, t)
    requires forall j :: 0 <= j < |start| && j != i ==> end[j] <= a || b <= start[j]
    requires t + end[i] - start[i] <= a || b <= t
    ensures b - a <= out
  {
    var k := LocateGap(eventTime, start, end, i, a, b);
    if k != i {
      var m := if k == |start| then k - 1 else k;
      StillBest(eventTime, start, end, k, m);
    } else if end[i] - start[i] > 0 {
      var g := LocateGap(eventTime, start, end, i, t, t + end[i] - start[i]);
      assert g != i ==> FitsElsewhere(eventTime, start, end, i);
    }
    assert Around(eventTime, start, end, i) <= out;
  }

  /** A legal place for meeting `i` that keeps clear of a..b frees a..b. */
  lemma MoveFrees(eventTime: int, start: seq<int>, end: seq<int>, i: nat, t: int, a: int, b: int)
    requires |start| == |end| && 0 <= a <= b <= eventTime && Movable(eventTime, start, end, i, t)
    requires forall j :: 0 <= j < |start| && j != i ==> end[j] <= a || b <= start[j]
    requires t + end[i] - start[i] <= a || b <= t
    ensures CanFree(eventTime, start, end, a, b)
  {
  }

  lemma NeighboursAvoid(eventTime: int, start: seq<int>, end: seq<int>, i: nat)
    requires Calendar(eventTime, start, end) && i < |start|
    ensures 0 <= GapStart(end, i) <= start[i] <= end[i] <= GapEnd(eventTime, start, i + 1) <= eventTime
    ensures forall j :: 0 <= j < |start| && j != i ==>
              end[j] <= GapStart(end, i) || GapEnd(eventTime, start, i + 1) <= start[j]
  {
  }

  lemma GapHolds(eventTime: int, start: seq<int>, end: seq<int>, i: nat, k: nat)
    requires Calendar(eventTime, start, end) && i < |start| && k <= |start| && k != i && k != i + 1
    requires 0 < end[i] - start[i] <= Gap(eventTime, start, end, k)
    ensures Movable(eventTime, start, end, i, GapStart(end, k))
    ensures GapStart(end, k) + end[i] - start[i] <= GapStart(end, i)
            || GapEnd(eventTime, start, i + 1) <= GapStart(end, k)
  {
  }

  /** Each `Around` is attained by a legal move. */
  lemma AroundAttained(eventTime: int, start: seq<int>, end: seq<int>, i: nat) returns (a: int, b: int)
    requires Calendar(eventTime, start, end) && i < |start|
    ensures CanFree(eventTime, start, end, a, b) && b - a == Around(eventTime, start, end, i)
  {
    var length := end[i] - start[i];
    a, b := GapStart(end, i), GapEnd(eventTime, start, i + 1);
    NeighboursAvoid(eventTime, start, end, i);
    var t := a;
    if length > 0 {
      if k: nat :| k <= |start| && k != i && k != i + 1 && length <= Gap(eventTime, start, end, k) {
        t := GapStart(end, k);
        GapHolds(eventTime, start, end, i, k);
      } else {
        a := a + length;
      }
    }
    MoveFrees(eventTime, start, end, i, t, a, b);
  }

  /**
   The maximum of `Around` is the best free stretch as soon as there is a meeting. With none
   the answer 0 is right only for an event of no length.
   */
  lemma BestExactlyWhen(eventTime: int, start: seq<int>, end: seq<int>, out: int)
    requires Calendar(eventTime, start, end)
    requires forall i: nat :: i < |start| ==> Around(eventTime, start, end, i) <= out
    requires if start == [] then out == 0 else exists i: nat :: i < |start| && Around(eventTime, start, end, i) == out
    ensures IsBest(eventTime, start, end, out) <==> start != [] || eventTime == 0
  {
    if start == [] {
      assert CanFree(eventTime, start, end, 0, eventTime);
      assert CanFree(eventTime, start, end, 0, 0);
    } else {
      forall a, b | CanFree(eventTime, start, end, a, b) ensures b - a <= out {
        NoMoveBeats(eventTime, start, end, out, a, b);
      }
      var i: nat :| i < |start| && Around(eventTime, start, end, i) == out;
      var a, b := AroundAttained(eventTime, start, end, i);
    }
  }

  // ----- the three passes -----

  /** `m` is the largest of gaps lo..hi - 1, or 0. */
  ghost predicate LargestGap(eventTime: int, start: seq<int>, end: seq<int>, lo: nat, hi: nat, m: int)
    requires hi <= |start| + 1 && |start| == |end|
  {
    && 0 <= m && (forall k: nat :: lo <= k < hi ==> Gap(eventTime, start, end, k) <= m)
    && (m == 0 || exists k: nat :: lo <= k < hi && Gap(eventTime, start, end, k) == m)
  }

  ghost predicate FitsIn(eventTime: int, start: seq<int>, end: seq<int>, length: int, lo: nat, hi: nat)
    requires hi <= |start| + 1 && |start| == |end|
  {
    length <= 0 || exists k: nat :: lo <= k < hi && length <= Gap(eventTime, start, end, k)
  }

  lemma FitsByLargest(eventTime: int, start: seq<int>, end: seq<int>, length: int, lo: nat, hi: nat, m: int)
    requires hi <= |start| + 1 && |start| == |end| && LargestGap(eventTime, start, end, lo, hi, m)
    ensures length <= m <==> FitsIn(eventTime, start, end, length, lo, hi)
  {
  }

  lemma FitsEitherSide(eventTime: int, start: seq<int>, end: seq<int>, i: nat)
    requires i < |start| == |end|
    ensures FitsElsewhere(eventTime, start, end, i) <==>
            || FitsIn(eventTime, start, end, end[i] - start[i], 0, i)
            || FitsIn(eventTime, start, end, end[i] - start[i], i + 2, |start| + 1)
  {
  }

  lemma OneMoreGap(eventTime: int, start: seq<int>, end: seq<int>, lo: nat, hi: nat, m: int, k: nat)
    requires hi <= |start| + 1 && |start| == |end| && LargestGap(eventTime, start, end, lo, hi, m)
    requires lo <= hi && k <= |start| && (k == hi || k + 1 == lo)
    ensures var g := Gap(eventTime, start, end, k);
      LargestGap(eventTime, start, end, if k == hi then lo else k, if k == hi then hi + 1 else hi,
          if g > m then g else m)
  {
  }

  lemma AroundIsFree(eventTime: int, start: seq<int>, end: seq<int>, i: nat)
    requires Calendar(eventTime, start, end) && i < |start|
    ensures Around(eventTime, start, end, i) >= 0
  {
  }

  /** The first pass marks the meetings that fit into a gap further left. */
  method MarkLeft(marks: array<bool>, eventTime: int, startTime: seq<int>, endTime: seq<int>)
    requires |startTime| == |endTime| == marks.Length && forall j :: 0 <= j < marks.Length ==> !marks[j]
    modifies marks
    ensures forall j: nat :: j < marks.Length ==>
            marks[j] == FitsIn(eventTime, startTime, endTime, endTime[j] - startTime[j], 0, j)
  {
    hide LargestGap, FitsIn;
    var maxGapLeft := 0;
    NoGaps(eventTime, startTime, endTime, 0);
    for i := 0 to marks.Length
      invariant LargestGap(eventTime, startTime, endTime, 0, i, maxGapLeft)
      invariant forall j :: i <= j < marks.Length ==> !marks[j]
      invariant forall j: nat :: j < i ==>
                marks[j] == FitsIn(eventTime, startTime, endTime, endTime[j] - startTime[j], 0, j)
    {
      var slotSize := endTime[i] - startTime[i];
      FitsByLargest(eventTime, startTime, endTime, slotSize, 0, i, maxGapLeft);
      if slotSize <= maxGapLeft {
        marks[i] := true;
      }
      var prevEndTime := if i == 0 then 0 else endTime[i - 1];
      OneMoreGap(eventTime, startTime, endTime, 0, i, maxGapLeft, i);
      maxGapLeft := if startTime[i] - prevEndTime > maxGapLeft then startTime[i] - prevEndTime else maxGapLeft;
    }
  }

  /** The second pass adds those that fit further right. */
  method MarkRight(marks: array<bool>, eventTime: int, startTime: seq<int>, endTime: seq<int>)
    requires |startTime| == |endTime| == marks.Length
    requires forall j: nat :: j < marks.Length ==>
             marks[j] == FitsIn(eventTime, startTime, endTime, endTime[j] - startTime[j], 0, j)
    modifies marks
    ensures forall j: nat :: j < marks.Length ==> marks[j] == FitsElsewhere(eventTime, startTime, endTime, j)
  {
    hide LargestGap, FitsIn, FitsElsewhere;
    var n := marks.Length;
    var maxGapRight := 0;
    NoGaps(eventTime, startTime, endTime, n + 1);
    for i := n downto 0
      invariant LargestGap(eventTime, startTime, endTime, i + 1, n + 1, maxGapRight)
      invariant forall j: nat :: i <= j < n ==> marks[j] == FitsElsewhere(eventTime, startTime, endTime, j)
      invariant forall j: nat :: j < i ==>
                marks[j] == FitsIn(eventTime, startTime, endTime, endTime[j] - startTime[j], 0, j)
    {
      var slotSize := endTime[i] - startTime[i];
      FitsByLargest(eventTime, startTime, endTime, slotSize, i + 2, n + 1, maxGapRight);
      FitsEitherSide(eventTime, startTime, endTime, i);
      if slotSize <= maxGapRight {
        marks[i] := true;
      }
      var prevStartTime := if i == n - 1 then eventTime else startTime[i + 1];
      OneMoreGap(eventTime, startTime, endTime, i + 2, n + 1, maxGapRight, i + 1);
      maxGapRight := if prevStartTime - endTime[i] > maxGapRight then prevStartTime - endTime[i] else maxGapRight;
    }
  }

  /** The last pass takes the largest of the combined values. */
  method Combine(marks: array<bool>, eventTime: int, startTime: seq<int>, endTime: seq<int>) returns (out: int)
    requires |startTime| == |endTime| == marks.Length && Calendar(eventTime, startTime, endTime)
    requires forall j: nat :: j < marks.Length ==> marks[j] == FitsElsewhere(eventTime, startTime, endTime, j)
    ensures 0 <= out && forall j: nat :: j < marks.Length ==> Around(eventTime, startTime, endTime, j) <= out
    ensures if marks.Length == 0 then out == 0
            else exists j: nat :: j < marks.Length && Around(eventTime, startTime, endTime, j) == out
  {
    hide Calendar, FitsElsewhere;
    out := 0;
    var n := marks.Length;
    for i := 0 to n
      invariant 0 <= out && forall j: nat :: j < i ==> Around(eventTime, startTime, endTime, j) <= out
      invariant if i == 0 then out == 0 else exists j: nat :: j < i && Around(eventTime, startTime, endTime, j) == out
    {
      var leftEnd := if i == 0 then 0 else endTime[i - 1];
      var rightStart := if i == n - 1 then eventTime else startTime[i + 1];
      var gap := rightStart - leftEnd;
      if !marks[i] {
        gap := gap - (endTime[i] - startTime[i]);
      }
      AroundIsFree(eventTime, startTime, endTime, i);
      assert gap == Around(eventTime, startTime, endTime, i);
      out := if gap > out then gap else out;
    }
  }

  method MaxFreeTime(eventTime: int, startTime: seq<int>, endTime: seq<int>) returns (out: int)
    requires |startTime| == |endTime| && Calendar(eventTime, startTime, endTime)
    ensures IsBest(eventTime, startTime, endTime, out) <==> startTime != [] || eventTime == 0
    ensures startTime == [] ==> out == 0
  {
    hide Calendar, FitsIn, FitsElsewhere, IsBest, Around;
    var nonAdjacentGaps := new bool[|startTime|](_ => false);
    MarkLeft(nonAdjacentGaps, eventTime, startTime, endTime);
    MarkRight(nonAdjacentGaps, eventTime, startTime, endTime);
    out := Combine(nonAdjacentGaps, eventTime, startTime, endTime);
    BestExactlyWhen(eventTime, startTime, endTime, out);
  }

  lemma NoGaps(eventTime: int, start: seq<int>, end: seq<int>, k: nat)
    requires k <= |start| + 1 && |start| == |end|
    ensures LargestGap(eventTime, start, end, k, k, 0)
  {
  }
}
