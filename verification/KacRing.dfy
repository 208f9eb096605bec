/**
 The Kac ring: balls move one place a step and change colour at marked places. A table of
 2N averages answers for any number of steps; it is compared with direct simulation.
 */
module KacRing {

  const WORD: int := 0x1_0000_0000_0000_0000

  // ----- direct simulation -----

  function Turn(marks: seq<bool>, i: nat): int
    requires i < |marks|
  {
    if marks[i] then -1 else 1
  }

  function Previous(n: nat, i: nat): nat
    requires i < n
  {
    if i == 0 then n - 1 else i - 1
  }

  /** The place k steps behind `i` on a ring of n. */
  ghost function Behind(n: nat, i: nat, k: nat): (j: nat)
    requires i < n
    ensures j < n
  {
    if k == 0 then i else Previous(n, Behind(n, i, k - 1))
  }

  /** Every ball moves one place on, changing sign if it leaves a marked place. */
  function Moved(marks: seq<bool>, balls: seq<int>): (next: seq<int>)
    requires |marks| == |balls| > 0
    ensures |next| == |balls|
  {
    seq(|balls|, i requires 0 <= i < |balls| => Turn(marks, Previous(|balls|, i)) * balls[Previous(|balls|, i)])
  }

  /** The balls after `t` steps, all white at the start. */
  function Simulate(marks: seq<bool>, t: nat): (balls: seq<int>)
    requires |marks| > 0
    ensures |balls| == |marks|
  {
    if t == 0 then seq(|marks|, _ => 1) else Moved(marks, Simulate(marks, t - 1))
  }

  function Sum(balls: seq<int>): int {
    if balls == [] then 0 else Sum(balls[..|balls| - 1]) + balls[|balls| - 1]
  }

  function Average(marks: seq<bool>, t: nat): real
    requires |marks| > 0
  {
    Sum(Simulate(marks, t)) as real / |marks| as real
  }

  lemma AverageTimes(marks: seq<bool>, t: nat)
    requires |marks| > 0
    ensures Average(marks, t) * |marks| as real == Sum(Simulate(marks, t)) as real
  {
    hide Sum, Simulate;
    DivideTimes(Sum(Simulate(marks, t)) as real, |marks| as real);
  }

  lemma DivideTimes(x: real, n: real)
    requires n != 0.0
    ensures x / n * n == x
  {
  }

  /** One step of the ring, place by place: white at first, then each ball moves on and turns at a mark. */
  lemma OneStep(marks: seq<bool>, t: nat, i: nat)
    requires i < |marks|
    ensures Simulate(marks, 0)[i] == 1
    ensures Simulate(marks, t + 1)[if i == |marks| - 1 then 0 else i + 1] ==
            if marks[i] then -Simulate(marks, t)[i] else Simulate(marks, t)[i]
  {
  }

  lemma {:induction false} BallsAreSigns(marks: seq<bool>, t: nat)
    requires |marks| > 0
    ensures forall i :: 0 <= i < |marks| ==> Simulate(marks, t)[i] == 1 || Simulate(marks, t)[i] == -1
    ensures (forall i :: 0 <= i < |marks| ==> !marks[i]) ==> forall i :: 0 <= i < |marks| ==> Simulate(marks, t)[i] == 1
    decreases t
  {
    if t > 0 {
      BallsAreSigns(marks, t - 1);
    }
  }

  lemma {:induction false} SumOfSigns(balls: seq<int>)
    requires forall i :: 0 <= i < |balls| ==> balls[i] == 1 || balls[i] == -1
    ensures -|balls| <= Sum(balls) <= |balls|
    ensures (forall i :: 0 <= i < |balls| ==> balls[i] == 1) ==> Sum(balls) == |balls|
  {
    if balls != [] {
      SumOfSigns(balls[..|balls| - 1]);
    }
  }

  /** The colour lies between black and white; it is white at the start, and always on a ring without marks. */
  lemma ColourRange(marks: seq<bool>, t: nat)
    requires |marks| > 0
    ensures -1.0 <= Average(marks, t) <= 1.0
    ensures t == 0 || (forall i :: 0 <= i < |marks| ==> !marks[i]) ==> Average(marks, t) == 1.0
  {
    hide Simulate, Sum, Average;
    var balls := Simulate(marks, t);
    BallsAreSigns(marks, t);
    SumOfSigns(balls);
    AverageTimes(marks, t);
    Quotient(Average(marks, t), Sum(balls) as real, |marks| as real);
    if t == 0 { AllWhiteAtFirst(marks); }
  }

  lemma AllWhiteAtFirst(marks: seq<bool>)
    requires |marks| > 0
    ensures forall i :: 0 <= i < |marks| ==> Simulate(marks, 0)[i] == 1
  {
  }

  lemma Quotient(c: real, sum: real, n: real)
    requires n > 0.0 && c * n == sum && -n <= sum <= n
    ensures -1.0 <= c <= 1.0 && (sum == n ==> c == 1.0)
  {
  }

  // ----- the period -----

  /** Sign changes met on the s places just behind `i`. */
  ghost function Window(marks: seq<bool>, i: nat, s: nat): int
    requires i < |marks|
  {
    if s == 0 then 1 else Window(marks, i, s - 1) * Turn(marks, Behind(|marks|, i, s))
  }

  lemma {:induction false} BehindPrevious(n: nat, i: nat, k: nat)
    requires i < n
    ensures Behind(n, Previous(n, i), k) == Behind(n, i, k + 1)
    decreases k
  {
    if k == 0 {
      assert Behind(n, i, 0) == i;
    } else {
      BehindPrevious(n, i, k - 1);
    }
  }

  lemma {:induction false} BehindAt(n: nat, i: nat, k: nat)
    requires i < n && k <= n
    ensures Behind(n, i, k) == if k <= i then i - k else i - k + n
    decreases k
  {
    if k > 0 {
      BehindAt(n, i, k - 1);
    }
  }

  /** A window is the same seen from one step on, with the first place dropped. */
  lemma {:induction false} WindowStep(marks: seq<bool>, i: nat, s: nat)
    requires i < |marks|
    ensures Window(marks, i, s + 1) == Turn(marks, Previous(|marks|, i)) * Window(marks, Previous(|marks|, i), s)
    decreases s
  {
    var n := |marks|;
    BehindPrevious(n, i, s);
    if s > 0 {
      WindowStep(marks, i, s - 1);
    } else {
      assert Behind(n, i, 1) == Previous(n, Behind(n, i, 0));
      assert Window(marks, i, 1) == Window(marks, i, 0) * Turn(marks, Behind(n, i, 1));
    }
  }

  /** s steps carry the ball behind by s places here, with the signs of the places between. */
  lemma {:induction false} AfterSteps(marks: seq<bool>, t: nat, s: nat, i: nat)
    requires i < |marks|
    ensures Simulate(marks, t + s)[i] == Window(marks, i, s) * Simulate(marks, t)[Behind(|marks|, i, s)]
    decreases s
  {
    var n := |marks|;
    if s == 0 {
      assert Behind(n, i, 0) == i;
    } else {
      var j := Previous(n, i);
      AfterSteps(marks, t, s - 1, j);
      WindowStep(marks, i, s - 1);
      BehindPrevious(n, i, s - 1);
      Regroup(Turn(marks, j), Window(marks, j, s - 1), Simulate(marks, t)[Behind(n, i, s)]);
    }
  }

  lemma Regroup(a: int, b: int, c: int)
    ensures a * (b * c) == (a * b) * c
  {
  }

  /** A full lap meets the same signs from everywhere. */
  lemma {:induction false} LapEverywhere(marks: seq<bool>, i: nat)
    requires i < |marks|
    ensures Window(marks, i, |marks|) == Window(marks, 0, |marks|)
    decreases i
  {
    if i > 0 {
      var n := |marks|;
      WindowStep(marks, i, n - 1);
      BehindAt(n, i - 1, n);
      LapEverywhere(marks, i - 1);
    }
  }

  function Marked(marks: seq<bool>, k: nat): nat
    requires k <= |marks|
  {
    if k == 0 then 0 else Marked(marks, k - 1) + if marks[k - 1] then 1 else 0
  }

  function Parity(m: nat): int { if m % 2 == 0 then 1 else -1 }

  lemma {:induction false} WindowParity(marks: seq<bool>, s: nat)
    requires s < |marks|
    ensures Window(marks, s, s) == Parity(Marked(marks, s))
    decreases s
  {
    if s > 0 {
      WindowParity(marks, s - 1);
      WindowStep(marks, s, s - 1);
    }
  }

  /** The signs of a whole lap multiply to (-1)^m, m being the number of marked places. */
  lemma LapParity(marks: seq<bool>, i: nat)
    requires i < |marks|
    ensures Window(marks, i, |marks|) == Parity(Marked(marks, |marks|))
  {
    var n := |marks|;
    LapEverywhere(marks, i);
    WindowStep(marks, 0, n - 1);
    WindowParity(marks, n - 1);
  }

  /** One lap multiplies every ball by (-1)^m. */
  lemma OneLap(marks: seq<bool>, t: nat, i: nat)
    requires i < |marks|
    ensures Simulate(marks, t + |marks|)[i] == Parity(Marked(marks, |marks|)) * Simulate(marks, t)[i]
  {
    AfterSteps(marks, t, |marks|, i);
    BehindAt(|marks|, i, |marks|);
    LapParity(marks, i);
  }

  /** Two laps restore the ring. */
  lemma TwoLaps(marks: seq<bool>, t: nat)
    requires |marks| > 0
    ensures Simulate(marks, t + 2 * |marks|) == Simulate(marks, t)
  {
    var n := |marks|;
    hide Simulate, Parity, Marked;
    forall i | 0 <= i < n ensures Simulate(marks, t + 2 * n)[i] == Simulate(marks, t)[i] {
      OneLap(marks, t + n, i);
      OneLap(marks, t, i);
      ParityTwice(Marked(marks, n), Simulate(marks, t)[i]);
      assert t + n + n == t + 2 * n;
    }
  }

  lemma ParityTwice(m: nat, v: int)
    ensures Parity(m) * (Parity(m) * v) == v
  {
  }

  // ----- remainders -----

  lemma AtLeastOnce(a: int, n: nat)
    requires a >= 1
    ensures a * n >= n
  {
  }

  lemma RemainderUnique(n: nat, q: int, r: int, p: int, s: int)
    requires 0 <= r < n && 0 <= s < n && q * n + r == p * n + s
    ensures q == p && r == s
  {
    assert (q - p) * n == s - r && (p - q) * n == r - s;
    if q > p {
      AtLeastOnce(q - p, n);
    } else if q < p {
      AtLeastOnce(p - q, n);
    }
  }

  lemma RemainderMinus(t: int, n: nat)
    requires n > 0
    ensures (t - n) % n == t % n
  {
    var q, p := t / n, (t - n) / n;
    assert t == q * n + t % n && t - n == p * n + (t - n) % n;
    assert (p + 1) * n == p * n + n;
    RemainderUnique(n, q, t % n, p + 1, (t - n) % n);
  }

  lemma RemainderSmall(t: int, n: nat)
    requires 0 <= t < n
    ensures t % n == t
  {
  }

  /** The table entry for the steps modulo the period is the simulation after all of them. */
  lemma {:induction false} TableSuffices(marks: seq<bool>, t: nat)
    requires |marks| > 0
    ensures Simulate(marks, t % (2 * |marks|)) == Simulate(marks, t)
    decreases t
  {
    var p := 2 * |marks|;
    if t < p {
      RemainderSmall(t, p);
    } else {
      TableSuffices(marks, t - p);
      TwoLaps(marks, t - p);
      RemainderMinus(t, p);
    }
  }

  lemma AverageSuffices(marks: seq<bool>, t: nat)
    requires |marks| > 0
    ensures Average(marks, t % (2 * |marks|)) == Average(marks, t)
  {
    TableSuffices(marks, t);
  }

  // ----- the table read backwards -----

  lemma {:induction false} WindowIsSign(marks: seq<bool>, i: nat, s: nat)
    requires i < |marks|
    ensures Window(marks, i, s) == 1 || Window(marks, i, s) == -1
    decreases s
  {
    if s > 0 {
      WindowIsSign(marks, i, s - 1);
    }
  }

  /** The balls as seen from s places further on. */
  ghost function Rotated(balls: seq<int>, s: nat): (r: seq<int>)
    ensures |r| == |balls|
  {
    seq(|balls|, i requires 0 <= i < |balls| => balls[Behind(|balls|, i, s)])
  }

  lemma {:induction false} RotatedSum(balls: seq<int>, s: nat)
    ensures Sum(Rotated(balls, s)) == Sum(balls)
    decreases s
  {
    if s == 0 || balls == [] {
      assert Rotated(balls, s) == balls;
    } else {
      hide Rotated, Sum;
      RotatedSum(balls, s - 1);
      RotatedStep(balls, s - 1);
      OneRound(Rotated(balls, s - 1));
    }
  }

  lemma RotatedStep(balls: seq<int>, s: nat)
    requires balls != []
    ensures var r := Rotated(balls, s); Rotated(balls, s + 1) == [r[|balls| - 1]] + r[..|balls| - 1]
  {
    hide Behind;
    var n, r, next := |balls|, Rotated(balls, s), Rotated(balls, s + 1);
    var moved := [r[n - 1]] + r[..n - 1];
    forall i | 0 <= i < n ensures next[i] == moved[i] {
      BehindPrevious(n, i, s);
      assert moved[i] == r[Previous(n, i)];
    }
    assert next == moved;
  }

  lemma OneRound(r: seq<int>)
    requires r != []
    ensures Sum([r[|r| - 1]] + r[..|r| - 1]) == Sum(r)
  {
    SumFront(r[|r| - 1], r[..|r| - 1]);
  }

  /** Going back t steps from the start shows the same colours as going forward t steps, at other places. */
  lemma MirrorAt(marks: seq<bool>, t: nat, i: nat)
    requires i < |marks| && t <= 2 * |marks|
    ensures Simulate(marks, 2 * |marks| - t)[i] == Rotated(Simulate(marks, t), 2 * |marks| - t)[i]
  {
    var n := |marks|;
    var s := 2 * n - t;
    var j := Behind(n, i, s);
    TwoLaps(marks, 0);
    assert Simulate(marks, 0)[i] == Simulate(marks, 0)[j] == 1;
    AfterSteps(marks, 0, s, i);
    AfterSteps(marks, t, s, i);
    WindowIsSign(marks, i, s);
  }

  lemma Mirror(marks: seq<bool>, t: nat)
    requires |marks| > 0 && t <= 2 * |marks|
    ensures Sum(Simulate(marks, 2 * |marks| - t)) == Sum(Simulate(marks, t))
    ensures Average(marks, 2 * |marks| - t) == Average(marks, t)
  {
    hide Simulate, Rotated, Sum;
    var n := |marks|;
    var forth, back := Rotated(Simulate(marks, t), 2 * n - t), Simulate(marks, 2 * n - t);
    forall i | 0 <= i < n ensures back[i] == forth[i] {
      MirrorAt(marks, t, i);
    }
    assert back == forth;
    RotatedSum(Simulate(marks, t), 2 * n - t);
  }

  /** Only the last place is marked. */
  function OneMark(n: nat): (marks: seq<bool>)
    requires n > 0
    ensures |marks| == n
  {
    seq(n, i => i == n - 1)
  }

  /** With one mark, the first t places are black after t steps. */
  lemma {:induction false} OneMarkAfter(n: nat, t: nat)
    requires t <= n && n > 0
    ensures Simulate(OneMark(n), t) == seq(n, i => if i < t then -1 else 1)
    decreases t
  {
    if t > 0 {
      OneMarkAfter(n, t - 1);
    }
  }

  lemma {:induction false} SumBlack(n: nat, m: nat, t: nat)
    requires t <= n && m <= n
    ensures Sum(seq(n, i => if i < t then -1 else 1)[..m]) == (if m <= t then 0 else 2 * (m - t)) - m
    decreases m
  {
    if m > 0 {
      var balls := seq(n, i => if i < t then -1 else 1);
      SumBlack(n, m - 1, t);
      assert balls[..m][..m - 1] == balls[..m - 1];
    }
  }

  lemma OneMarkSum(n: nat, t: nat)
    requires t <= 2 * n && n > 0
    ensures Sum(Simulate(OneMark(n), t)) == if t <= n then n - 2 * t else 2 * t - 3 * n
  {
    var u := if t <= n then t else 2 * n - t;
    OneMarkAfter(n, u);
    var balls := seq(n, i => if i < u then -1 else 1);
    SumBlack(n, n, u);
    assert balls[..n] == balls;
    if t > n {
      Mirror(OneMark(n), u);
    }
  }

  /** Two table entries agree on every ring of n places exactly when they are the same or mirror each other. */
  lemma SameColourExactlyWhen(n: nat, a: nat, b: nat)
    requires n > 0 && a < 2 * n && b < 2 * n
    ensures (forall marks :: |marks| == n ==> Average(marks, a) == Average(marks, b)) <==> a == b || a + b == 2 * n
  {
    if a + b == 2 * n {
      forall marks: seq<bool> | |marks| == n ensures Average(marks, a) == Average(marks, b) {
        Mirror(marks, b);
      }
    } else if a != b {
      var marks := OneMark(n);
      OneMarkSum(n, a);
      OneMarkSum(n, b);
      SameQuotient(Sum(Simulate(marks, a)), Sum(Simulate(marks, b)), n);
      assert Average(marks, a) != Average(marks, b);
    }
  }

  lemma SameQuotient(a: int, b: int, n: nat)
    requires n > 0 && a != b
    ensures a as real / n as real != b as real / n as real
  {
  }

  // ----- the table and the step counter -----

  lemma {:induction false} SumFront(x: int, s: seq<int>)
    ensures Sum([x] + s) == x + Sum(s)
    decreases |s|
  {
    if s != [] {
      SumFront(x, s[..|s| - 1]);
      assert ([x] + s)[..|s|] == [x] + s[..|s| - 1];
    } else {
      assert [x] + s == [x] && [x][..0] == [];
    }
  }

  lemma {:induction false} SumOnes(n: nat)
    ensures Sum(seq(n, _ => 1)) == n
  {
    if n > 0 {
      SumOnes(n - 1);
      assert seq(n, _ => 1)[..n - 1] == seq(n - 1, _ => 1);
    }
  }

  /** The colours leaving their places, in order of the places they leave. */
  ghost function Leaving(marks: seq<bool>, balls: seq<int>): (colors: seq<int>)
    requires |marks| == |balls|
    ensures |colors| == |balls|
  {
    seq(|balls|, i requires 0 <= i < |balls| => Turn(marks, i) * balls[i])
  }

  lemma MovedIsRotation(marks: seq<bool>, balls: seq<int>)
    requires |marks| == |balls| > 0
    ensures var c := Leaving(marks, balls);
      && Moved(marks, balls) == [c[|c| - 1]] + c[..|c| - 1]
      && Sum(Moved(marks, balls)) == Sum(c)
  {
    var c := Leaving(marks, balls);
    SumFront(c[|c| - 1], c[..|c| - 1]);
  }

  lemma NextPlace(i: nat, n: nat)
    requires i < n
    ensures (i + 1) % n == if i + 1 < n then i + 1 else 0
  {
  }

  /** One pass of the constructor's inner loop: the next arrangement and its total. */
  method Advance(marks: seq<bool>, balls: seq<int>) returns (next: seq<int>, total: int)
    requires |marks| == |balls| > 0
    ensures next == Moved(marks, balls) && total == Sum(next)
  {
    hide Moved;
    var n := |balls|;
    ghost var c := Leaving(marks, balls);
    next := seq(n, _ => 0);
    total := 0;
    for i := 0 to n
      invariant |next| == n && total == Sum(c[..i])
      invariant forall k :: 0 <= k < i ==> next[if k + 1 < n then k + 1 else 0] == c[k]
    {
      var color := balls[i];
      if marks[i] {
        color := -color;
      }
      assert color == c[i];
      assert c[..i + 1][..i] == c[..i];
      total := total + color;
      NextPlace(i, n);
      next := next[(i + 1) % n := color];
    }
    assert c[..n] == c;
    NextIsMoved(marks, balls, next);
    MovedIsRotation(marks, balls);
  }

  lemma NextIsMoved(marks: seq<bool>, balls: seq<int>, next: seq<int>)
    requires |marks| == |balls| == |next| > 0
    requires forall k :: 0 <= k < |balls| ==> next[if k + 1 < |balls| then k + 1 else 0] == Leaving(marks, balls)[k]
    ensures next == Moved(marks, balls)
  {
    var n, moved := |balls|, Moved(marks, balls);
    forall i | 0 <= i < n ensures next[i] == moved[i] {
      var k := Previous(n, i);
      assert next[if k + 1 < n then k + 1 else 0] == Leaving(marks, balls)[k];
    }
  }

  /** The averages of the first 2N arrangements. */
  method BuildTable(isMarked: seq<bool>) returns (table: seq<real>)
    requires |isMarked| > 0
    ensures |table| == 2 * |isMarked| && forall t :: 0 <= t < |table| ==> table[t] == Average(isMarked, t)
  {
    var n := |isMarked|;
    table := [];
    var total := n;
    var balls := seq(n, _ => 1);
    SumOnes(n);
    for time := 0 to 2 * n
      invariant |table| == time && balls == Simulate(isMarked, time) && total == Sum(balls)
      invariant forall t :: 0 <= t < time ==> table[t] == Average(isMarked, t)
    {
      table := table + [total as real / n as real];
      balls, total := Advance(isMarked, balls);
    }
  }

  class Ring {
    var saved: seq<real>
    var currStep: int
    var period: int
    ghost const marks: seq<bool>
    /** Steps made so far, of either kind; after a negative jump, steps that lead to the same entry. */
    ghost var steps: nat

    ghost predicate Valid()
      reads this
    {
      && |marks| > 0 && period == 2 * |marks| == |saved| && period < 0x8000_0000
      && (forall t :: 0 <= t < period ==> saved[t] == Average(marks, t))
      && 0 <= currStep < period && currStep == steps % period
    }

    constructor (n: int, marked: seq<int>)
      requires 0 < n < 0x4000_0000 && forall m :: m in marked ==> 0 <= m < n
      ensures Valid() && |marks| == n && steps == 0
      ensures forall i :: 0 <= i < n ==> (marks[i] <==> i in marked)
    {
      var isMarked := seq(n, _ => false);
      for k := 0 to |marked|
        invariant |isMarked| == n && forall i :: 0 <= i < n ==> (isMarked[i] <==> i in marked[..k])
      {
        assert marked[k] in marked && marked[..k + 1] == marked[..k] + [marked[k]];
        isMarked := isMarked[marked[k] := true];
      }
      assert marked[..|marked|] == marked;
      var table := BuildTable(isMarked);
      RemainderSmall(0, 2 * n);
      saved, period, currStep, marks, steps := table, 2 * n, 0, isMarked, 0;
    }

    method Step()
      requires Valid()
      modifies this
      ensures Valid() && steps == old(steps) + 1
    {
      RemainderPlus(steps, period, 1);
      currStep := (currStep + 1) % period;
      steps := steps + 1;
    }

    /** Any number of steps at once, in 64-bit unsigned arithmetic. */
    method KStep(k: int)
      requires Valid() && -0x8000_0000_0000_0000 <= k < 0x8000_0000_0000_0000
      modifies this
      ensures Valid() && currStep == Jump(old(currStep), k, period)
      ensures currStep == ((old(currStep) + k) % 0x1_0000_0000_0000_0000) % period
      ensures if k >= 0 then steps == old(steps) + k else steps == currStep
    {
      if k >= 0 {
        RemainderPlus(steps, period, k);
        RemainderSmall(currStep + k, WORD);
        steps := steps + k;
      } else {
        steps := Jump(currStep, k, period);
        RemainderSmall(steps, period);
      }
      currStep := Jump(currStep, k, period);
    }

    /** The average colour, equal to that of a direct simulation of all steps so far. */
    method Color() returns (c: real)
      requires Valid()
      ensures c == Average(marks, steps)
      ensures c * |marks| as real == Sum(Simulate(marks, steps)) as real
      ensures -1.0 <= c <= 1.0
      ensures steps == 0 || (forall i :: 0 <= i < |marks| ==> !marks[i]) ==> c == 1.0
    {
      hide Average, Sum, Simulate;
      AverageTimes(marks, steps);
      ColourRange(marks, steps);
      AverageSuffices(marks, steps);
      c := saved[currStep];
    }
  }

  /** The counter update: a signed step count added to an unsigned word, then reduced. */
  function Jump(curr: int, k: int, period: nat): int
    requires period > 0
  {
    ((curr + k) % WORD) % period
  }

  lemma {:induction false} RemainderTimes(x: int, n: nat, q: nat)
    requires n > 0
    ensures (x - q * n) % n == x % n
    decreases q
  {
    if q > 0 {
      RemainderTimes(x, n, q - 1);
      RemainderMinus(x - (q - 1) * n, n);
      assert x - (q - 1) * n - n == x - q * n;
    }
  }

  lemma RemainderPlus(x: nat, n: nat, y: nat)
    requires n > 0
    ensures (x % n + y) % n == (x + y) % n
  {
    var q := x / n;
    assert x == q * n + x % n;
    RemainderTimes(x + y, n, q);
  }

  /**
   The counter itself is the mathematical remainder exactly when it does not pass below zero,
   or the period divides 2^64 so that wrapping does no harm.
   */
  lemma CounterExactlyWhen(curr: int, k: int, period: nat)
    requires 0 <= curr < period < WORD / 2 && -(WORD / 2) <= k < WORD / 2
    ensures Jump(curr, k, period) == (curr + k) % period <==> curr + k >= 0 || WORD % period == 0
  {
    var x := curr + k;
    if x >= 0 {
      RemainderSmall(x, WORD);
    } else {
      RemainderMinus(x + WORD, WORD);
      RemainderSmall(x + WORD, WORD);
      DivisorShift(x, WORD, period);
    }
  }

  lemma RemainderSum(x: int, y: int, n: nat)
    requires n > 0
    ensures (x % n + y % n) % n == (x + y) % n
  {
    var a, b, c := x / n, y / n, (x % n + y % n) / n;
    assert x == a * n + x % n && y == b * n + y % n && x % n + y % n == c * n + (x % n + y % n) % n;
    var d := (x + y) / n;
    assert x + y == d * n + (x + y) % n;
    assert (a + b + c) * n == a * n + b * n + c * n;
    RemainderUnique(n, d, (x + y) % n, a + b + c, (x % n + y % n) % n);
  }

  lemma ZeroRemainder(a: nat, b: nat, n: nat)
    requires a < n && b < n
    ensures (a + b) % n == 0 <==> a + b == 0 || a + b == n
  {
    if a + b >= n {
      RemainderMinus(a + b, n);
      RemainderSmall(a + b - n, n);
    } else {
      RemainderSmall(a + b, n);
    }
  }

  /**
   After a step count of either sign, the colour is that of the mathematical step, on every
   ring of n places, exactly when the counter does not pass below zero, or the period divides
   2^64, or the entry reached mirrors the right one.
   */
  lemma BackwardExactlyWhen(n: nat, curr: int, k: int)
    requires 0 <= curr < 2 * n < WORD / 2 && -(WORD / 2) <= k < WORD / 2
    ensures (forall marks :: |marks| == n ==>
            Average(marks, Jump(curr, k, 2 * n)) == Average(marks, (curr + k) % (2 * n)))
            <==> curr + k >= 0 || WORD % (2 * n) == 0 || (2 * (curr + k) + WORD) % (2 * n) == 0
  {
    var x, p := curr + k, 2 * n;
    var a, b := Jump(curr, k, p), x % p;
    CounterExactlyWhen(curr, k, p);
    SameColourExactlyWhen(n, a, b);
    if x < 0 {
      RemainderMinus(x + WORD, WORD);
      RemainderSmall(x + WORD, WORD);
      RemainderSum(x + WORD, x, p);
      assert x + WORD + x == 2 * x + WORD;
      ZeroRemainder(a, b, p);
    }
  }

  /** Three places with one mark, one step back from the start: the colour is -1 instead of 1/3. */
  lemma BackwardExample()
    ensures Jump(0, -1, 6) == 3 && (0 - 1) % 6 == 5
    ensures Average(OneMark(3), 3) == -1.0 && Average(OneMark(3), 5) == 1.0 / 3.0
  {
    OneMarkSum(3, 3);
    OneMarkSum(3, 5);
  }

  /** Three places, five steps back: the counter goes to 5 instead of 1, and the colour is right on every ring. */
  lemma MirrorExample(marks: seq<bool>)
    requires |marks| == 3
    ensures Jump(0, -5, 6) == 5 && (0 - 5) % 6 == 1 && Average(marks, 5) == Average(marks, 1)
  {
    Mirror(marks, 1);
  }

  lemma DivisorShift(x: int, w: nat, n: nat)
    requires n > 0
    ensures (x + w) % n == x % n <==> w % n == 0
  {
    var a, b, c := (x + w) / n, x / n, w / n;
    assert x + w == a * n + (x + w) % n && x == b * n + x % n && w == c * n + w % n;
    if (x + w) % n == x % n {
      assert (a - b) * n == w;
      RemainderUnique(n, c, w % n, a - b, 0);
    }
    if w % n == 0 {
      assert (b + c) * n == b * n + c * n;
      RemainderUnique(n, a, (x + w) % n, b + c, x % n);
    }
  }
}
