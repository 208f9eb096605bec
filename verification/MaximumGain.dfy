/**
 Gain from deleting "ab" and "ba" substrings. A play is any legal sequence of single
 deletions; the two stack passes of the greedy are measured against every play.
 */
module MaximumGain {

  /** One deletion: the two characters at `at`, being "ab" or "ba". */
  datatype Move = Move(at: nat, ab: bool)

  function Pair(ab: bool): string { if ab then "ab" else "ba" }

  predicate Legal(s: string, m: Move) {
    m.at + 1 < |s| && s[m.at] == Pair(m.ab)[0] && s[m.at + 1] == Pair(m.ab)[1]
  }

  function Delete(s: string, at: nat): string
    requires at + 1 < |s|
  {
    s[..at] + s[at + 2..]
  }

  predicate LegalPlay(s: string, play: seq<Move>) {
    play == [] || (Legal(s, play[0]) && LegalPlay(Delete(s, play[0].at), play[1..]))
  }

  /** How many moves of the given kind a play makes. */
  function Count(play: seq<Move>, ab: bool): nat {
    if play == [] then 0 else (if play[0].ab == ab then 1 else 0) + Count(play[1..], ab)
  }

  function Gain(play: seq<Move>, x: int, y: int): int {
    if play == [] then 0 else (if play[0].ab then x else y) + Gain(play[1..], x, y)
  }

  // ----- scanning: `p` `q` is the favoured pair -----

  /** Favoured pairs a stack takes from `s` with `j` unmatched `p` already on it. */
  function Greedy(p: char, q: char, j: nat, s: string): nat
    decreases |s|
  {
    if s == [] then 0
    else if s[0] == p then Greedy(p, q, j + 1, s[1..])
    else if s[0] == q then (if j > 0 then 1 + Greedy(p, q, j - 1, s[1..]) else Greedy(p, q, 0, s[1..]))
    else Greedy(p, q, 0, s[1..])
  }

  function Smaller(i: nat, j: nat): nat { if i < j then i else j }

  /** Pairs of either kind that can leave `s`, with `i` unmatched `q` and then `j` unmatched `p` before it. */
  function Total(p: char, q: char, i: nat, j: nat, s: string): nat
    decreases |s|
  {
    if s == [] then Smaller(i, j)
    else if s[0] == p then Total(p, q, i, j + 1, s[1..])
    else if s[0] == q then (if j > 0 then 1 + Total(p, q, i, j - 1, s[1..]) else Total(p, q, i + 1, 0, s[1..]))
    else Smaller(i, j) + Total(p, q, 0, 0, s[1..])
  }

  lemma {:induction false} DeleteFavoured(p: char, q: char, i: nat, j: nat, u: string, v: string)
    requires p != q
    ensures Greedy(p, q, j, u + [p, q] + v) == 1 + Greedy(p, q, j, u + v)
    ensures Total(p, q, i, j, u + [p, q] + v) == 1 + Total(p, q, i, j, u + v)
    decreases |u|
  {
    if u == [] {
      assert u + v == v && (u + [p, q] + v)[1..] == [q] + v && ([q] + v)[1..] == v;
    } else {
      assert (u + [p, q] + v)[1..] == u[1..] + [p, q] + v && (u + v)[1..] == u[1..] + v;
      if u[0] == p {
        DeleteFavoured(p, q, i, j + 1, u[1..], v);
      } else if u[0] == q {
        if j > 0 { DeleteFavoured(p, q, i, j - 1, u[1..], v); } else { DeleteFavoured(p, q, i + 1, 0, u[1..], v); }
      } else {
        DeleteFavoured(p, q, 0, 0, u[1..], v);
      }
    }
  }

  /** One more unmatched letter of each kind is one more pair in all, and at most one more favoured pair. */
  lemma {:induction false} OneMoreOfEach(p: char, q: char, i: nat, j: nat, v: string)
    requires p != q
    ensures Greedy(p, q, j, v) <= Greedy(p, q, j + 1, v) <= 1 + Greedy(p, q, j, v)
    ensures Total(p, q, i + 1, j + 1, v) == 1 + Total(p, q, i, j, v)
    decreases |v|
  {
    if v != [] {
      if v[0] == p {
        OneMoreOfEach(p, q, i, j + 1, v[1..]);
      } else if v[0] == q && j > 0 {
        OneMoreOfEach(p, q, i, j - 1, v[1..]);
      }
    }
  }

  lemma {:induction false} DeleteOther(p: char, q: char, i: nat, j: nat, u: string, v: string)
    requires p != q
    ensures Greedy(p, q, j, u + v) <= Greedy(p, q, j, u + [q, p] + v)
    ensures Total(p, q, i, j, u + [q, p] + v) == 1 + Total(p, q, i, j, u + v)
    decreases |u|
  {
    if u == [] {
      assert u + v == v && (u + [q, p] + v)[1..] == [p] + v && ([p] + v)[1..] == v;
      OneMoreOfEach(p, q, i, j, v);
    } else {
      assert (u + [q, p] + v)[1..] == u[1..] + [q, p] + v && (u + v)[1..] == u[1..] + v;
      if u[0] == p {
        DeleteOther(p, q, i, j + 1, u[1..], v);
      } else if u[0] == q {
        if j > 0 { DeleteOther(p, q, i, j - 1, u[1..], v); } else { DeleteOther(p, q, i + 1, 0, u[1..], v); }
      } else {
        DeleteOther(p, q, 0, 0, u[1..], v);
      }
    }
  }

  /** The two bounds on every play: in all, and of the favoured kind. */
  lemma {:induction false} PlayBounds(abFirst: bool, s: string, play: seq<Move>)
    requires LegalPlay(s, play)
    ensures var pq := Pair(abFirst);
      && Count(play, abFirst) + Count(play, !abFirst) <= Total(pq[0], pq[1], 0, 0, s)
      && Count(play, abFirst) <= Greedy(pq[0], pq[1], 0, s)
    decreases |play|
  {
    if play != [] {
      var pq, m := Pair(abFirst), play[0];
      PlayBounds(abFirst, Delete(s, m.at), play[1..]);
      var u, v := s[..m.at], s[m.at + 2..];
      assert s == u + Pair(m.ab) + v;
      if m.ab == abFirst {
        assert Pair(m.ab) == [pq[0], pq[1]];
        DeleteFavoured(pq[0], pq[1], 0, 0, u, v);
      } else {
        assert Pair(m.ab) == [pq[1], pq[0]];
        DeleteOther(pq[0], pq[1], 0, 0, u, v);
      }
    }
  }

  lemma {:induction false} GainByCount(play: seq<Move>, x: int, y: int)
    ensures Gain(play, x, y) == Count(play, true) * x + Count(play, false) * y
  {
    if play != [] {
      GainByCount(play[1..], x, y);
    }
  }

  // ----- strings without a favoured pair -----

  predicate Free(p: char, q: char, s: string) {
    forall k :: 0 <= k < |s| - 1 ==> !(s[k] == p && s[k + 1] == q)
  }

  lemma {:induction false} FreeHasNone(p: char, q: char, j: nat, s: string)
    requires p != q && Free(p, q, s) && (j > 0 && s != [] ==> s[0] != q)
    ensures Greedy(p, q, j, s) == 0
    decreases |s|
  {
    if s != [] {
      assert Free(p, q, s[1..]);
      FreeHasNone(p, q, if s[0] == p then j + 1 else 0, s[1..]);
    }
  }

  /** Once no favoured pair is left, the other stack pass takes every remaining pair. */
  lemma {:induction false} SecondPassTakesAll(p: char, q: char, i: nat, j: nat, s: string)
    requires p != q && Free(p, q, s) && (j > 0 && s != [] ==> s[0] != q)
    ensures Total(p, q, i, j, s) == Smaller(i, j) + Greedy(q, p, if i > j then i - j else 0, s)
    decreases |s|
  {
    if s != [] {
      assert Free(p, q, s[1..]);
      if s[0] == p {
        SecondPassTakesAll(p, q, i, j + 1, s[1..]);
      } else if s[0] == q {
        SecondPassTakesAll(p, q, i + 1, 0, s[1..]);
      } else {
        SecondPassTakesAll(p, q, 0, 0, s[1..]);
      }
    }
  }

  /** Deletes favoured pairs, in any order, until none is left. */
  lemma {:induction false} ExhaustPair(ab: bool, s: string) returns (play: seq<Move>, rest: string)
    ensures LegalPlay(s, play) && rest == Result(s, play)
    ensures var pq := Pair(ab);
      && Count(play, ab) == |play| == Greedy(pq[0], pq[1], 0, s) && Count(play, !ab) == 0
      && Free(pq[0], pq[1], rest)
      && Total(pq[0], pq[1], 0, 0, rest) + Greedy(pq[0], pq[1], 0, s) == Total(pq[0], pq[1], 0, 0, s)
    decreases |s|
  {
    var pq := Pair(ab);
    if k :| 0 <= k < |s| - 1 && s[k] == pq[0] && s[k + 1] == pq[1] {
      var tail;
      tail, rest := ExhaustPair(ab, Delete(s, k));
      play := [Move(k, ab)] + tail;
      assert play[1..] == tail;
      assert s == s[..k] + [pq[0], pq[1]] + s[k + 2..];
      DeleteFavoured(pq[0], pq[1], 0, 0, s[..k], s[k + 2..]);
    } else {
      play, rest := [], s;
      FreeHasNone(pq[0], pq[1], 0, s);
    }
  }

  function Result(s: string, play: seq<Move>): string
    requires LegalPlay(s, play)
  {
    if play == [] then s else Result(Delete(s, play[0].at), play[1..])
  }

  lemma {:induction false} PlayOn(s: string, a: seq<Move>, b: seq<Move>)
    requires LegalPlay(s, a) && LegalPlay(Result(s, a), b)
    ensures LegalPlay(s, a + b)
    ensures forall ab :: Count(a + b, ab) == Count(a, ab) + Count(b, ab)
  {
    if a == [] {
      assert a + b == b;
    } else {
      assert (a + b)[1..] == a[1..] + b;
      PlayOn(Delete(s, a[0].at), a[1..], b);
    }
  }

  // ----- the greedy value and the optimum -----

  function Favoured(ab: bool, s: string): nat { Greedy(Pair(ab)[0], Pair(ab)[1], 0, s) }
  function AllPairs(ab: bool, s: string): nat { Total(Pair(ab)[0], Pair(ab)[1], 0, 0, s) }

  /** What the two passes earn, "ab" first exactly when it is worth more. */
  function GreedyGain(s: string, x: int, y: int): int {
    var ab := x > y;
    Favoured(ab, s) * (if ab then x else y) + (AllPairs(ab, s) - Favoured(ab, s)) * (if ab then y else x)
  }

  ghost predicate IsBest(s: string, x: int, y: int, gain: int) {
    && (exists play :: LegalPlay(s, play) && Gain(play, x, y) == gain)
    && (forall play :: LegalPlay(s, play) ==> Gain(play, x, y) <= gain)
  }

  /** The greedy's own play, and the one that stops after the first pass. */
  lemma GreedyPlays(ab: bool, s: string) returns (first: seq<Move>, both: seq<Move>)
    ensures LegalPlay(s, first) && Count(first, ab) == Favoured(ab, s) && Count(first, !ab) == 0
    ensures LegalPlay(s, both) && Count(both, ab) == Favoured(ab, s)
            && Count(both, !ab) == AllPairs(ab, s) - Favoured(ab, s)
  {
    var rest, second, left;
    first, rest := ExhaustPair(ab, s);
    second, left := ExhaustPair(!ab, rest);
    var pq := Pair(ab);
    SecondPassTakesAll(pq[0], pq[1], 0, 0, rest);
    PlayOn(s, first, second);
    both := first + second;
  }

  lemma WeightedBound(n: int, m: int, g: int, t: int, hi: int, lo: int)
    requires 0 <= n <= g && 0 <= m && n + m <= t && hi >= lo >= 0
    ensures n * hi + m * lo <= g * hi + (t - g) * lo
  {
  }

  /** For non-negative prices no play earns more than the two passes. */
  lemma NoPlayBeatsGreedy(s: string, x: int, y: int, play: seq<Move>)
    requires x >= 0 && y >= 0 && LegalPlay(s, play)
    ensures Gain(play, x, y) <= GreedyGain(s, x, y)
  {
    var ab := x > y;
    PlayBounds(ab, s, play);
    GainByCount(play, x, y);
    WeightedBound(Count(play, ab), Count(play, !ab), Favoured(ab, s), AllPairs(ab, s),
                  if ab then x else y, if ab then y else x);
  }

  lemma GreedyPlay(s: string, x: int, y: int) returns (play: seq<Move>)
    ensures LegalPlay(s, play) && Gain(play, x, y) == GreedyGain(s, x, y)
  {
    var first;
    first, play := GreedyPlays(x > y, s);
    GainByCount(play, x, y);
  }

  lemma GreedyIsBest(s: string, x: int, y: int)
    requires x >= 0 && y >= 0
    ensures IsBest(s, x, y, GreedyGain(s, x, y))
  {
    forall play | LegalPlay(s, play) ensures Gain(play, x, y) <= GreedyGain(s, x, y) {
      NoPlayBeatsGreedy(s, x, y, play);
    }
    var play := GreedyPlay(s, x, y);
  }

  /** The second pass has nothing to take, or nothing can be deleted at all. */
  ghost predicate SecondPassIdle(s: string, x: int, y: int) {
    var ab := x > y;
    ((if ab then x else y) >= 0 && Favoured(ab, s) == AllPairs(ab, s)) || AllPairs(ab, s) == 0
  }

  lemma NoMove(s: string, x: int, y: int)
    ensures LegalPlay(s, []) && Gain([], x, y) == 0
  {
  }

  /** Doing nothing, or stopping after the first pass, earns more. */
  lemma BetterPlay(s: string, x: int, y: int) returns (play: seq<Move>)
    requires (x < 0 || y < 0) && !SecondPassIdle(s, x, y)
    ensures LegalPlay(s, play) && Gain(play, x, y) > GreedyGain(s, x, y)
  {
    hide Greedy, Total, Count, Gain, LegalPlay;
    play := [];
    NoMove(s, x, y);
    var ab := x > y;
    var first, both := GreedyPlays(ab, s);
    GainByCount(first, x, y);
    NegativeLoss(Favoured(ab, s), AllPairs(ab, s), if ab then x else y, if ab then y else x);
    if (if ab then x else y) >= 0 {
      play := first;
    }
  }

  lemma NoBetterPlay(s: string, x: int, y: int, play: seq<Move>)
    requires (x < 0 || y < 0) && SecondPassIdle(s, x, y) && LegalPlay(s, play)
    ensures Gain(play, x, y) <= GreedyGain(s, x, y)
  {
    hide Greedy, Total, Count, Gain, LegalPlay;
    var ab := x > y;
    var first, both := GreedyPlays(ab, s);
    PlayBounds(ab, s, play);
    GainByCount(play, x, y);
    var hi, lo := if ab then x else y, if ab then y else x;
    NegativeLesser(Count(play, ab), Count(play, !ab), Favoured(ab, s), AllPairs(ab, s), hi, lo);
  }

  lemma GreedyWithNegativePrice(s: string, x: int, y: int)
    requires x < 0 || y < 0
    ensures IsBest(s, x, y, GreedyGain(s, x, y)) <==> SecondPassIdle(s, x, y)
  {
    hide GreedyGain, SecondPassIdle, Gain, LegalPlay;
    if SecondPassIdle(s, x, y) {
      forall play | LegalPlay(s, play) ensures Gain(play, x, y) <= GreedyGain(s, x, y) {
        NoBetterPlay(s, x, y, play);
      }
      var both := GreedyPlay(s, x, y);
    } else {
      var play := BetterPlay(s, x, y);
    }
  }

  /**
   For any prices at all: the two passes earn the best possible gain exactly when no price is
   negative, or the second pass has nothing to take and the first costs nothing, or there is
   nothing to delete.
   */
  lemma GreedyIsBestExactlyWhen(s: string, x: int, y: int)
    ensures IsBest(s, x, y, GreedyGain(s, x, y)) <==> (x >= 0 && y >= 0) || SecondPassIdle(s, x, y)
  {
    if x >= 0 && y >= 0 {
      GreedyIsBest(s, x, y);
    } else {
      GreedyWithNegativePrice(s, x, y);
    }
  }

  /** A pair is somewhere in the string exactly when one can be deleted at all. */
  lemma NothingToDelete(ab: bool, s: string)
    ensures AllPairs(ab, s) == 0 <==> Free('a', 'b', s) && Free('b', 'a', s)
  {
    hide Greedy, Total;
    var p, q := Pair(ab)[0], Pair(ab)[1];
    if k :| 0 <= k < |s| - 1 && s[k] == p && s[k + 1] == q {
      assert s == s[..k] + [p, q] + s[k + 2..];
      DeleteFavoured(p, q, 0, 0, s[..k], s[k + 2..]);
    } else if k :| 0 <= k < |s| - 1 && s[k] == q && s[k + 1] == p {
      assert s == s[..k] + [q, p] + s[k + 2..];
      DeleteOther(p, q, 0, 0, s[..k], s[k + 2..]);
    } else {
      SecondPassTakesAll(p, q, 0, 0, s);
      FreeHasNone(q, p, 0, s);
    }
  }

  lemma {:induction false} FavouredPlay(ab: bool, s: string, play: seq<Move>)
    requires LegalPlay(s, play) && Count(play, !ab) == 0
    ensures Favoured(ab, s) == |play| + Favoured(ab, Result(s, play))
    ensures AllPairs(ab, s) == |play| + AllPairs(ab, Result(s, play))
    decreases |play|
  {
    if play != [] {
      var p, q, k := Pair(ab)[0], Pair(ab)[1], play[0].at;
      assert s == s[..k] + [p, q] + s[k + 2..];
      DeleteFavoured(p, q, 0, 0, s[..k], s[k + 2..]);
      FavouredPlay(ab, Delete(s, k), play[1..]);
    }
  }

  /**
   Delete favoured pairs, in any order, until none is left: the counts agree exactly when no pair of the
   other kind is left either.
   */
  lemma IdleMeans(ab: bool, s: string, play: seq<Move>)
    requires LegalPlay(s, play) && Count(play, !ab) == 0 && Free(Pair(ab)[0], Pair(ab)[1], Result(s, play))
    ensures Favoured(ab, s) == AllPairs(ab, s) <==> Free(Pair(!ab)[0], Pair(!ab)[1], Result(s, play))
  {
    var rest := Result(s, play);
    FavouredPlay(ab, s, play);
    FreeHasNone(Pair(ab)[0], Pair(ab)[1], 0, rest);
    NothingToDelete(ab, rest);
  }

  // ----- the same conditions, read off the letters -----

  predicate Letter(c: char) { c == 'a' || c == 'b' }

  /** How many more `p` than other letters. */
  function Tilt(p: char, r: string): int {
    if r == [] then 0 else (if r[0] == p then 1 else -1) + Tilt(p, r[1..])
  }

  /** lo..hi is a longest stretch of a's and b's. */
  predicate Run(s: string, lo: nat, hi: nat) {
    && lo <= hi <= |s| && (forall k :: lo <= k < hi ==> Letter(s[k]))
    && (lo == 0 || !Letter(s[lo - 1])) && (hi == |s| || !Letter(s[hi]))
  }

  /** Some prefix has fewer `p` than other letters, and some suffix has more. */
  ghost predicate Mixed(p: char, r: string) {
    && (exists k :: 0 <= k <= |r| && Tilt(p, r[..k]) < 0)
    && (exists k :: 0 <= k <= |r| && Tilt(p, r[k..]) > 0)
  }

  /** Unmatched `q` and `p` after a stretch. */
  function Unmatched(p: char, i: nat, j: nat, r: string): (nat, nat)
    decreases |r|
  {
    if r == [] then (i, j)
    else if r[0] == p then Unmatched(p, i, j + 1, r[1..])
    else if j > 0 then Unmatched(p, i, j - 1, r[1..])
    else Unmatched(p, i + 1, 0, r[1..])
  }

  lemma {:induction false} UnmatchedOther(p: char, i: nat, j: nat, r: string)
    ensures Unmatched(p, i, j, r).0 > 0 <==> i > 0 || exists k :: 0 <= k <= |r| && j + Tilt(p, r[..k]) < 0
    decreases |r|
  {
    if r != [] {
      var rest := r[1..];
      assert forall k :: 0 < k <= |r| ==> r[..k][1..] == rest[..k - 1];
      if r[0] == p {
        UnmatchedOther(p, i, j + 1, rest);
      } else if j > 0 {
        UnmatchedOther(p, i, j - 1, rest);
      } else {
        UnmatchedOther(p, i + 1, 0, rest);
        assert r[..1][1..] == [] && Tilt(p, r[..1]) == -1;
      }
      if k :| 0 <= k <= |rest| && (j + if r[0] == p then 1 else -1) + Tilt(p, rest[..k]) < 0 {
        assert r[..k + 1][1..] == rest[..k] && j + Tilt(p, r[..k + 1]) < 0;
      }
    }
  }

  lemma {:induction false} UnmatchedSame(p: char, i: nat, j: nat, r: string)
    ensures Unmatched(p, i, j, r).1 > 0 <==> j + Tilt(p, r) > 0 || exists k :: 0 <= k <= |r| && Tilt(p, r[k..]) > 0
    decreases |r|
  {
    if r == [] {
      assert r[0..] == r;
    } else {
      var rest := r[1..];
      assert rest[0..] == rest && r[0..] == r;
      assert forall k :: 0 < k <= |r| ==> r[k..] == rest[k - 1..];
      if r[0] == p {
        UnmatchedSame(p, i, j + 1, rest);
      } else if j > 0 {
        UnmatchedSame(p, i, j - 1, rest);
      } else {
        UnmatchedSame(p, i + 1, 0, rest);
        assert r[1..] == rest;
      }
      if k :| 0 <= k <= |rest| && Tilt(p, rest[k..]) > 0 {
        assert r[k + 1..] == rest[k..];
      }
    }
  }

  /** A stretch leaves to the second pass what stays unmatched on both sides. */
  lemma {:induction false} StretchLeaves(p: char, q: char, i: nat, j: nat, r: string, w: string)
    requires {p, q} == {'a', 'b'} && (forall k :: 0 <= k < |r| ==> Letter(r[k])) && (w != [] ==> !Letter(w[0]))
    ensures var u, w' := Unmatched(p, i, j, r), if w == [] then [] else w[1..];
      Total(p, q, i, j, r + w) - Greedy(p, q, j, r + w) ==
          Smaller(u.0, u.1) + Total(p, q, 0, 0, w') - Greedy(p, q, 0, w')
    decreases |r|
  {
    if r == [] {
      assert r + w == w && p in {p, q} && q in {p, q};
    } else {
      assert (r + w)[1..] == r[1..] + w && r[0] in {p, q} && p in {p, q} && q in {p, q};
      if r[0] == p {
        StretchLeaves(p, q, i, j + 1, r[1..], w);
      } else if j > 0 {
        StretchLeaves(p, q, i, j - 1, r[1..], w);
      } else {
        StretchLeaves(p, q, i + 1, 0, r[1..], w);
      }
    }
  }

  lemma {:induction false} RunFrom(s: string, lo: nat, from: nat) returns (hi: nat)
    requires lo <= from <= |s| && (lo == 0 || !Letter(s[lo - 1])) && forall k :: lo <= k < from ==> Letter(s[k])
    ensures from <= hi && Run(s, lo, hi)
    decreases |s| - from
  {
    if from < |s| && Letter(s[from]) { hi := RunFrom(s, lo, from + 1); } else { hi := from; }
  }

  lemma {:induction false} IdleFrom(p: char, q: char, s: string, from: nat)
    requires {p, q} == {'a', 'b'} && from <= |s| && (from == 0 || !Letter(s[from - 1]))
    ensures Greedy(p, q, 0, s[from..]) <= Total(p, q, 0, 0, s[from..])
    ensures Greedy(p, q, 0, s[from..]) == Total(p, q, 0, 0, s[from..]) <==>
            forall lo: nat, hi: nat :: from <= lo && Run(s, lo, hi) ==> !Mixed(p, s[lo..hi])
    decreases |s| - from
  {
    hide Mixed, Greedy, Total;
    var end := RunFrom(s, from, from);
    var r, w := s[from..end], s[end..];
    assert s[from..] == r + w;
    StretchLeaves(p, q, 0, 0, r, w);
    MixedMeans(p, r);
    assert forall hi :: Run(s, from, hi) ==> hi == end;
    if w == [] {
      assert end == |s| && forall lo: nat, hi: nat :: from <= lo && Run(s, lo, hi) ==> lo == from || lo == hi;
      NoneMixed(p);
      assert forall lo: nat :: lo <= |s| ==> s[lo..lo] == [];
      NothingGreedy(p, q);
    } else {
      assert w[1..] == s[end + 1..];
      IdleFrom(p, q, s, end + 1);
      assert forall lo: nat, hi: nat :: from < lo && Run(s, lo, hi) ==> end + 1 <= lo;
    }
  }

  lemma NothingGreedy(p: char, q: char)
    ensures Greedy(p, q, 0, []) == 0 == Total(p, q, 0, 0, [])
  {
  }

  lemma NoneMixed(p: char)
    ensures !Mixed(p, [])
  {
  }

  lemma MixedMeans(p: char, r: string)
    ensures Mixed(p, r) <==> Unmatched(p, 0, 0, r).0 > 0 && Unmatched(p, 0, 0, r).1 > 0
  {
    UnmatchedOther(p, 0, 0, r);
    UnmatchedSame(p, 0, 0, r);
    assert r[0..] == r;
  }

  /**
   No stretch of a's and b's has both a prefix tilted against the favoured pair and a suffix tilted for
   it; or there is no pair at all.
   */
  ghost predicate NothingToTake(s: string, x: int, y: int) {
    || ((x >= 0 || y >= 0) && forall lo: nat, hi: nat :: Run(s, lo, hi) ==>
        !Mixed(if x > y then 'a' else 'b', s[lo..hi]))
    || (Free('a', 'b', s) && Free('b', 'a', s))
  }

  /** The exact condition on the letters of the input and the prices alone. */
  lemma GreedyIsBestInLetters(s: string, x: int, y: int)
    ensures IsBest(s, x, y, GreedyGain(s, x, y)) <==> (x >= 0 && y >= 0) || NothingToTake(s, x, y)
  {
    hide Greedy, Total, Mixed, Run, IsBest;
    var ab := x > y;
    GreedyIsBestExactlyWhen(s, x, y);
    NothingToDelete(ab, s);
    assert s[0..] == s;
    IdleFrom(Pair(ab)[0], Pair(ab)[1], s, 0);
  }

  /** Each pair pays its own price. */
  lemma PricesOfPairs(x: int, y: int)
    ensures GreedyGain("ab", x, y) == x && GreedyGain("ba", x, y) == y
    ensures LegalPlay("ab", [Move(0, true)]) && Gain([Move(0, true)], x, y) == x
    ensures LegalPlay("ba", [Move(0, false)]) && Gain([Move(0, false)], x, y) == y
  {
    assert "ab"[1..] == "b" && "b"[1..] == "" && "ba"[1..] == "a" && "a"[1..] == "";
    assert [Move(0, true)][1..] == [] && [Move(0, false)][1..] == [];
  }

  /** The smallest failure: deleting "ab" at a price of -1, where doing nothing earns more. */
  lemma NegativeExample()
    ensures GreedyGain("ab", -1, -1) == -1 && !IsBest("ab", -1, -1, GreedyGain("ab", -1, -1))
  {
    assert "ab"[1..] == "b" && "b"[1..] == "";
    assert LegalPlay("ab", []) && Gain([], -1, -1) == 0;
  }

  lemma NegativeLesser(n: int, m: int, g: int, t: int, hi: int, lo: int)
    requires 0 <= n <= g <= t && 0 <= m && n + m <= t && lo < 0 && lo <= hi
    requires t == 0 || (hi >= 0 && g == t)
    ensures n * hi + m * lo <= g * hi + (t - g) * lo
  {
  }

  lemma NegativeLoss(g: int, t: int, hi: int, lo: int)
    requires 0 <= g <= t && lo < 0 && lo <= hi && t > 0 && !(hi >= 0 && g == t)
    ensures g * hi + (t - g) * lo < if hi < 0 then 0 else g * hi
  {
  }

  /** Pairs take two letters each. */
  lemma {:induction false} PairsFit(p: char, q: char, i: nat, j: nat, s: string)
    requires p != q
    ensures Greedy(p, q, j, s) <= Total(p, q, i, j, s)
    ensures 2 * Total(p, q, i, j, s) <= i + j + |s|
    decreases |s|
  {
    if s != [] {
      if s[0] == p {
        PairsFit(p, q, i, j + 1, s[1..]);
      } else if s[0] == q {
        if j > 0 { PairsFit(p, q, i, j - 1, s[1..]); } else { PairsFit(p, q, i + 1, 0, s[1..]); }
      } else {
        PairsFit(p, q, 0, 0, s[1..]);
      }
    }
  }

  /** The gain stays within half the length times the larger price, which tells when it fits an int. */
  lemma GainBounded(s: string, x: int, y: int)
    requires x >= 0 && y >= 0
    ensures 0 <= 2 * GreedyGain(s, x, y) <= |s| * (if x > y then x else y)
  {
    hide Greedy, Total;
    var ab := x > y;
    PairsFit(Pair(ab)[0], Pair(ab)[1], 0, 0, s);
    HalfTheLength(Favoured(ab, s), AllPairs(ab, s), |s|, if ab then x else y, if ab then y else x);
  }

  lemma HalfTheLength(g: int, t: int, n: int, hi: int, lo: int)
    requires 0 <= g <= t && 2 * t <= n && 0 <= lo <= hi
    ensures 0 <= 2 * (g * hi + (t - g) * lo) <= n * hi
  {
    assert (t - g) * lo <= (t - g) * hi;
    assert g * hi + (t - g) * hi == t * hi;
    assert (2 * t) * hi <= n * hi;
  }

  // ----- the code -----

  /** One stack pass: how many favoured pairs it took, and what it leaves. */
  method RemoveSubstring(str: string, substring: string) returns (stack: string, numRemoved: nat)
    requires |substring| == 2 && substring[0] != substring[1] && substring[0] != '?'
    ensures numRemoved == Greedy(substring[0], substring[1], 0, str)
    ensures Free(substring[0], substring[1], stack)
    ensures Total(substring[0], substring[1], 0, 0, stack) + numRemoved == Total(substring[0], substring[1], 0, 0, str)
  {
    hide Greedy, Total;
    numRemoved, stack := 0, [];
    ghost var p, q := substring[0], substring[1];
    assert [] + str == str;
    for n := 0 to |str|
      invariant Free(p, q, stack)
      invariant Greedy(p, q, 0, stack + str[n..]) + numRemoved == Greedy(p, q, 0, str)
      invariant Total(p, q, 0, 0, stack + str[n..]) + numRemoved == Total(p, q, 0, 0, str)
    {
      var c := str[n];
      assert stack + str[n..] == stack + [c] + str[n + 1..];
      if c == substring[1] {
        var peek := if stack != [] then stack[|stack| - 1] else '?';
        if peek == substring[0] {
          var u := stack[..|stack| - 1];
          assert stack + [c] + str[n + 1..] == u + [p, q] + str[n + 1..];
          DeleteFavoured(p, q, 0, 0, u, str[n + 1..]);
          numRemoved := numRemoved + 1;
          stack := u;
        } else {
          stack := stack + [c];
        }
      } else {
        stack := stack + [c];
      }
    }
    assert stack + str[|str|..] == stack;
    FreeHasNone(p, q, 0, stack);
  }

  /** Two ordered passes; the best total over every sequence of deletions when prices are not negative. */
  method MaximumGain(s: string, x: int, y: int) returns (gain: int)
    ensures gain == GreedyGain(s, x, y)
    ensures x >= 0 && y >= 0 ==> IsBest(s, x, y, gain)
  {
    if x >= 0 && y >= 0 {
      GreedyIsBest(s, x, y);
    }
    if x > y {
      var rest, n := RemoveSubstring(s, "ab");
      var rest', m := RemoveSubstring(rest, "ba");
      SecondPassTakesAll('a', 'b', 0, 0, rest);
      return n * x + m * y;
    }
    var rest, n := RemoveSubstring(s, "ba");
    var rest', m := RemoveSubstring(rest, "ab");
    SecondPassTakesAll('b', 'a', 0, 0, rest);
    gain := n * y + m * x;
  }
}
