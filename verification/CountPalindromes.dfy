/**
 Counting length-5 palindromic subsequences of a digit string with prefix and suffix
 tables of digit pairs, in 32-bit and 64-bit machine integers.
 */
module CountPalindromes {

  newtype int32 = x: int | -0x8000_0000 <= x < 0x8000_0000
  newtype int64 = x: int | -0x8000_0000_0000_0000 <= x < 0x8000_0000_0000_0000

  const MOD: int := 1_000_000_007

  /** The index tuples to count: i < j < k < l < m, with equal outer and equal inner digits. */
  datatype Five = Five(i: int, j: int, k: int, l: int, m: int)

  ghost predicate Palindrome(s: seq<int>, t: Five) {
    0 <= t.i < t.j < t.k < t.l < t.m < |s| && s[t.i] == s[t.m] && s[t.j] == s[t.l]
  }

  ghost function Palindromes(s: seq<int>): set<Five> {
    set i, j, k, l, m | 0 <= i < |s| && 0 <= j < |s| && 0 <= k < |s| && 0 <= l < |s| && 0 <= m < |s|
                        && Palindrome(s, Five(i, j, k, l, m)) :: Five(i, j, k, l, m)
  }

  ghost predicate Digits(s: seq<int>) { forall i :: 0 <= i < |s| ==> 0 <= s[i] < 10 }

  // ----- counting functions -----

  /** Occurrences of digit `d` at positions lo..hi - 1. */
  ghost function Occurs(s: seq<int>, d: int, lo: int, hi: int): nat
    requires 0 <= lo <= hi <= |s|
    decreases hi - lo
  {
    if lo == hi then 0 else Occurs(s, d, lo, hi - 1) + if s[hi - 1] == d then 1 else 0
  }

  /** Pairs p < q < i with digits a, b. */
  ghost function PairsBefore(s: seq<int>, i: int, a: int, b: int): nat
    requires 0 <= i <= |s|
    decreases i
  {
    if i == 0 then 0 else PairsBefore(s, i - 1, a, b) + if s[i - 1] == b then Occurs(s, a, 0, i - 1) else 0
  }

  /** Pairs i <= p < q with digits b, a. */
  ghost function PairsFrom(s: seq<int>, i: int, a: int, b: int): nat
    requires 0 <= i <= |s|
    decreases |s| - i
  {
    if i == |s| then 0 else PairsFrom(s, i + 1, a, b) + if s[i] == b then Occurs(s, a, i + 1, |s|) else 0
  }

  /** Tuples with middle `k` whose outer and inner digits a, b have 10 a + b below `c`. */
  ghost function AtMiddle(s: seq<int>, k: int, c: int): nat
    requires 0 <= k < |s| && 0 <= c
    decreases c
  {
    if c == 0 then 0
    else
      AtMiddle(s, k, c - 1) +
      PairsBefore(s, k, (c - 1) / 10, (c - 1) % 10) * PairsFrom(s, k + 1, (c - 1) / 10, (c - 1) % 10)
  }

  /** There are a hundred pairs of digits. */
  const CODES: int := 100

  /** Tuples with their middle before `k`. */
  ghost function UpToMiddle(s: seq<int>, k: int): nat
    requires 0 <= k <= |s|
    decreases k
  {
    if k == 0 then 0 else UpToMiddle(s, k - 1) + AtMiddle(s, k - 1, CODES)
  }

  // ----- they count what they say -----

  ghost function Image<A(!new), B(!new)>(a: set<A>, f: A -> B): set<B> { set x | x in a :: f(x) }

  lemma {:induction false} ImageSize<A(!new), B(!new)>(a: set<A>, f: A -> B)
    requires forall x, y :: x in a && y in a && f(x) == f(y) ==> x == y
    ensures |Image(a, f)| == |a|
  {
    if a != {} {
      var x :| x in a;
      ImageSize(a - {x}, f);
      assert Image(a, f) == Image(a - {x}, f) + {f(x)} && f(x) !in Image(a - {x}, f);
    }
  }

  ghost function Product<A(!new), B(!new)>(a: set<A>, b: set<B>): set<(A, B)> { set x, y | x in a && y in b :: (x, y) }

  lemma {:induction false} ProductSize<A(!new), B(!new)>(a: set<A>, b: set<B>)
    ensures |Product(a, b)| == |a| * |b|
  {
    if a != {} {
      var x :| x in a;
      ProductSize(a - {x}, b);
      var row := Image(b, (y: B) => (x, y));
      ImageSize(b, (y: B) => (x, y));
      assert Product(a, b) == Product(a - {x}, b) + row && Product(a - {x}, b) !! row;
      assert |a - {x}| == |a| - 1;
      assert (|a| - 1) * |b| + |b| == |a| * |b|;
    } else {
      assert Product(a, b) == {};
    }
  }

  ghost function Places(s: seq<int>, d: int, lo: int, hi: int): set<int>
    requires 0 <= lo <= hi <= |s|
  {
    set p | lo <= p < hi && s[p] == d
  }

  lemma {:induction false} OccursCounts(s: seq<int>, d: int, lo: int, hi: int)
    requires 0 <= lo <= hi <= |s|
    ensures |Places(s, d, lo, hi)| == Occurs(s, d, lo, hi)
    decreases hi - lo
  {
    if lo < hi {
      OccursCounts(s, d, lo, hi - 1);
      assert Places(s, d, lo, hi) == Places(s, d, lo, hi - 1) + if s[hi - 1] == d then {hi - 1} else {};
    } else {
      assert Places(s, d, lo, hi) == {};
    }
  }

  ghost function BeforeSet(s: seq<int>, i: int, a: int, b: int): set<(int, int)>
    requires 0 <= i <= |s|
  {
    set p, q | 0 <= p < i && 0 <= q < i && p < q && s[p] == a && s[q] == b :: (p, q)
  }

  ghost function FromSet(s: seq<int>, i: int, a: int, b: int): set<(int, int)>
    requires 0 <= i <= |s|
  {
    set p, q | i <= p < |s| && i <= q < |s| && p < q && s[p] == b && s[q] == a :: (p, q)
  }

  lemma InBefore(s: seq<int>, i: int, a: int, b: int, x: (int, int))
    requires 0 <= i <= |s|
    ensures x in BeforeSet(s, i, a, b) <==> 0 <= x.0 < x.1 < i && s[x.0] == a && s[x.1] == b
  {
  }

  lemma InFrom(s: seq<int>, i: int, a: int, b: int, x: (int, int))
    requires 0 <= i <= |s|
    ensures x in FromSet(s, i, a, b) <==> i <= x.0 < x.1 < |s| && s[x.0] == b && s[x.1] == a
  {
  }

  /** The pairs made of a place in `places` and one fixed end. */
  ghost function Ending(places: set<int>, q: int): set<(int, int)> { Image(places, (p: int) => (p, q)) }
  ghost function Starting(places: set<int>, p: int): set<(int, int)> { Image(places, (q: int) => (p, q)) }

  lemma EndingFacts(places: set<int>, q: int)
    ensures |Ending(places, q)| == |places|
    ensures forall x :: x in Ending(places, q) <==> x.1 == q && x.0 in places
  {
    ImageSize(places, (p: int) => (p, q));
    forall x: (int, int) | x.1 == q && x.0 in places ensures x in Ending(places, q) {
      assert x == (x.0, q);
    }
  }

  lemma StartingFacts(places: set<int>, p: int)
    ensures |Starting(places, p)| == |places|
    ensures forall x :: x in Starting(places, p) <==> x.0 == p && x.1 in places
  {
    ImageSize(places, (q: int) => (p, q));
    forall x: (int, int) | x.0 == p && x.1 in places ensures x in Starting(places, p) {
      assert x == (p, x.1);
    }
  }

  lemma DisjointUnion<T>(whole: set<T>, a: set<T>, b: set<T>)
    requires forall x :: x in whole <==> x in a || x in b
    requires forall x :: x in a ==> x !in b
    ensures |whole| == |a| + |b|
  {
    assert whole == a + b && a !! b;
  }

  lemma {:induction false} BeforeCounts(s: seq<int>, i: int, a: int, b: int)
    requires 0 <= i <= |s|
    ensures |BeforeSet(s, i, a, b)| == PairsBefore(s, i, a, b)
    decreases i
  {
    if i > 0 {
      BeforeCounts(s, i - 1, a, b);
      var places := Places(s, a, 0, i - 1);
      OccursCounts(s, a, 0, i - 1);
      EndingFacts(places, i - 1);
      var last := if s[i - 1] == b then Ending(places, i - 1) else {};
      forall x ensures x in BeforeSet(s, i, a, b) <==> x in BeforeSet(s, i - 1, a, b) || x in last
               ensures x in BeforeSet(s, i - 1, a, b) ==> x !in last
      {
        InBefore(s, i, a, b, x);
        InBefore(s, i - 1, a, b, x);
      }
      hide BeforeSet, Ending, Places;
      DisjointUnion(BeforeSet(s, i, a, b), BeforeSet(s, i - 1, a, b), last);
    } else {
      assert BeforeSet(s, i, a, b) == {};
    }
  }

  lemma {:induction false} FromCounts(s: seq<int>, i: int, a: int, b: int)
    requires 0 <= i <= |s|
    ensures |FromSet(s, i, a, b)| == PairsFrom(s, i, a, b)
    decreases |s| - i
  {
    if i < |s| {
      FromCounts(s, i + 1, a, b);
      var places := Places(s, a, i + 1, |s|);
      OccursCounts(s, a, i + 1, |s|);
      StartingFacts(places, i);
      var first := if s[i] == b then Starting(places, i) else {};
      forall x ensures x in FromSet(s, i, a, b) <==> x in FromSet(s, i + 1, a, b) || x in first
               ensures x in FromSet(s, i + 1, a, b) ==> x !in first
      {
        InFrom(s, i, a, b, x);
        InFrom(s, i + 1, a, b, x);
      }
      hide FromSet, Starting, Places;
      DisjointUnion(FromSet(s, i, a, b), FromSet(s, i + 1, a, b), first);
    } else {
      assert FromSet(s, i, a, b) == {};
    }
  }

  lemma InPalindromes(s: seq<int>, t: Five)
    ensures t in Palindromes(s) <==> Palindrome(s, t)
  {
  }

  ghost function Code(s: seq<int>, t: Five): int
    requires Palindrome(s, t)
  {
    10 * s[t.i] + s[t.j]
  }

  ghost function AtSet(s: seq<int>, k: int, c: int): set<Five> {
    set t | t in Palindromes(s) && Palindrome(s, t) && t.k == k && Code(s, t) < c
  }

  ghost function UpToSet(s: seq<int>, k: int): set<Five> {
    set t | t in Palindromes(s) && t.k < k
  }

  /** The tuples around middle `k` with outer digit a and inner digit b. */
  ghost function Around(s: seq<int>, k: int, a: int, b: int): set<Five>
    requires 0 <= k < |s|
  {
    Image(Product(BeforeSet(s, k, a, b), FromSet(s, k + 1, a, b)), Join(k))
  }

  ghost function Join(k: int): (((int, int), (int, int))) -> Five {
    (p: ((int, int), (int, int))) => Five(p.0.0, p.0.1, k, p.1.0, p.1.1)
  }

  lemma AroundFacts(s: seq<int>, k: int, a: int, b: int)
    requires 0 <= k < |s|
    ensures |Around(s, k, a, b)| == PairsBefore(s, k, a, b) * PairsFrom(s, k + 1, a, b)
    ensures forall t :: t in Around(s, k, a, b) <==> Palindrome(s, t) && t.k == k && s[t.i] == a && s[t.j] == b
  {
    var before, later := BeforeSet(s, k, a, b), FromSet(s, k + 1, a, b);
    var pairs := Product(before, later);
    ImageSize(pairs, Join(k));
    ProductSize(before, later);
    BeforeCounts(s, k, a, b);
    FromCounts(s, k + 1, a, b);
    forall t ensures t in Around(s, k, a, b) <==> Palindrome(s, t) && t.k == k && s[t.i] == a && s[t.j] == b {
      InAround(s, k, a, b, t);
    }
  }

  lemma InAround(s: seq<int>, k: int, a: int, b: int, t: Five)
    requires 0 <= k < |s|
    ensures t in Around(s, k, a, b) <==> Palindrome(s, t) && t.k == k && s[t.i] == a && s[t.j] == b
  {
    InBefore(s, k, a, b, (t.i, t.j));
    InFrom(s, k + 1, a, b, (t.l, t.m));
    var before, later := BeforeSet(s, k, a, b), FromSet(s, k + 1, a, b);
    var p := ((t.i, t.j), (t.l, t.m));
    assert p in Product(before, later) <==> (t.i, t.j) in before && (t.l, t.m) in later;
    assert Join(k)(p) == Five(t.i, t.j, k, t.l, t.m);
    hide BeforeSet, FromSet, Product;
    if t in Around(s, k, a, b) {
      var q :| q in Product(before, later) && Join(k)(q) == t;
      assert q == p;
    }
  }

  lemma {:induction false} AtCounts(s: seq<int>, k: int, c: int)
    requires Digits(s) && 0 <= k < |s| && 0 <= c <= 100
    ensures |AtSet(s, k, c)| == AtMiddle(s, k, c)
    decreases c
  {
    if c > 0 {
      var a, b := (c - 1) / 10, (c - 1) % 10;
      AtCounts(s, k, c - 1);
      AroundFacts(s, k, a, b);
      forall t ensures t in AtSet(s, k, c) <==> t in AtSet(s, k, c - 1) || t in Around(s, k, a, b)
               ensures t in AtSet(s, k, c - 1) ==> t !in Around(s, k, a, b)
      {
        InPalindromes(s, t);
      }
      hide AtSet, Around;
      DisjointUnion(AtSet(s, k, c), AtSet(s, k, c - 1), Around(s, k, a, b));
    } else {
      assert AtSet(s, k, c) == {};
    }
  }

  lemma {:induction false} UpToCounts(s: seq<int>, k: int)
    requires Digits(s) && 0 <= k <= |s|
    ensures |UpToSet(s, k)| == UpToMiddle(s, k)
    decreases k
  {
    if k > 0 {
      UpToCounts(s, k - 1);
      AtCounts(s, k - 1, CODES);
      forall t ensures t in UpToSet(s, k) <==> t in UpToSet(s, k - 1) || t in AtSet(s, k - 1, CODES)
               ensures t in UpToSet(s, k - 1) ==> t !in AtSet(s, k - 1, CODES)
      {
        InPalindromes(s, t);
      }
      hide UpToSet, AtSet;
      DisjointUnion(UpToSet(s, k), UpToSet(s, k - 1), AtSet(s, k - 1, CODES));
    } else {
      forall t ensures t !in UpToSet(s, k) {
        InPalindromes(s, t);
      }
      assert UpToSet(s, k) == {};
    }
  }

  /** The sums over middles and digit pairs count exactly the palindromic index tuples. */
  lemma SumsCountPalindromes(s: seq<int>)
    requires Digits(s)
    ensures |Palindromes(s)| == UpToMiddle(s, |s|)
  {
    UpToCounts(s, |s|);
    forall t ensures t in UpToSet(s, |s|) <==> t in Palindromes(s) {
      InPalindromes(s, t);
    }
    assert UpToSet(s, |s|) == Palindromes(s);
  }

  // ----- machine integers -----

  lemma {:induction false} OccursBound(s: seq<int>, d: int, lo: int, hi: int)
    requires 0 <= lo <= hi <= |s|
    ensures Occurs(s, d, lo, hi) <= hi - lo
    decreases hi - lo
  {
    if lo < hi { OccursBound(s, d, lo, hi - 1); }
  }

  lemma {:induction false} BeforeBound(s: seq<int>, i: int, a: int, b: int)
    requires 0 <= i <= |s|
    ensures 2 * PairsBefore(s, i, a, b) <= i * (i - 1)
    decreases i
  {
    if i > 0 {
      BeforeBound(s, i - 1, a, b);
      OccursBound(s, a, 0, i - 1);
      assert (i - 1) * (i - 2) + 2 * (i - 1) == i * (i - 1);
    }
  }

  lemma {:induction false} FromBound(s: seq<int>, i: int, a: int, b: int)
    requires 0 <= i <= |s|
    ensures 2 * PairsFrom(s, i, a, b) <= (|s| - i) * (|s| - i - 1)
    decreases |s| - i
  {
    if i < |s| {
      FromBound(s, i + 1, a, b);
      OccursBound(s, a, i + 1, |s|);
      var n := |s| - i;
      assert (n - 1) * (n - 2) + 2 * (n - 1) == n * (n - 1);
    }
  }

  /** Every cell of both tables fits 32 bits. */
  ghost predicate CellsFit(s: seq<int>) {
    forall i, a, b :: 0 <= i <= |s| ==> PairsBefore(s, i, a, b) < 0x8000_0000 && PairsFrom(s, i, a, b) < 0x8000_0000
  }

  lemma ProductMonotone(a: int, b: int, c: int, d: int)
    requires 0 <= a <= c && 0 <= b <= d
    ensures a * b <= c * d
  {
  }

  lemma TriangleFits(n: int, i: int)
    requires 0 <= i <= n <= 65536
    ensures i * (i - 1) <= 65536 * 65535
  {
    if i > 0 { ProductMonotone(i, i - 1, 65536, 65535); }
  }

  lemma ShortStringsFit(s: seq<int>)
    requires |s| <= 65536
    ensures CellsFit(s)
  {
    forall i, a, b | 0 <= i <= |s|
      ensures PairsBefore(s, i, a, b) < 0x8000_0000 && PairsFrom(s, i, a, b) < 0x8000_0000
    {
      BeforeBound(s, i, a, b);
      FromBound(s, i, a, b);
      TriangleFits(|s|, i);
      TriangleFits(|s|, |s| - i);
    }
  }

  lemma {:induction false} ZerosReachBound(s: seq<int>, i: int)
    requires 0 <= i <= |s| && forall j :: 0 <= j < |s| ==> s[j] == 0
    ensures Occurs(s, 0, 0, i) == i && 2 * PairsBefore(s, i, 0, 0) == i * (i - 1)
    decreases i
  {
    if i > 0 {
      ZerosReachBound(s, i - 1);
      assert (i - 1) * (i - 2) + 2 * (i - 1) == i * (i - 1);
    }
  }

  lemma {:induction false} BeforeGrows(s: seq<int>, i: int, j: int, a: int, b: int)
    requires 0 <= i <= j <= |s|
    ensures PairsBefore(s, i, a, b) <= PairsBefore(s, j, a, b)
    decreases j - i
  {
    if i < j { BeforeGrows(s, i, j - 1, a, b); }
  }

  lemma {:induction false} FromGrows(s: seq<int>, i: int, a: int, b: int)
    requires 0 <= i <= |s|
    ensures PairsFrom(s, i, a, b) <= PairsFrom(s, 0, a, b)
    decreases i
  {
    if i > 0 { FromGrows(s, i - 1, a, b); }
  }

  /** Both tables count the same pairs of the whole string. */
  lemma FromIsBefore(s: seq<int>, a: int, b: int)
    ensures PairsFrom(s, 0, a, b) == PairsBefore(s, |s|, b, a)
  {
    FromCounts(s, 0, a, b);
    BeforeCounts(s, |s|, b, a);
    forall x: (int, int) ensures x in FromSet(s, 0, a, b) <==> x in BeforeSet(s, |s|, b, a) {
      InFrom(s, 0, a, b, x);
      InBefore(s, |s|, b, a, x);
    }
    assert FromSet(s, 0, a, b) == BeforeSet(s, |s|, b, a);
  }

  /**
   A string overflows no cell exactly when no pair of digits occurs 2^31 times or more, as first and
   second of two positions.
   */
  lemma CellsFitByPairs(s: seq<int>)
    ensures CellsFit(s) <==> forall a, b :: |BeforeSet(s, |s|, a, b)| < 0x8000_0000
  {
    forall a, b ensures |BeforeSet(s, |s|, a, b)| == PairsBefore(s, |s|, a, b) {
      BeforeCounts(s, |s|, a, b);
    }
    hide BeforeSet;
    if forall a, b :: |BeforeSet(s, |s|, a, b)| < 0x8000_0000 {
      forall i, a, b | 0 <= i <= |s|
        ensures PairsBefore(s, i, a, b) < 0x8000_0000 && PairsFrom(s, i, a, b) < 0x8000_0000
      {
        BeforeGrows(s, i, |s|, a, b);
        FromGrows(s, i, a, b);
        FromIsBefore(s, a, b);
        assert |BeforeSet(s, |s|, a, b)| < 0x8000_0000 && |BeforeSet(s, |s|, b, a)| < 0x8000_0000;
      }
    }
  }

  /** 65536 is the exact length up to which no string can overflow a table cell. */
  lemma CellsFitExactlyWhen(n: nat)
    ensures (forall s :: Digits(s) && |s| == n ==> CellsFit(s)) <==> n <= 65536
  {
    if n <= 65536 {
      forall s | Digits(s) && |s| == n ensures CellsFit(s) {
        ShortStringsFit(s);
      }
    } else {
      var s := seq(n, _ => 0);
      LongZerosOverflow(s);
      assert Digits(s) && !CellsFit(s);
    }
  }

  lemma LongZerosOverflow(s: seq<int>)
    requires |s| > 65536 && forall j :: 0 <= j < |s| ==> s[j] == 0
    ensures !CellsFit(s)
  {
    ZerosReachBound(s, |s|);
    ProductMonotone(65537, 65536, |s|, |s| - 1);
    assert PairsBefore(s, |s|, 0, 0) >= 0x8000_0000;
  }

  // ----- the tables and the sum -----

  /** Rows lo..hi - 1 of the prefix table hold their pair counts. */
  ghost predicate PrefixRows(pre: array3<int32>, s: seq<int>, lo: int, hi: int)
    requires 0 <= lo <= hi <= |s| == pre.Length0 && pre.Length1 == 10 && pre.Length2 == 10
    reads pre
  {
    forall i, a, b :: lo <= i < hi && 0 <= a < 10 && 0 <= b < 10 ==> pre[i, a, b] as int == PairsBefore(s, i + 1, a, b)
  }

  ghost predicate SuffixRows(suf: array3<int32>, s: seq<int>, lo: int, hi: int)
    requires 0 <= lo <= hi <= |s| == suf.Length0 && suf.Length1 == 10 && suf.Length2 == 10
    reads suf
  {
    forall i, a, b :: lo <= i < hi && 0 <= a < 10 && 0 <= b < 10 ==> suf[i, a, b] as int == PairsFrom(s, i, a, b)
  }

  method PrefixRow(pre: array3<int32>, i: int, val: int, digits: array<int32>, ghost s: seq<int>)
    requires pre.Length0 == |s| && pre.Length1 == 10 && pre.Length2 == 10 && digits.Length == 10
    requires 1 <= i < |s| && val == s[i] && CellsFit(s) && PrefixRows(pre, s, i - 1, i)
    requires forall a :: 0 <= a < 10 ==> digits[a] as int == Occurs(s, a, 0, i)
    modifies pre
    ensures PrefixRows(pre, s, i, i + 1)
    ensures forall h, a, b :: 0 <= h < |s| && h != i && 0 <= a < 10 && 0 <= b < 10 ==> pre[h, a, b] == old(pre[h, a, b])
  {
    for j := 0 to 10
      invariant forall a, b :: 0 <= a < j && 0 <= b < 10 ==> pre[i, a, b] as int == PairsBefore(s, i + 1, a, b)
      invariant forall h, a, b :: 0 <= h < |s| && h != i && 0 <= a < 10 && 0 <= b < 10 ==>
                pre[h, a, b] == old(pre[h, a, b])
    {
      for k := 0 to 10
        invariant forall a, b :: 0 <= a < 10 && 0 <= b < 10 && (a < j || (a == j && b < k)) ==>
                  pre[i, a, b] as int == PairsBefore(s, i + 1, a, b)
        invariant forall h, a, b :: 0 <= h < |s| && h != i && 0 <= a < 10 && 0 <= b < 10 ==>
                  pre[h, a, b] == old(pre[h, a, b])
      {
        assert old(pre[i - 1, j, k]) as int == PairsBefore(s, i, j, k);
        pre[i, j, k] := pre[i - 1, j, k];
        if val == k {
          assert PairsBefore(s, i + 1, j, k) < 0x8000_0000;
          pre[i, j, k] := pre[i, j, k] + digits[j];
        }
      }
    }
  }

  method SuffixRow(suf: array3<int32>, i: int, val: int, digits: array<int32>, ghost s: seq<int>)
    requires suf.Length0 == |s| && suf.Length1 == 10 && suf.Length2 == 10 && digits.Length == 10
    requires 0 <= i < |s| - 1 && val == s[i] && CellsFit(s) && SuffixRows(suf, s, i + 1, i + 2)
    requires forall a :: 0 <= a < 10 ==> digits[a] as int == Occurs(s, a, i + 1, |s|)
    modifies suf
    ensures SuffixRows(suf, s, i, i + 1)
    ensures forall h, a, b :: 0 <= h < |s| && h != i && 0 <= a < 10 && 0 <= b < 10 ==> suf[h, a, b] == old(suf[h, a, b])
  {
    for j := 0 to 10
      invariant forall a, b :: 0 <= a < j && 0 <= b < 10 ==> suf[i, a, b] as int == PairsFrom(s, i, a, b)
      invariant forall h, a, b :: 0 <= h < |s| && h != i && 0 <= a < 10 && 0 <= b < 10 ==>
                suf[h, a, b] == old(suf[h, a, b])
    {
      for k := 0 to 10
        invariant forall a, b :: 0 <= a < 10 && 0 <= b < 10 && (a < j || (a == j && b < k)) ==>
                  suf[i, a, b] as int == PairsFrom(s, i, a, b)
        invariant forall h, a, b :: 0 <= h < |s| && h != i && 0 <= a < 10 && 0 <= b < 10 ==>
                  suf[h, a, b] == old(suf[h, a, b])
      {
        assert old(suf[i + 1, j, k]) as int == PairsFrom(s, i + 1, j, k);
        suf[i, j, k] := suf[i + 1, j, k];
        if k == val {
          assert PairsFrom(s, i, j, k) < 0x8000_0000;
          suf[i, j, k] := suf[i, j, k] + digits[j];
        }
      }
    }
  }

  /** The digit values of a string of digit characters. */
  function Values(str: string): (s: seq<int>)
    ensures |s| == |str|
  {
    seq(|str|, i requires 0 <= i < |str| => str[i] as int - '0' as int)
  }

  method PrefixTable(str: string) returns (pre: array3<int32>)
    requires 1 <= |str| < 0x8000_0000 && Digits(Values(str)) && CellsFit(Values(str))
    ensures pre.Length0 == |str| && pre.Length1 == 10 && pre.Length2 == 10 && fresh(pre)
    ensures PrefixRows(pre, Values(str), 0, |str|)
  {
    ghost var s := Values(str);
    hide CellsFit;
    pre := new int32[|str|, 10, 10]((_, _, _) => 0);
    var digits := new int32[10](_ => 0);
    for i := 0 to |str|
      invariant PrefixRows(pre, s, 0, i)
      invariant forall h, a, b :: i <= h < |s| && 0 <= a < 10 && 0 <= b < 10 ==> pre[h, a, b] == 0
      invariant forall a :: 0 <= a < 10 ==> digits[a] as int == Occurs(s, a, 0, i)
    {
      var val := str[i] as int - '0' as int;
      assert val == s[i];
      if i != 0 {
        PrefixRow(pre, i, val, digits, s);
      } else {
        FirstRows(s);
      }
      OccursBound(s, val, 0, i);
      digits[val] := digits[val] + 1;
    }
  }

  lemma FirstRows(s: seq<int>)
    requires s != []
    ensures forall a, b :: PairsBefore(s, 1, a, b) == 0 && PairsFrom(s, |s| - 1, a, b) == 0
  {
  }

  method SuffixTable(str: string) returns (suf: array3<int32>)
    requires 1 <= |str| < 0x8000_0000 && Digits(Values(str)) && CellsFit(Values(str))
    ensures suf.Length0 == |str| && suf.Length1 == 10 && suf.Length2 == 10 && fresh(suf)
    ensures SuffixRows(suf, Values(str), 0, |str|)
  {
    ghost var s := Values(str);
    hide CellsFit;
    suf := new int32[|str|, 10, 10]((_, _, _) => 0);
    var digits := new int32[10](_ => 0);
    for i := |str| downto 0
      invariant SuffixRows(suf, s, i, |s|)
      invariant forall h, a, b :: 0 <= h < i && 0 <= a < 10 && 0 <= b < 10 ==> suf[h, a, b] == 0
      invariant forall a :: 0 <= a < 10 ==> digits[a] as int == Occurs(s, a, i, |s|)
    {
      var val := str[i] as int - '0' as int;
      assert val == s[i];
      if i != |str| - 1 {
        SuffixRow(suf, i, val, digits, s);
      } else {
        FirstRows(s);
        assert forall a, b :: PairsFrom(s, i, a, b) == 0;
      }
      OccursBound(s, val, i + 1, |s|);
      OccursFirst(s, i);
      digits[val] := digits[val] + 1;
    }
  }

  lemma OccursFirst(s: seq<int>, lo: int)
    requires 0 <= lo < |s|
    ensures forall d :: Occurs(s, d, lo, |s|) == Occurs(s, d, lo + 1, |s|) + if s[lo] == d then 1 else 0
  {
    forall d ensures Occurs(s, d, lo, |s|) == Occurs(s, d, lo + 1, |s|) + if s[lo] == d then 1 else 0 {
      OccursFrom(s, d, lo, |s|);
    }
  }

  lemma {:induction false} OccursFrom(s: seq<int>, d: int, lo: int, hi: int)
    requires 0 <= lo < hi <= |s|
    ensures Occurs(s, d, lo, hi) == Occurs(s, d, lo + 1, hi) + if s[lo] == d then 1 else 0
    decreases hi - lo
  {
    if lo + 1 < hi { OccursFrom(s, d, lo, hi - 1); }
  }

  lemma EndsAddNothing(s: seq<int>, c: int)
    requires s != [] && 0 <= c
    ensures AtMiddle(s, 0, c) == 0 && AtMiddle(s, |s| - 1, c) == 0
    decreases c
  {
  }

  /** `r` is the remainder of `x` modulo 1e9 + 7. */
  ghost predicate IsResidue(r: int32, x: nat) { r as int == x % MOD }

  lemma ReducedSum(sum: nat, p: nat)
    ensures (sum % MOD + p % MOD) % MOD == (sum + p) % MOD
  {
  }

  lemma ProductFits(a: int, b: int)
    requires 0 <= a < 0x8000_0000 && 0 <= b < 0x8000_0000
    ensures 0 <= a * b < 0x8000_0000_0000_0000
  {
    ProductMonotone(0, 0, a, b);
    ProductMonotone(a, b, 0x7fff_ffff, 0x7fff_ffff);
    assert 0x7fff_ffff * 0x7fff_ffff < 0x8000_0000_0000_0000;
  }

  const MOD32: int32 := 1_000_000_007
  const MOD64: int64 := 1_000_000_007

  /** One product, reduced, added to the reduced sum. */
  method AddTerm(ret: int32, a: int32, b: int32, ghost sum: nat) returns (r: int32)
    requires a >= 0 && b >= 0 && IsResidue(ret, sum)
    ensures IsResidue(r, sum + a as int * b as int)
  {
    ProductFits(a as int, b as int);
    var product := a as int64 * b as int64;
    r := AddReduced(ret, product, sum);
  }

  method AddReduced(ret: int32, product: int64, ghost sum: nat) returns (r: int32)
    requires product >= 0 && IsResidue(ret, sum)
    ensures IsResidue(r, sum + product as int)
  {
    var v := (product % MOD64) as int32;
    ReducedSum(sum, product as int);
    r := (ret + v) % MOD32;
  }

  /** Tuples around middle `i` with outer digit j and inner digit k. */
  ghost function AroundMiddle(s: seq<int>, i: int, j: int, k: int): nat
    requires 0 <= i < |s|
  {
    PairsBefore(s, i, j, k) * PairsFrom(s, i + 1, j, k)
  }

  lemma AtMiddleStep(s: seq<int>, i: int, j: int, k: int, c: int)
    requires 0 <= i < |s| && 0 <= j < 10 && 0 <= k < 10 && c == 10 * j + k
    ensures AtMiddle(s, i, c + 1) == AtMiddle(s, i, c) + AroundMiddle(s, i, j, k)
  {
  }

  method AddCell(ret: int32, pre: array3<int32>, suf: array3<int32>, i: int, j: int, k: int, ghost s: seq<int>,
                 ghost sum: nat) returns (r: int32)
    requires |s| == pre.Length0 == suf.Length0 && pre.Length1 == 10 && pre.Length2 == 10 && suf.Length1 == 10
             && suf.Length2 == 10
    requires 1 <= i < |s| - 1 && 0 <= j < 10 && 0 <= k < 10 && PrefixRows(pre, s, 0, |s|) && SuffixRows(suf, s, 0, |s|)
    requires IsResidue(ret, sum)
    ensures IsResidue(r, sum + AroundMiddle(s, i, j, k))
  {
    assert pre[i - 1, j, k] as int == PairsBefore(s, i, j, k) && suf[i + 1, j, k] as int == PairsFrom(s, i + 1, j, k);
    r := AddTerm(ret, pre[i - 1, j, k], suf[i + 1, j, k], sum);
  }

  /** Adds the products for outer digit `j` and all inner digits around middle `i`. */
  method AddRow(ret0: int32, pre: array3<int32>, suf: array3<int32>, i: int, j: int, ghost s: seq<int>,
                ghost before: nat) returns (ret: int32)
    requires |s| == pre.Length0 == suf.Length0 && pre.Length1 == 10 && pre.Length2 == 10 && suf.Length1 == 10
             && suf.Length2 == 10
    requires 1 <= i < |s| - 1 && 0 <= j < 10 && PrefixRows(pre, s, 0, |s|) && SuffixRows(suf, s, 0, |s|)
    requires IsResidue(ret0, before + AtMiddle(s, i, 10 * j))
    ensures IsResidue(ret, before + AtMiddle(s, i, 10 * j + 10))
  {
    hide AroundMiddle, AtMiddle, PrefixRows, SuffixRows, IsResidue;
    ret := ret0;
    for k := 0 to 10
      invariant IsResidue(ret, before + AtMiddle(s, i, 10 * j + k))
    {
      AtMiddleStep(s, i, j, k, 10 * j + k);
      ret := AddCell(ret, pre, suf, i, j, k, s, before + AtMiddle(s, i, 10 * j + k));
    }
  }

  lemma AtMiddleNone(s: seq<int>, i: int)
    requires 0 <= i < |s|
    ensures AtMiddle(s, i, 0) == 0
  {
  }

  /** Adds the products for all digit pairs around middle `i`. */
  method AddMiddle(ret0: int32, pre: array3<int32>, suf: array3<int32>, i: int, ghost s: seq<int>, ghost before: nat)
    returns (ret: int32)
    requires |s| == pre.Length0 == suf.Length0 && pre.Length1 == 10 && pre.Length2 == 10 && suf.Length1 == 10
             && suf.Length2 == 10
    requires 1 <= i < |s| - 1 && PrefixRows(pre, s, 0, |s|) && SuffixRows(suf, s, 0, |s|)
    requires IsResidue(ret0, before)
    ensures IsResidue(ret, before + AtMiddle(s, i, CODES))
  {
    hide AtMiddle, PrefixRows, SuffixRows, IsResidue;
    AtMiddleNone(s, i);
    ret := ret0;
    for j := 0 to 10
      invariant IsResidue(ret, before + AtMiddle(s, i, 10 * j))
    {
      ret := AddRow(ret, pre, suf, i, j, s, before);
    }
  }

  /** The sum over the middles 1, ..., |s| - 2, which are all that can be one. */
  method SumMiddles(pre: array3<int32>, suf: array3<int32>, n: int, ghost s: seq<int>, ghost total: nat)
    returns (ret: int32)
    requires |s| == n >= 1 && pre.Length0 == |s| && suf.Length0 == |s| && pre.Length1 == 10 && pre.Length2 == 10
             && suf.Length1 == 10 && suf.Length2 == 10
    requires PrefixRows(pre, s, 0, |s|) && SuffixRows(suf, s, 0, |s|) && total == UpToMiddle(s, |s|)
    ensures IsResidue(ret, total)
  {
    hide IsResidue, UpToMiddle, PrefixRows, SuffixRows, AtMiddle;
    InnerMiddles(s);
    ret := 0;
    var i := 1;
    while i < n - 1
      invariant 1 <= i <= |s| && (|s| > 1 ==> i <= |s| - 1)
      invariant IsResidue(ret, UpToMiddle(s, i))
    {
      ret := AddMiddle(ret, pre, suf, i, s, UpToMiddle(s, i));
      UpToStep(s, i);
      i := i + 1;
    }
    assert UpToMiddle(s, i) == total;
  }

  // ----- on the string itself -----

  /** Each character has its value as a digit. */
  lemma DigitValues(str: string, i: nat, d: nat)
    requires i < |str| && d < 10
    ensures str[i] == "0123456789"[d] <==> Values(str)[i] == d
  {
    assert "0123456789"[d] as int == '0' as int + d;
  }

  lemma DigitStrings(str: string)
    requires forall i :: 0 <= i < |str| ==> '0' <= str[i] <= '9'
    ensures Digits(Values(str))
  {
  }

  /** The places of two characters one behind the other. */
  ghost function PairPlaces(str: string, a: char, b: char): set<(int, int)> {
    set p, q | 0 <= p < |str| && 0 <= q < |str| && p < q && str[p] == a && str[q] == b :: (p, q)
  }

  /** A string overflows no table cell exactly when no two characters occur 2^31 times one behind the other. */
  lemma StringFits(str: string)
    ensures CellsFit(Values(str)) <==> forall a, b :: |PairPlaces(str, a, b)| < 0x8000_0000
  {
    var s := Values(str);
    CellsFitByPairs(s);
    forall a, b ensures PairPlaces(str, a, b) == BeforeSet(s, |s|, a as int - '0' as int, b as int - '0' as int) {}
    hide CellsFit, PairPlaces;
    if forall a, b :: |PairPlaces(str, a, b)| < 0x8000_0000 {
      forall a, b ensures |BeforeSet(s, |s|, a, b)| < 0x8000_0000 {
        if x :| x in BeforeSet(s, |s|, a, b) {
          assert |PairPlaces(str, str[x.0], str[x.1])| < 0x8000_0000;
        } else {
          assert BeforeSet(s, |s|, a, b) == {};
        }
      }
    }
  }

  ghost function StringTuples(str: string): set<Five> {
    set i, j, k, l, m |
      && 0 <= i < |str| && 0 <= j < |str| && 0 <= k < |str| && 0 <= l < |str| && 0 <= m < |str|
      && i < j < k < l < m && str[i] == str[m] && str[j] == str[l] :: Five(i, j, k, l, m)
  }

  lemma TuplesOfString(str: string)
    ensures StringTuples(str) == Palindromes(Values(str))
  {
    var s := Values(str);
    forall t ensures t in StringTuples(str) <==> t in Palindromes(s) {
      InPalindromes(s, t);
    }
  }

  lemma ResidueMeans(r: int32, x: nat)
    requires IsResidue(r, x)
    ensures r as int == x % 1_000_000_007
  {
  }

  /**
   The count, modulo 1e9 + 7, of index tuples with equal outer and equal inner characters, with no
   machine integer overflowing on the way.
   */
  method CountPalindromes(str: string) returns (ret: int32)
    requires 1 <= |str| < 0x8000_0000 && forall i :: 0 <= i < |str| ==> '0' <= str[i] <= '9'
    requires forall a, b :: |PairPlaces(str, a, b)| < 0x8000_0000
    ensures ret as int ==
            |set i, j, k, l, m |
               && 0 <= i < |str| && 0 <= j < |str| && 0 <= k < |str| && 0 <= l < |str| && 0 <= m < |str|
               && i < j < k < l < m && str[i] == str[m] && str[j] == str[l] :: Five(i, j, k, l, m)| % 1_000_000_007
  {
    hide IsResidue, UpToMiddle, PrefixRows, SuffixRows, AtMiddle, Palindromes, PairPlaces, CellsFit, Values;
    DigitStrings(str);
    StringFits(str);
    var pre := PrefixTable(str);
    var suf := SuffixTable(str);
    SumsCountPalindromes(Values(str));
    ret := SumMiddles(pre, suf, |str|, Values(str), UpToMiddle(Values(str), |str|));
    TuplesOfString(str);
    ResidueMeans(ret, |StringTuples(str)|);
  }

  lemma UpToStep(s: seq<int>, k: int)
    requires 0 <= k < |s|
    ensures UpToMiddle(s, k + 1) == UpToMiddle(s, k) + AtMiddle(s, k, CODES)
  {
  }

  lemma InnerMiddles(s: seq<int>)
    requires s != []
    ensures UpToMiddle(s, 1) == 0 && UpToMiddle(s, |s|) == UpToMiddle(s, |s| - 1)
    ensures IsResidue(0, UpToMiddle(s, 1))
  {
    EndsAddNothing(s, CODES);
    UpToStep(s, 0);
    UpToStep(s, |s| - 1);
  }
}
