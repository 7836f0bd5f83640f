/** Percentiles (`crates/luaml/src/stdlib/math.rs`). */
module Statistics {
  import opened Wrappers
  import opened Combinatorics

  ghost predicate Sorted(xs: seq<real>) {
    forall i, j | 0 <= i < j < |xs| :: xs[i] <= xs[j]
  }

  function Insert(x: real, xs: seq<real>): (r: seq<real>)
    ensures |r| == |xs| + 1
  {
    if xs == [] || x <= xs[0] then [x] + xs else [xs[0]] + Insert(x, xs[1..])
  }

  /** The list in increasing order. */
  function Sort(xs: seq<real>): (sorted: seq<real>)
    ensures |sorted| == |xs|
  {
    if xs == [] then [] else Insert(xs[0], Sort(xs[1..]))
  }

  lemma {:induction false} InsertContents(x: real, xs: seq<real>)
    ensures multiset(Insert(x, xs)) == multiset{x} + multiset(xs)
  {
    if xs != [] && x > xs[0] {
      InsertContents(x, xs[1..]);
      assert xs == [xs[0]] + xs[1..];
    }
  }

  lemma {:induction false} InsertSorts(x: real, xs: seq<real>)
    requires Sorted(xs)
    ensures Sorted(Insert(x, xs))
    ensures xs != [] ==> Insert(x, xs)[0] == if x <= xs[0] then x else xs[0]
  {
    if xs != [] && x > xs[0] {
      InsertSorts(x, xs[1..]);
      var rest := Insert(x, xs[1..]);
      forall i | 0 <= i < |rest| ensures xs[0] <= rest[i] {
        if i > 0 { assert rest[0] <= rest[i]; }
      }
    }
  }

  lemma {:induction false} SortSorts(xs: seq<real>)
    ensures Sorted(Sort(xs)) && multiset(Sort(xs)) == multiset(xs)
  {
    if xs != [] {
      hide Insert, Sorted;
      SortSorts(xs[1..]);
      InsertSorts(xs[0], Sort(xs[1..]));
      InsertContents(xs[0], Sort(xs[1..]));
      assert xs == [xs[0]] + xs[1..];
    }
  }

  lemma TailContents(a: seq<real>)
    requires a != []
    ensures multiset(a[1..]) == multiset(a) - multiset{a[0]}
  {
    assert a == [a[0]] + a[1..];
  }

  lemma SameHead(a: seq<real>, b: seq<real>)
    requires Sorted(a) && Sorted(b) && multiset(a) == multiset(b) && a != []
    ensures b != [] && a[0] == b[0]
  {
    assert a[0] in multiset(b);
    assert b[0] in multiset(a);
  }

  lemma {:induction false} SortedIsUnique(a: seq<real>, b: seq<real>)
    requires Sorted(a) && Sorted(b) && multiset(a) == multiset(b)
    ensures a == b
  {
    if a == [] {
      assert |b| == |multiset(b)| == |multiset(a)| == 0;
    } else {
      SameHead(a, b);
      TailContents(a);
      TailContents(b);
      SortedIsUnique(a[1..], b[1..]);
      assert a == [a[0]] + a[1..] && b == [b[0]] + b[1..];
    }
  }

  function MedianOf(xs: seq<real>): real
    requires xs != []
  {
    var mid := |xs| / 2;
    if |xs| % 2 == 0 then (xs[mid - 1] + xs[mid]) / 2.0 else xs[mid]
  }

  function Median(list: seq<real>): Result<real, MathError> {
    if list == [] then Err(EmptyList) else Ok(MedianOf(Sort(list)))
  }

  function Ceiling(r: real): int {
    if r == r.Floor as real then r.Floor else r.Floor + 1
  }

  /** Linear interpolation between the nearest ranks. */
  function AtRank(xs: seq<real>, rank: real): real
    requires xs != [] && 0.0 <= rank <= (|xs| - 1) as real
  {
    var lo, hi := rank.Floor, Ceiling(rank);
    if lo == hi then xs[lo] else xs[lo] + (xs[hi] - xs[lo]) * (rank - lo as real)
  }

  /** The position of a share among `n` ranks. */
  function Rank(n: nat, p: real): (rank: real)
    requires n > 0 && 0.0 <= p <= 1.0
    ensures 0.0 <= rank <= (n - 1) as real
  {
    Product(p, (n - 1) as real);
    Product(1.0 - p, (n - 1) as real);
    p * ((n - 1) as real)
  }

  function PercentileOf(xs: seq<real>, p: real): real
    requires xs != [] && 0.0 <= p <= 1.0
  {
    if |xs| == 1 then xs[0] else AtRank(xs, Rank(|xs|, p))
  }

  function Percentile(list: seq<real>, p: real): Result<real, MathError> {
    if list == [] then Err(EmptyList)
    else if !(0.0 <= p <= 1.0) then Err(PercentileOutOfRange)
    else Ok(PercentileOf(Sort(list), p))
  }

  /** The order of the list does not matter. */
  lemma OrderForgotten(a: seq<real>, b: seq<real>, p: real)
    requires multiset(a) == multiset(b)
    ensures Percentile(a, p) == Percentile(b, p) && Median(a) == Median(b)
  {
    hide PercentileOf, MedianOf, Sort;
    SortSorts(a);
    SortSorts(b);
    SortedIsUnique(Sort(a), Sort(b));
    assert |a| == |multiset(a)| == |multiset(b)| == |b|;
  }

  lemma Product(a: real, b: real)
    requires a >= 0.0 && b >= 0.0
    ensures a * b >= 0.0
  {
  }

  lemma InterpolationBounds(a: real, b: real, t: real)
    requires a <= b && 0.0 <= t <= 1.0
    ensures a <= a + (b - a) * t <= b
  {
    Product(b - a, t);
    Product(b - a, 1.0 - t);
    assert (b - a) * (1.0 - t) == (b - a) - (b - a) * t;
  }

  lemma AtRankBounds(xs: seq<real>, rank: real)
    requires xs != [] && Sorted(xs) && 0.0 <= rank <= (|xs| - 1) as real
    ensures xs[rank.Floor] <= AtRank(xs, rank) <= xs[Ceiling(rank)]
  {
    var lo, hi := rank.Floor, Ceiling(rank);
    if lo != hi {
      InterpolationBounds(xs[lo], xs[hi], rank - lo as real);
    }
  }

  lemma AtRankMonotone(xs: seq<real>, r: real, s: real)
    requires xs != [] && Sorted(xs) && 0.0 <= r <= s <= (|xs| - 1) as real
    ensures AtRank(xs, r) <= AtRank(xs, s)
  {
    AtRankBounds(xs, r);
    AtRankBounds(xs, s);
    var lo := r.Floor;
    if lo == s.Floor {
      if r < s {
        assert Ceiling(s) == lo + 1;
        Slope(xs[lo], xs[lo + 1], r - lo as real, s - lo as real);
      }
    } else {
      assert Ceiling(r) <= s.Floor;
    }
  }

  lemma Slope(a: real, b: real, t: real, u: real)
    requires a <= b && 0.0 <= t <= u
    ensures a + (b - a) * t <= a + (b - a) * u
  {
    Product(b - a, u - t);
    assert (b - a) * u - (b - a) * t == (b - a) * (u - t);
  }

  lemma RankMonotone(n: nat, p: real, q: real)
    requires n > 0 && 0.0 <= p <= q <= 1.0
    ensures Rank(n, p) <= Rank(n, q)
  {
    var m := (n - 1) as real;
    Product(q - p, m);
    assert q * m - p * m == (q - p) * m;
  }

  /** A larger share never gives a smaller percentile. */
  lemma PercentileMonotone(list: seq<real>, p: real, q: real)
    requires list != [] && 0.0 <= p <= q <= 1.0
    ensures Percentile(list, p).value <= Percentile(list, q).value
  {
    hide Sort, Rank, AtRank;
    var xs := Sort(list);
    SortSorts(list);
    RankMonotone(|xs|, p, q);
    AtRankMonotone(xs, Rank(|xs|, p), Rank(|xs|, q));
  }

  /** The shares 0 and 1 give the least and the greatest element, and every other share lies between. */
  lemma PercentileBetweenEnds(list: seq<real>, p: real)
    requires list != [] && 0.0 <= p <= 1.0
    ensures Percentile(list, 0.0).value in list && Percentile(list, 1.0).value in list
    ensures forall x | x in list :: Percentile(list, 0.0).value <= x <= Percentile(list, 1.0).value
    ensures Percentile(list, 0.0).value <= Percentile(list, p).value <= Percentile(list, 1.0).value
  {
    var xs := Sort(list);
    SortSorts(list);
    PercentileMonotone(list, 0.0, p);
    PercentileMonotone(list, p, 1.0);
    PercentileAtEnds(list);
    assert xs[0] in multiset(xs) && xs[|xs| - 1] in multiset(xs);
    forall x | x in list ensures xs[0] <= x <= xs[|xs| - 1] {
      assert x in multiset(list);
      assert x in multiset(xs);
    }
  }

  lemma EndRanks(n: nat)
    requires n > 0
    ensures Rank(n, 0.0) == 0.0 && Rank(n, 1.0) == (n - 1) as real
  {
  }

  lemma PercentileAtEnds(list: seq<real>)
    requires list != []
    ensures Percentile(list, 0.0) == Ok(Sort(list)[0]) && Percentile(list, 1.0) == Ok(Sort(list)[|list| - 1])
  {
    hide Sort, Rank;
    EndRanks(|list|);
    assert (0.0).Floor == 0 && ((|list| - 1) as real).Floor == |list| - 1;
  }

  lemma Halfway(a: real, b: real)
    ensures a + (b - a) * 0.5 == (a + b) / 2.0
  {
  }

  lemma HalfRank(n: nat)
    requires n > 1
    ensures Rank(n, 0.5) == if n % 2 == 1 then (n / 2) as real else (n / 2) as real - 0.5
    ensures Rank(n, 0.5).Floor == if n % 2 == 1 then n / 2 else n / 2 - 1
  {
  }

  lemma BetweenRanks(xs: seq<real>, mid: nat)
    requires 0 < mid < |xs|
    ensures AtRank(xs, mid as real - 0.5) == (xs[mid - 1] + xs[mid]) / 2.0
  {
    var rank := mid as real - 0.5;
    assert rank.Floor == mid - 1;
    Halfway(xs[mid - 1], xs[mid]);
  }

  /** Half way is the median. */
  lemma HalfIsMedian(list: seq<real>)
    requires list != []
    ensures Percentile(list, 0.5) == Median(list)
  {
    hide Sort, Rank;
    var xs := Sort(list);
    if |xs| > 1 {
      HalfRank(|xs|);
      if |xs| % 2 == 0 {
        BetweenRanks(xs, |xs| / 2);
      }
    }
  }

  lemma RankOf(n: nat, k: nat, t: real)
    requires k < n - 1 && 0.0 <= t <= 1.0
    ensures 0.0 <= (k as real + t) / (n - 1) as real <= 1.0
    ensures Rank(n, (k as real + t) / (n - 1) as real) == k as real + t
  {
    var m := (n - 1) as real;
    Shares(k as real + t, m);
  }

  lemma Shares(x: real, m: real)
    requires 0.0 <= x <= m && m > 0.0
    ensures 0.0 <= x / m <= 1.0 && (x / m) * m == x
  {
  }

  lemma Mixture(a: real, b: real, t: real)
    ensures a + (b - a) * t == (1.0 - t) * a + t * b
  {
  }

  lemma BetweenNeighbours(xs: seq<real>, k: nat, t: real)
    requires k < |xs| - 1 && 0.0 <= t <= 1.0
    ensures AtRank(xs, k as real + t) == (1.0 - t) * xs[k] + t * xs[k + 1]
  {
    var rank := k as real + t;
    if t == 1.0 {
      assert rank.Floor == k + 1;
    } else {
      assert rank.Floor == k;
      Mixture(xs[k], xs[k + 1], t);
    }
  }

  /**
   Between neighbouring ranks of the sorted list the percentile is the straight line: at the share `k + t` of
   the last rank it lies `t` of the way from the `k`-th element to the next.
   */
  lemma PercentileIsLinear(list: seq<real>, xs: seq<real>, k: nat, t: real)
    requires Sorted(xs) && multiset(xs) == multiset(list) && k < |xs| - 1 && 0.0 <= t <= 1.0
    ensures Percentile(list, (k as real + t) / (|xs| - 1) as real) == Ok((1.0 - t) * xs[k] + t * xs[k + 1])
  {
    hide Sort, Rank, AtRank, Sorted;
    SortSorts(list);
    SortedIsUnique(Sort(list), xs);
    assert |xs| == |multiset(xs)| == |multiset(list)| == |list|;
    RankOf(|xs|, k, t);
    BetweenNeighbours(xs, k, t);
  }

  /** Which lists and shares are refused, the empty list first. */
  lemma PercentileRefuses(list: seq<real>, p: real)
    ensures Percentile(list, p) == Err(EmptyList) <==> list == []
    ensures Percentile(list, p) == Err(PercentileOutOfRange) <==> list != [] && (p < 0.0 || p > 1.0)
    ensures Median(list) == Err(EmptyList) <==> list == []
  {
  }
}
