// The failover balancer: candidates sorted by score, two counters of how many are
// below and above the middle, and a re-centring step when all are on one side.
module Failover {
  import opened Basics

  const MAX_SCORE: int := 64
  const MIDDLE: int := MAX_SCORE / 2
  const MAX_N: int := 9

  function Fib(n: nat): nat {
    if n < 2 then n else Fib(n - 1) + Fib(n - 2)
  }

  method ComputeFib(n: int) returns (i: nat)
    ensures i == if n < 1 then 0 else Fib(n)
  {
    var j, m := 1, n;
    i := 0;
    while m >= 1
      invariant m <= n && (m >= 0 || m == n)
      invariant m >= 0 ==> i == Fib(n - m) && j == Fib(n - m + 1)
      invariant m < 0 ==> i == 0
    {
      i, j, m := j, i + j, m - 1;
    }
  }

  /** The numbers that a score can move by. */
  lemma FibValues()
    ensures Fib(1) == 1 && Fib(2) == 1 && Fib(3) == 2 && Fib(4) == 3 && Fib(5) == 5
    ensures Fib(6) == 8 && Fib(7) == 13 && Fib(8) == 21 && Fib(9) == 34
  {
    assert Fib(4) == 3 && Fib(5) == 5;
    assert Fib(6) == 8 && Fib(7) == 13;
  }

  // ----- the score of one candidate

  datatype Standing = Standing(score: int, n: int) {
    predicate InRange() {
      0 <= score <= MAX_SCORE && -MAX_N <= n <= MAX_N
    }

    /** Successes in a row count more and more, up to the ninth. */
    function Succ(): Standing {
      if score == MAX_SCORE then this
      else
        var k := if n < 0 then 1 else if n < MAX_N then n + 1 else n;
        Standing(if score + Fib(k) > MAX_SCORE then MAX_SCORE else score + Fib(k), k)
    }

    function Fail(): Standing {
      if score == 0 then this
      else
        var k := if n > 0 then 1 else if n > -MAX_N then -n + 1 else -n;
        Standing(if score - Fib(k) < 0 then 0 else score - Fib(k), -k)
    }
  }

  lemma FibPositive(n: nat)
    ensures n > 0 ==> Fib(n) > 0
  {
  }

  /** What `k` successes or failures in a row are worth: from the ninth on each is worth the same. */
  function Worth(k: nat): nat {
    if k == 0 then 0 else Worth(k - 1) + Fib(if k < 9 then k else 9)
  }

  function Times(x: Standing, success: bool, k: nat): Standing {
    if k == 0 then x else
      var y := Times(x, success, k - 1);
      if success then y.Succ() else y.Fail()
  }

  /** The score after successes in a row: it grows by what they are worth, up to 64. */
  lemma {:induction false} SuccessesInARow(x: Standing, k: nat)
    requires x.InRange() && x.n <= 0
    ensures var y := Times(x, true, k);
      && y.score == (if x.score + Worth(k) > 64 then 64 else x.score + Worth(k))
      && (k > 0 && y.score < 64 ==> y.n == if k < 9 then k else 9)
  {
    hide Fib;
    if k > 0 { SuccessesInARow(x, k - 1); }
  }

  /** The score after failures in a row: it falls by what they are worth, down to 0. */
  lemma {:induction false} FailuresInARow(x: Standing, k: nat)
    requires x.InRange() && x.n >= 0
    ensures var y := Times(x, false, k);
      && y.score == (if x.score - Worth(k) < 0 then 0 else x.score - Worth(k))
      && (k > 0 && y.score > 0 ==> -y.n == if k < 9 then k else 9)
  {
    hide Fib;
    if k > 0 { FailuresInARow(x, k - 1); }
  }

  /** Scores stay in range, and only an extreme score stays as it is. */
  lemma StandingMoves(x: Standing)
    requires x.InRange()
    ensures x.Succ().InRange() && x.Fail().InRange()
    ensures if x.score == MAX_SCORE then x.Succ() == x else x.Succ().score > x.score && x.Succ().n > 0
    ensures if x.score == 0 then x.Fail() == x else x.Fail().score < x.score && x.Fail().n < 0
  {
    forall k: nat | 1 <= k <= MAX_N
      ensures Fib(k) > 0
    {
      FibPositive(k);
    }
  }

  class Elem {
    const index: nat
    var score: int
    var n: int

    constructor (i: nat)
      ensures index == i && Rank() == Standing(MIDDLE, 0)
    {
      index, score, n := i, MIDDLE, 0;
    }

    function Rank(): Standing
      reads this
    {
      Standing(score, n)
    }

    method Succ()
      requires Rank().InRange()
      modifies this
      ensures Rank() == old(Rank()).Succ()
    {
      if score == MAX_SCORE { return; }
      if n < 0 { n := 0; }
      if n < MAX_N { n := n + 1; }
      var f := ComputeFib(n);
      score := score + f;
      if score > MAX_SCORE { score := MAX_SCORE; }
    }

    method Fail()
      requires Rank().InRange()
      modifies this
      ensures Rank() == old(Rank()).Fail()
    {
      if score == 0 { return; }
      if n > 0 { n := 0; }
      if n > -MAX_N { n := n - 1; }
      var f := ComputeFib(-n);
      score := score - f;
      if score < 0 { score := 0; }
    }
  }

  // ----- moving one element of a sorted list

  function Without<T>(s: seq<T>, i: int): seq<T>
    requires 0 <= i < |s|
  {
    s[..i] + s[i + 1..]
  }

  /** Where the element at `p` comes from when the one at `i` moves to `j`. */
  function Origin(i: int, j: int, p: int): int {
    if p == j then i else
      var q := if p < j then p else p - 1;
      if q < i then q else q + 1
  }

  /** `s` with the element at `i` moved to `j`; the others keep their order. */
  function Moved<T>(s: seq<T>, i: int, j: int): (r: seq<T>)
    requires 0 <= i < |s| && 0 <= j < |s|
    ensures |r| == |s|
  {
    seq(|s|, p requires 0 <= p < |s| => s[Origin(i, j, p)])
  }

  predicate Descending(r: seq<Standing>) {
    forall i, j :: 0 <= i < j < |r| ==> r[i].score >= r[j].score
  }

  predicate Distinct<T(==)>(s: seq<T>) {
    forall i, j :: 0 <= i < j < |s| ==> s[i] != s[j]
  }

  /** Exchanging neighbours moves the element one place on. */
  lemma MovedOnce<T>(s: seq<T>, i: int, j: int, k: int)
    requires 0 <= i < |s| && 0 <= j < |s| && 0 <= k < |s|
    requires k == j + 1 || k == j - 1
    ensures var m := Moved(s, i, j); m[j] == s[i] && m[j := m[k]][k := m[j]] == Moved(s, i, k)
  {
  }

  /** What lies beyond the moved element has not moved yet. */
  lemma MovedAfter<T>(s: seq<T>, i: int, j: int)
    requires 0 <= i < |s| && 0 <= j < |s|
    ensures forall k :: i <= j < k < |s| || 0 <= k < j <= i ==> Moved(s, i, j)[k] == s[k]
  {
  }

  /** The places that the element passed close up. */
  lemma MovedBetween<T>(s: seq<T>, i: int, j: int)
    requires 0 <= i < |s| && 0 <= j < |s|
    ensures Moved(s, i, j)[j] == s[i]
    ensures i < j ==> Moved(s, i, j)[j - 1] == s[j]
    ensures j < i ==> Moved(s, i, j)[j + 1] == s[j]
  {
  }

  lemma MovedNot<T>(s: seq<T>, i: int)
    requires 0 <= i < |s|
    ensures Moved(s, i, i) == s
  {
  }

  lemma MovedWithout<T>(s: seq<T>, i: int, j: int)
    requires 0 <= i < |s| && 0 <= j < |s|
    ensures Without(Moved(s, i, j), j) == Without(s, i)
  {
  }

  lemma MovedKeepsAll<T>(s: seq<T>, i: int, j: int)
    requires 0 <= i < |s| && 0 <= j < |s| && Distinct(s)
    ensures Distinct(Moved(s, i, j))
    ensures forall x :: x in Moved(s, i, j) <==> x in s
  {
    forall x | x in s
      ensures x in Moved(s, i, j)
    {
      var p :| 0 <= p < |s| && s[p] == x;
      assert Moved(s, i, j)[Origin(j, i, p)] == x;
    }
  }

  /** All of `r[lo..hi]` have a higher score than `r[i]`. */
  predicate Better(r: seq<Standing>, i: int, lo: int, hi: int)
    requires 0 <= i < |r| && 0 <= lo <= hi <= |r|
  {
    forall k :: lo <= k < hi ==> r[k].score > r[i].score
  }

  /** All of `r[lo..hi]` have a lower score than `r[i]`. */
  predicate Worse(r: seq<Standing>, i: int, lo: int, hi: int)
    requires 0 <= i < |r| && 0 <= lo <= hi <= |r|
  {
    forall k :: lo <= k < hi ==> r[k].score < r[i].score
  }

  lemma OneMore(r: seq<Standing>, i: int, lo: int, hi: int)
    requires 0 <= i < |r| && 0 <= lo <= hi <= |r|
    ensures hi < |r| && Better(r, i, lo, hi) && r[hi].score > r[i].score ==> Better(r, i, lo, hi + 1)
    ensures lo > 0 && Worse(r, i, lo, hi) && r[lo - 1].score < r[i].score ==> Worse(r, i, lo - 1, hi)
  {
  }

  /** Exchanges the moving element with its next neighbour on the way. */
  method MoveOn<T>(a: array<T>, j: nat, k: nat, ghost s: seq<T>, ghost i: nat)
    requires j < a.Length && k < a.Length && i < |s| && |s| == a.Length
    requires (i <= j && k == j + 1) || (j <= i && k == j - 1)
    requires a[..] == Moved(s, i, j)
    modifies a
    ensures a[..] == Moved(s, i, k) && a[k] == s[i] && old(a[k]) == s[k]
  {
    MovedAfter(s, i, j);
    MovedOnce(s, i, j, k);
    a[j], a[k] := a[k], a[j];
    assert a[..] == Moved(s, i, j)[j := Moved(s, i, j)[k]][k := Moved(s, i, j)[j]];
  }

  /** Moves `a[i]` towards the end, past every smaller score. */
  method SiftDown(a: array<Elem>, i: nat) returns (j: nat)
    requires i < a.Length
    modifies a
    ensures i <= j < a.Length && a[..] == Moved(old(a[..]), i, j)
    ensures a[j] == old(a[i])
    ensures Better(old(Ranks(a[..])), i, i + 1, j + 1)
    ensures j + 1 < a.Length ==> a[j].score >= a[j + 1].score
  {
    ghost var s, r := a[..], Ranks(a[..]);
    j := i;
    MovedNot(s, i);
    assert Better(r, i, i + 1, i + 1) && Worse(r, i, i, i);
    hide Moved, Ranks, Better, Worse;
    while j < a.Length - 1 && a[j].score < a[j + 1].score
      invariant i <= j < a.Length && a[..] == Moved(s, i, j) && a[j] == s[i]
      invariant Ranks(s) == r && Better(r, i, i + 1, j + 1)
      decreases a.Length - j
    {
      MoveOn(a, j, j + 1, s, i);
      OneMore(r, i, i + 1, j + 1);
      j := j + 1;
    }
  }

  /** Moves `a[i]` towards the front, past every smaller score. */
  method SiftUp(a: array<Elem>, i: nat) returns (j: nat)
    requires i < a.Length
    modifies a
    ensures j <= i && a[..] == Moved(old(a[..]), i, j)
    ensures a[j] == old(a[i])
    ensures Worse(old(Ranks(a[..])), i, j, i)
    ensures j > 0 ==> a[j].score <= a[j - 1].score
  {
    ghost var s, r := a[..], Ranks(a[..]);
    j := i;
    MovedNot(s, i);
    assert Better(r, i, i + 1, i + 1) && Worse(r, i, i, i);
    hide Moved, Ranks, Better, Worse;
    while j > 0 && a[j].score > a[j - 1].score
      invariant j <= i && a[..] == Moved(s, i, j) && a[j] == s[i]
      invariant Ranks(s) == r && Worse(r, i, j, i)
    {
      MoveOn(a, j, j - 1, s, i);
      OneMore(r, i, j, i);
      j := j - 1;
    }
  }

  /** An element that fits between its neighbours completes a sorted list. */
  lemma FitsBetween(r: seq<Standing>, j: int)
    requires 0 <= j < |r| && Descending(Without(r, j))
    requires j + 1 < |r| ==> r[j].score >= r[j + 1].score
    requires j > 0 ==> r[j].score <= r[j - 1].score
    ensures Descending(r)
  {
    var w := Without(r, j);
    assert forall p :: 0 <= p < j ==> w[p] == r[p];
    assert forall p :: j < p < |r| ==> w[p - 1] == r[p];
    forall p, q | 0 <= p < q < |r|
      ensures r[p].score >= r[q].score
    {
      if p < j && q > j {
        assert w[p].score >= w[q - 1].score;
      } else if p == j {
        assert q > j + 1 ==> w[j].score >= w[q - 1].score;
      } else if q == j {
        assert p < j - 1 ==> w[p].score >= w[j - 1].score;
      } else if p > j {
        assert w[p - 1].score >= w[q - 1].score;
      } else {
        assert w[p].score >= w[q].score;
      }
    }
  }

  lemma DownSorted(r: seq<Standing>, i: int, j: int)
    requires 0 <= i < j < |r| && Descending(Without(r, i))
    requires Better(r, i, i + 1, j + 1)
    requires var m := Moved(r, i, j); j + 1 < |r| ==> m[j].score >= m[j + 1].score
    ensures Descending(Moved(r, i, j))
  {
    MovedWithout(r, i, j);
    MovedBetween(r, i, j);
    hide Moved, Descending;
    FitsBetween(Moved(r, i, j), j);
  }

  lemma UpSorted(r: seq<Standing>, i: int, j: int)
    requires 0 <= j <= i < |r| && Descending(Without(r, i))
    requires Worse(r, i, j, i)
    requires var m := Moved(r, i, j); j > 0 ==> m[j].score <= m[j - 1].score
    requires i + 1 < |r| ==> r[i].score >= r[i + 1].score
    ensures Descending(Moved(r, i, j))
  {
    MovedWithout(r, i, j);
    MovedBetween(r, i, j);
    MovedNot(r, i);
    hide Moved, Descending;
    FitsBetween(Moved(r, i, j), j);
  }

  lemma StaysSorted(r: seq<Standing>, j: int, i: int)
    requires 0 <= j <= i < |r| && Descending(r)
    requires Worse(r, i, j, i)
    ensures j == i
  {
    var x, y := r[j].score, r[i].score;
  }

  lemma WithoutUpdated(r: seq<Standing>, i: int, x: Standing)
    requires 0 <= i < |r| && Descending(r)
    ensures Without(r[i := x], i) == Without(r, i) && Descending(Without(r, i))
  {
    forall p, q | 0 <= p < q < |r| - 1
      ensures Without(r, i)[p].score >= Without(r, i)[q].score
    {
      var p', q' := if p < i then p else p + 1, if q < i then q else q + 1;
      assert r[p'].score >= r[q'].score;
    }
  }

  lemma MovedInRange(r: seq<Standing>, i: int, j: int)
    requires 0 <= i < |r| && 0 <= j < |r| && AllInRange(r)
    ensures AllInRange(Moved(r, i, j))
  {
  }

  // ----- counting

  ghost function Below(s: seq<Elem>): set<Elem>
    reads s
  {
    set e | e in s && e.score < MIDDLE
  }

  ghost function Above(s: seq<Elem>): set<Elem>
    reads s
  {
    set e | e in s && e.score > MIDDLE
  }

  lemma AsManyAsPlaces(s: seq<Elem>)
    requires Distinct(s)
    ensures |set e | e in s| == |s|
  {
    if s != [] {
      var init, last := s[..|s| - 1], s[|s| - 1];
      AsManyAsPlaces(init);
      assert (set e | e in s) == (set e | e in init) + {last};
    }
  }

  /** A set of elements of `s` that misses one of them is smaller than `s`, and otherwise as large. */
  lemma MissesOne(s: seq<Elem>, part: set<Elem>)
    requires Distinct(s) && forall e :: e in part ==> e in s
    ensures |part| < |s| <==> exists e :: e in s && e !in part
  {
    var all := set e | e in s;
    AsManyAsPlaces(s);
    if part != all {
      SmallerSet(part, all);
    }
  }

  lemma SmallerSet(a: set<Elem>, b: set<Elem>)
    requires a < b
    ensures |a| < |b|
  {
    assert b == a + (b - a);
  }

  function One(b: bool): int { if b then 1 else 0 }

  /** One element enters or leaves. */
  lemma OneMember(a: set<Elem>, b: set<Elem>, e: Elem)
    requires a - {e} == b - {e}
    ensures |b| == |a| - One(e in a) + One(e in b)
  {
    assert a == (a - {e}) + (if e in a then {e} else {});
    assert b == (b - {e}) + (if e in b then {e} else {});
  }

  // ----- re-centring

  function Sum(s: seq<int>): int {
    if s == [] then 0 else Sum(s[..|s| - 1]) + s[|s| - 1]
  }

  lemma SumBounds(s: seq<int>, lo: int, hi: int)
    requires forall k :: 0 <= k < |s| ==> lo <= s[k] <= hi
    ensures lo * |s| <= Sum(s) <= hi * |s|
  {
    if s != [] {
      SumBounds(s[..|s| - 1], lo, hi);
      assert lo * |s| == lo * (|s| - 1) + lo && hi * |s| == hi * (|s| - 1) + hi;
    }
  }

  function Mean(s: seq<int>): int
    requires s != []
  {
    Sum(s) / |s|
  }

  lemma MulLe(a: int, b: int, n: nat)
    requires a <= b
    ensures a * n <= b * n
  {
  }

  lemma DivBetween(x: int, n: nat, lo: int, hi: int)
    requires n > 0 && lo * n <= x <= hi * n
    ensures lo <= x / n <= hi
  {
    var q := x / n;
    assert x == q * n + x % n;
    if q < lo { MulLe(q + 1, lo, n); }
    if q > hi { MulLe(hi + 1, q, n); }
  }

  /** The floored mean lies between the extremes. */
  lemma MeanBounds(s: seq<int>, lo: int, hi: int)
    requires s != [] && forall k :: 0 <= k < |s| ==> lo <= s[k] <= hi
    ensures lo <= Mean(s) <= hi
  {
    SumBounds(s, lo, hi);
    hide Sum;
    DivBetween(Sum(s), |s|, lo, hi);
  }

  /** Some score reaches the floored mean, and some does not exceed it. */
  lemma MeanBetween(s: seq<int>)
    requires s != []
    ensures exists k :: 0 <= k < |s| && s[k] >= Mean(s)
    ensures exists k :: 0 <= k < |s| && s[k] <= Mean(s)
  {
    hide Mean;
    if forall k :: 0 <= k < |s| ==> s[k] < Mean(s) {
      MeanBounds(s, Least(s), Mean(s) - 1);
    }
    if forall k :: 0 <= k < |s| ==> s[k] > Mean(s) {
      assert forall k :: 0 <= k < |s| ==> Negated(s)[k] == -s[k];
      MeanBounds(s, Mean(s) + 1, -Least(Negated(s)));
    }
  }

  function Negated(s: seq<int>): seq<int> {
    seq(|s|, k requires 0 <= k < |s| => -s[k])
  }

  function Least(s: seq<int>): (m: int)
    requires s != []
    ensures forall k :: 0 <= k < |s| ==> m <= s[k]
  {
    if |s| == 1 then s[0] else
      var m := Least(s[1..]);
      assert forall k :: 1 <= k < |s| ==> s[k] == s[1..][k - 1];
      if s[0] < m then s[0] else m
  }

  ghost function Ranks(s: seq<Elem>): (r: seq<Standing>)
    reads s
    ensures |r| == |s|
    ensures forall k :: 0 <= k < |s| ==> r[k] == s[k].Rank()
  {
    seq(|s|, k requires 0 <= k < |s| reads s => s[k].Rank())
  }

  function Scores(r: seq<Standing>): seq<int> {
    seq(|r|, k requires 0 <= k < |r| => r[k].score)
  }

  predicate AllLow(r: seq<Standing>) {
    forall k :: 0 <= k < |r| ==> r[k].score < MIDDLE
  }

  predicate AllHigh(r: seq<Standing>) {
    forall k :: 0 <= k < |r| ==> r[k].score > MIDDLE
  }

  predicate AllInRange(r: seq<Standing>) {
    forall k :: 0 <= k < |r| ==> r[k].InRange()
  }

  /** What is added to every score: something only when all are on one side of the middle. */
  function Offset(r: seq<Standing>): int
    requires r != []
  {
    if AllLow(r) || AllHigh(r) then MIDDLE - Mean(Scores(r)) else 0
  }

  function Shifted(r: seq<Standing>, d: int): seq<Standing> {
    seq(|r|, k requires 0 <= k < |r| => r[k].(score := r[k].score + d))
  }

  /** What re-centring does to all candidates. */
  function Recentred(r: seq<Standing>): seq<Standing>
    requires r != []
  {
    Shifted(r, Offset(r))
  }

  /** Re-centring keeps the range and the order, and leaves neither side with everything. */
  lemma RecentredKeeps(r: seq<Standing>)
    requires r != [] && AllInRange(r) && Descending(r)
    ensures AllInRange(Recentred(r)) && Descending(Recentred(r))
    ensures !AllLow(Recentred(r)) && !AllHigh(Recentred(r))
  {
    OffsetCentres(r);
    var d, y := Offset(r), Recentred(r);
    hide Offset;
    var lo :| 0 <= lo < |r| && r[lo].score + d <= MIDDLE;
    var hi :| 0 <= hi < |r| && r[hi].score + d >= MIDDLE;
    assert y[lo].score <= MIDDLE && y[hi].score >= MIDDLE;
    assert forall k :: 0 <= k < |r| ==> 0 <= r[k].score + d <= MAX_SCORE && y[k] == r[k].(score := r[k].score + d);
  }

  lemma OffsetCentres(r: seq<Standing>)
    requires r != [] && AllInRange(r)
    ensures forall k :: 0 <= k < |r| ==> 0 <= r[k].score + Offset(r) <= MAX_SCORE
    ensures exists k :: 0 <= k < |r| && r[k].score + Offset(r) >= MIDDLE
    ensures exists k :: 0 <= k < |r| && r[k].score + Offset(r) <= MIDDLE
  {
    hide Mean;
    var s := Scores(r);
    assert forall k :: 0 <= k < |r| ==> s[k] == r[k].score;
    if AllLow(r) || AllHigh(r) {
      if AllLow(r) {
        MeanBounds(s, 0, MIDDLE - 1);
      } else {
        MeanBounds(s, MIDDLE + 1, MAX_SCORE);
      }
      MeanBetween(s);
      var hi :| 0 <= hi < |s| && s[hi] >= Mean(s);
      var lo :| 0 <= lo < |s| && s[lo] <= Mean(s);
      assert r[hi].score + Offset(r) >= MIDDLE && r[lo].score + Offset(r) <= MIDDLE;
    }
  }

  /** Re-centring puts the floored mean in the middle and keeps all differences. */
  lemma RecentredMean(r: seq<Standing>)
    requires r != []
    ensures AllLow(r) || AllHigh(r) ==> Mean(Scores(Recentred(r))) == 32
    ensures !AllLow(r) && !AllHigh(r) ==> Recentred(r) == r
    ensures forall p, q :: 0 <= p < |r| && 0 <= q < |r| ==>
      Recentred(r)[p].score - Recentred(r)[q].score == r[p].score - r[q].score
  {
    var d := Offset(r);
    assert Scores(Recentred(r)) == Raised(Scores(r), d);
    MeanRaised(Scores(r), d);
  }

  function Raised(s: seq<int>, d: int): seq<int> {
    seq(|s|, k requires 0 <= k < |s| => s[k] + d)
  }

  lemma MeanRaised(s: seq<int>, d: int)
    requires s != []
    ensures Mean(Raised(s, d)) == Mean(s) + d
  {
    SumRaised(s, d);
    DivPlus(Sum(s), d, |s|);
  }

  lemma {:induction false} SumRaised(s: seq<int>, d: int)
    ensures Sum(Raised(s, d)) == Sum(s) + d * |s|
  {
    if s != [] {
      var n := |s| - 1;
      SumRaised(s[..n], d);
      assert Raised(s, d)[..n] == Raised(s[..n], d);
      assert d * |s| == d * n + d;
    }
  }

  lemma DivPlus(x: int, d: int, n: nat)
    requires n > 0
    ensures (x + d * n) / n == x / n + d
  {
    var q := (x + d * n) / n;
    assert x + d * n == q * n + (x + d * n) % n;
    assert x == (x / n) * n + x % n;
    Between(q - d - x / n, n, x % n - (x + d * n) % n);
  }

  lemma Between(a: int, n: nat, b: int)
    requires n > 0 && a * n == b && b < n && -b < n
    ensures a == 0
  {
    if a >= 1 { MulLe(1, a, n); }
    if a <= -1 { MulLe(a, -1, n); }
  }

  lemma RanksMoved(s: seq<Elem>, i: int, j: int)
    requires 0 <= i < |s| && 0 <= j < |s|
    ensures Ranks(Moved(s, i, j)) == Moved(Ranks(s), i, j)
  {
  }

  lemma NothingToShift(r: seq<Standing>)
    requires r != [] && !AllLow(r) && !AllHigh(r)
    ensures Recentred(r) == r
  {
  }

  lemma NotAllBelow(s: seq<Elem>)
    requires Distinct(s)
    ensures |Below(s)| < |s| <==> !AllLow(Ranks(s))
  {
    MissesOne(s, Below(s));
    forall k | 0 <= k < |s|
      ensures s[k] in s && s[k] !in Below(s) <==> !(Ranks(s)[k].score < MIDDLE)
    {
    }
  }

  lemma NotAllAbove(s: seq<Elem>)
    requires Distinct(s)
    ensures |Above(s)| < |s| <==> !AllHigh(Ranks(s))
  {
    MissesOne(s, Above(s));
    forall k | 0 <= k < |s|
      ensures s[k] in s && s[k] !in Above(s) <==> !(Ranks(s)[k].score > MIDDLE)
    {
    }
  }

  /** The elements `s`, whose standings were `was`, all differ from `e` now as they did, but that `e` has
      the standing `rank` instead of its own. */
  ghost predicate Graded(s: seq<Elem>, was: seq<Standing>, e: Elem, rank: Standing)
    reads s, e
  {
    && |was| == |s| && e.n == rank.n
    && forall k :: 0 <= k < |s| && s[k] != e ==>
      e.score - s[k].score == rank.score - was[k].score && s[k].n == was[k].n
  }

  lemma RaisedAgainstAll(s: seq<Elem>, was: seq<Standing>, e: Elem, rank: Standing)
    requires rank.InRange() && Graded(s, was, e, rank.Succ())
    ensures forall k :: 0 <= k < |s| && s[k] != e ==>
      if rank.score == 64 then e.score - s[k].score == rank.score - was[k].score
      else e.score - s[k].score > rank.score - was[k].score
  {
    StandingMoves(rank);
    hide Standing.Succ;
  }

  lemma LoweredAgainstAll(s: seq<Elem>, was: seq<Standing>, e: Elem, rank: Standing)
    requires rank.InRange() && Graded(s, was, e, rank.Fail())
    ensures forall k :: 0 <= k < |s| && s[k] != e ==>
      if rank.score == 0 then e.score - s[k].score == rank.score - was[k].score
      else e.score - s[k].score < rank.score - was[k].score
  {
    StandingMoves(rank);
    hide Standing.Fail;
  }

  /** Where the element that was at `k` is after a move. */
  function PlaceOf(i: int, j: int, k: int): int {
    if k == i then j else
      var q := if k < i then k else k - 1;
      if q < j then q else q + 1
  }

  lemma GradedByMove(s: seq<Elem>, t: seq<Elem>, was: seq<Standing>, rank: Standing, i: nat, j: nat)
    requires i < |s| == |was| && j < |s| && t == Moved(s, i, j)
    requires Ranks(t) == Recentred(Moved(was[i := rank], i, j))
    ensures Graded(s, was, s[i], rank)
    ensures forall x :: x in t <==> x in s
  {
    var r := was[i := rank];
    forall k | 0 <= k < |s|
      ensures s[k].Rank() == r[k].(score := r[k].score + Offset(Moved(r, i, j))) && s[k] in t
    {
      var p := PlaceOf(i, j, k);
      assert Origin(i, j, p) == k && t[p] == s[k];
      assert Ranks(t)[p] == s[k].Rank();
    }
    forall x | x in t
      ensures x in s
    {
      var p :| 0 <= p < |t| && t[p] == x;
      assert s[Origin(i, j, p)] == x;
    }
  }

  method NewElems(n: nat) returns (list: array<Elem>)
    requires n > 0
    ensures fresh(list) && list.Length == n
    ensures forall k :: 0 <= k < n ==>
      fresh(list[k]) && list[k].index == k && list[k].Rank() == Standing(MIDDLE, 0)
  {
    var first := new Elem(0);
    list := new Elem[n](_ => first);
    for i := 0 to n
      invariant fresh(list) && list.Length == n
      invariant forall k :: 0 <= k < n ==> fresh(list[k]) && list[k].Rank() == Standing(MIDDLE, 0)
      invariant forall k :: 0 <= k < i ==> list[k].index == k
    {
      list[i] := new Elem(i);
    }
  }

  class Queue {
    const elems: array<Elem>
    var recent: Elem?
    var nLowScore: int
    var nHighScore: int

    /** The counters are true counts. */
    ghost predicate Counted()
      reads this`nLowScore, this`nHighScore, elems, elems[..]
    {
      nLowScore == |Below(elems[..])| && nHighScore == |Above(elems[..])|
    }

    ghost predicate Ranked()
      reads elems, elems[..]
    {
      && elems.Length > 0 && Distinct(elems[..])
      && Descending(Ranks(elems[..])) && AllInRange(Ranks(elems[..]))
    }

    ghost predicate Valid()
      reads this`nLowScore, this`nHighScore, elems, elems[..]
    {
      Ranked() && Counted() && nLowScore < elems.Length && nHighScore < elems.Length
    }

    method ScoreChanged(oldScore: int, newScore: int)
      modifies this`nLowScore, this`nHighScore
      ensures nLowScore == old(nLowScore) - One(oldScore < MIDDLE) + One(newScore < MIDDLE)
      ensures nHighScore == old(nHighScore) - One(oldScore > MIDDLE) + One(newScore > MIDDLE)
    {
      if oldScore < MIDDLE {
        if newScore > MIDDLE {
          nLowScore := nLowScore - 1;
          nHighScore := nHighScore + 1;
        } else if newScore == MIDDLE {
          nLowScore := nLowScore - 1;
        }
      } else if oldScore > MIDDLE {
        if newScore < MIDDLE {
          nLowScore := nLowScore + 1;
          nHighScore := nHighScore - 1;
        } else if newScore == MIDDLE {
          nHighScore := nHighScore - 1;
        }
      } else {
        if newScore < MIDDLE {
          nLowScore := nLowScore + 1;
        } else if newScore > MIDDLE {
          nHighScore := nHighScore + 1;
        }
      }
    }

    /** Gives `e` a new score and recounts. */
    method SetScore(e: Elem, score: int)
      requires e in elems[..] && Counted()
      modifies this`nLowScore, this`nHighScore, e`score
      ensures e.score == score && Counted()
    {
      ghost var low, high := Below(elems[..]), Above(elems[..]);
      var oldScore := e.score;
      e.score := score;
      ScoreChanged(oldScore, score);
      OneMember(low, Below(elems[..]), e);
      OneMember(high, Above(elems[..]), e);
    }

    function TailScores(): (r: seq<int>)
      requires elems.Length > 0
      reads elems, elems[..]
      ensures |r| == elems.Length - 1
    {
      seq(elems.Length - 1, k requires 0 <= k < elems.Length - 1 reads elems, elems[..] => elems[k + 1].score)
    }

    /** The counters guarantee that the best score is not low. */
    lemma TopNotLow()
      requires Ranked() && Counted() && nLowScore < elems.Length
      ensures elems[0].score >= MIDDLE
    {
      MissesOne(elems[..], Below(elems[..]));
      var e :| e in elems[..] && e !in Below(elems[..]);
      var k :| 0 <= k < elems.Length && elems[k] == e;
      assert k > 0 ==> Ranks(elems[..])[0].score >= Ranks(elems[..])[k].score;
    }

    /** The first `n` candidates and no others have the best score. */
    ghost predicate Ties(n: nat)
      reads elems, elems[..]
    {
      && 0 < n <= elems.Length
      && (forall k :: 0 <= k < n ==> elems[k].score == elems[0].score)
      && (forall k :: n <= k < elems.Length ==> elems[k].score < elems[0].score)
    }

    method CountTies() returns (n: nat)
      requires Ranked()
      ensures Ties(n)
    {
      var top, scores := elems[0].score, TailScores();
      assert forall k :: 1 <= k < elems.Length ==> elems[k].score == scores[k - 1];
      assert forall i, j :: 0 <= i < j < |scores| ==> scores[i] >= scores[j] by {
        forall i, j | 0 <= i < j < |scores|
          ensures scores[i] >= scores[j]
        {
          assert Ranks(elems[..])[i + 1].score >= Ranks(elems[..])[j + 1].score;
        }
      }
      assert forall k :: 1 <= k < elems.Length ==> Ranks(elems[..])[0].score >= Ranks(elems[..])[k].score;
      var f := (k: int) => 0 <= k < |scores| && scores[k] < top;
      n := Search(|scores|, f);
      n := n + 1;
      forall k | 1 <= k < elems.Length
        ensures if k < n then elems[k].score == top else elems[k].score < top
      {
        assert k < n <==> !f(k - 1);
        assert Ranks(elems[..])[0].score >= Ranks(elems[..])[k].score;
      }
    }

    /** One of the candidates that are tied at the top, by the number `random`. */
    method Pick(random: nat) returns (e: Elem, sameOld: bool, ghost ties: nat)
      requires Valid()
      modifies this`recent
      ensures Valid()
      ensures Ties(ties) && 0 < ties <= elems.Length && e == elems[random % ties]
      ensures e.score >= MIDDLE
      ensures recent == e && (sameOld <==> old(recent) == e)
    {
      TopNotLow();
      var n := CountTies();
      hide Ranked, Counted;
      e := elems[random % n];
      ties := n;
      sameOld := e == recent;
      recent := e;
    }

    constructor (n: nat)
      requires n > 0
      ensures Valid() && fresh(elems) && fresh(elems[..]) && elems.Length == n
      ensures forall k :: 0 <= k < n ==> elems[k].index == k && elems[k].Rank() == Standing(MIDDLE, 0)
    {
      var list := NewElems(n);
      elems, recent, nLowScore, nHighScore := list, null, 0, 0;
      new;
      assert Below(elems[..]) == {} && Above(elems[..]) == {};
    }

    /** The counters say whether all scores are on one side. */
    lemma CountersTell()
      requires Ranked() && Counted()
      ensures nLowScore < elems.Length <==> !AllLow(Ranks(elems[..]))
      ensures nHighScore < elems.Length <==> !AllHigh(Ranks(elems[..]))
    {
      NotAllBelow(elems[..]);
      NotAllAbove(elems[..]);
    }

    method Total() returns (total: int)
      ensures total == Sum(Scores(Ranks(elems[..])))
    {
      ghost var scores := Scores(Ranks(elems[..]));
      total := 0;
      for k := 0 to elems.Length
        invariant total == Sum(scores[..k])
      {
        assert scores[..k + 1][..k] == scores[..k];
        total := total + elems[k].score;
      }
      assert scores[..elems.Length] == scores;
    }

    method Shift(offset: int)
      requires Distinct(elems[..]) && Counted()
      modifies this`nLowScore, this`nHighScore, elems[..]
      ensures Counted()
      ensures Ranks(elems[..]) == Shifted(old(Ranks(elems[..])), offset)
    {
      hide Counted;
      ghost var ranks := Ranks(elems[..]);
      for k := 0 to elems.Length
        invariant Counted()
        invariant forall m :: 0 <= m < elems.Length ==>
          elems[m].Rank() == ranks[m].(score := ranks[m].score + if m < k then offset else 0)
      {
        assert forall m :: 0 <= m < elems.Length && m != k ==> elems[..][m] != elems[..][k];
        SetScore(elems[k], elems[k].score + offset);
      }
    }

    /** Shifts all scores when they are all on one side of the middle. */
    method Recentre()
      requires Ranked() && Counted()
      modifies this`nLowScore, this`nHighScore, elems[..]
      ensures Valid()
      ensures Ranks(elems[..]) == Recentred(old(Ranks(elems[..])))
    {
      CountersTell();
      ghost var ranks := Ranks(elems[..]);
      if nLowScore < elems.Length && nHighScore < elems.Length {
        NothingToShift(ranks);
        return;
      }
      RecentredKeeps(ranks);
      var totalScore := Total();
      var offset := MIDDLE - totalScore / elems.Length;
      assert Recentred(ranks) == Shifted(ranks, offset);
      hide Sum, Counted, AllInRange, Descending, AllLow, AllHigh, Recentred;
      Shift(offset);
      CountersTell();
    }

    method IndexOf(e: Elem) returns (i: nat)
      requires e in elems[..]
      ensures i < elems.Length && elems[i] == e
    {
      i := 0;
      while elems[i] != e
        invariant 0 <= i < elems.Length && e in elems[i..]
        decreases elems.Length - i
      {
        i := i + 1;
      }
    }

    /** Puts the candidate at `i`, the only one out of place, where it belongs. */
    method Sift(i: nat) returns (ghost j: nat)
      requires i < elems.Length && Descending(Without(Ranks(elems[..]), i))
      modifies elems
      ensures j < elems.Length && elems[..] == Moved(old(elems[..]), i, j)
      ensures Descending(Ranks(elems[..]))
    {
      hide Moved, Descending, Without, Ranks;
      ghost var s, r := elems[..], Ranks(elems[..]);
      var down := SiftDown(elems, i);
      ghost var s1 := elems[..];
      RanksMoved(s, i, down);
      MovedNot(s, i);
      if down > i {
        DownSorted(r, i, down);
      }
      var up := SiftUp(elems, i);
      j := if down > i then down else up;
      RanksMoved(s1, i, up);
      if down > i {
        StaysSorted(Ranks(s1), up, i);
        MovedNot(s1, i);
      } else {
        UpSorted(r, i, up);
      }
    }

    /**
     * A success or a failure of `e` moves it to a place that its new score fits, keeps the order
     * of the others, and shifts all scores when they end up on one side.
     */
    method Fix(e: Elem, success: bool) returns (ghost i: nat, ghost j: nat)
      requires Valid() && e in elems[..]
      modifies this`nLowScore, this`nHighScore, elems, elems[..]
      ensures Valid()
      ensures i < elems.Length && j < elems.Length && old(elems[i]) == e
      ensures elems[..] == Moved(old(elems[..]), i, j)
      ensures var rank := if success then old(e.Rank()).Succ() else old(e.Rank()).Fail();
        && Ranks(elems[..]) == Recentred(Moved(old(Ranks(elems[..]))[i := rank], i, j))
        && Graded(old(elems[..]), old(Ranks(elems[..])), e, rank)
      ensures forall x :: x in elems[..] <==> x in old(elems[..])
    {
      hide Valid, Moved, Recentred, Standing.Succ, Standing.Fail, Graded;
      ghost var s, r, rank := elems[..], Ranks(elems[..]), if success then e.Rank().Succ() else e.Rank().Fail();
      i, j := Rerank(e, success);
      GradedByMove(s, elems[..], r, rank, i, j);
    }

    method Rerank(e: Elem, success: bool) returns (ghost i: nat, ghost j: nat)
      requires Valid() && e in elems[..]
      modifies this`nLowScore, this`nHighScore, elems, elems[..]
      ensures Valid()
      ensures i < elems.Length && j < elems.Length && old(elems[i]) == e
      ensures elems[..] == Moved(old(elems[..]), i, j)
      ensures var rank := if success then old(e.Rank()).Succ() else old(e.Rank()).Fail();
        Ranks(elems[..]) == Recentred(Moved(old(Ranks(elems[..]))[i := rank], i, j))
    {
      hide Valid, Ranks, Distinct, Descending, Without, Moved, Recentred, AllInRange;
      hide Standing.Succ, Standing.Fail, Below, Above;
      var at := IndexOf(e);
      i := at;
      Settled();
      ghost var s, r := elems[..], Ranks(elems[..]);
      assert r[i := r[i]] == r;
      var oldScore := e.score;
      Grade(at, success);
      if e.score == oldScore {
        j := i;
        assert Ranks(elems[..]) == r;
        MovedNot(s, i);
        MovedNot(r, i);
        return;
      }
      j := Place(at, oldScore);
    }

    /** In a valid queue there is nothing to re-centre. */
    lemma Settled()
      requires Valid()
      ensures Recentred(Ranks(elems[..])) == Ranks(elems[..])
      ensures Distinct(elems[..]) && |Ranks(elems[..])| == elems.Length
    {
      CountersTell();
      NothingToShift(Ranks(elems[..]));
    }

    /** Gives the candidate at `i` its new score; it may be out of place and miscounted then. */
    method Grade(i: nat, success: bool)
      requires Valid() && i < elems.Length
      modifies elems[i]
      ensures var rank := if success then old(elems[i].Rank()).Succ() else old(elems[i].Rank()).Fail();
        && Ranks(elems[..]) == old(Ranks(elems[..]))[i := rank]
        && (elems[i].score == old(elems[i].score) ==> Valid() && rank == old(Ranks(elems[..]))[i])
      ensures Descending(Without(Ranks(elems[..]), i)) && AllInRange(Ranks(elems[..]))
      ensures nLowScore == |Below(elems[..])| - One(elems[i].score < MIDDLE) + One(old(elems[i].score) < MIDDLE)
      ensures nHighScore == |Above(elems[..])| - One(elems[i].score > MIDDLE) + One(old(elems[i].score) > MIDDLE)
    {
      hide Standing.Succ, Standing.Fail, Descending, Without;
      ghost var s, r := elems[..], Ranks(elems[..]);
      ghost var low, high := Below(s), Above(s);
      var e := elems[i];
      StandingMoves(r[i]);
      if success {
        e.Succ();
      } else {
        e.Fail();
      }
      assert forall k :: 0 <= k < |s| && k != i ==> s[k] != s[i];
      assert Ranks(s) == r[i := e.Rank()];
      WithoutUpdated(r, i, e.Rank());
      OneMember(low, Below(s), e);
      OneMember(high, Above(s), e);
      assert e.score == r[i].score ==> Ranks(s) == r;
    }

    /** Moves the candidate at `i`, whose score was `oldScore`, and brings the counters up to date. */
    method Place(i: nat, oldScore: int) returns (ghost j: nat)
      requires i < elems.Length && Distinct(elems[..])
      requires Descending(Without(Ranks(elems[..]), i)) && AllInRange(Ranks(elems[..]))
      requires nLowScore == |Below(elems[..])| - One(elems[i].score < MIDDLE) + One(oldScore < MIDDLE)
      requires nHighScore == |Above(elems[..])| - One(elems[i].score > MIDDLE) + One(oldScore > MIDDLE)
      modifies this`nLowScore, this`nHighScore, elems, elems[..]
      ensures Valid()
      ensures j < elems.Length && elems[..] == Moved(old(elems[..]), i, j)
      ensures Ranks(elems[..]) == Recentred(Moved(old(Ranks(elems[..])), i, j))
    {
      hide Descending, Moved, Recentred, Without;
      ghost var s := elems[..];
      var newScore := elems[i].score;
      j := Sift(i);
      MovedKeepsAll(s, i, j);
      RanksMoved(s, i, j);
      MovedInRange(Ranks(s), i, j);
      assert Below(elems[..]) == Below(s) && Above(elems[..]) == Above(s);
      ScoreChanged(oldScore, newScore);
      assert forall k :: 0 <= k < elems.Length ==> elems[..][k] in s;
      Recentre();
    }
  }

  // ----- connections that report to the queue

  /** A connection that was dialled through the candidate `e`. */
  class Conn {
    const q: Queue
    const e: Elem
    var success: bool
    var failure: bool
    var readFailed: bool

    /** What was reported so far, successes as true. */
    ghost var reports: seq<bool>

    /** A success is reported at most once, and so is a failure, and never after a success. */
    ghost predicate Valid()
      reads this
    {
      && (success <==> true in reports) && (failure <==> false in reports)
      && reports in {[], [true], [false], [false, true]}
    }

    constructor (q: Queue, e: Elem)
      ensures Valid() && this.q == q && this.e == e && reports == []
    {
      this.q, this.e, success, failure, readFailed, reports := q, e, false, false, false, [];
    }

    lemma InQueue()
      requires q.Valid() && e in q.elems[..]
      ensures e.Rank().InRange()
      ensures |Ranks(q.elems[..])| == q.elems.Length
      ensures forall k :: 0 <= k < q.elems.Length ==> Ranks(q.elems[..])[k].score == q.elems[k].score
    {
      var k :| 0 <= k < q.elems.Length && q.elems[..][k] == e;
      assert Ranks(q.elems[..])[k] == e.Rank();
    }

    /** Tells the queue of a success or a failure, which moves the score of `e` against all others. */
    method Report(ok: bool)
      requires q.Valid() && e in q.elems[..]
      modifies q`nLowScore, q`nHighScore, q.elems, q.elems[..]
      ensures q.Valid()
      ensures Graded(old(q.elems[..]), old(Ranks(q.elems[..])), e,
        if ok then old(e.Rank()).Succ() else old(e.Rank()).Fail())
      ensures forall k :: 0 <= k < q.elems.Length && old(q.elems[k]) != e ==>
        var nowBy, thenBy := e.score - old(q.elems[k]).score, old(e.score - q.elems[k].score);
        if old(e.score) == (if ok then 64 else 0) then nowBy == thenBy
        else if ok then nowBy > thenBy else nowBy < thenBy
      ensures forall x :: x in q.elems[..] <==> x in old(q.elems[..])
    {
      hide Queue.Valid, Recentred, Moved, Standing.Succ, Standing.Fail, Graded, Ranks;
      ghost var s, r, rank := q.elems[..], Ranks(q.elems[..]), e.Rank();
      InQueue();
      ghost var i, j := q.Fix(e, ok);
      if ok {
        RaisedAgainstAll(s, r, e, rank);
      } else {
        LoweredAgainstAll(s, r, e, rank);
      }
    }

    /** A read that gave `n` bytes and maybe an error: the first bytes raise the candidate against all others. */
    method Read(n: nat, err: bool)
      requires Valid() && q.Valid() && e in q.elems[..]
      modifies this, q`nLowScore, q`nHighScore, q.elems, q.elems[..]
      ensures Valid() && q.Valid() && e in q.elems[..]
      ensures reports == if n > 0 && !old(success) then old(reports) + [true] else old(reports)
      ensures success == (old(success) || n > 0)
      ensures reports == old(reports) ==>
        q.elems[..] == old(q.elems[..]) && Ranks(q.elems[..]) == old(Ranks(q.elems[..]))
      ensures reports != old(reports) ==> Graded(old(q.elems[..]), old(Ranks(q.elems[..])), e, old(e.Rank()).Succ())
      ensures reports != old(reports) ==>
        forall k :: 0 <= k < q.elems.Length && old(q.elems[k]) != e ==>
          if old(e.score) == 64 then e.score - old(q.elems[k]).score == old(e.score - q.elems[k].score)
          else e.score - old(q.elems[k]).score > old(e.score - q.elems[k].score)
      ensures forall x :: x in q.elems[..] <==> x in old(q.elems[..])
      ensures failure == old(failure) && readFailed == (old(readFailed) || err)
    {
      hide Queue.Valid, Graded, Standing.Succ, Standing.Fail, Ranks;
      if n > 0 && !success {
        success := true;
        assert [] + [true] == [true] && [false] + [true] == [false, true];
        reports := reports + [true];
        Report(true);
      }
      if err {
        readFailed := true;
      }
    }

    /** Closing after a failed read and no bytes at all lowers the candidate against all others. */
    method Close()
      requires Valid() && q.Valid() && e in q.elems[..]
      modifies this, q`nLowScore, q`nHighScore, q.elems, q.elems[..]
      ensures Valid() && q.Valid() && e in q.elems[..]
      ensures reports == if !old(success) && !old(failure) && readFailed then old(reports) + [false] else old(reports)
      ensures reports == old(reports) ==>
        q.elems[..] == old(q.elems[..]) && Ranks(q.elems[..]) == old(Ranks(q.elems[..]))
      ensures reports != old(reports) ==> Graded(old(q.elems[..]), old(Ranks(q.elems[..])), e, old(e.Rank()).Fail())
      ensures reports != old(reports) ==>
        forall k :: 0 <= k < q.elems.Length && old(q.elems[k]) != e ==>
          if old(e.score) == 0 then e.score - old(q.elems[k]).score == old(e.score - q.elems[k].score)
          else e.score - old(q.elems[k]).score < old(e.score - q.elems[k].score)
      ensures forall x :: x in q.elems[..] <==> x in old(q.elems[..])
      ensures success == old(success) && readFailed == old(readFailed)
    {
      hide Queue.Valid, Graded, Standing.Succ, Standing.Fail, Ranks;
      if !success && !failure && readFailed {
        failure := true;
        assert [] + [false] == [false];
        reports := reports + [false];
        Report(false);
      }
    }
  }
}
