// Sets of IP addresses, kept as sorted, separate ranges.
module AddrRanges {
  import opened Basics

  /** An address without a zone: its width in bits and its value. */
  datatype Addr = Addr(width: nat, value: nat)

  /** Addresses are ordered by width first. */
  predicate Less(a: Addr, b: Addr) {
    a.width < b.width || (a.width == b.width && a.value < b.value)
  }

  predicate AtMost(a: Addr, b: Addr) { !Less(b, a) }

  datatype AddrRange = AddrRange(low: Addr, high: Addr)

  type Ranges = seq<AddrRange>

  predicate InRange(r: AddrRange, v: Addr) {
    AtMost(r.low, v) && Less(v, r.high)
  }

  /** `v` lies in one of the ranges. */
  predicate Holds(s: Ranges, v: Addr) {
    exists i :: 0 <= i < |s| && InRange(s[i], v)
  }

  /** Every range holds something, and each ends before the next begins. */
  predicate Separate(s: Ranges) {
    && (forall i :: 0 <= i < |s| ==> Less(s[i].low, s[i].high))
    && (forall i, j :: 0 <= i < j < |s| ==> Less(s[i].high, s[j].low))
  }

  // ----- the canonical form

  /** The first range is determined by the addresses that are held. */
  lemma SameFirst(s: Ranges, t: Ranges)
    requires Separate(s) && Separate(t) && s != [] && t != []
    requires forall v :: Holds(s, v) <==> Holds(t, v)
    ensures s[0] == t[0]
  {
    LowestHeld(s, t);
    LowestHeld(t, s);
    EndOfFirst(s, t);
    EndOfFirst(t, s);
  }

  lemma LowestHeld(s: Ranges, t: Ranges)
    requires Separate(s) && Separate(t) && s != [] && t != []
    requires forall v :: Holds(s, v) ==> Holds(t, v)
    ensures AtMost(t[0].low, s[0].low)
  {
    assert InRange(s[0], s[0].low);
    assert Holds(s, s[0].low);
    var i :| 0 <= i < |t| && InRange(t[i], s[0].low);
  }

  lemma EndOfFirst(s: Ranges, t: Ranges)
    requires Separate(s) && Separate(t) && s != [] && t != []
    requires forall v :: Holds(s, v) ==> Holds(t, v)
    requires s[0].low == t[0].low
    ensures AtMost(s[0].high, t[0].high)
  {
    if Less(t[0].high, s[0].high) {
      assert InRange(s[0], t[0].high);
      assert Holds(s, t[0].high);
    }
  }

  lemma TailHolds(s: Ranges, v: Addr)
    requires Separate(s) && s != []
    ensures Separate(s[1..])
    ensures Holds(s[1..], v) <==> Holds(s, v) && !InRange(s[0], v)
  {
    if Holds(s[1..], v) {
      var i :| 0 <= i < |s[1..]| && InRange(s[1..][i], v);
      assert s[1..][i] == s[i + 1] && Less(s[0].high, s[i + 1].low);
    }
    if Holds(s, v) && !InRange(s[0], v) {
      var i :| 0 <= i < |s| && InRange(s[i], v);
      assert s[1..][i - 1] == s[i];
    }
  }

  /** Separate ranges that hold the same addresses are the same ranges. */
  lemma {:induction false} Canonical(s: Ranges, t: Ranges)
    requires Separate(s) && Separate(t)
    requires forall v :: Holds(s, v) <==> Holds(t, v)
    ensures s == t
  {
    if s == [] && t != [] {
      assert InRange(t[0], t[0].low);
      assert Holds(t, t[0].low);
    } else if s != [] && t == [] {
      assert InRange(s[0], s[0].low);
      assert Holds(s, s[0].low);
    } else if s != [] {
      SameFirst(s, t);
      assert Separate(s[1..]) && Separate(t[1..]) by { TailHolds(s, s[0].low); TailHolds(t, s[0].low); }
      forall v
        ensures Holds(s[1..], v) <==> Holds(t[1..], v)
      {
        TailHolds(s, v);
        TailHolds(t, v);
      }
      Canonical(s[1..], t[1..]);
      assert s == [s[0]] + s[1..] && t == [t[0]] + t[1..];
    }
  }

  // ----- adding a range

  /** The ranges before `i` and from `j` on, and one new range in between. */
  function Spliced(s: Ranges, i: nat, j: nat, r: AddrRange): Ranges
    requires i <= j <= |s|
  {
    s[..i] + [r] + s[j..]
  }

  lemma SplicedSeparate(s: Ranges, i: nat, j: nat, r: AddrRange)
    requires Separate(s) && i <= j <= |s| && Less(r.low, r.high)
    requires i > 0 ==> Less(s[i - 1].high, r.low)
    requires j < |s| ==> Less(r.high, s[j].low)
    ensures Separate(Spliced(s, i, j, r))
  {
    var t := Spliced(s, i, j, r);
    forall k | 0 <= k < i
      ensures t[k] == s[k] && AtMost(s[k].high, s[i - 1].high)
    {
      assert k == i - 1 || Less(s[k].high, s[i - 1].low);
    }
    forall k | i < k < |t|
      ensures t[k] == s[k - i - 1 + j] && AtMost(s[j].low, s[k - i - 1 + j].low)
    {
      assert k == i + 1 || Less(s[j].high, s[k - i - 1 + j].low);
    }
  }

  lemma SplicedHolds(s: Ranges, i: nat, j: nat, r: AddrRange, v: Addr)
    requires i <= j <= |s|
    ensures Holds(Spliced(s, i, j, r), v) <==> InRange(r, v) || Holds(s[..i], v) || Holds(s[j..], v)
  {
    var t := Spliced(s, i, j, r);
    if InRange(r, v) { assert t[i] == r; }
    if Holds(s[..i], v) {
      var k :| 0 <= k < i && InRange(s[..i][k], v);
      assert t[k] == s[..i][k];
    }
    if Holds(s[j..], v) {
      var k :| 0 <= k < |s| - j && InRange(s[j..][k], v);
      assert t[i + 1 + k] == s[j..][k];
    }
    if Holds(t, v) {
      var k :| 0 <= k < |t| && InRange(t[k], v);
      if k < i {
        assert s[..i][k] == t[k];
      } else if k > i {
        assert s[j..][k - i - 1] == t[k];
      }
    }
  }

  lemma SplitHolds(s: Ranges, i: nat, j: nat, v: Addr)
    requires i <= j <= |s|
    ensures Holds(s, v) <==> Holds(s[..i], v) || Holds(s[i..j], v) || Holds(s[j..], v)
  {
    if Holds(s, v) {
      var k :| 0 <= k < |s| && InRange(s[k], v);
      if k < i {
        assert s[..i][k] == s[k];
      } else if k < j {
        assert s[i..j][k - i] == s[k];
      } else {
        assert s[j..][k - j] == s[k];
      }
    }
  }

  /** What the two searches find: `i` ranges begin no later than `lo`, and the ranges from `j` on end after `hi`. */
  predicate Located(s: Ranges, lo: Addr, hi: Addr, i: nat, j: nat) {
    && i <= |s| && j <= |s| && i <= j + 1
    && (forall k :: 0 <= k < i ==> AtMost(s[k].low, lo))
    && (forall k :: i <= k < |s| ==> Less(lo, s[k].low))
    && (forall k :: 0 <= k < j && i - 1 <= k ==> AtMost(s[k].high, hi))
    && (forall k :: j <= k < |s| ==> Less(hi, s[k].high))
  }

  /** One range covers the new one. */
  lemma InsideOne(s: Ranges, lo: Addr, hi: Addr, i: nat, j: nat)
    requires Separate(s) && Located(s, lo, hi, i, j) && i > j
    ensures forall v :: InRange(AddrRange(lo, hi), v) ==> Holds(s, v)
  {
    forall v | InRange(AddrRange(lo, hi), v)
      ensures Holds(s, v)
    {
      assert InRange(s[j], v);
    }
  }

  /** The range `r` that replaces the ranges from `i` to `j` adds exactly what is new. */
  ghost predicate Widens(s: Ranges, lo: Addr, hi: Addr, p: nat, q: nat, i: nat, j: nat, r: AddrRange) {
    && Separate(s) && Located(s, lo, hi, p, q) && p <= q
    && (if p > 0 && AtMost(lo, s[p - 1].high) then i == p - 1 && r.low == s[i].low else i == p && r.low == lo)
    && (if q < |s| && AtMost(s[q].low, hi) then j == q + 1 && r.high == s[q].high else j == q && r.high == hi)
    && (i < j || Less(r.low, r.high))
  }

  lemma WidenedCovers(s: Ranges, lo: Addr, hi: Addr, p: nat, q: nat, i: nat, j: nat, r: AddrRange, v: Addr)
    requires Widens(s, lo, hi, p, q, i, j, r)
    ensures InRange(r, v) <==> Holds(s[i..j], v) || InRange(AddrRange(lo, hi), v)
  {
    if InRange(r, v) && !InRange(AddrRange(lo, hi), v) {
      var k := if Less(v, lo) then p - 1 else q;
      assert InRange(s[i..j][k - i], v);
    } else if Holds(s[i..j], v) {
      var k :| 0 <= k < j - i && InRange(s[i..j][k], v);
      WidenedEnds(s, lo, hi, p, q, i, j, r, i + k);
    }
  }

  lemma WidenedEnds(s: Ranges, lo: Addr, hi: Addr, p: nat, q: nat, i: nat, j: nat, r: AddrRange, k: nat)
    requires Widens(s, lo, hi, p, q, i, j, r) && i <= k < j <= |s|
    ensures AtMost(r.low, s[k].low) && AtMost(s[k].high, r.high)
  {
    assert k == i || Less(s[i].high, s[k].low);
    assert k == j - 1 || Less(s[k].high, s[j - 1].low);
  }

  lemma NotEmpty(s: Ranges, lo: Addr, hi: Addr, p: nat, q: nat, i: nat, j: nat, r: AddrRange)
    requires Widens(s, lo, hi, p, q, i, j, r)
    ensures Less(r.low, r.high)
  {
    if i < p {
      assert AtMost(s[i].high, hi);
    } else if q < j {
      assert Less(lo, s[q].low);
    } else if p < q {
      assert Less(lo, s[p].low) && AtMost(s[p].high, hi);
    }
  }

  lemma Widened(s: Ranges, lo: Addr, hi: Addr, p: nat, q: nat, i: nat, j: nat, r: AddrRange)
    requires Widens(s, lo, hi, p, q, i, j, r)
    ensures i <= j <= |s| && Separate(Spliced(s, i, j, r))
    ensures forall v :: Holds(Spliced(s, i, j, r), v) <==> Holds(s, v) || InRange(AddrRange(lo, hi), v)
  {
    NotEmpty(s, lo, hi, p, q, i, j, r);
    SplicedSeparate(s, i, j, r);
    forall v
      ensures Holds(Spliced(s, i, j, r), v) <==> Holds(s, v) || InRange(AddrRange(lo, hi), v)
    {
      SplicedHolds(s, i, j, r, v);
      SplitHolds(s, i, j, v);
      WidenedCovers(s, lo, hi, p, q, i, j, r, v);
    }
  }

  class AddrRangeSet {
    var ranges: Ranges

    constructor ()
      ensures ranges == []
    {
      ranges := [];
    }

    method Add(r: AddrRange)
      requires Separate(ranges)
      modifies this
      ensures Separate(ranges)
      ensures forall v :: Holds(ranges, v) <==> Holds(old(ranges), v) || InRange(r, v)
    {
      AddRange(r.low, r.high);
    }

    /** The number of ranges that begin at `lo` or before. */
    method Begun(lo: Addr) returns (i: nat)
      requires Separate(ranges)
      ensures i <= |ranges|
      ensures forall k :: 0 <= k < i ==> AtMost(ranges[k].low, lo)
      ensures forall k :: i <= k < |ranges| ==> Less(lo, ranges[k].low)
    {
      var s := ranges;
      var f := (k: int) => 0 <= k < |s| && Less(lo, s[k].low);
      i := Search(|s|, f);
      assert forall k :: 0 <= k < |s| ==> (f(k) <==> Less(lo, s[k].low));
    }

    /** The first range from `off` on that ends after `hi`. */
    method Ends(off: nat, hi: Addr) returns (j: nat)
      requires Separate(ranges) && off <= |ranges|
      ensures off <= j <= |ranges|
      ensures forall k :: off <= k < j ==> AtMost(ranges[k].high, hi)
      ensures forall k :: j <= k < |ranges| ==> Less(hi, ranges[k].high)
    {
      var t := ranges[off..];
      var f := (k: int) => 0 <= k < |t| && Less(hi, t[k].high);
      j := Search(|t|, f);
      assert forall k :: 0 <= k < |t| ==> (f(k) <==> Less(hi, t[k].high)) && t[k] == ranges[off + k];
      assert forall k :: off <= k < |ranges| ==> ranges[k] == t[k - off];
      j := off + j;
    }

    /** Adds the addresses from `lo` up to but not including `hi`, which may be none. */
    method AddRange(lo: Addr, hi: Addr)
      requires Separate(ranges)
      modifies this
      ensures Separate(ranges)
      ensures forall v :: Holds(ranges, v) <==> Holds(old(ranges), v) || InRange(AddrRange(lo, hi), v)
    {
      var s := ranges;
      var low, high := lo, hi;
      var i := Begun(lo);
      var j := Ends(if i > 0 then i - 1 else 0, hi);
      assert Located(s, lo, hi, i, j);
      if i > j {
        InsideOne(s, lo, hi, i, j);
        return;
      }
      ghost var p := i;
      if i > 0 {
        var r := s[i - 1];
        if AtMost(lo, r.high) {
          low := r.low;
          i := i - 1;
        }
      }
      ghost var q := j;
      if j < |s| {
        var r := s[j];
        if AtMost(r.low, hi) {
          high := r.high;
          j := j + 1;
        }
      }
      if i == j && !Less(low, high) {
        return;
      }
      hide Separate, Located, Holds;
      Widened(s, lo, hi, p, q, i, j, AddrRange(low, high));
      ranges := Spliced(s, i, j, AddrRange(low, high));
    }

    /** Binary search for the first range that ends after `v`. */
    method Contains(v: Addr) returns (found: bool)
      requires Separate(ranges)
      ensures found <==> Holds(ranges, v)
    {
      var i := Ends(0, v);
      found := i < |ranges| && AtMost(ranges[i].low, v);
      if found { assert InRange(ranges[i], v); }
    }
  }

  // ----- independence of the order

  /** What a set holds after the ranges of `rs` have been added to an empty one. */
  ghost predicate Built(rs: seq<AddrRange>, s: Ranges) {
    Separate(s) && forall v :: Holds(s, v) <==> Holds(rs, v)
  }

  method AddAll(rs: seq<AddrRange>) returns (x: AddrRangeSet)
    ensures fresh(x) && Built(rs, x.ranges)
  {
    x := new AddrRangeSet();
    for n := 0 to |rs|
      invariant fresh(x) && Built(rs[..n], x.ranges)
    {
      ghost var was := x.ranges;
      x.Add(rs[n]);
      forall v ensures Holds(x.ranges, v) <==> Holds(rs[..n + 1], v) {
        HoldsMore(rs, n, v);
      }
    }
    assert rs[..|rs|] == rs;
  }

  lemma HoldsMore(rs: seq<AddrRange>, n: nat, v: Addr)
    requires n < |rs|
    ensures Holds(rs[..n + 1], v) <==> Holds(rs[..n], v) || InRange(rs[n], v)
  {
    assert rs[..n + 1] == rs[..n] + [rs[n]];
    if Holds(rs[..n], v) {
      var k :| 0 <= k < n && InRange(rs[..n][k], v);
      assert rs[..n + 1][k] == rs[..n][k];
    }
    if InRange(rs[n], v) { assert rs[..n + 1][n] == rs[n]; }
  }

  /** The same ranges in any order, and any number of times each, give the same list. */
  lemma OrderAndRepeats(a: seq<AddrRange>, b: seq<AddrRange>, s: Ranges, t: Ranges)
    requires Built(a, s) && Built(b, t)
    requires forall r :: r in a <==> r in b
    ensures s == t
  {
    forall v ensures Holds(s, v) <==> Holds(t, v) {
      if Holds(s, v) {
        var k :| 0 <= k < |a| && InRange(a[k], v);
        assert a[k] in b;
      }
      if Holds(t, v) {
        var k :| 0 <= k < |b| && InRange(b[k], v);
        assert b[k] in a;
      }
    }
    Canonical(s, t);
  }
}
