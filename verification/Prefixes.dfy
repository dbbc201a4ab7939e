// Address prefixes as ranges.
module Prefixes {
  import opened Basics
  import opened AddrRanges

  /** An address in network byte order, and how many leading bits the prefix fixes. */
  datatype Prefix = Prefix(address: bytes, bits: nat)

  function Pow2(n: nat): (r: nat)
    ensures r > 0
  {
    if n == 0 then 1 else 2 * Pow2(n - 1)
  }

  /** Bitwise or. */
  function Or(a: nat, b: nat): nat
    decreases a + b
  {
    if a == 0 then b else if b == 0 then a
    else 2 * Or(a / 2, b / 2) + (if a % 2 == 1 || b % 2 == 1 then 1 else 0)
  }

  /** What is left of `x` without its last `n` bits. */
  function Leading(x: nat, n: nat): nat {
    if n == 0 then x else Leading(x / 2, n - 1)
  }

  /** `x` with its last `n` bits cleared. */
  function Cleared(x: nat, n: nat): nat { Leading(x, n) * Pow2(n) }

  /** The number that an address in network byte order stands for. */
  function Number(a: bytes): nat {
    if a == [] then 0 else 256 * Number(a[..|a| - 1]) + a[|a| - 1]
  }

  /** How many of the bits of byte `k` are free when the first `bits` bits are fixed. */
  function FreeBits(k: nat, bits: nat): (n: nat)
    ensures n <= 8
  {
    if 8 * k >= bits then 8 else if bits >= 8 * k + 8 then 0 else 8 * k + 8 - bits
  }

  /** How many bits are free in `n` bytes. */
  function Free(n: nat, bits: nat): nat {
    if 8 * n >= bits then 8 * n - bits else 0
  }

  /** The address with its free bits cleared. */
  function Masked(a: bytes, bits: nat): seq<nat> {
    seq(|a|, k requires 0 <= k < |a| => Cleared(a[k], FreeBits(k, bits)))
  }

  /** The address `v` agrees with the prefix in every fixed bit. */
  predicate InPrefix(p: Prefix, v: nat) {
    var n := Free(|p.address|, p.bits);
    Leading(v, n) == Leading(Number(p.address), n)
  }

  lemma {:induction false} Pow2Sum(m: nat, n: nat)
    ensures Pow2(m + n) == Pow2(m) * Pow2(n)
  {
    if m > 0 { Pow2Sum(m - 1, n); }
  }

  /** Filling cleared bits with ones. */
  lemma {:induction false} OrFills(q: nat, n: nat)
    ensures Or(q * Pow2(n), Pow2(n) - 1) == q * Pow2(n) + Pow2(n) - 1
  {
    if n > 0 && q > 0 {
      var a, b := q * Pow2(n), Pow2(n) - 1;
      assert a == 2 * (q * Pow2(n - 1));
      assert b / 2 == Pow2(n - 1) - 1 && b % 2 == 1;
      assert a > 0;
      OrFills(q, n - 1);
    }
  }

  lemma Times(a: nat, b: nat, p: nat)
    ensures a <= b ==> a * p <= b * p
  {
  }

  /** A multiple of `p` below another one is at least `p` below it. */
  lemma Whole(q: nat, d: nat, p: nat, x: nat)
    requires q * p <= x < d * p
    ensures q * p + p <= d * p
  {
    Times(d, q, p);
    Times(q + 1, d, p);
  }

  lemma Regrouped(v: nat, d: nat, q: nat, p: nat)
    ensures (v * d + q) * p == v * (d * p) + q * p
  {
    assert (v * d) * p == v * (d * p);
  }

  lemma {:induction false} LeadingBounds(x: nat, n: nat)
    ensures Cleared(x, n) <= x < Cleared(x, n) + Pow2(n)
  {
    if n > 0 {
      LeadingBounds(x / 2, n - 1);
      assert Cleared(x, n) == 2 * Cleared(x / 2, n - 1);
    }
  }

  lemma LeadingIs(x: nat, n: nat, q: nat)
    requires q * Pow2(n) <= x < q * Pow2(n) + Pow2(n)
    ensures Leading(x, n) == q && Cleared(x, n) == q * Pow2(n)
  {
    LeadingBounds(x, n);
    hide Leading, Pow2;
    Times(q + 1, Leading(x, n), Pow2(n));
    Times(Leading(x, n) + 1, q, Pow2(n));
  }

  /** The leading bits of a number from those of its last byte and of the rest. */
  lemma ClearedDigit(v: nat, x: byte, n: nat)
    ensures n >= 8 ==> Cleared(256 * v + x, n) == 256 * Cleared(v, n - 8)
    ensures n <= 8 ==> Cleared(256 * v + x, n) == 256 * v + Cleared(x, n)
  {
    if n >= 8 { ClearedRest(v, x, n); }
    if n <= 8 { ClearedLast(v, x, n); }
  }

  lemma ClearedRest(v: nat, x: byte, n: nat)
    requires n >= 8
    ensures Cleared(256 * v + x, n) == 256 * Cleared(v, n - 8)
  {
    assert Pow2(8) == 256;
    Pow2Sum(8, n - 8);
    LeadingBounds(v, n - 8);
    hide Leading, Pow2;
    var q, p := Leading(v, n - 8), Pow2(n - 8);
    assert q * (256 * p) == 256 * (q * p);
    LeadingIs(256 * v + x, n, q);
  }

  lemma ClearedLast(v: nat, x: byte, n: nat)
    requires n <= 8
    ensures Cleared(256 * v + x, n) == 256 * v + Cleared(x, n)
  {
    assert Pow2(8) == 256;
    Pow2Sum(8 - n, n);
    LeadingBounds(x, n);
    hide Leading, Pow2;
    var d, p, q := Pow2(8 - n), Pow2(n), Leading(x, n);
    Regrouped(v, d, q, p);
    LeadingIs(256 * v + x, n, v * d + q);
  }

  lemma {:induction false} NumberBelow(a: bytes)
    ensures Number(a) < Pow2(8 * |a|)
  {
    if a != [] {
      NumberBelow(a[..|a| - 1]);
      Pow2Sum(8, 8 * |a| - 8);
      assert Pow2(8) == 256;
    }
  }

  /** One more byte at the end of an address whose free bits are cleared. */
  lemma MaskedDigit(v: nat, y: byte, k: nat, bits: nat)
    ensures 256 * Cleared(v, Free(k, bits)) + Cleared(y, FreeBits(k, bits)) == Cleared(256 * v + y, Free(k + 1, bits))
  {
    assert Pow2(0) == 1 && Pow2(8) == 256;
    hide Leading, Pow2;
    LeadingIs(y, 8, 0);
    LeadingIs(v, 0, v);
    hide Cleared;
    ClearedDigit(v, y, Free(k + 1, bits));
  }

  /** Masking every byte clears the free bits of the number. */
  lemma {:induction false} MaskedNumber(a: bytes, bits: nat, m: bytes)
    requires m == Masked(a, bits)
    ensures Number(m) == Cleared(Number(a), Free(|a|, bits))
  {
    if a == [] {
      assert Pow2(0) == 1;
      LeadingIs(0, Free(0, bits), 0);
    } else {
      var n := |a| - 1;
      assert m[..n] == Masked(a[..n], bits);
      MaskedNumber(a[..n], bits, m[..n]);
      assert m[n] == Cleared(a[n], FreeBits(n, bits));
      hide Leading, Pow2, Cleared, FreeBits, Free, Masked;
      MaskedDigit(Number(a[..n]), a[n], n, bits);
    }
  }

  /** Byte `k` of the last address of a prefix, from byte `k` of the first. */
  function FilledByte(x: nat, k: nat, bits: nat): nat {
    Or(x, Pow2(FreeBits(k, bits)) - 1)
  }

  lemma FilledByteIs(y: byte, k: nat, bits: nat)
    ensures var n := FreeBits(k, bits);
      FilledByte(Cleared(y, n), k, bits) == Cleared(y, n) + Pow2(n) - 1 < 256
  {
    var n := FreeBits(k, bits);
    assert Pow2(8) == 256;
    hide Leading, Pow2, Or;
    LeadingBounds(y, n);
    OrFills(Leading(y, n), n);
    Pow2Sum(8 - n, n);
    Whole(Leading(y, n), Pow2(8 - n), Pow2(n), y);
  }

  /** `f` is the masked address with every free bit set. */
  ghost predicate IsFilled(a: bytes, bits: nat, f: bytes) {
    |f| == |a| && forall k :: 0 <= k < |a| ==> f[k] == FilledByte(Masked(a, bits)[k], k, bits)
  }

  /** One more byte at the end of an address whose free bits are all set. */
  lemma FilledDigit(v: nat, y: byte, k: nat, bits: nat)
    ensures var n, m := Free(k, bits), Free(k + 1, bits);
      256 * (Cleared(v, n) + Pow2(n) - 1) + FilledByte(Cleared(y, FreeBits(k, bits)), k, bits)
      == Cleared(256 * v + y, m) + Pow2(m) - 1
  {
    var m := Free(k + 1, bits);
    assert Pow2(0) == 1 && Pow2(8) == 256;
    FilledByteIs(y, k, bits);
    hide Leading, Pow2, Or;
    LeadingIs(y, 8, 0);
    LeadingIs(v, 0, v);
    hide Cleared, FilledByte;
    ClearedDigit(v, y, m);
    if m >= 8 { Pow2Sum(8, m - 8); }
  }

  lemma {:induction false} FilledNumber(a: bytes, bits: nat, f: bytes)
    requires IsFilled(a, bits, f)
    ensures Number(f) == Cleared(Number(a), Free(|a|, bits)) + Pow2(Free(|a|, bits)) - 1
  {
    if a == [] {
      assert Pow2(0) == 1;
      LeadingIs(0, Free(0, bits), 0);
    } else {
      var n := |a| - 1;
      assert Masked(a, bits)[..n] == Masked(a[..n], bits);
      FilledNumber(a[..n], bits, f[..n]);
      assert f[n] == FilledByte(Cleared(a[n], FreeBits(n, bits)), n, bits);
      hide Leading, Pow2, Cleared, FilledByte, FreeBits, Free, Masked, IsFilled;
      FilledDigit(Number(a[..n]), a[n], n, bits);
    }
  }

  /** A prefix is the run of addresses from its masked address to its filled one. */
  lemma PrefixIsRun(p: Prefix, v: nat)
    ensures var n := Free(|p.address|, p.bits);
      var low := Cleared(Number(p.address), n);
      InPrefix(p, v) <==> low <= v < low + Pow2(n)
  {
    var n := Free(|p.address|, p.bits);
    hide Leading, Pow2;
    LeadingBounds(v, n);
    if Cleared(Number(p.address), n) <= v < Cleared(Number(p.address), n) + Pow2(n) {
      LeadingIs(v, n, Leading(Number(p.address), n));
    }
  }

  lemma RunFits(p: Prefix)
    requires p.bits <= 8 * |p.address|
    ensures var n := Free(|p.address|, p.bits);
      Cleared(Number(p.address), n) + Pow2(n) <= Pow2(8 * |p.address|)
  {
    var n := Free(|p.address|, p.bits);
    NumberBelow(p.address);
    LeadingBounds(Number(p.address), n);
    Pow2Sum(p.bits, n);
    hide Leading, Pow2, Number;
    var q := Leading(Number(p.address), n);
    Whole(q, Pow2(p.bits), Pow2(n), Number(p.address));
  }

  /** Sets the free bits of a masked address in place. */
  method Fill(a: array<byte>, bits: nat, ghost was: bytes)
    requires a[..] == Masked(was, bits) && bits <= 8 * |was|
    modifies a
    ensures IsFilled(was, bits, a[..])
  {
    var i0 := bits / 8;
    ghost var m := a[..];
    forall k | 0 <= k < i0 ensures FilledByte(m[k], k, bits) == m[k] {
      FilledByteIs(was[k], k, bits);
    }
    for i := i0 to a.Length
      invariant forall k :: 0 <= k < i ==> a[k] == FilledByte(m[k], k, bits)
      invariant forall k :: i <= k < a.Length ==> a[k] == m[k]
    {
      var nz := 8;
      if i == i0 { nz := nz - bits % 8; }
      FilledByteIs(was[i], i, bits);
      a[i] := Or(a[i], Pow2(nz) - 1);
    }
  }

  /** The address after `a`, unless `a` is the last one of its width. */
  function Next(a: Addr): Option<Addr> {
    if a.value + 1 < Pow2(a.width) then Some(Addr(a.width, a.value + 1)) else None
  }

  /** `v` is in the range, or is its high end and the range is closed. */
  predicate Covers(r: AddrRange, closed: bool, v: Addr) {
    InRange(r, v) || (closed && v == r.high)
  }

  lemma MaskedBytes(a: bytes, bits: nat)
    ensures forall k :: 0 <= k < |a| ==> Masked(a, bits)[k] < 256
  {
    forall k | 0 <= k < |a| ensures Masked(a, bits)[k] < 256 {
      LeadingBounds(a[k], FreeBits(k, bits));
    }
  }

  /** `None` stands for a text that is not a prefix. */
  method ParsePrefix(parsed: Option<Prefix>) returns (r: Option<AddrRange>, closed: bool)
    requires parsed.Some? ==> parsed.value.bits <= 8 * |parsed.value.address|
    ensures r.Some? <==> parsed.Some? && |parsed.value.address| in {4, 16}
    ensures r.Some? ==> var p := parsed.value; var width := 8 * |p.address|;
      && (forall v: nat :: InPrefix(p, v) <==> Covers(r.value, closed, Addr(width, v)))
      && (forall v: Addr :: Covers(r.value, closed, v) ==> v.width == width)
      && (closed <==> InPrefix(p, Pow2(width) - 1))
      && r.value.high.value < Pow2(width)
  {
    closed := false;
    if parsed.None? { return None, closed; }
    var p := parsed.value;
    if |p.address| != 4 && |p.address| != 16 { return None, closed; }
    MaskedBytes(p.address, p.bits);
    var m: bytes := Masked(p.address, p.bits);
    var a := new byte[|m|](k requires 0 <= k < |m| => m[k]);
    assert a[..] == m;
    Fill(a, p.bits, p.address);
    MaskedNumber(p.address, p.bits, m);
    FilledNumber(p.address, p.bits, a[..]);
    var width := 8 * |p.address|;
    RunFits(p);
    PrefixIsRun(p, Pow2(width) - 1);
    hide Pow2, Masked, IsFilled, Number, Leading, Cleared, InPrefix;
    var low, high := Addr(width, Number(m)), Addr(width, Number(a[..]));
    closed := true;
    var next := Next(high);
    ghost var last := high.value;
    if next.Some? {
      high := next.value;
      closed := false;
    }
    r := Some(AddrRange(low, high));
    forall v: nat ensures InPrefix(p, v) <==> low.value <= v <= last { PrefixIsRun(p, v); }
  }

  // ----- bit by bit

  /** Bit `j` of `x`, counted from the lowest. */
  function Bit(x: nat, j: nat): nat {
    if j == 0 then x % 2 else Bit(x / 2, j - 1)
  }

  predicate SameBits(x: nat, y: nat, n: nat, w: nat) {
    forall j :: n <= j < w ==> Bit(x, j) == Bit(y, j)
  }

  lemma SameBitsHalved(x: nat, y: nat, n: nat, w: nat)
    requires w > 0
    ensures SameBits(x, y, if n == 0 then 1 else n, w) <==> SameBits(x / 2, y / 2, if n == 0 then 0 else n - 1, w - 1)
  {
    forall j: nat | j > 0
      ensures Bit(x, j) == Bit(x / 2, j - 1) && Bit(y, j) == Bit(y / 2, j - 1)
    {
    }
    var m := if n == 0 then 1 else n;
    if SameBits(x, y, m, w) {
      forall j | m - 1 <= j < w - 1 ensures Bit(x / 2, j) == Bit(y / 2, j) {
        assert Bit(x, j + 1) == Bit(y, j + 1);
      }
    }
    hide Bit;
  }

  lemma {:induction false} SameLeading(x: nat, y: nat, n: nat, w: nat)
    requires n <= w && x < Pow2(w) && y < Pow2(w)
    ensures Leading(x, n) == Leading(y, n) <==> SameBits(x, y, n, w)
    decreases w
  {
    if w > 0 {
      SameLeading(x / 2, y / 2, if n == 0 then 0 else n - 1, w - 1);
      SameBitsHalved(x, y, n, w);
      if n == 0 {
        assert Bit(x, 0) == x % 2 && Bit(y, 0) == y % 2;
        assert SameBits(x, y, 0, w) <==> x % 2 == y % 2 && SameBits(x, y, 1, w);
      }
    }
  }

  /** The bits of an address in network byte order: the last byte holds the lowest ones. */
  lemma {:induction false} NumberBits(a: bytes, j: nat)
    requires j < 8 * |a|
    ensures Bit(Number(a), j) == Bit(a[|a| - 1 - j / 8], j % 8)
  {
    var n := |a| - 1;
    if j < 8 {
      LowBits(Number(a[..n]), a[n], j);
    } else {
      HighBits(Number(a[..n]), a[n], j);
      NumberBits(a[..n], j - 8);
    }
  }

  lemma LowBits(v: nat, x: byte, j: nat)
    requires j < 8
    ensures Bit(256 * v + x, j) == Bit(x, j)
  {
    assert Pow2(8) == 256;
    BitBelow(v, 8, x, j);
  }

  /** A multiple of a power of two does not change the bits below. */
  lemma {:induction false} BitBelow(v: nat, k: nat, x: nat, j: nat)
    requires j < k
    ensures Bit(Pow2(k) * v + x, j) == Bit(x, j)
  {
    var c := Pow2(k - 1) * v;
    assert Pow2(k) * v == 2 * c;
    hide Pow2;
    assert (2 * c + x) % 2 == x % 2 && (2 * c + x) / 2 == c + x / 2;
    if j > 0 { BitBelow(v, k - 1, x / 2, j - 1); }
  }

  lemma HighBits(v: nat, x: byte, j: nat)
    requires j >= 8
    ensures Bit(256 * v + x, j) == Bit(v, j - 8)
  {
    var y := 256 * v + x;
    assert Bit(y, j) == Bit(y / 2, j - 1) == Bit(y / 4, j - 2) == Bit(y / 8, j - 3) == Bit(y / 16, j - 4);
    assert Bit(y / 16, j - 4) == Bit(y / 32, j - 5) == Bit(y / 64, j - 6) == Bit(y / 128, j - 7) == Bit(y / 256, j - 8);
    assert y / 256 == v;
  }

  /** The address `v` has the first `bits` bits of the prefix. */
  predicate FirstBits(p: Prefix, v: nat)
    requires p.bits <= 8 * |p.address|
  {
    var w := 8 * |p.address|;
    forall j :: w - p.bits <= j < w ==> Bit(v, j) == Bit(p.address[|p.address| - 1 - j / 8], j % 8)
  }

  lemma PrefixBits(p: Prefix, v: nat)
    requires p.bits <= 8 * |p.address| && v < Pow2(8 * |p.address|)
    ensures InPrefix(p, v) <==> FirstBits(p, v)
  {
    var w, n := 8 * |p.address|, Number(p.address);
    NumberBelow(p.address);
    SameLeading(v, n, w - p.bits, w);
    assert Free(|p.address|, p.bits) == w - p.bits;
    forall j: nat | j < w
      ensures Bit(n, j) == Bit(p.address[|p.address| - 1 - j / 8], j % 8)
    {
      NumberBits(p.address, j);
    }
    if SameBits(v, n, w - p.bits, w) {
      forall j | w - p.bits <= j < w
        ensures Bit(v, j) == Bit(p.address[|p.address| - 1 - j / 8], j % 8)
      {
        assert Bit(v, j) == Bit(n, j);
      }
    }
    if FirstBits(p, v) {
      forall j | w - p.bits <= j < w
        ensures Bit(v, j) == Bit(n, j)
      {
        assert Bit(v, j) == Bit(p.address[|p.address| - 1 - j / 8], j % 8);
      }
    }
  }
}
