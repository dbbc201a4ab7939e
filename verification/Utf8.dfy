// The UTF-8 encoding that the glob compiler uses to store its atoms
// (section 3 of RFC 3629), as Go's string conversion and utf8.DecodeRune do it.
module Utf8 {
  import opened Basics

  const RUNE_ERROR: nat := 0xFFFD

  /** A code point that UTF-8 can represent. */
  predicate Scalar(r: nat) {
    r < 0xD800 || 0xE000 <= r <= 0x10FFFF
  }

  /** The bytes of one rune; what is not a scalar value becomes the replacement character. */
  function EncodeRune(r: nat): (s: bytes)
    ensures 1 <= |s| <= 4
  {
    if r <= 0x7F then [r]
    else if r <= 0x7FF then [0xC0 + r / 64, 0x80 + r % 64]
    else if !Scalar(r) then [0xEF, 0xBF, 0xBD]
    else if r <= 0xFFFF then [0xE0 + r / 64 / 64, 0x80 + r / 64 % 64, 0x80 + r % 64]
    else [0xF0 + r / 64 / 64 / 64, 0x80 + r / 64 / 64 % 64, 0x80 + r / 64 % 64, 0x80 + r % 64]
  }

  /** The encoding of a list of runes. */
  function Encode(runes: seq<nat>): bytes {
    if runes == [] then [] else EncodeRune(runes[0]) + Encode(runes[1..])
  }

  /** How many bytes the form opened by `b0` takes, and the range its second byte must lie in. */
  function Form(b0: byte): (int, byte, byte) {
    if b0 < 0x80 then (1, 0, 0)
    else if 0xC2 <= b0 <= 0xDF then (2, 0x80, 0xBF)
    else if b0 == 0xE0 then (3, 0xA0, 0xBF)
    else if b0 == 0xED then (3, 0x80, 0x9F)
    else if 0xE1 <= b0 <= 0xEF then (3, 0x80, 0xBF)
    else if b0 == 0xF0 then (4, 0x90, 0xBF)
    else if 0xF1 <= b0 <= 0xF3 then (4, 0x80, 0xBF)
    else if b0 == 0xF4 then (4, 0x80, 0x8F)
    else (0, 0, 0)
  }

  predicate Continuation(b: byte) { 0x80 <= b <= 0xBF }

  /** `high` followed by the six bits that the continuation byte `b` carries. */
  function Join(high: nat, b: byte): nat
    requires Continuation(b)
  {
    high * 64 + (b - 0x80) as int
  }

  /** The first rune of `p` and the number of bytes it takes. */
  function DecodeRune(p: bytes): (r: (nat, nat))
    ensures r.1 <= |p|
    ensures p != [] ==> 0 < r.1
  {
    if p == [] then (RUNE_ERROR, 0) else
      var (n, lo, hi) := Form(p[0]);
      if n == 1 then (p[0], 1)
      else if n == 0 || |p| < n || !(lo <= p[1] <= hi) then (RUNE_ERROR, 1)
      else if n == 2 then (Join(p[0] - 0xC0, p[1]), 2)
      else if !Continuation(p[2]) then (RUNE_ERROR, 1)
      else if n == 3 then (Join(Join(p[0] - 0xE0, p[1]), p[2]), 3)
      else if !Continuation(p[3]) then (RUNE_ERROR, 1)
      else (Join(Join(Join(p[0] - 0xF0, p[1]), p[2]), p[3]), 4)
  }

  /** Every rune of `p` in order. */
  function Decode(p: bytes): seq<nat> {
    if p == [] then [] else
      var (r, n) := DecodeRune(p);
      [r] + Decode(p[n..])
  }

  /** Decoding gives back the rune exactly when it is a scalar value. */
  lemma DecodeEncodeRune(r: nat, rest: bytes)
    ensures DecodeRune(EncodeRune(r) + rest) == (if Scalar(r) then r else RUNE_ERROR, |EncodeRune(r)|)
  {
    var p := EncodeRune(r) + rest;
    if r > 0x7F {
      assert p[0] == EncodeRune(r)[0] && p[1] == EncodeRune(r)[1];
      assert |EncodeRune(r)| >= 3 ==> p[2] == EncodeRune(r)[2];
      assert |EncodeRune(r)| == 4 ==> p[3] == EncodeRune(r)[3];
    }
  }

  /** What follows the first rune of an encoding is the encoding of the other runes. */
  lemma EncodedTail(runes: seq<nat>)
    requires runes != [] && Scalar(runes[0])
    ensures var n := |EncodeRune(runes[0])|;
      && n <= |Encode(runes)|
      && DecodeRune(Encode(runes)) == (runes[0], n)
      && Encode(runes)[n..] == Encode(runes[1..])
  {
    DecodeEncodeRune(runes[0], Encode(runes[1..]));
  }

  /** A list of scalar values survives the round trip, whatever bytes follow. */
  lemma {:induction false} DecodeEncode(runes: seq<nat>)
    ensures (forall r :: r in runes ==> Scalar(r)) <==> Decode(Encode(runes)) == runes
    ensures |Decode(Encode(runes))| == |runes|
  {
    if runes != [] {
      var p := Encode(runes);
      DecodeEncodeRune(runes[0], Encode(runes[1..]));
      assert p[|EncodeRune(runes[0])|..] == Encode(runes[1..]);
      DecodeEncode(runes[1..]);
      assert Decode(p) == [DecodeRune(p).0] + Decode(Encode(runes[1..]));
      assert runes == [runes[0]] + runes[1..];
      if forall r :: r in runes ==> Scalar(r) {
        assert Scalar(runes[0]);
      } else if Scalar(runes[0]) {
        assert exists r :: r in runes[1..] && !Scalar(r);
        assert Decode(p)[1..] == Decode(Encode(runes[1..]));
      } else {
        assert runes[0] in runes;
        assert Decode(p)[0] != runes[0];
      }
    }
  }
}
