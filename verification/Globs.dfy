// The glob language: tokens, what a list of tokens matches, and the laws that
// the compiler of the matcher relies on.
module Globs {
  import opened Basics
  import CharSets

  const OPEN_GROUP: byte := 91
  const ASTERISK: byte := 42
  const QUESTION: byte := 63
  const UNDERSCORE: byte := 95

  /** `Edge` is the mark that a leading or a trailing '.' becomes. */
  datatype Token = Edge | Star | StarStar | Question | Underscore | Lit(b: byte) | Group(members: set<byte>)

  // ----- reading a pattern

  const EVERY_BYTE: set<byte> := CharSets.Span(0, 256)

  /** Bytes 0 to 4 are the marks themselves; every other byte stands for itself. */
  function ByteToken(b: byte): Token {
    if b == 0 then Edge
    else if b == 1 then Star
    else if b == 2 then StarStar
    else if b == 3 then Question
    else if b == 4 then Underscore
    else Lit(b)
  }

  /** The first token of a pattern and what follows it. */
  function ReadToken(s: bytes): (r: (Token, bytes))
    requires s != []
    ensures |r.1| < |s|
  {
    if s[0] == OPEN_GROUP then
      var members := CharSets.Group(CharSets.Content(s[1..]));
      (if members == EVERY_BYTE then Underscore else Group(members), CharSets.After(s[1..]))
    else if s[0] == ASTERISK then
      if |s| > 1 && s[1] == ASTERISK then (StarStar, s[2..]) else (Star, s[1..])
    else if s[0] == QUESTION then (Question, s[1..])
    else if s[0] == UNDERSCORE then (Underscore, s[1..])
    else (ByteToken(s[0]), s[1..])
  }

  function Tokens(s: bytes): seq<Token>
    decreases |s|
  {
    if s == [] then [] else [ReadToken(s).0] + Tokens(ReadToken(s).1)
  }

  /** Every group of the pattern can be scanned: none has a range that ends at byte 255. */
  predicate Scannable(s: bytes)
    decreases |s|
  {
    s == [] || (
      && (s[0] == OPEN_GROUP ==> CharSets.BelowTop(CharSets.GroupItems(CharSets.Content(s[1..]))))
      && Scannable(ReadToken(s).1))
  }

  /** How many groups the pattern has. */
  function GroupCount(s: bytes): nat
    decreases |s|
  {
    if s == [] then 0 else (if s[0] == OPEN_GROUP then 1 else 0) + GroupCount(ReadToken(s).1)
  }

  predicate NoEdge(toks: seq<Token>) { Edge !in toks }

  // ----- what tokens match

  predicate Many(t: Token) { t.Star? || t.StarStar? }

  /** The token takes the byte. `*` and `?` stop at '.' and ':'. */
  predicate Takes(t: Token, b: byte) {
    match t
    case Star | Question => b != DOT && b != COLON
    case StarStar | Underscore => true
    case Lit(c) => b == c
    case Group(members) => b in members
    case Edge => false
  }

  predicate AllTake(t: Token, w: bytes) {
    forall i :: 0 <= i < |w| ==> Takes(t, w[i])
  }

  /** The tokens match the whole of `w`. */
  predicate In(toks: seq<Token>, w: bytes)
    decreases |toks| + |w|
  {
    if toks == [] then w == []
    else if Many(toks[0]) then In(toks[1..], w) || (w != [] && Takes(toks[0], w[0]) && In(toks, w[1..]))
    else w != [] && Takes(toks[0], w[0]) && In(toks[1..], w[1..])
  }

  lemma InOne(t: Token, w: bytes)
    ensures In([t], w) <==> if Many(t) then AllTake(t, w) else |w| == 1 && Takes(t, w[0])
  {
    if Many(t) && w != [] {
      InOne(t, w[1..]);
      assert [t][1..] == [];
    }
  }

  lemma {:induction false} ConcatSplit(a: seq<Token>, b: seq<Token>, w: bytes) returns (k: nat)
    requires In(a + b, w)
    ensures k <= |w| && In(a, w[..k]) && In(b, w[k..])
    decreases |a| + |w|
  {
    if a == [] {
      assert a + b == b;
      k := 0;
    } else {
      assert (a + b)[1..] == a[1..] + b;
      if Many(a[0]) && In(a[1..] + b, w) {
        k := ConcatSplit(a[1..], b, w);
      } else if Many(a[0]) {
        k := ConcatSplit(a, b, w[1..]);
        k := k + 1;
        assert w[..k][1..] == w[1..][..k - 1];
      } else {
        k := ConcatSplit(a[1..], b, w[1..]);
        k := k + 1;
        assert w[..k][1..] == w[1..][..k - 1];
      }
    }
  }

  lemma {:induction false} ConcatJoin(a: seq<Token>, b: seq<Token>, w: bytes, k: nat)
    requires k <= |w| && In(a, w[..k]) && In(b, w[k..])
    ensures In(a + b, w)
    decreases |a| + k
  {
    if a == [] {
      assert a + b == b && w[k..] == w;
    } else {
      assert (a + b)[1..] == a[1..] + b;
      if Many(a[0]) && In(a[1..], w[..k]) {
        ConcatJoin(a[1..], b, w, k);
      } else {
        assert w[..k][1..] == w[1..][..k - 1];
        ConcatJoin(if Many(a[0]) then a else a[1..], b, w[1..], k - 1);
      }
    }
  }

  /** A concatenation matches exactly the words that split into a match of each part. */
  lemma InConcat(a: seq<Token>, b: seq<Token>, w: bytes)
    ensures In(a + b, w) <==> exists k :: 0 <= k <= |w| && In(a, w[..k]) && In(b, w[k..])
  {
    if In(a + b, w) {
      var k := ConcatSplit(a, b, w);
    }
    forall k | 0 <= k <= |w| && In(a, w[..k]) && In(b, w[k..])
      ensures In(a + b, w)
    {
      ConcatJoin(a, b, w, k);
    }
  }

  // ----- reversal

  lemma {:induction false} InReversedOneWay(toks: seq<Token>, w: bytes)
    requires In(toks, w)
    ensures In(Reversed(toks), Reversed(w))
  {
    if toks != [] {
      var t, rest := toks[0], toks[1..];
      assert toks == [t] + rest;
      var k := ConcatSplit([t], rest, w);
      InReversedOneWay(rest, w[k..]);
      InOne(t, w[..k]);
      InOne(t, Reversed(w[..k]));
      assert w == w[..k] + w[k..];
      ReversedConcat(w[..k], w[k..]);
      var v := Reversed(w);
      assert v[..|w| - k] == Reversed(w[k..]) && v[|w| - k..] == Reversed(w[..k]);
      ConcatJoin(Reversed(rest), [t], v, |w| - k);
      assert Reversed(toks) == Reversed(rest) + [t];
    }
  }

  /** Reading tokens and word backwards changes nothing. */
  lemma InReversed(toks: seq<Token>, w: bytes)
    ensures In(Reversed(toks), Reversed(w)) <==> In(toks, w)
  {
    if In(toks, w) {
      InReversedOneWay(toks, w);
    }
    if In(Reversed(toks), Reversed(w)) {
      InReversedOneWay(Reversed(toks), Reversed(w));
      ReversedTwice(toks);
      ReversedTwice(w);
    }
  }

  // ----- rewriting

  /** The two lists match the same words. */
  ghost predicate Same(x: seq<Token>, y: seq<Token>) {
    forall w :: In(x, w) <==> In(y, w)
  }

  lemma {:induction false} SameOneWay(a: seq<Token>, x: seq<Token>, y: seq<Token>, b: seq<Token>, w: bytes)
    requires Same(x, y) && In(a + x + b, w)
    ensures In(a + y + b, w)
  {
    var k := ConcatSplit(a + x, b, w);
    var j := ConcatSplit(a, x, w[..k]);
    ConcatJoin(a, y, w[..k], j);
    ConcatJoin(a + y, b, w, k);
  }

  /** A part of a list may be replaced by one that matches the same words. */
  lemma SameInContext(a: seq<Token>, x: seq<Token>, y: seq<Token>, b: seq<Token>)
    requires Same(x, y)
    ensures Same(a + x + b, a + y + b)
  {
    forall w
      ensures In(a + x + b, w) <==> In(a + y + b, w)
    {
      if In(a + x + b, w) { SameOneWay(a, x, y, b, w); }
      if In(a + y + b, w) { SameOneWay(a, y, x, b, w); }
    }
  }

  /** A star and the single-byte token that takes the same bytes. */
  predicate Partners(t: Token, u: Token) {
    (t.Star? && u.Question?) || (t.StarStar? && u.Underscore?)
  }

  lemma {:induction false} StarThenPartner(t: Token, u: Token, w: bytes)
    requires Partners(t, u)
    ensures In([t, u], w) <==> w != [] && AllTake(t, w)
    decreases |w|
  {
    assert [t, u][1..] == [u];
    InOne(u, w);
    if w != [] {
      StarThenPartner(t, u, w[1..]);
    }
  }

  lemma PartnersCommute(t: Token, u: Token)
    requires Partners(t, u)
    ensures Same([t, u], [u, t])
  {
    forall w
      ensures In([t, u], w) <==> In([u, t], w)
    {
      StarThenPartner(t, u, w);
      assert [u, t][1..] == [t];
      if w != [] { InOne(t, w[1..]); }
    }
  }

  /** The star that stands for two stars in a row. */
  function Wider(t: Token, u: Token): Token {
    if t.StarStar? || u.StarStar? then StarStar else Star
  }

  lemma StarsMerge(t: Token, u: Token)
    requires Many(t) && Many(u)
    ensures Same([t, u], [Wider(t, u)])
  {
    forall w
      ensures In([t, u], w) <==> In([Wider(t, u)], w)
    {
      InConcat([t], [u], w);
      InOne(Wider(t, u), w);
      assert [t] + [u] == [t, u];
      if AllTake(Wider(t, u), w) {
        var k := if t.StarStar? then |w| else 0;
        InOne(t, w[..k]);
        InOne(u, w[k..]);
      }
      if In([t, u], w) {
        var k :| 0 <= k <= |w| && In([t], w[..k]) && In([u], w[k..]);
        InOne(t, w[..k]);
        InOne(u, w[k..]);
        forall i | 0 <= i < |w|
          ensures Takes(Wider(t, u), w[i])
        {
          assert if i < k then w[i] == w[..k][i] else w[i] == w[k..][i - k];
        }
      }
    }
  }

  // ----- leading and trailing dots

  /** A leading '.' and a trailing '.' become edges; an empty pattern is an edge. */
  function Mark(toks: seq<Token>): (m: seq<Token>)
    ensures m != []
  {
    if toks == [] then [Edge] else
      var m := if toks[0] == Lit(DOT) then toks[0 := Edge] else toks;
      if m[|m| - 1] == Lit(DOT) then m[|m| - 1 := Edge] else m
  }

  predicate Lead(m: seq<Token>) { m != [] && m[0] == Edge }

  predicate Trail(m: seq<Token>) { m != [] && m[|m| - 1] == Edge }

  /** Nothing but edges. */
  predicate Open(m: seq<Token>) { m == [Edge] || m == [Edge, Edge] }

  function Body(m: seq<Token>): seq<Token>
    requires !Open(m)
  {
    m[(if Lead(m) then 1 else 0)..(if Trail(m) then |m| - 1 else |m|)]
  }

  /** `w[i..j]` is matched by the body, and what is left over on either side is cut off at a '.'. */
  predicate Between(m: seq<Token>, w: bytes, i: int, j: int)
    requires !Open(m)
  {
    && 0 <= i <= j <= |w|
    && (i == 0 || (Lead(m) && w[i - 1] == DOT))
    && (j == |w| || (Trail(m) && w[j] == DOT))
    && In(Body(m), w[i..j])
  }

  ghost predicate MarkedIn(m: seq<Token>, w: bytes) {
    Open(m) || exists i, j :: Between(m, w, i, j)
  }

  /**
   * The meaning of a pattern: a leading '.' allows anything that ends with a '.' in front,
   * a trailing '.' allows anything that starts with a '.' behind, and a pattern
   * that is empty, "." or ".." takes everything.
   */
  ghost predicate GlobIn(toks: seq<Token>, w: bytes) {
    MarkedIn(Mark(toks), w)
  }

  /** Lists with the same edges and equivalent bodies mean the same. */
  ghost predicate MarkedSame(m: seq<Token>, n: seq<Token>) {
    && Lead(m) == Lead(n) && Trail(m) == Trail(n)
    && (Open(m) || Open(n) ==> m == n)
    && (!Open(m) && !Open(n) ==> Same(Body(m), Body(n)))
  }

  lemma MarkedSameIn(m: seq<Token>, n: seq<Token>, w: bytes)
    requires MarkedSame(m, n)
    ensures MarkedIn(m, w) <==> MarkedIn(n, w)
  {
    if !Open(m) {
      forall i, j
        ensures Between(m, w, i, j) <==> Between(n, w, i, j)
      {
      }
    }
  }

  lemma OpenReversed(m: seq<Token>)
    requires m != []
    ensures Open(Reversed(m)) <==> Open(m)
    ensures Lead(Reversed(m)) == Trail(m) && Trail(Reversed(m)) == Lead(m)
  {
    var r := Reversed(m);
    assert r[0] == m[|m| - 1] && r[|m| - 1] == m[0];
    if |m| == 2 {
      assert m == [m[0], m[1]] && r == [m[1], m[0]];
    }
  }

  lemma BodyReversed(m: seq<Token>)
    requires m != [] && !Open(m) && !Open(Reversed(m))
    ensures Body(Reversed(m)) == Reversed(Body(m))
  {
    hide Reversed, Open;
    OpenReversed(m);
    var i, j := if Lead(m) then 1 else 0, if Trail(m) then |m| - 1 else |m|;
    BodyIs(m, i, j);
    BodyIs(Reversed(m), |m| - j, |m| - i);
    hide Body, Lead, Trail;
    ReversedSlice(m, i, j);
  }

  lemma BodyIs(m: seq<Token>, i: int, j: int)
    requires !Open(m) && i == (if Lead(m) then 1 else 0) && j == (if Trail(m) then |m| - 1 else |m|)
    ensures 0 <= i <= j <= |m| && Body(m) == m[i..j]
  {
  }

  lemma {:induction false} ReversedSlice<T>(s: seq<T>, i: int, j: int)
    requires 0 <= i <= j <= |s|
    ensures Reversed(s[i..j]) == Reversed(s)[|s| - j..|s| - i]
  {
    var x, y := Reversed(s[i..j]), Reversed(s)[|s| - j..|s| - i];
    forall k | 0 <= k < j - i
      ensures x[k] == y[k]
    {
      assert x[k] == s[i..j][j - i - 1 - k];
      assert y[k] == Reversed(s)[|s| - j + k];
    }
  }

  lemma BetweenReversed(m: seq<Token>, w: bytes, i: int, j: int)
    requires m != [] && !Open(m) && Between(m, w, i, j)
    ensures !Open(Reversed(m)) && Between(Reversed(m), Reversed(w), |w| - j, |w| - i)
  {
    OpenReversed(m);
    BodyReversed(m);
    InReversed(Body(m), w[i..j]);
    ReversedSlice(w, i, j);
  }

  lemma MarkedReversedOneWay(m: seq<Token>, w: bytes)
    requires m != [] && MarkedIn(m, w)
    ensures MarkedIn(Reversed(m), Reversed(w))
  {
    if !Open(m) {
      var i, j :| Between(m, w, i, j);
      BetweenReversed(m, w, i, j);
    } else {
      assert Reversed(m) == m;
    }
  }

  lemma MarkedReversed(m: seq<Token>, w: bytes)
    requires m != []
    ensures MarkedIn(Reversed(m), Reversed(w)) <==> MarkedIn(m, w)
  {
    if MarkedIn(m, w) {
      MarkedReversedOneWay(m, w);
    }
    if MarkedIn(Reversed(m), Reversed(w)) {
      MarkedReversedOneWay(Reversed(m), Reversed(w));
      ReversedTwice(m);
      ReversedTwice(w);
    }
  }
}
