// What the special bytes of a pattern mean, byte by byte.
module GlobLiterals {
  import opened Basics
  import opened Globs
  import opened GlobCompile
  import opened GlobRun
  import opened MatchSets
  import opened GlobMeaning
  import CharSets

  /** Bytes that stand for themselves. */
  predicate AllPlain(w: bytes) {
    forall b :: b in w ==> Plain(b)
  }

  // ----- one special token between plain bytes

  lemma {:induction false} TokensAfterPlain(u: bytes, rest: bytes)
    requires AllPlain(u)
    ensures Tokens(u + rest) == Lits(u) + Tokens(rest)
  {
    if u == [] {
      assert u + rest == rest;
    } else {
      assert u[0] in u && (u + rest)[0] == u[0] && (u + rest)[1..] == u[1..] + rest;
      TokensAfterPlain(u[1..], rest);
    }
  }

  /** The tokens of a plain pattern with one special token in it. */
  function Around(u: bytes, t: Token, w: bytes): seq<Token> {
    Lits(u) + [t] + Lits(w)
  }

  predicate Inside(u: bytes, w: bytes) {
    && AllPlain(u) && AllPlain(w)
    && (u != [] ==> u[0] != 46) && (w != [] ==> w[|w| - 1] != 46)
  }

  lemma TokensAround(u: bytes, s: bytes, t: Token, w: bytes)
    requires AllPlain(u) && AllPlain(w) && s != [] && ReadToken(s + w) == (t, w)
    ensures Tokens(u + s + w) == Around(u, t, w)
  {
    assert u + s + w == u + (s + w);
    TokensAfterPlain(u, s + w);
    PlainTokens(w);
  }

  lemma {:induction false} MergeLits(m: seq<Token>, w: bytes)
    ensures Merge(m) == m ==> Merge(m + Lits(w)) == m + Lits(w)
  {
    if w == [] {
      assert m + Lits(w) == m;
    } else {
      var n := |w| - 1;
      MergeLits(m, w[..n]);
      assert m + Lits(w) == m + Lits(w[..n]) + [Lit(w[n])];
      hide Lits;
      MergeOneMore(m + Lits(w[..n]), Lit(w[n]));
    }
  }

  lemma {:induction false} NothingPasses(m: seq<Token>, i: nat)
    requires forall k :: 0 <= k < |m| - 1 ==> !Partners(m[k], m[k + 1])
    ensures Bubble(m, i) == m
    decreases |m| - i
  {
    if i + 1 < |m| { NothingPasses(m, i + 1); }
  }

  lemma AroundMerges(u: bytes, t: Token, w: bytes)
    requires AllPlain(u) && AllPlain(w)
    ensures Merge(Around(u, t, w)) == Around(u, t, w)
  {
    hide Merge;
    PlainMerge(u);
    MergeOneMore(Lits(u), t);
    MergeLits(Lits(u) + [t], w);
  }

  lemma AroundCompiles(u: bytes, t: Token, w: bytes)
    requires Inside(u, w) && t != Edge && t != Lit(DOT)
    ensures Mark(Around(u, t, w)) == Around(u, t, w) && Compile(Around(u, t, w)) == Reversed(Around(u, t, w))
  {
    hide Merge, Bubble;
    AroundMerges(u, t, w);
    var toks := Around(u, t, w);
    assert Mark(toks) == toks;
    var m := Reversed(toks);
    assert forall k :: 0 <= k < |m| && k != |w| ==> m[k].Lit?;
    NothingPasses(m, 0);
  }

  lemma AroundIn(u: bytes, t: Token, w: bytes, x: bytes)
    ensures In(Around(u, t, w), x) <==> exists y :: x == u + y + w && In([t], y)
  {
    if In(Around(u, t, w), x) {
      var k := ConcatSplit(Lits(u) + [t], Lits(w), x);
      var l := ConcatSplit(Lits(u), [t], x[..k]);
      LitsIn(w, x[k..]);
      LitsIn(u, x[..k][..l]);
      var y := x[..k][l..];
      assert x == u + y + w && In([t], y);
    }
    if y :| x == u + y + w && In([t], y) {
      LitsIn(u, u);
      LitsIn(w, w);
      assert (u + y)[..|u|] == u && (u + y)[|u|..] == y;
      ConcatJoin(Lits(u), [t], u + y, |u|);
      assert x[..|u + y|] == u + y && x[|u + y|..] == w;
      ConcatJoin(Lits(u) + [t], Lits(w), x, |u + y|);
    }
  }

  /** Such a pattern has no edges, and at most one star ends its compiled form. */
  lemma AroundShape(u: bytes, t: Token, w: bytes)
    requires Inside(u, w) && t != Edge && t != Lit(DOT)
    ensures var toks := Around(u, t, w);
      NoEdge(toks) && !Open(toks) && !Lead(toks) && !Trail(toks) && Body(toks) == toks
    ensures var m := Reversed(Around(u, t, w)); !Open(m) && !Trail(m) && |Tail(m)| <= 1 && m != [Edge, Star]
  {
    var toks := Around(u, t, w);
    var m := Reversed(toks);
    assert forall k :: 0 <= k < |toks| ==> toks[k] != Edge;
    assert forall k :: 0 <= k < |m| ==> m[k] == toks[|m| - 1 - k];
    assert toks[0] != Edge && m[0] != Edge && m[|m| - 1] != Edge;
    assert Body(m) == m;
    OneTail(m, |w|);
  }

  lemma UnmarkedIn(toks: seq<Token>, x: bytes)
    requires !Open(toks) && !Lead(toks) && !Trail(toks) && Body(toks) == toks
    ensures MarkedIn(toks, x) <==> In(toks, x)
  {
    assert x[0..|x|] == x;
    if In(toks, x) { assert Between(toks, x, 0, |x|); }
  }

  /** What such a pattern takes. */
  lemma AroundTakes(glob: bytes, u: bytes, t: Token, w: bytes, x: bytes)
    requires Inside(u, w) && t != Edge && t != Lit(DOT) && Tokens(glob) == Around(u, t, w) && x != []
    ensures Accepts(glob, x) <==> exists y :: x == u + y + w && In([t], y)
  {
    hide Compile, Accepts, In, Around, Open, Lead, Trail, Body, Tail, Reversed, Inside, Mark, MarkedIn, Tokens;
    AroundCompiles(u, t, w);
    AroundShape(u, t, w);
    MatcherMeans(glob, x);
    UnmarkedIn(Around(u, t, w), x);
    AroundIn(u, t, w, x);
  }

  lemma OneTail(m: seq<Token>, j: nat)
    requires forall k :: 0 <= k < |m| && k != j ==> m[k].Lit?
    ensures !Open(m) && Body(m) == m ==> |Tail(m)| <= 1
  {
    var k := TailStart(m);
    if k + 1 < |m| { assert Many(m[k..][0]) && Many(m[k..][1]); }
  }

  /** The same for a token that takes one byte. */
  lemma AroundOne(glob: bytes, u: bytes, t: Token, w: bytes, x: bytes)
    requires Inside(u, w) && !Many(t) && t != Edge && t != Lit(DOT) && Tokens(glob) == Around(u, t, w)
    ensures Accepts(glob, x) <==> exists b: byte :: Takes(t, b) && x == u + [b] + w
  {
    if x == [] {
      NothingTakesNothing(glob);
    } else {
      hide Accepts, Around, Inside, Tokens;
      AroundTakes(glob, u, t, w, x);
      if y :| x == u + y + w && In([t], y) {
        InOne(t, y);
        assert y == [y[0]];
      }
      if b: byte :| Takes(t, b) && x == u + [b] + w { InOne(t, [b]); }
    }
  }

  /** `_` stands for any byte. */
  lemma AnyByte(u: bytes, w: bytes, x: bytes)
    requires Inside(u, w)
    ensures Accepts(u + [95] + w, x) <==> exists b: byte :: x == u + [b] + w
  {
    assert ([95] + w)[1..] == w;
    TokensAround(u, [95], Underscore, w);
    AroundOne(u + [95] + w, u, Underscore, w, x);
    hide Accepts, Tokens;
    if b: byte :| x == u + [b] + w { assert Takes(Underscore, b); }
  }

  /** `?` stands for any byte but '.' and ':'. */
  lemma OneByte(u: bytes, w: bytes, x: bytes)
    requires Inside(u, w)
    ensures Accepts(u + [63] + w, x) <==> exists b: byte :: b != 46 && b != 58 && x == u + [b] + w
  {
    assert ([63] + w)[1..] == w;
    TokensAround(u, [63], Question, w);
    AroundOne(u + [63] + w, u, Question, w, x);
    hide Accepts, Tokens;
    if b: byte :| b != 46 && b != 58 && x == u + [b] + w { assert Takes(Question, b); }
  }

  /** `*` stands for any bytes but '.' and ':'. */
  lemma SomeBytes(u: bytes, w: bytes, x: bytes)
    requires Inside(u, w) && x != []
    ensures Accepts(u + [42] + w, x) <==> exists y: bytes :: 46 !in y && 58 !in y && x == u + y + w
  {
    assert ([42] + w)[1..] == w && (w != [] ==> w[0] in w);
    TokensAround(u, [42], Star, w);
    AroundTakes(u + [42] + w, u, Star, w, x);
    hide Accepts, Tokens, Around, Inside;
    if y :| x == u + y + w && In([Star], y) { InOne(Star, y); }
    if y: bytes :| 46 !in y && 58 !in y && x == u + y + w {
      assert forall k :: 0 <= k < |y| ==> y[k] in y;
      InOne(Star, y);
    }
  }

  /** `**` stands for any bytes. */
  lemma AllBytes(u: bytes, w: bytes, x: bytes)
    requires Inside(u, w) && x != []
    ensures Accepts(u + [42, 42] + w, x) <==> exists y: bytes :: x == u + y + w
  {
    assert ([42, 42] + w)[2..] == w;
    TokensAround(u, [42, 42], StarStar, w);
    AroundTakes(u + [42, 42] + w, u, StarStar, w, x);
    hide Accepts, Tokens, Around, Inside;
    if y: bytes :| x == u + y + w { InOne(StarStar, y); }
  }

  /** Where a group in brackets ends. */
  lemma {:induction false} Closes(c: bytes, w: bytes, from: nat)
    requires c != [] && from <= |c| && forall k :: 0 < k < |c| ==> c[k] != 93
    ensures CharSets.CloseAt(c + [93] + w, from) == |c|
    decreases |c| - from
  {
    if from < |c| { Closes(c, w, from + 1); }
  }

  /** A group stands for one byte among its members. */
  lemma OneOfGroup(u: bytes, c: bytes, w: bytes, x: bytes)
    requires Inside(u, w) && c != [] && forall k :: 0 < k < |c| ==> c[k] != 93
    ensures Accepts(u + ([91] + c + [93]) + w, x) <==> exists b: byte :: b in CharSets.Group(c) && x == u + [b] + w
  {
    var s := [91] + c + [93];
    var t := ReadToken(s + w).0;
    Closes(c, w, 0);
    assert (s + w)[1..] == c + [93] + w && (c + [93] + w)[..|c|] == c && (c + [93] + w)[|c| + 1..] == w;
    TokensAround(u, s, t, w);
    AroundOne(u + s + w, u, t, w, x);
    assert forall b: byte :: b in CharSets.Group(c) <==> Takes(t, b);
    hide Accepts, Tokens, ReadToken, CharSets.Group;
    if b: byte :| b in CharSets.Group(c) && x == u + [b] + w { assert Takes(t, b); }
  }

  /** Some groups, byte by byte: "a-c", "^a-c", "]a", "a-", "-a", "c-a", "^", "^-" and "^-z". */
  lemma GroupMembers()
    ensures CharSets.Group([97, 45, 99]) == {97, 98, 99}
    ensures forall b: byte :: b in CharSets.Group([94, 97, 45, 99]) <==> b < 97 || b > 99
    ensures CharSets.Group([93, 97]) == {93, 97}
    ensures CharSets.Group([97, 45]) == {97, 45} && CharSets.Group([45, 97]) == {45, 97}
    ensures CharSets.Group([99, 45, 97]) == {}
    ensures forall b: byte :: b in CharSets.Group([94])
    ensures forall b: byte :: b in CharSets.Group([94, 45]) <==> b != 45
    ensures forall b: byte :: b in CharSets.Group([94, 45, 122]) <==> 94 <= b <= 122
  {
    RangeItems(97, 99);
    RangeItems(99, 97);
    RangeItems(94, 122);
    assert [94, 97, 45, 99][1..] == [97, 45, 99];
    TwoItems(93, 97);
    TwoItems(97, 45);
    TwoItems(45, 97);
    var none: bytes := [];
    assert [94][1..] == none && [94, 45][1..] == [45];
    OneItem(45);
  }

  lemma RangeItems(lo: byte, hi: byte)
    ensures CharSets.Union(CharSets.Items([lo, 45, hi])) == CharSets.Span(lo, hi + 1)
  {
    var c := [lo, 45, hi];
    var none: bytes := [];
    assert c[3..] == none;
    assert CharSets.Items(c) == [CharSets.Range(lo, hi)];
    assert CharSets.Items(c)[1..] == [];
  }

  lemma OneItem(a: byte)
    ensures CharSets.Union(CharSets.Items([a])) == {a}
  {
    var none: bytes := [];
    assert [a][1..] == none && CharSets.Items([a]) == [CharSets.Single(a)];
    assert CharSets.Items([a])[1..] == [];
  }

  lemma TwoItems(a: byte, b: byte)
    ensures CharSets.Union(CharSets.Items([a, b])) == {a, b}
  {
    assert [a, b][1..] == [b];
    OneItem(b);
    var items := CharSets.Items([a, b]);
    assert items == [CharSets.Single(a), CharSets.Single(b)];
    assert items[1..] == CharSets.Items([b]);
  }

  // ----- dots at the ends

  function Dot(yes: bool): bytes { if yes then [46] else [] }

  /** A leading '.' lets anything that ends with '.' come before, and a trailing '.' anything that
      starts with '.' behind. */
  predicate Cut(front: bool, a: bytes, b: bytes, back: bool) {
    (a == [] || (front && a[|a| - 1] == 46)) && (b == [] || (back && b[0] == 46))
  }

  function Edged(front: bool, w: bytes, back: bool): seq<Token> {
    EdgeIf(front) + Lits(w) + EdgeIf(back)
  }

  predicate Undotted(w: bytes) {
    w != [] && AllPlain(w) && w[0] != 46 && w[|w| - 1] != 46
  }

  lemma DotsMark(front: bool, w: bytes, back: bool)
    requires Undotted(w)
    ensures Mark(Lits(Dot(front) + w + Dot(back))) == Edged(front, w, back)
  {
  }

  lemma EdgedParts(front: bool, w: bytes, back: bool)
    requires w != []
    ensures var e := Edged(front, w, back);
      e != [] && !Open(e) && Lead(e) == front && Trail(e) == back && Body(e) == Lits(w)
  {
    var e := Edged(front, w, back);
    assert e[if front then 1 else 0] == Lit(w[0]);
  }

  lemma DotsTokens(front: bool, w: bytes, back: bool)
    requires Undotted(w)
    ensures var glob := Dot(front) + w + Dot(back); Tokens(glob) == Lits(glob) && NoEdge(Lits(glob))
  {
    var glob := Dot(front) + w + Dot(back);
    assert forall b :: b in glob ==> Plain(b);
    hide Tokens, Lits;
    PlainTokens(glob);
  }

  /** A list without stars is not changed by the pass over it. */
  lemma NoStarPasses(m: seq<Token>)
    requires forall t :: t in m ==> !Many(t)
    ensures Bubble(m, 0) == m
  {
    assert forall k :: 0 <= k < |m| ==> m[k] in m;
    NothingPasses(m, 0);
  }

  lemma DotsCompile(front: bool, w: bytes, back: bool)
    requires Undotted(w)
    ensures var glob := Dot(front) + w + Dot(back);
      && NoEdge(Tokens(glob)) && Mark(Tokens(glob)) == Edged(front, w, back)
      && Compile(Tokens(glob)) == Reversed(Edged(front, w, back))
  {
    var glob := Dot(front) + w + Dot(back);
    var e := Edged(front, w, back);
    DotsTokens(front, w, back);
    PlainMerge(glob);
    DotsMark(front, w, back);
    assert forall t :: t in e ==> !Many(t);
    hide Mark, Merge, Tokens, Lits, Edged, Undotted, Dot, Many, Bubble;
    ReversedHas(e);
    NoStarPasses(Reversed(e));
  }

  lemma ReversedHas(e: seq<Token>)
    ensures forall t :: t in Reversed(e) ==> t in e
  {
  }

  lemma NoStarInEdged(front: bool, w: bytes, back: bool)
    ensures Star !in Edged(front, w, back)
  {
  }

  lemma DotsShape(front: bool, w: bytes, back: bool)
    requires w != []
    ensures var m := Reversed(Edged(front, w, back)); !Open(m) && Tail(m) == [] && m != [Edge, Star]
  {
    hide Open, Lead, Trail, Body, Edged, Reversed;
    var e := Edged(front, w, back);
    var m := Reversed(e);
    EdgedParts(front, w, back);
    OpenReversed(e);
    BodyReversed(e);
    NoStarInEdged(front, w, back);
    ReversedHas(e);
    assert Star in [Edge, Star];
    NoTail(Body(m));
  }

  /** What a plain pattern with dots at its ends takes. */
  lemma DotsTake(front: bool, w: bytes, back: bool, x: bytes)
    requires Undotted(w)
    ensures Accepts(Dot(front) + w + Dot(back), x) <==> exists a, b :: x == a + w + b && Cut(front, a, b, back)
  {
    var glob := Dot(front) + w + Dot(back);
    if x == [] {
      NothingTakesNothing(glob);
    } else {
      hide Compile, Accepts, Tokens, Tail, Reversed, Mark, Edged, Body, Lead, Trail, Open, Undotted, MarkedIn, Cut;
      DotsCompile(front, w, back);
      DotsShape(front, w, back);
      MatcherMeans(glob, x);
      EdgedParts(front, w, back);
      DotsMean(front, w, back, Edged(front, w, back), x);
    }
  }

  lemma DotsMean(front: bool, w: bytes, back: bool, e: seq<Token>, x: bytes)
    requires !Open(e) && Lead(e) == front && Trail(e) == back && Body(e) == Lits(w)
    ensures MarkedIn(e, x) <==> exists a, b :: x == a + w + b && Cut(front, a, b, back)
  {
    hide Open, Lead, Trail, Body, Lits;
    if i, j :| Between(e, x, i, j) {
      LitsIn(w, x[i..j]);
      assert x == x[..i] + w + x[j..] && Cut(front, x[..i], x[j..], back);
    }
    if a, b :| x == a + w + b && Cut(front, a, b, back) {
      LitsIn(w, w);
      assert x[|a|..|a| + |w|] == w;
      assert Between(e, x, |a|, |a| + |w|);
    }
  }

  /** Nothing but dots, or nothing at all, takes every source but the empty one. */
  lemma DotsAlone(x: bytes)
    ensures Accepts([], x) <==> x != []
    ensures Accepts([46], x) <==> x != []
    ensures Accepts([46, 46], x) <==> x != []
  {
    var none: bytes := [];
    var dot, dots: bytes := [46], [46, 46];
    assert dots[1..] == dot && dot[1..] == none;
    assert Tokens(none) == [] && Tokens(dot) == [Lit(DOT)] && Tokens(dots) == [Lit(DOT), Lit(DOT)];
    CompileDots();
    hide Compile, Tokens;
    OpenTakes(none, x);
    OpenTakes(dot, x);
    OpenTakes(dots, x);
  }

  lemma CompileDots()
    ensures Compile([]) == [Edge] && Compile([Lit(DOT)]) == [Edge] && Compile([Lit(DOT), Lit(DOT)]) == [Edge, Edge]
  {
    MergeDots();
    var one, two: seq<Token> := [Edge], [Edge, Edge];
    assert Reversed(one) == one && Reversed(two) == two;
    NoStarPasses(one);
    NoStarPasses(two);
    assert Mark([]) == one && Mark([Lit(DOT)]) == one && Mark([Lit(DOT), Lit(DOT)]) == two;
    hide Reversed, Mark, Bubble;
  }

  lemma OpenTakes(glob: bytes, x: bytes)
    requires NoEdge(Tokens(glob)) && Open(Compile(Tokens(glob)))
    ensures Accepts(glob, x) <==> x != []
  {
    hide Compile, Tokens, Accepts;
    if x != [] { AcceptsExact(glob, x); } else { NothingTakesNothing(glob); }
  }
}
