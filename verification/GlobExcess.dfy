// Exactly which globs the matcher does not take in excess: those without a `*` next to a leading
// '.' that could meet a ':'.
module GlobExcess {
  import opened Basics
  import opened Globs
  import opened GlobCompile
  import opened GlobRun
  import opened MatchSets
  import opened GlobMeaning
  import opened GlobMisses

  // ----- a word that ends with as many ':' as possible

  /** A `**` after which every token is a star or takes ':'. */
  predicate Shielded(toks: seq<Token>) {
    toks != [] &&
    var t := toks[|toks| - 1];
    t.StarStar? || ((t.Star? || Takes(t, COLON)) && Shielded(toks[..|toks| - 1]))
  }

  /** How many tokens at the end take ':', not counting stars. */
  function Colons(toks: seq<Token>): nat {
    if toks == [] then 0 else
      var t, init := toks[|toks| - 1], toks[..|toks| - 1];
      if Many(t) then Colons(init) else if Takes(t, COLON) then Colons(init) + 1 else 0
  }

  ghost function ColonWord(toks: seq<Token>): bytes {
    if toks == [] then [] else
      var t, init := toks[|toks| - 1], toks[..|toks| - 1];
      if Many(t) then ColonWord(init)
      else if Takes(t, COLON) then ColonWord(init) + [COLON]
      else Word(init) + [ByteFor(t)]
  }

  predicate EndsWithColons(x: bytes, n: nat) {
    n <= |x| && forall k :: |x| - n <= k < |x| ==> x[k] == COLON
  }

  lemma OneMoreIn(toks: seq<Token>, t: Token, w: bytes, last: bytes)
    requires In(toks, w) && In([t], last)
    ensures In(toks + [t], w + last)
  {
    assert (w + last)[..|w|] == w && (w + last)[|w|..] == last;
    ConcatJoin(toks, [t], w + last, |w|);
  }

  lemma {:induction false} ColonWordIn(toks: seq<Token>)
    requires NoEdge(toks) && Satisfiable(toks)
    ensures In(toks, ColonWord(toks)) && |ColonWord(toks)| == |Word(toks)|
    ensures EndsWithColons(ColonWord(toks), Colons(toks))
  {
    if toks != [] {
      var t, init := toks[|toks| - 1], toks[..|toks| - 1];
      assert toks == init + [t] && t in toks;
      ColonWordIn(init);
      WordIn(init);
      WordConcat(init, [t]);
      assert [t][1..] == [];
      if Many(t) {
        InOne(t, []);
        OneMoreIn(init, t, ColonWord(init), []);
        assert ColonWord(init) + [] == ColonWord(init);
      } else if Takes(t, COLON) {
        InOne(t, [COLON]);
        OneMoreIn(init, t, ColonWord(init), [COLON]);
      } else {
        InOne(t, [ByteFor(t)]);
        OneMoreIn(init, t, Word(init), [ByteFor(t)]);
      }
    }
  }

  /** Without a `**` to make room, one ':' more at the end is one too many. */
  lemma {:induction false} TooManyColons(toks: seq<Token>, x: bytes)
    requires !Shielded(toks) && EndsWithColons(x, Colons(toks) + 1)
    ensures !In(toks, x)
  {
    if toks != [] && In(toks, x) {
      var t, init := toks[|toks| - 1], toks[..|toks| - 1];
      assert toks == init + [t];
      var k := ConcatSplit(init, [t], x);
      InOne(t, x[k..]);
      var rest := x[k..];
      assert rest != [] ==> rest[|rest| - 1] == x[|x| - 1] == COLON;
      if t.Star? || Takes(t, COLON) { TooManyColons(init, x[..k]); }
    }
  }

  // ----- what is taken in excess

  /** The tokens of a body before its last stars. */
  function Head(m: seq<Token>): seq<Token>
    requires !Open(m)
  {
    Body(m)[..TailStart(Body(m))]
  }

  /** What is in the meaning is a match of the head, then bytes without ':' up to the end or a '.'. */
  lemma MarkedSplit(m: seq<Token>, v: bytes) returns (i: nat, k: nat, j: nat)
    requires !Open(m) && MarkedIn(m, v) && StarStar !in Tail(m)
    ensures i <= k <= j <= |v| && (i == 0 || v[i - 1] == DOT) && In(Head(m), v[i..k])
    ensures (forall p :: k <= p < j ==> v[p] != COLON) && (j == |v| || v[j] == DOT)
  {
    var a, b :| Between(m, v, a, b);
    i, j := a, b;
    var h := TailStart(Body(m));
    assert Body(m) == Head(m) + Tail(m);
    var n := ConcatSplit(Head(m), Tail(m), v[i..j]);
    k := i + n;
    assert v[i..j][..n] == v[i..k] && v[i..j][n..] == v[k..j];
    StarsTakeNoColon(Tail(m), v[k..j]);
    assert forall p :: k <= p < j ==> v[p] == v[k..j][p - k];
  }

  lemma {:induction false} StarsTakeNoColon(s: seq<Token>, x: bytes)
    requires AllMany(s) && StarStar !in s && In(s, x)
    ensures forall p :: 0 <= p < |x| ==> x[p] != COLON
    decreases |s| + |x|
  {
    if s != [] {
      assert s[0] in s && forall t :: t in s[1..] ==> t in s;
      if In(s[1..], x) {
        StarsTakeNoColon(s[1..], x);
      } else {
        StarsTakeNoColon(s, x[1..]);
        assert forall p :: 0 < p < |x| ==> x[p] == x[1..][p - 1];
      }
    }
  }

  /** The last stars take the ':' although they should stop there. */
  lemma ColonTaken(m: seq<Token>)
    requires !Open(m) && Trail(m) && Tail(m) != [] && NoEdge(Head(m)) && Satisfiable(Head(m))
    ensures Exact(m, ColonWord(Head(m)) + [COLON])
  {
    var w := ColonWord(Head(m));
    var v := w + [COLON];
    ColonWordIn(Head(m));
    assert v[0..] == v && v[..|w|] == w && v[|w|..] == [COLON];
    assert TailAt(Body(m), true, v, |w|);
    assert Enters(m, v, 0);
  }

  lemma ColonNotMeant(m: seq<Token>)
    requires !Open(m) && StarStar !in Tail(m) && !Shielded(Head(m)) && NoEdge(Head(m)) && Satisfiable(Head(m))
    ensures !MarkedIn(m, ColonWord(Head(m)) + [COLON])
  {
    var head := Head(m);
    var w := ColonWord(head);
    var v := w + [COLON];
    if MarkedIn(m, v) {
      var i, k, j := MarkedSplit(m, v);
      ColonWordIn(head);
      WordIsShortest(head, v[i..k]);
      assert v[|w|] == COLON && k >= |w|;
      assert v[i..k] == v[i..];
      assert EndsWithColons(v, Colons(head) + 1);
      assert EndsWithColons(v[i..], Colons(head) + 1);
      TooManyColons(head, v[i..]);
    }
  }

  lemma HeadParts(m: seq<Token>)
    requires EdgesOutside(m) && !Open(m)
    ensures NoEdge(Head(m)) && forall t :: t in Head(m) ==> t in m
  {
    assert forall t :: t in Head(m) ==> t in Body(m);
  }

  /** Nothing is taken that the glob does not mean. */
  ghost predicate AddsNothing(glob: bytes) {
    forall source: bytes :: source != [] && Accepts(glob, source) ==> GlobIn(Tokens(glob), source)
  }

  lemma CompiledExcess(toks: seq<Token>) returns (w: bytes)
    requires NoEdge(toks) && Satisfiable(toks)
    requires var m := Compile(toks);
      !Open(m) && Trail(m) && Tail(m) != [] && StarStar !in Tail(m) && !Shielded(Head(m))
    ensures w != [] && !GlobIn(toks, Reversed(w)) && Exact(Compile(toks), w)
  {
    var m := Compile(toks);
    CompiledEdges(toks);
    CompileFrom(toks);
    HeadParts(m);
    SatisfiableFrom(Head(m), toks);
    hide Compile, GlobIn, Exact, MarkedIn, Satisfiable, EdgesOutside, Head, Tail, Shielded, ColonWord, From;
    w := ColonWord(Head(m)) + [COLON];
    ColonTaken(m);
    ColonNotMeant(m);
    CompilePreserves(toks, Reversed(w));
    ReversedTwice(w);
  }

  lemma ExcessTaken(glob: bytes)
    requires NoEdge(Tokens(glob)) && Satisfiable(Tokens(glob))
    requires !ColonSafe(glob) && !Shielded(Head(Compile(Tokens(glob))))
    ensures !AddsNothing(glob)
  {
    hide Compile, GlobIn, Exact, Satisfiable, Tokens, Accepts, Shielded;
    var w := CompiledExcess(Tokens(glob));
    var source := Reversed(w);
    ReversedTwice(w);
    AcceptsExact(glob, source);
    assert source != [] && !GlobIn(Tokens(glob), source) && Accepts(glob, source);
  }

  // ----- a `**` right before a token that takes ':'

  lemma StarsTake(s: seq<Token>, x: bytes)
    requires AllMany(s) && s != [] && AllTake(s[0], x)
    ensures In(s, x)
  {
    InOne(s[0], x);
    NothingAndAll(s[1..]);
    assert [s[0]] + s[1..] == s && x[..|x|] == x;
    ConcatJoin([s[0]], s[1..], x, |x|);
  }

  /** The `**` takes what was taken before, and the last token the ':' at `p`. */
  lemma Stretched(a: seq<Token>, t: Token, u: bytes, k: nat, p: nat)
    requires k <= p < |u| && !Many(t) && Takes(t, u[p]) && In(a + [StarStar] + [t], u[..k])
    ensures In(a + [StarStar] + [t], u[..p + 1])
  {
    var n := ConcatSplit(a + [StarStar], [t], u[..k]);
    var l := ConcatSplit(a, [StarStar], u[..k][..n]);
    assert u[..k][..n][..l] == u[..p][..l];
    InOne(StarStar, u[..p][l..]);
    ConcatJoin(a, [StarStar], u[..p], l);
    InOne(t, [u[p]]);
    assert u[..p + 1] == u[..p] + [u[p]];
    OneMoreIn(a + [StarStar], t, u[..p], [u[p]]);
  }

  /** After any match of the head there is one that is followed by no ':' before the next '.'. */
  lemma {:induction false} ShieldReaches(a: seq<Token>, t: Token, u: bytes, k: nat) returns (e: nat, j: nat)
    requires k <= |u| && !Many(t) && Takes(t, COLON) && In(a + [StarStar] + [t], u[..k])
    ensures k <= e <= j <= |u| && In(a + [StarStar] + [t], u[..e])
    ensures EndsAt(true, u, j) && AllTake(Star, u[e..j])
    decreases |u| - k
  {
    j := k;
    while j < |u| && u[j] != DOT && u[j] != COLON
      invariant k <= j <= |u|
      invariant AllTake(Star, u[k..j])
    {
      assert u[k..j + 1] == u[k..j] + [u[j]];
      j := j + 1;
    }
    e := k;
    if j < |u| && u[j] == COLON {
      Stretched(a, t, u, k, j);
      e, j := ShieldReaches(a, t, u, j + 1);
    }
  }

  /** The head ends with `**` and a token that takes ':'. */
  predicate ShieldLast(m: seq<Token>)
    requires !Open(m)
  {
    var h, n := Head(m), |Head(m)|;
    n > 1 && h[n - 2].StarStar? && !Many(h[n - 1]) && Takes(h[n - 1], COLON)
  }

  lemma ShieldedBody(m: seq<Token>, u: bytes)
    requires !Open(m) && Trail(m) && Tail(m) != [] && StarStar !in Tail(m) && ShieldLast(m)
    requires BodyTakes(Body(m), true, u)
    ensures BodyIn(Body(m), true, u)
  {
    var h, s := Head(m), Tail(m);
    var n := |h|;
    assert h == h[..n - 2] + [StarStar] + [h[n - 1]] && Body(m) == h + s;
    var k :| TailAt(Body(m), true, u, k);
    assert In(h, u[..k]) && AllMany(s) && s[0] in s;
    hide In, Body, Head, Tail, TailAt, TailTakes, TailStart, BodyTakes, AllMany;
    var e, j := ShieldReaches(h[..n - 2], h[n - 1], u, k);
    StarsTake(s, u[e..j]);
    assert u[..j][..e] == u[..e] && u[..j][e..] == u[e..j];
    ConcatJoin(h, s, u[..j], e);
  }

  /** A glob whose last stars are shielded in this way is not taken in excess. */
  lemma ShieldAddsNothing(glob: bytes)
    requires NoEdge(Tokens(glob)) && !ColonSafe(glob) && ShieldLast(Compile(Tokens(glob)))
    ensures AddsNothing(glob)
  {
    var toks := Tokens(glob);
    var m := Compile(toks);
    forall source: bytes | source != [] && Accepts(glob, source)
      ensures GlobIn(toks, source)
    {
      var v := Reversed(source);
      hide Accepts, GlobIn, BodyTakes, BodyIn, MarkedIn, Body, Head, Tail, ShieldLast;
      AcceptsExact(glob, source);
      CompilePreserves(toks, source);
      var i :| Enters(m, v, i);
      ShieldedBody(m, v[i..]);
      BodyInMarked(m, v, i);
    }
  }

  /** The last stars are not shielded, or by the last token alone. */
  predicate PlainShield(m: seq<Token>) {
    Open(m) || !Shielded(Head(m)) || ShieldLast(m)
  }

  /** Exactly the globs without a `*` that could meet a ':' next to a leading '.' are not taken in excess,
      and those in which a token after `**` takes the ':' away. */
  lemma AddsNothingIff(glob: bytes)
    requires NoEdge(Tokens(glob)) && Satisfiable(Tokens(glob)) && PlainShield(Compile(Tokens(glob)))
    ensures AddsNothing(glob) <==> ColonSafe(glob) || ShieldLast(Compile(Tokens(glob)))
  {
    if ColonSafe(glob) {
      forall source: bytes | source != []
        ensures Accepts(glob, source) ==> GlobIn(Tokens(glob), source)
      {
        hide Accepts, GlobIn;
        AcceptsMeaning(glob, source);
      }
    } else if ShieldLast(Compile(Tokens(glob))) {
      ShieldAddsNothing(glob);
    } else {
      ExcessTaken(glob);
    }
  }

  /** The matcher takes exactly what the glob means. */
  ghost predicate Agrees(glob: bytes) {
    forall source: bytes :: source != [] ==> (Accepts(glob, source) <==> GlobIn(Tokens(glob), source))
  }

  // ----- groups without members

  const Never: Token := Group({})

  lemma {:induction false} NeverIn(toks: seq<Token>, w: bytes)
    requires Never in toks
    ensures !In(toks, w)
    decreases |toks| + |w|
  {
    if In(toks, w) {
      if !Many(toks[0]) {
        NeverIn(toks[1..], w[1..]);
      } else if In(toks[1..], w) {
        NeverIn(toks[1..], w);
      } else {
        NeverIn(toks, w[1..]);
      }
    }
  }

  lemma {:induction false} MergeKeepsNever(toks: seq<Token>)
    requires Never in toks
    ensures Never in Merge(toks)
  {
    var n := |toks| - 1;
    var m := Merge(toks[..n]);
    if toks[n] == Never {
      assert Push(m, Never)[|m|] == Never;
    } else {
      MergeKeepsNever(toks[..n]);
      var k :| 0 <= k < |m| && m[k] == Never;
      assert Push(m, toks[n])[k] == Never;
    }
  }

  lemma {:induction false} BubbleKeepsNever(m: seq<Token>, i: nat)
    requires Never in m
    ensures Never in Bubble(m, i)
    decreases |m| - i
  {
    if i + 1 < |m| {
      var n := if Partners(m[i], m[i + 1]) then Swap(m, i) else m;
      var k :| 0 <= k < |m| && m[k] == Never;
      assert n[k] == Never;
      BubbleKeepsNever(n, i + 1);
    }
  }

  lemma CompileKeepsNever(toks: seq<Token>)
    requires Never in toks
    ensures Never in Compile(toks)
  {
    MergeKeepsNever(toks);
    var merged := Merge(toks);
    var k :| 0 <= k < |merged| && merged[k] == Never;
    var m := Mark(merged);
    assert m[k] == Never;
    assert Reversed(m)[|m| - 1 - k] == Never;
    BubbleKeepsNever(Reversed(m), 0);
  }

  /** A group without members lets nothing match, and nothing is taken. */
  lemma NeverAgrees(glob: bytes)
    requires NoEdge(Tokens(glob)) && !Satisfiable(Tokens(glob))
    ensures Agrees(glob)
  {
    var toks := Tokens(glob);
    var m := Compile(toks);
    var n :| 0 <= n < |toks| && toks[n] == Never;
    CompileKeepsNever(toks);
    CompiledEdges(toks);
    assert !Open(m);
    NeverInBody(m);
    forall source: bytes | source != []
      ensures !Accepts(glob, source) && !GlobIn(toks, source)
    {
      var v := Reversed(source);
      AcceptsExact(glob, source);
      CompilePreserves(toks, source);
      hide Accepts, GlobIn, Compile;
      NeverTaken(m, v);
    }
  }

  lemma NeverInBody(m: seq<Token>)
    requires Never in m && !Open(m)
    ensures Never in Head(m) && Never in Body(m)
  {
    var k :| 0 <= k < |m| && m[k] == Never;
    var o := if Lead(m) then 1 else 0;
    var b := Body(m);
    assert b[k - o] == Never;
    assert forall j :: TailStart(b) <= j < |b| ==> b[j] == b[TailStart(b)..][j - TailStart(b)];
    assert Head(m)[k - o] == Never;
  }

  lemma NeverTaken(m: seq<Token>, v: bytes)
    requires !Open(m) && Never in Head(m) && Never in Body(m)
    ensures !Exact(m, v) && !MarkedIn(m, v)
  {
    forall w: bytes ensures !In(Head(m), w) && !In(Body(m), w) {
      NeverIn(Head(m), w);
      NeverIn(Body(m), w);
    }
  }

  /** The globs on which the matcher does exactly what the glob means, for every source. */
  lemma AgreesIff(glob: bytes)
    requires NoEdge(Tokens(glob)) && PlainShield(Compile(Tokens(glob)))
    ensures Agrees(glob) <==> (Satisfiable(Tokens(glob)) ==>
      OneStarLast(glob) && !StarDot(glob) && (ColonSafe(glob) || ShieldLast(Compile(Tokens(glob)))))
  {
    if Satisfiable(Tokens(glob)) {
      MissesNothingIff(glob);
      AddsNothingIff(glob);
    } else {
      NeverAgrees(glob);
    }
  }
}
