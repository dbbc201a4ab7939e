// What the matcher does for a glob, against what the glob means.
module GlobMeaning {
  import opened Basics
  import opened Globs
  import opened GlobCompile
  import opened GlobRun
  import opened MatchSets

  /** What the matcher takes is meant under `Strict`, and what is meant is taken under `Reached`. */
  lemma AcceptsMeaning(glob: bytes, source: bytes)
    requires NoEdge(Tokens(glob)) && source != []
    ensures var (m, v) := (Compile(Tokens(glob)), Reversed(source));
      && (Strict(m, v) ==> Accepts(glob, source) ==> GlobIn(Tokens(glob), source))
      && (Reached(m, v) ==> GlobIn(Tokens(glob), source) ==> Accepts(glob, source))
  {
    var toks := Tokens(glob);
    var m, v := Compile(toks), Reversed(source);
    hide Accepts, GlobIn;
    AcceptsExact(glob, source);
    CompilePreserves(toks, source);
    CompiledEdges(toks);
    if Strict(m, v) { ExactSound(m, v); }
    if Reached(m, v) { ExactReached(m, v); }
  }

  /** No two stars in a row are left at the end that is compared last. */
  predicate OneStarLast(glob: bytes) {
    var m := Compile(Tokens(glob));
    Open(m) || |Tail(m)| <= 1
  }

  /** The glob is `*.`. */
  predicate StarDot(glob: bytes) {
    Compile(Tokens(glob)) == [Edge, Star]
  }

  /** No `*` that could meet a ':' stands next to a leading '.'. */
  predicate ColonSafe(glob: bytes) {
    var m := Compile(Tokens(glob));
    Open(m) || !Trail(m) || Tail(m) == [] || StarStar in Tail(m)
  }

  /** Unless two stars are left at the end, `*.` on a source that starts with '.' is all that is missed. */
  lemma MissedExactly(glob: bytes, source: bytes)
    requires NoEdge(Tokens(glob)) && OneStarLast(glob) && source != []
    ensures GlobIn(Tokens(glob), source) && !Accepts(glob, source) <==> source[0] == DOT && StarDot(glob)
  {
    var toks := Tokens(glob);
    var m, v := Compile(toks), Reversed(source);
    assert v[|v| - 1] == source[0];
    CompiledEdges(toks);
    hide Accepts, GlobIn, Exact, MarkedIn, Tail, EdgesOutside;
    AcceptsExact(glob, source);
    CompilePreserves(toks, source);
    ExactlyReached(m, v);
  }

  /** The matcher takes what the glob means, but for the sources with '.' in front that `*.` misses. */
  lemma MatcherMeans(glob: bytes, source: bytes)
    requires NoEdge(Tokens(glob)) && OneStarLast(glob) && source != []
    requires ColonSafe(glob) || COLON !in source
    ensures Accepts(glob, source) <==> GlobIn(Tokens(glob), source) && !(source[0] == DOT && StarDot(glob))
  {
    var v := Reversed(source);
    forall b | b in v
      ensures b in source
    {
      var i :| 0 <= i < |v| && v[i] == b;
      assert source[|source| - 1 - i] == b;
    }
    hide Accepts, GlobIn;
    AcceptsMeaning(glob, source);
    MissedExactly(glob, source);
  }

  /** The empty source is taken by no glob, not even by those that take everything else. */
  lemma NothingTakesNothing(glob: bytes)
    ensures !Accepts(glob, [])
    ensures Tokens(glob) == [] ==> GlobIn(Tokens(glob), [])
  {
  }

  // ----- patterns without special bytes

  /** A byte that stands for itself, and that no mark is stored as. */
  predicate Plain(b: byte) {
    b > 4 && b != OPEN_GROUP && b != ASTERISK && b != QUESTION && b != UNDERSCORE
  }

  function Lits(w: bytes): seq<Token> {
    seq(|w|, k requires 0 <= k < |w| => Lit(w[k]))
  }

  lemma {:induction false} PlainTokens(w: bytes)
    requires forall b :: b in w ==> Plain(b)
    ensures Tokens(w) == Lits(w) && Scannable(w) && GroupCount(w) == 0
  {
    if w != [] {
      assert w[0] in w;
      PlainTokens(w[1..]);
    }
  }

  lemma {:induction false} PlainMerge(w: bytes)
    ensures Merge(Lits(w)) == Lits(w)
  {
    if w != [] {
      var n := |w| - 1;
      PlainMerge(w[..n]);
      assert Lits(w) == Lits(w[..n]) + [Lit(w[n])];
      hide Lits;
      MergeOneMore(Lits(w[..n]), Lit(w[n]));
    }
  }

  lemma {:induction false} NothingToSwap(m: seq<Token>, i: nat)
    requires forall k :: 0 <= k < |m| ==> m[k].Lit?
    ensures Bubble(m, i) == m
    decreases |m| - i
  {
    if i + 1 < |m| { NothingToSwap(m, i + 1); }
  }

  lemma {:induction false} LitsIn(w: bytes, source: bytes)
    ensures In(Lits(w), source) <==> source == w
  {
    if w != [] && source != [] {
      assert Lits(w)[1..] == Lits(w[1..]);
      LitsIn(w[1..], source[1..]);
      assert w == [w[0]] + w[1..] && source == [source[0]] + source[1..];
    }
  }

  lemma PlainCompile(w: bytes)
    requires w != [] && w[0] != DOT && w[|w| - 1] != DOT
    ensures Mark(Lits(w)) == Lits(w) && Compile(Lits(w)) == Reversed(Lits(w))
  {
    PlainMerge(w);
    hide Merge;
    NothingToSwap(Reversed(Lits(w)), 0);
  }

  lemma PlainMeaning(w: bytes, source: bytes)
    requires w != [] && w[0] != DOT && w[|w| - 1] != DOT
    ensures GlobIn(Lits(w), source) <==> source == w
  {
    PlainCompile(w);
    LitsIn(w, source);
    var toks := Lits(w);
    assert !Open(toks) && !Lead(toks) && !Trail(toks) && Body(toks) == toks;
    hide In, Lits;
    assert source[0..|source|] == source;
    if In(toks, source) { assert Between(toks, source, 0, |source|); }
  }

  lemma NoTail(m: seq<Token>)
    requires m != [] && m[0] != Edge && m[|m| - 1] != Edge && !Many(m[|m| - 1])
    ensures !Open(m) && !Lead(m) && !Trail(m) && Body(m) == m && TailStart(m) == |m|
  {
    var k := TailStart(m);
    if k < |m| { assert !Many(m[k..][|m| - k - 1]); }
  }

  /** A pattern without special bytes, and without a '.' at either end, takes only itself. */
  lemma PlainTakesItself(w: bytes, source: bytes)
    requires w != [] && (forall b :: b in w ==> Plain(b)) && w[0] != DOT && w[|w| - 1] != DOT
    ensures NoEdge(Tokens(w)) && Scannable(w) && GroupCount(w) == 0
    ensures Accepts(w, source) <==> source == w
  {
    PlainTokens(w);
    PlainCompile(w);
    PlainMeaning(w, source);
    NoTail(Reversed(Lits(w)));
    assert NoEdge(Lits(w));
    if source == [] {
      NothingTakesNothing(w);
    } else {
      hide Compile, Tokens, GlobIn, Accepts, Exact, Lits, Body, Open, Lead, Trail, TailStart, Run;
      AcceptsMeaning(w, source);
    }
  }

  // ----- the limits are real

  const LETTER_A: byte := 97

  /** "**?*" means any source, but "a" is not taken. */
  lemma TwoStarsLast()
    ensures var glob := [ASTERISK, ASTERISK, QUESTION, ASTERISK];
      !OneStarLast(glob) && GlobIn(Tokens(glob), [LETTER_A]) && !Accepts(glob, [LETTER_A])
  {
    var glob, w := [ASTERISK, ASTERISK, QUESTION, ASTERISK], [LETTER_A];
    var toks, m := [StarStar, Question, Star], [Question, Star, StarStar];
    TokensTwoStars();
    CompileTwoStars();
    assert m[1..] == [Star, StarStar] && AllMany(m[1..]) && !Many(m[0]);
    assert !OneStarLast(glob) by { assert Body(m) == m && m[0..] == m; }
    assert Reversed(w) == w;
    assert GlobIn(toks, w) by {
      InTwoStars();
      assert w[0..1] == w && Body(toks) == toks;
      assert Between(toks, w, 0, 1);
    }
    assert !Run(m, w, true) by { assert !LookAhead(m[1..]); }
  }

  lemma TokensTwoStars()
    ensures Tokens([ASTERISK, ASTERISK, QUESTION, ASTERISK]) == [StarStar, Question, Star]
  {
    var glob := [ASTERISK, ASTERISK, QUESTION, ASTERISK];
    assert Tokens(glob[3..]) == [Star] by { assert glob[3..][1..] == []; }
    assert Tokens(glob[2..]) == [Question, Star] by { assert glob[2..][1..] == glob[3..]; }
  }

  lemma InTwoStars()
    ensures In([StarStar, Question, Star], [LETTER_A])
  {
    assert [StarStar, Question, Star][1..] == [Question, Star] && [Question, Star][1..] == [Star];
    assert [Star][1..] == [] && [LETTER_A][1..] == [];
    assert In([Star], []);
  }

  lemma CompileTwoStars()
    ensures Compile([StarStar, Question, Star]) == [Question, Star, StarStar]
  {
    var toks := [StarStar, Question, Star];
    assert toks[..2] == [StarStar, Question] && toks[..2][..1] == [StarStar] && [StarStar][..0] == [];
    assert Merge([StarStar]) == [StarStar] && Merge([StarStar, Question]) == [StarStar, Question];
    assert Merge(toks) == toks;
    var r := [Star, Question, StarStar];
    assert Reversed(toks) == r;
    assert Swap(r, 0) == [Question, Star, StarStar];
    assert Bubble(Swap(r, 0), 1) == Bubble(Swap(r, 0), 2) == Swap(r, 0);
  }

  /** ".*" does not mean "a:a", but the star next to the edge lets it pass. */
  lemma ColonPasses()
    ensures var (glob, source) := ([DOT, ASTERISK], [LETTER_A, COLON, LETTER_A]);
      !GlobIn(Tokens(glob), source) && Accepts(glob, source)
  {
    var glob, w := [DOT, ASTERISK], [LETTER_A, COLON, LETTER_A];
    var toks := [Lit(DOT), Star];
    assert Tokens(glob[1..]) == [Star] by { assert glob[1..][1..] == []; }
    assert Tokens(glob) == toks;
    assert Mark(toks) == [Edge, Star] && Reversed(w) == w;
    hide Tokens, Mark, MarkedIn, Compile, Run;
    CompileDotStar();
    ColonNotMeant();
    ColonRuns();
  }

  lemma ColonRuns()
    ensures Run([Star, Edge], [LETTER_A, COLON, LETTER_A], true)
  {
    assert [Star, Edge][1..] == [Edge];
  }

  lemma CompileDotStar()
    ensures Compile([Lit(DOT), Star]) == [Star, Edge]
  {
    var toks := [Lit(DOT), Star];
    MergeDots();
    assert toks[..1] == [Lit(DOT)];
    assert Merge(toks) == toks && Mark(toks) == [Edge, Star];
    assert Reversed([Edge, Star]) == [Star, Edge];
    assert Bubble([Star, Edge], 0) == Bubble([Star, Edge], 1);
  }

  lemma ColonNotMeant()
    ensures !MarkedIn([Edge, Star], [LETTER_A, COLON, LETTER_A])
  {
    var w := [LETTER_A, COLON, LETTER_A];
    InOne(Star, w);
    assert !Takes(Star, w[1]);
    assert Body([Edge, Star]) == [Star] && w[0..3] == w;
    forall i, j
      ensures !Between([Edge, Star], w, i, j)
    {
    }
  }

  /** `*.` means ".a", but nothing is left for the star when the '.' was read. */
  lemma LeadingDotMissed()
    ensures var (glob, source) := ([ASTERISK, DOT], [DOT, LETTER_A]);
      GlobIn(Tokens(glob), source) && !Accepts(glob, source)
  {
    var glob, w := [ASTERISK, DOT], [DOT, LETTER_A];
    var toks := [Star, Lit(DOT)];
    assert Tokens(glob[1..]) == [Lit(DOT)] by { assert glob[1..][1..] == []; }
    assert Tokens(glob) == toks;
    assert Mark(toks) == [Star, Edge] && Reversed(w) == [LETTER_A, DOT];
    assert Body([Star, Edge]) == [Star] && w[0..0] == [];
    InOne(Star, w[0..0]);
    assert Between([Star, Edge], w, 0, 0);
    assert MarkedIn([Star, Edge], w);
    hide Tokens, Mark, MarkedIn, Compile, Run, Between;
    CompileStarDot();
    LeadingDotStops();
  }

  lemma CompileStarDot()
    ensures Compile([Star, Lit(DOT)]) == [Edge, Star]
  {
    var toks := [Star, Lit(DOT)];
    assert toks[..1] == [Star] && [Star][..0] == [] && Merge([Star]) == [Star];
    assert Merge(toks) == toks && Mark(toks) == [Star, Edge];
    assert Reversed([Star, Edge]) == [Edge, Star];
    assert Bubble([Edge, Star], 0) == Bubble([Edge, Star], 1);
  }

  lemma LeadingDotStops()
    ensures !Run([Edge, Star], [LETTER_A, DOT], true)
  {
    assert [Edge, Star][1..] == [Star] && [LETTER_A, DOT][1..] == [DOT];
    assert !Run([Star], [DOT], false) && !Run([Edge, Star], [DOT], false);
    assert !Run([Star], [LETTER_A, DOT], true);
  }
}
