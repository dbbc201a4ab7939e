// Exactly which globs the matcher takes in full: those other than `*.` that do not end up with
// two stars in a row where the comparison ends.
module GlobMisses {
  import opened Basics
  import opened Globs
  import opened GlobCompile
  import opened GlobRun
  import opened MatchSets
  import opened GlobMeaning

  // ----- where two stars in a row come from

  predicate Single(t: Token) { t.Question? || t.Underscore? }

  predicate Stars(m: seq<Token>, k: int) {
    0 <= k < |m| - 1 && Many(m[k]) && Many(m[k + 1])
  }

  ghost predicate NoStars(m: seq<Token>) {
    forall k :: !Stars(m, k)
  }

  lemma {:induction false} MergeNoStars(toks: seq<Token>)
    ensures NoStars(Merge(toks))
  {
    if toks != [] {
      MergeNoStars(toks[..|toks| - 1]);
      PushNoStars(Merge(toks[..|toks| - 1]), toks[|toks| - 1]);
    }
  }

  lemma PushNoStars(m: seq<Token>, t: Token)
    requires NoStars(m)
    ensures NoStars(Push(m, t))
  {
    var r := Push(m, t);
    forall k ensures !Stars(r, k) {
      assert !Stars(m, k) && !Stars(m, k - 1);
    }
  }

  /** Stars meet only behind a partner that has passed one of them. */
  ghost predicate Mended(m: seq<Token>, i: nat) {
    forall k :: Stars(m, k) ==> 0 < k <= i && Single(m[k - 1])
  }

  lemma {:induction false} BubbleMends(m: seq<Token>, i: nat)
    requires Mended(m, i)
    ensures Mended(Bubble(m, i), |m|)
    decreases |m| - i
  {
    if i + 1 < |m| {
      var n := if Partners(m[i], m[i + 1]) then Swap(m, i) else m;
      forall k | Stars(n, k)
        ensures 0 < k <= i + 1 && Single(n[k - 1])
      {
        assert Stars(m, k) || k == i + 1;
      }
      BubbleMends(n, i + 1);
    }
  }

  lemma CompileMends(toks: seq<Token>)
    ensures var m := Compile(toks); Mended(m, |m|)
  {
    var merged := Merge(toks);
    MergeNoStars(toks);
    var m := Reversed(Mark(merged));
    forall k ensures !Stars(m, k) {
      assert Stars(m, k) ==> Stars(merged, |m| - 2 - k);
    }
    BubbleMends(m, 0);
  }

  // ----- the shortest word

  /** Every group has a member. */
  predicate Satisfiable(toks: seq<Token>) {
    forall k :: 0 <= k < |toks| && toks[k].Group? ==> toks[k].members != {}
  }

  ghost function ByteFor(t: Token): byte {
    if t.Lit? then t.b
    else if t.Group? && t.members != {} then (var b :| b in t.members; b)
    else LETTER_A
  }

  /** One byte for each token that is not a star. */
  ghost function Word(toks: seq<Token>): bytes {
    if toks == [] then []
    else (if Many(toks[0]) then [] else [ByteFor(toks[0])]) + Word(toks[1..])
  }

  lemma {:induction false} WordIn(toks: seq<Token>)
    requires NoEdge(toks) && Satisfiable(toks)
    ensures In(toks, Word(toks))
  {
    if toks != [] {
      assert toks[0] in toks;
      WordIn(toks[1..]);
      if Many(toks[0]) {
        assert Word(toks) == Word(toks[1..]);
      } else {
        assert Word(toks)[1..] == Word(toks[1..]) && Takes(toks[0], Word(toks)[0]);
      }
    }
  }

  lemma {:induction false} WordIsShortest(toks: seq<Token>, w: bytes)
    requires In(toks, w)
    ensures |w| >= |Word(toks)|
    decreases |toks| + |w|
  {
    if toks != [] {
      if !Many(toks[0]) {
        WordIsShortest(toks[1..], w[1..]);
      } else if In(toks[1..], w) {
        WordIsShortest(toks[1..], w);
      } else {
        WordIsShortest(toks, w[1..]);
      }
    }
  }

  lemma {:induction false} WordConcat(a: seq<Token>, b: seq<Token>)
    ensures Word(a + b) == Word(a) + Word(b)
  {
    if a == [] {
      assert a + b == b;
    } else {
      assert (a + b)[1..] == a[1..] + b;
      WordConcat(a[1..], b);
    }
  }

  lemma {:induction false} WordOfStars(s: seq<Token>)
    requires AllMany(s)
    ensures Word(s) == []
  {
    if s != [] { WordOfStars(s[1..]); }
  }

  // ----- what is missed

  /** A body with stars at its end has the shortest word of what is before them. */
  lemma WordOfBody(b: seq<Token>)
    requires var h := TailStart(b); h > 0 && Single(b[h - 1])
    ensures var w := Word(b); w == Word(b[..TailStart(b)]) && w != [] && w[|w| - 1] == LETTER_A
  {
    var h := TailStart(b);
    SingleLast(b[..h - 1], b[h - 1]);
    assert b[..h] == b[..h - 1] + [b[h - 1]] && b == b[..h] + b[h..];
    WordOfStars(b[h..]);
    hide Word, TailStart, Many, AllMany;
    WordConcat(b[..h], b[h..]);
    assert Word(b[..h]) + [] == Word(b[..h]);
  }

  lemma SingleLast(a: seq<Token>, t: Token)
    requires Single(t)
    ensures Word(a + [t]) == Word(a) + [LETTER_A]
  {
    assert [t][1..] == [];
    WordConcat(a, [t]);
  }

  lemma WordNotEntered(m: seq<Token>, w: bytes, i: int)
    requires !Open(m) && |Tail(m)| > 1 && w == Word(Body(m)[..TailStart(Body(m))])
    ensures !Enters(m, w, i)
  {
    if Enters(m, w, i) {
      var b := Body(m);
      var k :| TailAt(b, Trail(m), w[i..], k);
      hide Word, Body, In, TailStart;
      WordIsShortest(b[..TailStart(b)], w[i..][..k]);
    }
  }

  /** A body that ends with two stars does not take its shortest word. */
  lemma ShortestMissed(m: seq<Token>)
    requires EdgesOutside(m) && Mended(m, |m|) && Satisfiable(m)
    requires !Open(m) && |Tail(m)| > 1
    ensures var w := Word(Body(m)); w != [] && w[|w| - 1] == LETTER_A && MarkedIn(m, w) && !Exact(m, w)
  {
    var b := Body(m);
    SinglesBefore(m);
    WordOfBody(b);
    var w := Word(b);
    assert Satisfiable(b);
    hide Word, Body, Mended, EdgesOutside;
    WordIn(b);
    assert MarkedIn(m, w) by { assert w[0..|w|] == w && Between(m, w, 0, |w|); }
    forall i ensures !Enters(m, w, i) { WordNotEntered(m, w, i); }
  }

  lemma SinglesBefore(m: seq<Token>)
    requires EdgesOutside(m) && Mended(m, |m|) && !Open(m) && |Tail(m)| > 1
    ensures NoEdge(Body(m))
    ensures var h := TailStart(Body(m)); h > 0 && Single(Body(m)[h - 1])
  {
    var b := Body(m);
    var h := TailStart(b);
    var o := if Lead(m) then 1 else 0;
    assert b[h..][0] == m[o + h] && b[h..][1] == m[o + h + 1];
    assert Stars(m, o + h);
  }

  // ----- groups come from the pattern

  predicate From(m: seq<Token>, toks: seq<Token>) {
    forall t :: t in m && t.Group? ==> t in toks
  }

  lemma {:induction false} MergeFrom(toks: seq<Token>)
    ensures From(Merge(toks), toks)
  {
    if toks != [] {
      var n := |toks| - 1;
      MergeFrom(toks[..n]);
      assert forall t :: t in Push(Merge(toks[..n]), toks[n]) && t.Group? ==> t in Merge(toks[..n]) || t == toks[n];
    }
  }

  lemma {:induction false} BubbleFrom(m: seq<Token>, i: nat)
    ensures From(Bubble(m, i), m)
    decreases |m| - i
  {
    if i + 1 < |m| {
      var n := if Partners(m[i], m[i + 1]) then Swap(m, i) else m;
      BubbleFrom(n, i + 1);
      assert forall t :: t in n ==> t in m;
    }
  }

  lemma CompileFrom(toks: seq<Token>)
    ensures From(Compile(toks), toks)
  {
    MergeFrom(toks);
    var m := Mark(Merge(toks));
    assert forall t :: t in m && t.Group? ==> t in Merge(toks);
    assert forall t :: t in Reversed(m) ==> t in m;
    BubbleFrom(Reversed(m), 0);
  }

  /** No source that the glob means is missed. */
  ghost predicate MissesNothing(glob: bytes) {
    forall source: bytes :: source != [] && GlobIn(Tokens(glob), source) ==> Accepts(glob, source)
  }

  lemma SatisfiableFrom(m: seq<Token>, toks: seq<Token>)
    requires From(m, toks) && Satisfiable(toks)
    ensures Satisfiable(m)
  {
    forall k | 0 <= k < |m| && m[k].Group?
      ensures m[k].members != {}
    {
      assert m[k] in m;
    }
  }

  lemma CompiledMissed(toks: seq<Token>) returns (w: bytes)
    requires NoEdge(toks) && Satisfiable(toks)
    requires var m := Compile(toks); !Open(m) && |Tail(m)| > 1
    ensures w != [] && w[|w| - 1] == LETTER_A && GlobIn(toks, Reversed(w)) && !Exact(Compile(toks), w)
  {
    hide Compile, GlobIn, Exact, Satisfiable, Body, Word, Mended, From, Tail;
    var m := Compile(toks);
    CompileMends(toks);
    CompileFrom(toks);
    CompiledEdges(toks);
    SatisfiableFrom(m, toks);
    ShortestMissed(m);
    w := Word(Body(m));
    CompilePreserves(toks, Reversed(w));
    ReversedTwice(w);
  }

  lemma StarsMiss(glob: bytes)
    requires NoEdge(Tokens(glob)) && Satisfiable(Tokens(glob)) && !OneStarLast(glob)
    ensures !MissesNothing(glob)
  {
    hide Compile, GlobIn, Exact, Satisfiable, Tokens, Tail, Accepts;
    var w := CompiledMissed(Tokens(glob));
    var source := Reversed(w);
    ReversedTwice(w);
    AcceptsExact(glob, source);
    assert source != [] && GlobIn(Tokens(glob), source) && !Accepts(glob, source);
  }

  /** A glob whose groups all have members is taken in full if and only if it is not `*.` and does not
      end up with two stars where the comparison ends. */
  lemma MissesNothingIff(glob: bytes)
    requires NoEdge(Tokens(glob)) && Satisfiable(Tokens(glob))
    ensures MissesNothing(glob) <==> OneStarLast(glob) && !StarDot(glob)
  {
    if !OneStarLast(glob) {
      StarsMiss(glob);
    } else {
      hide GlobIn, Accepts, StarDot, OneStarLast;
      forall source: bytes | source != []
        ensures GlobIn(Tokens(glob), source) && !Accepts(glob, source) <==> source[0] == DOT && StarDot(glob)
      {
        MissedExactly(glob, source);
      }
      var dot: bytes := [DOT];
      assert GlobIn(Tokens(glob), dot) && !Accepts(glob, dot) <==> StarDot(glob);
    }
  }
}
