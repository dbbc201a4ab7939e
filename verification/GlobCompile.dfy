// What the compiler does to the tokens of a pattern, and that it changes nothing
// about what the pattern means.
module GlobCompile {
  import opened Basics
  import opened Globs

  /** Appends a token: stars in a row become one, and a star lets its partner pass. */
  function Push(m: seq<Token>, t: Token): seq<Token> {
    var n := |m|;
    var last := if n == 0 then Edge else m[n - 1];
    match t
    case Star => if Many(last) then m else m + [Star]
    case StarStar =>
      if last.Star? then m[..n - 1] + [StarStar] else if last.StarStar? then m else m + [StarStar]
    case Question => if last.Star? then m[..n - 1] + [Question, Star] else m + [Question]
    case Underscore => if last.StarStar? then m[..n - 1] + [Underscore, StarStar] else m + [Underscore]
    case _ => m + [t]
  }

  function Merge(toks: seq<Token>): seq<Token> {
    if toks == [] then [] else Push(Merge(toks[..|toks| - 1]), toks[|toks| - 1])
  }

  lemma MergeOneMore(toks: seq<Token>, t: Token)
    ensures Merge(toks + [t]) == Push(Merge(toks), t)
  {
    assert (toks + [t])[..|toks|] == toks;
  }

  function Swap(m: seq<Token>, i: nat): seq<Token>
    requires i + 1 < |m|
  {
    m[i := m[i + 1]][i + 1 := m[i]]
  }

  /** One pass from index `i` that moves every star behind the partners that follow it. */
  function Bubble(m: seq<Token>, i: nat): (r: seq<Token>)
    ensures |r| == |m|
    decreases |m| - i
  {
    if i + 1 >= |m| then m
    else Bubble(if Partners(m[i], m[i + 1]) then Swap(m, i) else m, i + 1)
  }

  /** The list that the matcher runs on sources that are read backwards. */
  function Compile(toks: seq<Token>): (m: seq<Token>)
    ensures m != []
  {
    Bubble(Reversed(Mark(Merge(toks))), 0)
  }

  // ----- merging

  lemma SameTrans(x: seq<Token>, y: seq<Token>, z: seq<Token>)
    requires Same(x, y) && Same(y, z)
    ensures Same(x, z)
  {
  }

  /** Replacing the end of a list. */
  lemma SameTail(m: seq<Token>, a: seq<Token>, x: seq<Token>, y: seq<Token>)
    requires Same(x, y) && m == a + x
    ensures Same(m, a + y)
  {
    SameInContext(a, x, y, []);
    assert a + x + [] == m && a + y + [] == a + y;
  }

  lemma PushSame(m: seq<Token>, t: Token)
    ensures Same(Push(m, t), m + [t])
  {
    if m != [] {
      var a, last := m[..|m| - 1], m[|m| - 1];
      assert m == a + [last] && m + [t] == a + [last, t];
      if Many(last) && Many(t) {
        StarsMerge(last, t);
        SameTail(m + [t], a, [last, t], [Wider(last, t)]);
      } else if Partners(last, t) {
        PartnersCommute(last, t);
        SameTail(m + [t], a, [last, t], [t, last]);
      }
    }
  }

  lemma {:induction false} MergeSame(toks: seq<Token>)
    ensures Same(Merge(toks), toks)
  {
    if toks != [] {
      var init, t := toks[..|toks| - 1], toks[|toks| - 1];
      MergeSame(init);
      SameInContext([], Merge(init), init, [t]);
      assert [] + Merge(init) + [t] == Merge(init) + [t] && [] + init + [t] == toks;
      PushSame(Merge(init), t);
      SameTrans(Merge(toks), Merge(init) + [t], toks);
    }
  }

  /** A leading '.' stays apart from what follows it. */
  lemma {:induction false} MergeAfterDot(toks: seq<Token>)
    ensures Merge([Lit(DOT)] + toks) == [Lit(DOT)] + Merge(toks)
  {
    var all := [Lit(DOT)] + toks;
    if toks == [] {
      assert all[..0] == [];
    } else {
      var init := toks[..|toks| - 1];
      assert all[..|all| - 1] == [Lit(DOT)] + init;
      MergeAfterDot(init);
      PushAfterDot(Merge(init), toks[|toks| - 1]);
    }
  }

  lemma PushAfterDot(m: seq<Token>, t: Token)
    ensures Push([Lit(DOT)] + m, t) == [Lit(DOT)] + Push(m, t)
  {
    var all := [Lit(DOT)] + m;
    if m != [] {
      assert all[|all| - 1] == m[|m| - 1];
      assert all[..|all| - 1] == [Lit(DOT)] + m[..|m| - 1];
    }
  }

  lemma MergeBeforeDot(toks: seq<Token>)
    ensures Merge(toks + [Lit(DOT)]) == Merge(toks) + [Lit(DOT)]
  {
    assert (toks + [Lit(DOT)])[..|toks|] == toks;
  }

  lemma {:induction false} MergeEnds(toks: seq<Token>)
    requires toks != []
    ensures Merge(toks) != []
    ensures Merge(toks)[0] == Lit(DOT) <==> toks[0] == Lit(DOT)
    ensures Merge(toks)[|Merge(toks)| - 1] == Lit(DOT) <==> toks[|toks| - 1] == Lit(DOT)
  {
    if |toks| > 1 {
      MergeEnds(toks[..|toks| - 1]);
    } else {
      assert toks[..0] == [];
    }
  }

  lemma {:induction false} MergeNoEdge(toks: seq<Token>)
    requires NoEdge(toks)
    ensures NoEdge(Merge(toks))
  {
    if toks != [] {
      MergeNoEdge(toks[..|toks| - 1]);
    }
  }

  predicate EdgesOutside(m: seq<Token>) {
    m != [] && (!Open(m) ==> NoEdge(Body(m)))
  }

  /** The part of a pattern between its leading and its trailing '.'. */
  function Inner(toks: seq<Token>): seq<Token>
    requires toks != [] && toks != [Lit(DOT)]
  {
    toks[(if toks[0] == Lit(DOT) then 1 else 0)..(if toks[|toks| - 1] == Lit(DOT) then |toks| - 1 else |toks|)]
  }

  lemma MarkBody(toks: seq<Token>)
    requires NoEdge(toks) && toks != []
    ensures Lead(Mark(toks)) <==> toks[0] == Lit(DOT)
    ensures Trail(Mark(toks)) <==> toks[|toks| - 1] == Lit(DOT)
    ensures Open(Mark(toks)) <==> toks == [Lit(DOT)] || toks == [Lit(DOT), Lit(DOT)]
    ensures !Open(Mark(toks)) ==> Body(Mark(toks)) == Inner(toks) && NoEdge(Body(Mark(toks)))
  {
    assert toks[0] in toks && toks[|toks| - 1] in toks;
    if |toks| == 1 {
      assert toks == [toks[0]];
    } else if |toks| == 2 {
      assert toks == [toks[0], toks[1]];
    }
  }

  function DotIf(dot: bool): seq<Token> {
    if dot then [Lit(DOT)] else []
  }

  lemma InnerParts(toks: seq<Token>)
    requires toks != [] && toks != [Lit(DOT)] && toks != [Lit(DOT), Lit(DOT)]
    ensures Inner(toks) != []
    ensures toks == DotIf(toks[0] == Lit(DOT)) + Inner(toks) + DotIf(toks[|toks| - 1] == Lit(DOT))
  {
    if |toks| == 2 { assert toks == [toks[0], toks[1]]; }
  }

  lemma PartsInner(front: bool, inner: seq<Token>, back: bool)
    requires inner != []
    requires front || inner[0] != Lit(DOT)
    requires back || inner[|inner| - 1] != Lit(DOT)
    ensures var toks := DotIf(front) + inner + DotIf(back);
      toks != [] && toks != [Lit(DOT)] && toks != [Lit(DOT), Lit(DOT)] && Inner(toks) == inner
  {
    var toks := DotIf(front) + inner + DotIf(back);
    assert toks[0] == if front then Lit(DOT) else inner[0];
    assert toks[|toks| - 1] == if back then Lit(DOT) else inner[|inner| - 1];
    if |toks| == 2 { assert toks == [toks[0], toks[1]]; }
  }

  lemma MergeParts(front: bool, inner: seq<Token>, back: bool)
    ensures Merge(DotIf(front) + inner + DotIf(back)) == DotIf(front) + Merge(inner) + DotIf(back)
  {
    if back {
      MergeBeforeDot(DotIf(front) + inner);
    } else {
      assert DotIf(front) + inner + DotIf(back) == DotIf(front) + inner;
    }
    if front {
      MergeAfterDot(inner);
    } else {
      assert DotIf(front) + inner == inner;
    }
  }

  /** Merging acts on the part between the dots alone. */
  lemma MergeInner(toks: seq<Token>)
    requires toks != [] && toks != [Lit(DOT)] && toks != [Lit(DOT), Lit(DOT)]
    ensures Merge(toks) != [] && Merge(toks) != [Lit(DOT)] && Merge(toks) != [Lit(DOT), Lit(DOT)]
    ensures Inner(Merge(toks)) == Merge(Inner(toks))
  {
    hide Merge;
    var front, back := toks[0] == Lit(DOT), toks[|toks| - 1] == Lit(DOT);
    InnerParts(toks);
    MergeEnds(Inner(toks));
    MergeParts(front, Inner(toks), back);
    PartsInner(front, Merge(Inner(toks)), back);
  }

  lemma MergeDots()
    ensures Merge([Lit(DOT)]) == [Lit(DOT)]
    ensures Merge([Lit(DOT), Lit(DOT)]) == [Lit(DOT), Lit(DOT)]
  {
    assert [Lit(DOT)][..0] == [] && [Lit(DOT), Lit(DOT)][..1] == [Lit(DOT)];
  }

  /** Merging keeps the meaning of a pattern. */
  lemma MergeMarked(toks: seq<Token>)
    requires NoEdge(toks)
    ensures MarkedSame(Mark(Merge(toks)), Mark(toks))
    ensures EdgesOutside(Mark(Merge(toks)))
  {
    if toks == [Lit(DOT)] || toks == [Lit(DOT), Lit(DOT)] {
      MergeDots();
    } else if toks != [] {
      MergeNoEdge(toks);
      MergeInner(toks);
      MergeSame(Inner(toks));
      MergeEnds(toks);
      MarkBody(toks);
      MarkBody(Merge(toks));
    }
  }

  // ----- moving stars

  lemma SwapSlice(m: seq<Token>, i: nat, lo: nat, hi: nat)
    requires lo <= i && i + 2 <= hi <= |m|
    ensures var (x, k) := (m[lo..hi], i - lo);
      && x == x[..k] + [m[i], m[i + 1]] + x[k + 2..]
      && Swap(m, i)[lo..hi] == x[..k] + [m[i + 1], m[i]] + x[k + 2..]
  {
    var x, y, k := m[lo..hi], Swap(m, i)[lo..hi], i - lo;
    assert x[k] == m[i] && x[k + 1] == m[i + 1];
    assert forall p :: 0 <= p < |x| ==> y[p] == if p == k then m[i + 1] else if p == k + 1 then m[i] else x[p];
  }

  /** The swapped tokens lie inside the body. */
  lemma SwapInside(m: seq<Token>, i: nat)
    requires i + 1 < |m| && Partners(m[i], m[i + 1])
    ensures var n := Swap(m, i);
      !Open(m) && !Open(n) && Lead(n) == Lead(m) && Trail(n) == Trail(m)
    ensures Lead(m) ==> 0 < i
    ensures Trail(m) ==> i + 2 < |m|
  {
    var n := Swap(m, i);
    assert n[i] == m[i + 1] && n[i + 1] == m[i] && m[i] != Edge && m[i + 1] != Edge;
    assert n[0] == Edge <==> m[0] == Edge;
    assert n[|m| - 1] == Edge <==> m[|m| - 1] == Edge;
  }

  lemma SwapMarked(m: seq<Token>, i: nat)
    requires i + 1 < |m| && Partners(m[i], m[i + 1])
    requires EdgesOutside(m)
    ensures MarkedSame(Swap(m, i), m) && EdgesOutside(Swap(m, i))
  {
    var n := Swap(m, i);
    SwapInside(m, i);
    var lo, hi := if Lead(m) then 1 else 0, if Trail(m) then |m| - 1 else |m|;
    SwapSlice(m, i, lo, hi);
    var body, k := Body(m), i - lo;
    assert body == m[lo..hi] && Body(n) == n[lo..hi];
    PartnersCommute(m[i], m[i + 1]);
    hide Same, Body, Swap, Lead, Trail, Open;
    SameInContext(body[..k], [m[i + 1], m[i]], [m[i], m[i + 1]], body[k + 2..]);
  }

  lemma {:induction false} BubbleMarked(m: seq<Token>, i: nat)
    requires EdgesOutside(m)
    ensures MarkedSame(Bubble(m, i), m) && EdgesOutside(Bubble(m, i))
    decreases |m| - i
  {
    if i + 1 < |m| {
      if Partners(m[i], m[i + 1]) {
        SwapMarked(m, i);
        BubbleMarked(Swap(m, i), i + 1);
        if !Open(m) {
          SameTrans(Body(Bubble(m, i)), Body(Swap(m, i)), Body(m));
        }
      } else {
        BubbleMarked(m, i + 1);
      }
    }
  }

  lemma ReversedEdgesOutside(m: seq<Token>)
    requires EdgesOutside(m)
    ensures EdgesOutside(Reversed(m))
  {
    OpenReversed(m);
    if !Open(m) {
      BodyReversed(m);
    }
  }

  lemma CompiledEdges(toks: seq<Token>)
    requires NoEdge(toks)
    ensures EdgesOutside(Compile(toks))
  {
    MergeMarked(toks);
    ReversedEdgesOutside(Mark(Merge(toks)));
    BubbleMarked(Reversed(Mark(Merge(toks))), 0);
  }

  /** The compiled list takes the reversed source exactly when the pattern matches the source. */
  lemma CompilePreserves(toks: seq<Token>, w: bytes)
    requires NoEdge(toks)
    ensures MarkedIn(Compile(toks), Reversed(w)) <==> GlobIn(toks, w)
  {
    var m := Mark(Merge(toks));
    MergeMarked(toks);
    MarkedSameIn(m, Mark(toks), w);
    MarkedReversed(m, w);
    ReversedEdgesOutside(m);
    BubbleMarked(Reversed(m), 0);
    MarkedSameIn(Compile(toks), Reversed(m), Reversed(w));
  }
}
