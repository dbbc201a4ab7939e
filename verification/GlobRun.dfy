// The matcher's automaton on one compiled pattern, and exactly which sources it takes.
module GlobRun {
  import opened Basics
  import opened Globs
  import opened GlobCompile

  // ----- the automaton

  /** What may be left of a pattern when a single-byte token has taken the last byte. */
  predicate LookAhead(rest: seq<Token>) {
    || rest == []
    || (|rest| == 1 && (rest[0] == Edge || Many(rest[0])))
    || (|rest| == 2 && Many(rest[0]) && rest[1] == Edge)
  }

  /**
   * The pattern `toks`, active in front of the bytes `v`, reports its data sooner or later.
   * `first` says that the step counts as the one at index 0.
   */
  predicate Run(toks: seq<Token>, v: bytes, first: bool)
    requires toks != [] && v != []
    decreases |toks| + |v|
  {
    var t, rest := toks[0], toks[1..];
    if t == Edge then
      if rest == [] then first || v[0] == DOT
      else
        || (first && Run(rest, v, true))
        || (|v| > 1 && v[0] == DOT && Run(rest, v[1..], false))
        || (|v| > 1 && Run(toks, v[1..], false))
    else if Many(t) then
      || (rest != [] && Run(rest, v, true))
      || (Takes(t, v[0]) && if |v| == 1 then rest == [] else Run(toks, v[1..], false))
    else
      Takes(t, v[0]) && if |v| == 1 then LookAhead(rest) else rest != [] && Run(rest, v[1..], false)
  }

  // ----- the language of the automaton

  predicate AllMany(s: seq<Token>) {
    forall i :: 0 <= i < |s| ==> Many(s[i])
  }

  /** Where the stars begin that end a body. */
  function TailStart(b: seq<Token>): (k: nat)
    ensures k <= |b| && AllMany(b[k..])
    ensures k > 0 ==> !Many(b[k - 1])
  {
    if AllMany(b) then 0 else 1 + TailStart(b[1..])
  }

  /** The last star takes `x[j..]`, which is not empty, and the stars before it take the rest. */
  predicate LastTakes(s: seq<Token>, x: bytes, j: int)
    requires s != []
  {
    0 <= j < |x| && In(s[..|s| - 1], x[..j]) && AllTake(s[|s| - 1], x[j..])
  }

  /** What the stars at the end of a body take, followed by an edge if `trail`. */
  ghost predicate TailTakes(s: seq<Token>, trail: bool, x: bytes) {
    if s == [] then x == [] || (trail && x[0] == DOT)
    else if |s| == 1 then trail || AllTake(s[0], x)
    else x != [] && (trail || exists j :: LastTakes(s, x, j))
  }

  ghost predicate TailAt(b: seq<Token>, trail: bool, u: bytes, k: int) {
    && 0 <= k <= |u|
    && In(b[..TailStart(b)], u[..k])
    && TailTakes(b[TailStart(b)..], trail, u[k..])
  }

  ghost predicate BodyTakes(b: seq<Token>, trail: bool, u: bytes) {
    exists k :: TailAt(b, trail, u, k)
  }

  /** The body starts to match at index `i`. */
  ghost predicate Enters(m: seq<Token>, v: bytes, i: int)
    requires !Open(m)
  {
    && 0 <= i < |v|
    && (i == 0 || (Lead(m) && v[i - 1] == DOT))
    && BodyTakes(Body(m), Trail(m), v[i..])
  }

  /** The sources, read backwards, that a compiled pattern takes. */
  ghost predicate Exact(m: seq<Token>, v: bytes) {
    Open(m) || exists i :: Enters(m, v, i)
  }

  function EdgeIf(trail: bool): seq<Token> {
    if trail then [Edge] else []
  }

  // ----- the recursion that the language follows

  lemma TailStartStep(b: seq<Token>)
    requires b != []
    ensures !AllMany(b) ==> TailStart(b) == 1 + TailStart(b[1..])
    ensures !AllMany(b) ==> b[..TailStart(b)] == [b[0]] + b[1..][..TailStart(b[1..])]
    ensures !AllMany(b) ==> b[TailStart(b)..] == b[1..][TailStart(b[1..])..]
  {
  }

  lemma BodyTakesOne(b: seq<Token>, trail: bool, u: bytes)
    requires b != [] && !Many(b[0])
    ensures BodyTakes(b, trail, u) <==> u != [] && Takes(b[0], u[0]) && BodyTakes(b[1..], trail, u[1..])
  {
    TailStartStep(b);
    var head := b[..TailStart(b)];
    assert head[1..] == b[1..][..TailStart(b[1..])];
    if BodyTakes(b, trail, u) {
      var k :| TailAt(b, trail, u, k);
      assert u[..k][1..] == u[1..][..k - 1] && u[k..] == u[1..][k - 1..];
      assert TailAt(b[1..], trail, u[1..], k - 1);
    }
    if u != [] && Takes(b[0], u[0]) && BodyTakes(b[1..], trail, u[1..]) {
      var k :| TailAt(b[1..], trail, u[1..], k);
      assert u[..k + 1][1..] == u[1..][..k] && u[k + 1..] == u[1..][k..];
      assert TailAt(b, trail, u, k + 1);
    }
  }

  lemma BodyTakesMany(b: seq<Token>, trail: bool, u: bytes)
    requires b != [] && Many(b[0]) && !AllMany(b)
    ensures BodyTakes(b, trail, u) <==>
      BodyTakes(b[1..], trail, u) || (u != [] && Takes(b[0], u[0]) && BodyTakes(b, trail, u[1..]))
  {
    TailStartStep(b);
    var head := b[..TailStart(b)];
    assert head[1..] == b[1..][..TailStart(b[1..])];
    if BodyTakes(b, trail, u) {
      var k :| TailAt(b, trail, u, k);
      if In(head[1..], u[..k]) {
        assert TailAt(b[1..], trail, u, k);
      } else {
        assert u[..k][1..] == u[1..][..k - 1] && u[k..] == u[1..][k - 1..];
        assert TailAt(b, trail, u[1..], k - 1);
      }
    }
    if BodyTakes(b[1..], trail, u) {
      var k :| TailAt(b[1..], trail, u, k);
      assert TailAt(b, trail, u, k);
    }
    if u != [] && Takes(b[0], u[0]) && BodyTakes(b, trail, u[1..]) {
      var k :| TailAt(b, trail, u[1..], k);
      assert u[..k + 1][1..] == u[1..][..k] && u[k + 1..] == u[1..][k..];
      assert TailAt(b, trail, u, k + 1);
    }
  }

  lemma BodyTakesAllMany(b: seq<Token>, trail: bool, u: bytes)
    requires AllMany(b)
    ensures BodyTakes(b, trail, u) <==> TailTakes(b, trail, u)
  {
    assert b[0..] == b && b[..0] == [] && u[0..] == u;
    if TailTakes(b, trail, u) {
      assert TailAt(b, trail, u, 0);
    }
  }

  // ----- the automaton follows the same recursion

  /** The look-ahead tells whether nothing more is needed. */
  lemma LookAheadExact(b: seq<Token>, trail: bool)
    requires NoEdge(b)
    ensures LookAhead(b + EdgeIf(trail)) <==> BodyTakes(b, trail, [])
  {
    if AllMany(b) {
      BodyTakesAllMany(b, trail, []);
    } else {
      var k := TailStart(b);
      if k > 0 {
        assert b[k - 1] in b;
        if BodyTakes(b, trail, []) {
          NeedsAByte(b[..k], k - 1);
        }
      }
    }
  }

  lemma {:induction false} NeedsAByte(b: seq<Token>, k: nat)
    requires k < |b| && !Many(b[k])
    ensures !In(b, [])
  {
    if Many(b[0]) {
      NeedsAByte(b[1..], k - 1);
    }
  }

  lemma {:induction false} RunStarsEdge(b: seq<Token>, u: bytes, first: bool)
    requires AllMany(b) && b != [] && u != []
    ensures Run(b + [Edge], u, first)
  {
    assert (b + [Edge])[1..] == b[1..] + [Edge];
    if |b| > 1 {
      RunStarsEdge(b[1..], u, true);
    } else {
      assert b[1..] + [Edge] == [Edge];
    }
  }

  lemma {:induction false} RunStars(b: seq<Token>, u: bytes, first: bool)
    requires AllMany(b) && b != [] && u != []
    ensures Run(b, u, first) <==> exists j :: LastTakes(b, u, j)
    decreases |b| + |u|
  {
    if |u| > 1 { RunStars(b, u[1..], false); }
    if |b| == 1 {
      assert b[..0] == [];
      if Run(b, u, first) { assert LastTakes(b, u, 0); }
      forall j | LastTakes(b, u, j)
        ensures Run(b, u, first)
      {
        if |u| > 1 { assert LastTakes(b, u[1..], 0); }
      }
    } else {
      RunStars(b[1..], u, true);
      LastTakesStep(b, u);
    }
  }

  lemma LastTakesStep(b: seq<Token>, u: bytes)
    requires AllMany(b) && |b| > 1 && u != []
    ensures (exists j :: LastTakes(b, u, j)) <==>
      || (exists j :: LastTakes(b[1..], u, j))
      || (Takes(b[0], u[0]) && |u| > 1 && exists j :: LastTakes(b, u[1..], j))
  {
    var init := b[..|b| - 1];
    assert init[1..] == b[1..][..|b| - 2];
    forall j | LastTakes(b, u, j)
      ensures || LastTakes(b[1..], u, j)
              || (Takes(b[0], u[0]) && |u| > 1 && LastTakes(b, u[1..], j - 1))
    {
      if !In(init[1..], u[..j]) {
        assert u[..j][1..] == u[1..][..j - 1] && u[j..] == u[1..][j - 1..];
      }
    }
    forall j | LastTakes(b[1..], u, j)
      ensures LastTakes(b, u, j)
    {
    }
    if Takes(b[0], u[0]) && |u| > 1 {
      forall j | LastTakes(b, u[1..], j)
        ensures LastTakes(b, u, j + 1)
      {
        assert u[..j + 1][1..] == u[1..][..j] && u[j + 1..] == u[1..][j..];
      }
    }
  }

  /** Below a leading edge the automaton takes exactly the language. */
  lemma {:induction false} RunBody(b: seq<Token>, trail: bool, u: bytes, first: bool)
    requires b != [] && NoEdge(b) && u != []
    ensures Run(b + EdgeIf(trail), u, first) <==> BodyTakes(b, trail, u)
    decreases |b| + |u|
  {
    var e := EdgeIf(trail);
    assert b[0] in b;
    assert (b + e)[1..] == b[1..] + e;
    if AllMany(b) {
      BodyTakesAllMany(b, trail, u);
      if trail {
        RunStarsEdge(b, u, first);
      } else {
        assert b + e == b;
        RunStars(b, u, first);
        assert |b| == 1 ==> b[..0] == [];
        if |b| == 1 && AllTake(b[0], u) { assert LastTakes(b, u, 0); }
      }
    } else {
      if b[1..] != [] { RunBody(b[1..], trail, u, true); }
      if |u| > 1 { RunBody(b, trail, u[1..], false); }
      if Many(b[0]) {
        BodyTakesMany(b, trail, u);
        if |u| == 1 { NotYet(b, trail); }
      } else {
        BodyTakesOne(b, trail, u);
        if |u| == 1 {
          LookAheadExact(b[1..], trail);
        } else if b[1..] != [] {
          RunBody(b[1..], trail, u[1..], false);
        } else {
          BodyTakesAllMany([], trail, u[1..]);
          assert b[1..] + e == e;
        }
      }
    }
  }

  lemma NotYet(b: seq<Token>, trail: bool)
    requires !AllMany(b)
    ensures !BodyTakes(b, trail, [])
  {
    NeedsAByte(b[..TailStart(b)], TailStart(b) - 1);
  }

  lemma LeadParts(m: seq<Token>)
    requires EdgesOutside(m) && !Open(m) && Lead(m)
    ensures Body(m) != [] && m == [Edge] + (Body(m) + EdgeIf(Trail(m)))
  {
    if |m| == 2 { assert m == [m[0], m[1]]; }
  }

  /** Leaving one byte to the leading edge. */
  lemma EntersLater(m: seq<Token>, v: bytes)
    requires !Open(m) && Lead(m) && |v| > 1
    ensures (exists i :: Enters(m, v, i) && i > 0) <==>
            (v[0] == DOT && BodyTakes(Body(m), Trail(m), v[1..])) || exists i :: Enters(m, v[1..], i) && i > 0
  {
    forall i | i > 0
      ensures Enters(m, v[1..], i) <==> Enters(m, v, i + 1)
    {
      if i < |v| - 1 { assert v[1..][i..] == v[i + 1..]; }
    }
    assert Enters(m, v, 1) <==> v[0] == DOT && BodyTakes(Body(m), Trail(m), v[1..]);
    if exists i :: Enters(m, v, i) && i > 1 {
      var i :| Enters(m, v, i) && i > 1;
      assert Enters(m, v[1..], i - 1);
    }
  }

  lemma {:induction false} RunLead(m: seq<Token>, v: bytes, first: bool)
    requires EdgesOutside(m) && !Open(m) && Lead(m) && v != []
    ensures Run(m, v, first) <==> exists i :: Enters(m, v, i) && (i > 0 || first)
    decreases |v|
  {
    var b, trail := Body(m), Trail(m);
    LeadParts(m);
    assert m[1..] == b + EdgeIf(trail);
    RunBody(b, trail, v, true);
    if |v| > 1 {
      RunBody(b, trail, v[1..], false);
      RunLead(m, v[1..], false);
      EntersLater(m, v);
    }
    hide BodyTakes, Body, EdgesOutside;
    assert v[0..] == v;
    assert Enters(m, v, 0) <==> BodyTakes(b, trail, v);
  }

  /** The automaton takes exactly the language, for every pattern and every source. */
  lemma RunExact(m: seq<Token>, v: bytes)
    requires EdgesOutside(m) && v != []
    ensures Run(m, v, true) <==> Exact(m, v)
  {
    if Open(m) {
      assert |m| == 2 ==> m[1..] == [Edge];
    } else if Lead(m) {
      RunLead(m, v, true);
    } else {
      var b, trail := Body(m), Trail(m);
      assert m == b + EdgeIf(trail);
      RunBody(b, trail, v, true);
      assert v[0..] == v;
      if BodyTakes(b, trail, v) { assert Enters(m, v, 0); }
    }
  }

  // ----- against the meaning of patterns

  ghost predicate EndsAt(trail: bool, x: bytes, j: int) {
    0 <= j <= |x| && (j == |x| || (trail && x[j] == DOT))
  }

  ghost predicate BodyIn(b: seq<Token>, trail: bool, x: bytes) {
    exists j :: EndsAt(trail, x, j) && In(b, x[..j])
  }

  /** The stars at the end of the body. */
  function Tail(m: seq<Token>): seq<Token>
    requires !Open(m)
  {
    Body(m)[TailStart(Body(m))..]
  }

  /** What the automaton takes too much: stars next to an edge let ':' pass. */
  ghost predicate Strict(m: seq<Token>, v: bytes) {
    !Open(m) && Trail(m) && Tail(m) != [] && StarStar !in Tail(m) ==> COLON !in v
  }

  /** What the automaton misses: two stars at the end, or a lone `*` behind an edge when the last byte is '.'. */
  ghost predicate Reached(m: seq<Token>, v: bytes)
    requires v != []
  {
    !Open(m) ==> |Tail(m)| <= 1 && !(m == [Edge, Star] && v[|v| - 1] == DOT)
  }

  /** Stars without ':' in sight reach the next '.'. */
  lemma StarsReach(s: seq<Token>, x: bytes)
    requires AllMany(s) && s != [] && (StarStar in s || COLON !in x)
    ensures BodyIn(s, true, x)
  {
    if StarStar in s {
      var i :| 0 <= i < |s| && s[i] == StarStar;
      NothingAndAll(s[..i]);
      NothingAndAll(s[i + 1..]);
      InOne(StarStar, x);
      assert x[..|x|] == x && x[0..] == x;
      ConcatJoin(s[..i], [StarStar], x, 0);
      ConcatJoin(s[..i] + [StarStar], s[i + 1..], x, |x|);
      assert s[..i] + [StarStar] + s[i + 1..] == s;
      assert EndsAt(true, x, |x|);
    } else {
      var j := 0;
      while j < |x| && x[j] != DOT
        invariant 0 <= j <= |x|
        invariant forall k :: 0 <= k < j ==> x[k] != DOT
      {
        j := j + 1;
      }
      NothingAndAll(s[1..]);
      InOne(s[0], x[..j]);
      assert AllTake(s[0], x[..j]) by {
        assert forall k :: 0 <= k < j ==> x[k] in x;
      }
      assert x[..j][..j] == x[..j];
      ConcatJoin([s[0]], s[1..], x[..j], j);
      assert [s[0]] + s[1..] == s;
      assert EndsAt(true, x, j);
    }
  }

  lemma NothingAndAll(s: seq<Token>)
    requires AllMany(s)
    ensures In(s, [])
  {
  }

  lemma TailSound(s: seq<Token>, trail: bool, x: bytes)
    requires AllMany(s) && TailTakes(s, trail, x)
    requires trail && s != [] && StarStar !in s ==> COLON !in x
    ensures BodyIn(s, trail, x)
  {
    if s == [] {
      assert EndsAt(trail, x, 0) && x[..0] == [];
    } else if trail {
      StarsReach(s, x);
    } else {
      assert x[..|x|] == x && EndsAt(trail, x, |x|);
      if |s| == 1 {
        InOne(s[0], x);
        assert [s[0]] == s;
      } else {
        var j :| LastTakes(s, x, j);
        InOne(s[|s| - 1], x[j..]);
        ConcatJoin(s[..|s| - 1], [s[|s| - 1]], x, j);
        assert s[..|s| - 1] + [s[|s| - 1]] == s;
      }
    }
  }

  lemma TailReached(s: seq<Token>, trail: bool, x: bytes)
    requires AllMany(s) && |s| <= 1 && BodyIn(s, trail, x)
    ensures TailTakes(s, trail, x)
  {
    var j :| EndsAt(trail, x, j) && In(s, x[..j]);
    if s != [] && !trail {
      InOne(s[0], x);
      assert [s[0]] == s && x[..j] == x;
    }
  }

  lemma BodySound(b: seq<Token>, trail: bool, x: bytes)
    requires BodyTakes(b, trail, x)
    requires var s := b[TailStart(b)..]; trail && s != [] && StarStar !in s ==> COLON !in x
    ensures BodyIn(b, trail, x)
  {
    var h, s := b[..TailStart(b)], b[TailStart(b)..];
    var k :| TailAt(b, trail, x, k);
    TailSound(s, trail, x[k..]);
    var j :| EndsAt(trail, x[k..], j) && In(s, x[k..][..j]);
    var w := x[..k + j];
    assert w[..k] == x[..k] && w[k..] == x[k..k + j] == x[k..][..j];
    ConcatJoin(h, s, w, k);
    assert h + s == b;
    assert EndsAt(trail, x, k + j);
  }

  lemma BodyReached(b: seq<Token>, trail: bool, x: bytes)
    requires BodyIn(b, trail, x) && |b[TailStart(b)..]| <= 1
    ensures BodyTakes(b, trail, x)
  {
    var h, s := b[..TailStart(b)], b[TailStart(b)..];
    var j :| EndsAt(trail, x, j) && In(b, x[..j]);
    assert h + s == b;
    var k := ConcatSplit(h, s, x[..j]);
    assert x[..j][..k] == x[..k] && x[..j][k..] == x[k..][..j - k];
    assert EndsAt(trail, x[k..], j - k);
    TailReached(s, trail, x[k..]);
    assert TailAt(b, trail, x, k);
  }

  /** A body that is matched from where it may start. */
  lemma BodyInMarked(m: seq<Token>, v: bytes, i: nat)
    requires !Open(m) && i <= |v| && (i == 0 || (Lead(m) && v[i - 1] == DOT))
    requires BodyIn(Body(m), Trail(m), v[i..])
    ensures MarkedIn(m, v)
  {
    hide In, Body, Lead, Trail, Open;
    var j :| EndsAt(Trail(m), v[i..], j) && In(Body(m), v[i..][..j]);
    assert v[i..][..j] == v[i..i + j];
    assert Between(m, v, i, i + j);
  }

  /** What the automaton takes is in the meaning of the pattern. */
  lemma ExactSound(m: seq<Token>, v: bytes)
    requires EdgesOutside(m) && v != [] && Strict(m, v)
    ensures Exact(m, v) ==> MarkedIn(m, v)
  {
    if Exact(m, v) && !Open(m) {
      var i :| Enters(m, v, i);
      assert COLON !in v ==> COLON !in v[i..];
      hide BodyTakes, BodyIn, MarkedIn, Body, Lead, Trail, Open, TailStart;
      BodySound(Body(m), Trail(m), v[i..]);
      BodyInMarked(m, v, i);
    }
  }

  /** Nothing of the meaning is missed. */
  lemma ExactReached(m: seq<Token>, v: bytes)
    requires EdgesOutside(m) && v != [] && Reached(m, v)
    ensures MarkedIn(m, v) ==> Exact(m, v)
  {
    if MarkedIn(m, v) && !Open(m) {
      var i, j :| Between(m, v, i, j);
      if i == |v| {
        assert v[i..j] == [];
        NothingReached(m, v);
      } else {
        assert v[i..][..j - i] == v[i..j];
        assert EndsAt(Trail(m), v[i..], j - i);
        BodyReached(Body(m), Trail(m), v[i..]);
        assert Enters(m, v, i);
      }
    }
  }

  /** A body that needs no byte is one star, which takes the whole source unless it is a lone `*`. */
  lemma NothingReached(m: seq<Token>, v: bytes)
    requires EdgesOutside(m) && v != [] && !Open(m) && |Tail(m)| <= 1
    requires In(Body(m), []) && Lead(m) && m != [Edge, Star]
    ensures Exact(m, v)
  {
    LeadParts(m);
    var b := Body(m);
    if !AllMany(b) { NeedsAByte(b, TailStart(b) - 1); }
    assert b == Tail(m) == [b[0]];
    BodyTakesAllMany(b, Trail(m), v);
    assert v[0..] == v;
    assert BodyTakes(b, Trail(m), v);
    assert Enters(m, v, 0);
  }

  /** A lone `*` behind an edge means every source that ends with a '.', and takes none of them. */
  lemma EdgeStarMisses(v: bytes)
    requires v != [] && v[|v| - 1] == DOT
    ensures MarkedIn([Edge, Star], v) && !Exact([Edge, Star], v)
  {
    var m := [Edge, Star];
    assert Body(m) == [Star] && v[|v|..|v|] == [];
    InOne(Star, []);
    assert Between(m, v, |v|, |v|);
    forall i | 0 <= i < |v|
      ensures !BodyTakes([Star], false, v[i..])
    {
      BodyTakesAllMany([Star], false, v[i..]);
      assert v[i..][|v| - i - 1] == DOT;
    }
  }

  /** Unless two stars end the comparison, this is all that is missed. */
  lemma ExactlyReached(m: seq<Token>, v: bytes)
    requires EdgesOutside(m) && v != [] && (Open(m) || |Tail(m)| <= 1)
    ensures MarkedIn(m, v) && !Exact(m, v) <==> m == [Edge, Star] && v[|v| - 1] == DOT
  {
    if m == [Edge, Star] && v[|v| - 1] == DOT {
      EdgeStarMisses(v);
    } else {
      ExactReached(m, v);
    }
  }
}
