// The lines that count in a text: trimmed, not blank, and no comments.
module Lines {
  import opened Basics
  import Utf8

  const NEWLINE: byte := 10
  const RETURN: byte := 13
  const HASH: byte := 35

  /** The encoding of one white-space character. */
  predicate Space(p: bytes) {
    if |p| == 1 then p[0] == 32 || 9 <= p[0] <= 13
    else if |p| == 2 then p[0] == 0xC2 && p[1] in {0x85, 0xA0}
    else
      && |p| == 3 && p[2] >= 0x80
      && (p in {[0xE1, 0x9A, 0x80], [0xE2, 0x81, 0x9F], [0xE3, 0x80, 0x80]}
          || (p[..2] == [0xE2, 0x80] && (p[2] <= 0x8A || p[2] in {0xA8, 0xA9, 0xAF})))
  }

  /** The code points that Unicode calls white space. */
  predicate White(r: nat) {
    || 0x09 <= r <= 0x0D || r in {0x20, 0x85, 0xA0, 0x1680} || 0x2000 <= r <= 0x200A
    || r in {0x2028, 0x2029, 0x202F, 0x205F, 0x3000}
  }

  /** What is taken for white space is the encoding of a white-space code point, and of no other one. */
  lemma SpaceIsWhite(r: nat)
    ensures Space(Utf8.EncodeRune(r)) <==> White(r)
  {
    var s := Utf8.EncodeRune(r);
    if |s| == 3 { assert s[..2] == [s[0], s[1]]; }
  }

  lemma SpaceEncodesWhite(p: bytes) returns (r: nat)
    requires Space(p)
    ensures White(r) && p == Utf8.EncodeRune(r)
  {
    if |p| == 1 {
      r := p[0];
      assert p == [p[0]];
    } else if |p| == 2 {
      r := p[1];
      assert p == [p[0], p[1]];
    } else {
      r := (p[0] - 0xE0) as nat * 64 * 64 + (p[1] - 0x80) as nat * 64 + (p[2] - 0x80) as nat;
      assert p[..2] == [p[0], p[1]] && p == [p[0], p[1], p[2]];
    }
  }

  /** How many bytes the white-space character takes that a text starts with, if any. */
  function SpaceFront(s: bytes): (n: nat)
    ensures n <= |s| && (s == [] ==> n == 0)
  {
    if |s| >= 1 && Space(s[..1]) then 1
    else if |s| >= 2 && Space(s[..2]) then 2
    else if |s| >= 3 && Space(s[..3]) then 3
    else 0
  }

  /** The same for the end of a text. */
  function SpaceBack(s: bytes): (n: nat)
    ensures n <= |s| && (s == [] ==> n == 0)
  {
    if |s| >= 1 && Space(s[|s| - 1..]) then 1
    else if |s| >= 2 && Space(s[|s| - 2..]) then 2
    else if |s| >= 3 && Space(s[|s| - 3..]) then 3
    else 0
  }

  function TrimLeft(s: bytes): bytes {
    if SpaceFront(s) > 0 then TrimLeft(s[SpaceFront(s)..]) else s
  }

  function TrimRight(s: bytes): bytes {
    if SpaceBack(s) > 0 then TrimRight(s[..|s| - SpaceBack(s)]) else s
  }

  function Trim(s: bytes): bytes { TrimRight(TrimLeft(s)) }

  /** A line that is neither blank nor a comment. */
  predicate Counts(line: bytes) {
    Trim(line) != [] && Trim(line)[0] != HASH
  }

  /** Where the first line ends: at its line break, or at the end of the text. */
  function LineEnd(s: bytes): (n: nat)
    ensures n <= |s|
    ensures NEWLINE !in s[..n]
    ensures n < |s| ==> s[n] == NEWLINE
  {
    if s == [] || s[0] == NEWLINE then 0 else
      var n := 1 + LineEnd(s[1..]);
      assert s[..n] == [s[0]] + s[1..][..n - 1];
      n
  }

  /** What follows the first line. */
  function AfterLine(s: bytes): (r: bytes)
    ensures s != [] ==> |r| < |s|
  {
    if LineEnd(s) < |s| then s[LineEnd(s) + 1..] else []
  }

  /** The lines of a text that count, trimmed. */
  function LinesOf(s: bytes): seq<bytes>
    decreases |s|
  {
    if s == [] then []
    else (if Counts(s[..LineEnd(s)]) then [Trim(s[..LineEnd(s)])] else []) + LinesOf(AfterLine(s))
  }

  function DropReturn(s: bytes): bytes {
    if s != [] && s[|s| - 1] == RETURN then s[..|s| - 1] else s
  }

  /** The split function of the library: one line without its line break. */
  function ScanLine(s: bytes, atEnd: bool): (r: (nat, Option<bytes>))
    ensures r.0 <= |s|
  {
    if LineEnd(s) < |s| then (LineEnd(s) + 1, Some(DropReturn(s[..LineEnd(s)])))
    else if atEnd && s != [] then (|s|, Some(DropReturn(s)))
    else (0, None)
  }

  lemma SpaceFrontReturn(s: bytes)
    requires s != []
    ensures SpaceFront(s + [RETURN]) == SpaceFront(s)
  {
    var r := s + [RETURN];
    assert r[..1] == s[..1];
    if |s| >= 2 { assert r[..2] == s[..2]; } else { assert r[..2][1] == RETURN; }
    if |s| >= 3 { assert r[..3] == s[..3]; } else if |s| == 2 { assert r[..3][2] == RETURN; }
  }

  lemma {:induction false} TrimLeftReturn(s: bytes)
    ensures TrimLeft(s + [RETURN]) == if TrimLeft(s) == [] then [] else TrimLeft(s) + [RETURN]
  {
    if s == [] {
      assert s + [RETURN] == [RETURN] && [RETURN][..1] == [RETURN] && [RETURN][1..] == [];
    } else {
      SpaceFrontReturn(s);
      var n := SpaceFront(s);
      if n > 0 {
        assert (s + [RETURN])[n..] == s[n..] + [RETURN];
        TrimLeftReturn(s[n..]);
      }
    }
  }

  lemma TrimDropped(s: bytes)
    ensures Trim(DropReturn(s)) == Trim(s)
  {
    if s != [] && s[|s| - 1] == RETURN {
      var d := DropReturn(s);
      assert s == d + [RETURN];
      TrimLeftReturn(d);
      var t := TrimLeft(d);
      if t != [] {
        assert (t + [RETURN])[|t|..] == [RETURN] && (t + [RETURN])[..|t|] == t;
      }
    }
  }

  /** A text that goes on after a line break has the same first line. */
  lemma {:induction false} LineEndMore(s: bytes, more: bytes)
    requires LineEnd(s) < |s|
    ensures LineEnd(s + more) == LineEnd(s) && AfterLine(s + more) == AfterLine(s) + more
  {
    if s[0] != NEWLINE {
      assert (s + more)[1..] == s[1..] + more;
      LineEndMore(s[1..], more);
    }
    assert (s + more)[LineEnd(s) + 1..] == s[LineEnd(s) + 1..] + more;
  }

  lemma LinesOfMore(s: bytes, more: bytes)
    requires LineEnd(s) < |s|
    ensures LinesOf(s + more)
      == (if Counts(s[..LineEnd(s)]) then [Trim(s[..LineEnd(s)])] else []) + LinesOf(AfterLine(s) + more)
  {
    LineEndMore(s, more);
    assert (s + more)[..LineEnd(s)] == s[..LineEnd(s)];
  }

  function OneIf(token: Option<bytes>): seq<bytes> {
    if token.Some? then [token.value] else []
  }

  function LinesWith(s: bytes, more: bytes): seq<bytes> { LinesOf(s + more) }

  /** Reading `data` gives the lines `head`, and `rest` is still to be read.  Unless the text
      is at its end, this is so whatever comes after it. */
  ghost predicate Splits(data: bytes, head: seq<bytes>, rest: bytes, atEnd: bool) {
    if atEnd then LinesOf(data) == head + LinesOf(rest)
    else forall more :: LinesWith(data, more) == head + LinesWith(rest, more)
  }

  lemma SplitsTwice(data: bytes, head: seq<bytes>, mid: bytes, head': seq<bytes>, rest: bytes, atEnd: bool)
    requires Splits(data, head, mid, atEnd) && Splits(mid, head', rest, atEnd)
    ensures Splits(data, head + head', rest, atEnd)
  {
    hide LinesOf, LinesWith;
    if atEnd {
      Regrouped(head, head', LinesOf(rest));
    } else {
      forall more ensures LinesWith(data, more) == head + head' + LinesWith(rest, more) {
        Regrouped(head, head', LinesWith(rest, more));
      }
    }
  }

  lemma Regrouped(a: seq<bytes>, b: seq<bytes>, c: seq<bytes>)
    ensures a + (b + c) == a + b + c
  {
  }

  /** One line as the library returns it. */
  lemma ScanLineSplits(data: bytes, atEnd: bool)
    requires ScanLine(data, atEnd).1.Some?
    ensures var (n, line) := ScanLine(data, atEnd); var text := Trim(line.value);
      n > 0 && Splits(data, if text != [] && text[0] != HASH then [text] else [], data[n..], atEnd)
  {
    var (n, line) := ScanLine(data, atEnd);
    var first := data[..LineEnd(data)];
    TrimDropped(first);
    assert data[n..] == AfterLine(data);
    if LineEnd(data) < |data| {
      forall more
        ensures LinesWith(data, more)
          == (if Counts(first) then [Trim(first)] else []) + LinesWith(AfterLine(data), more)
      {
        LinesOfMore(data, more);
      }
    } else {
      assert first == data;
    }
  }

  /** The next line that counts.  No line is lost, split or made up, and `None` at the end of the
      text says that there are no more lines. */
  method ScanLines(data: bytes, atEnd: bool) returns (advance: nat, token: Option<bytes>)
    ensures advance <= |data| && (token.Some? ==> advance > 0)
    ensures Splits(data, OneIf(token), data[advance..], atEnd)
    ensures atEnd && token.None? ==> LinesOf(data) == []
  {
    var start := 0;
    assert data[0..] == data;
    SplitsNothing(data, atEnd);
    hide Splits;
    while true
      invariant start <= |data|
      invariant Splits(data, [], data[start..], atEnd)
      decreases |data| - start
    {
      var rest := data[start..];
      var (n, line) := ScanLine(rest, atEnd);
      if line.None? {
        NoneAtEnd(data, rest, atEnd);
        return start, None;
      }
      ScanLineSplits(rest, atEnd);
      start := start + n;
      assert data[start..] == rest[n..];
      var text := Trim(line.value);
      ghost var head := if text != [] && text[0] != HASH then [text] else [];
      SplitsTwice(data, [], rest, head, data[start..], atEnd);
      assert [] + head == head;
      if text != [] && text[0] != HASH {
        return start, Some(text);
      }
    }
  }

  lemma SplitsNothing(data: bytes, atEnd: bool)
    ensures Splits(data, [], data, atEnd)
  {
  }

  lemma NoneAtEnd(data: bytes, rest: bytes, atEnd: bool)
    requires Splits(data, [], rest, atEnd) && ScanLine(rest, atEnd).1.None?
    ensures atEnd ==> LinesOf(data) == []
  {
  }

  function Whole(pieces: seq<bytes>): bytes {
    if pieces == [] then [] else Whole(pieces[..|pieces| - 1]) + pieces[|pieces| - 1]
  }

  /** Scanning a text that arrives in pieces gives the lines of the whole text. */
  method ScanAll(pieces: seq<bytes>) returns (lines: seq<bytes>)
    ensures lines == LinesOf(Whole(pieces))
  {
    var buffer: bytes := [];
    lines := [];
    SplitsNothing([], false);
    for k := 0 to |pieces|
      invariant Splits(Whole(pieces[..k]), lines, buffer, false)
    {
      assert pieces[..k + 1][..k] == pieces[..k];
      SplitsMore(Whole(pieces[..k]), lines, buffer, pieces[k]);
      ghost var was := buffer + pieces[k];
      var more;
      more, buffer := Drain(buffer + pieces[k], false);
      SplitsTwice(Whole(pieces[..k + 1]), lines, was, more, buffer, false);
      lines := lines + more;
    }
    assert pieces[..|pieces|] == pieces;
    assert Splits(Whole(pieces), lines, buffer, true) by {
      assert LinesWith(Whole(pieces), []) == lines + LinesWith(buffer, []);
      assert Whole(pieces) + [] == Whole(pieces) && buffer + [] == buffer;
    }
    ghost var was := buffer;
    var more;
    more, buffer := Drain(buffer, true);
    SplitsTwice(Whole(pieces), lines, was, more, buffer, true);
    lines := lines + more;
    assert lines + [] == lines;
  }

  lemma SplitsMore(data: bytes, head: seq<bytes>, rest: bytes, piece: bytes)
    requires Splits(data, head, rest, false)
    ensures Splits(data + piece, head, rest + piece, false)
  {
    forall more
      ensures LinesWith(data + piece, more) == head + LinesWith(rest + piece, more)
    {
      assert data + piece + more == data + (piece + more) && rest + piece + more == rest + (piece + more);
      assert LinesWith(data, piece + more) == head + LinesWith(rest, piece + more);
    }
  }

  /** Takes out every line that is there. */
  method Drain(data: bytes, atEnd: bool) returns (lines: seq<bytes>, left: bytes)
    ensures Splits(data, lines, left, atEnd)
    ensures atEnd ==> LinesOf(left) == []
  {
    lines, left := [], data;
    SplitsNothing(data, atEnd);
    hide Splits;
    while true
      invariant Splits(data, lines, left, atEnd)
      decreases |left|
    {
      var advance, token := ScanLines(left, atEnd);
      SplitsTwice(data, lines, left, OneIf(token), left[advance..], atEnd);
      if token.None? && atEnd {
        return;
      }
      lines, left := lines + OneIf(token), left[advance..];
      if token.None? {
        return;
      }
    }
  }

  // ----- what lines and trimming are

  /** Nothing but white space. */
  predicate Blank(s: bytes) {
    s == [] || exists n :: 1 <= n <= 3 && n <= |s| && Space(s[..n]) && Blank(s[n..])
  }

  lemma BlankStep(s: bytes, n: nat)
    requires 1 <= n <= 3 && n <= |s| && Space(s[..n]) && Blank(s[n..])
    ensures Blank(s)
  {
  }

  lemma {:induction false} BlankConcat(a: bytes, b: bytes)
    requires Blank(a) && Blank(b)
    ensures Blank(a + b)
  {
    hide Space;
    if a == [] {
      assert a + b == b;
    } else {
      var n :| 1 <= n <= 3 && n <= |a| && Space(a[..n]) && Blank(a[n..]);
      hide Blank;
      assert (a + b)[..n] == a[..n] && (a + b)[n..] == a[n..] + b;
      BlankConcat(a[n..], b);
      BlankStep(a + b, n);
    }
  }

  lemma BlankOne(s: bytes)
    requires Space(s)
    ensures Blank(s)
  {
    assert 1 <= |s| <= 3;
    hide Space;
    assert s[..|s|] == s && s[|s|..] == [];
    BlankNothing();
    hide Blank;
    BlankStep(s, |s|);
  }

  lemma Joined(a: bytes, b: bytes, c: bytes)
    ensures a + b + c == a + (b + c) && a + [] == a && [] + a == a
  {
  }

  lemma BlankNothing()
    ensures Blank([])
  {
  }

  lemma TrimLeftStep(s: bytes)
    ensures TrimLeft(s) == if SpaceFront(s) > 0 then TrimLeft(s[SpaceFront(s)..]) else s
  {
    hide SpaceFront;
  }

  lemma TrimRightStep(s: bytes)
    ensures TrimRight(s) == if SpaceBack(s) > 0 then TrimRight(s[..|s| - SpaceBack(s)]) else s
  {
    hide SpaceBack;
  }

  lemma {:induction false} TrimLeftTakes(s: bytes) returns (l: bytes)
    ensures s == l + TrimLeft(s) && Blank(l) && SpaceFront(TrimLeft(s)) == 0
  {
    hide Blank, Space, SpaceFront, TrimLeft;
    var n := SpaceFront(s);
    TrimLeftStep(s);
    BlankNothing();
    Joined(s, [], []);
    l := [];
    if n > 0 {
      FrontIsSpace(s);
      BlankOne(s[..n]);
      var x := TrimLeftTakes(s[n..]);
      BlankConcat(s[..n], x);
      Joined(s[..n], x, TrimLeft(s[n..]));
      assert s == s[..n] + s[n..];
      l := s[..n] + x;
    }
  }

  lemma {:induction false} TrimRightTakes(s: bytes) returns (r: bytes)
    ensures s == TrimRight(s) + r && Blank(r) && SpaceBack(TrimRight(s)) == 0
  {
    hide Blank, Space, SpaceBack, TrimRight;
    var n := SpaceBack(s);
    TrimRightStep(s);
    BlankNothing();
    Joined(s, [], []);
    r := [];
    if n > 0 {
      var k := |s| - n;
      BackIsSpace(s);
      BlankOne(s[k..]);
      var x := TrimRightTakes(s[..k]);
      BlankConcat(x, s[k..]);
      Joined(TrimRight(s[..k]), x, s[k..]);
      assert s == s[..k] + s[k..];
      r := x + s[k..];
    }
  }

  lemma FrontIsSpace(s: bytes)
    ensures SpaceFront(s) > 0 ==> Space(s[..SpaceFront(s)])
  {
  }

  lemma BackIsSpace(s: bytes)
    ensures SpaceBack(s) > 0 ==> Space(s[|s| - SpaceBack(s)..])
  {
  }

  lemma FrontOfPrefix(s: bytes, k: nat)
    requires k <= |s| && SpaceFront(s) == 0
    ensures SpaceFront(s[..k]) == 0
  {
    assert k >= 1 ==> s[..k][..1] == s[..1];
    assert k >= 2 ==> s[..k][..2] == s[..2];
    assert k >= 3 ==> s[..k][..3] == s[..3];
  }

  /** Trimming takes white space off both ends and nothing else, and leaves none there. */
  lemma TrimIs(s: bytes) returns (l: bytes, r: bytes)
    ensures s == l + Trim(s) + r && Blank(l) && Blank(r)
    ensures SpaceFront(Trim(s)) == 0 && SpaceBack(Trim(s)) == 0
  {
    hide Blank, Space, SpaceFront, SpaceBack, TrimLeft, TrimRight;
    l := TrimLeftTakes(s);
    var t := TrimLeft(s);
    r := TrimRightTakes(t);
    assert TrimRight(t) == t[..|TrimRight(t)|];
    FrontOfPrefix(t, |TrimRight(t)|);
    Joined(l, TrimRight(t), r);
  }

  /** A line, trimmed, unless nothing is left or it starts with '#'. */
  function Kept(line: bytes): seq<bytes> {
    if Trim(line) == [] || Trim(line)[0] == 35 then [] else [Trim(line)]
  }

  /** Lines end with a line feed, and the last one at the end of the text. */
  lemma LinesOfText(line: bytes, rest: bytes)
    requires 10 !in line
    ensures LinesOf(line + [10] + rest) == Kept(line) + LinesOf(rest)
    ensures LinesOf(line) == Kept(line)
  {
    var s := line + [10];
    assert s + rest == line + [10] + rest;
    EndOfLine(line, [10]);
    assert s[..|line|] == line && s[|line| + 1..] + rest == rest;
    LinesOfMore(s, rest);
    if line != [] {
      EndOfLine(line, []);
      assert line + [] == line && line[..|line|] == line;
      assert LinesOf([]) == [] && Kept(line) + [] == Kept(line);
    } else {
      assert Trim(line) == [];
    }
  }

  lemma EndOfLine(line: bytes, more: bytes)
    requires 10 !in line && (more == [] || more[0] == 10)
    ensures LineEnd(line + more) == |line|
  {
    var s, n := line + more, LineEnd(line + more);
    hide LineEnd;
    assert s[..|line|] == line && (more != [] ==> s[|line|] == 10);
  }
}
