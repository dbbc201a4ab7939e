// Bracket groups of a glob: the declarative grammar of their contents, the
// eight-word bit set that holds the result, and the scanner that fills it.
module CharSets {
  import opened Basics

  const CLOSE: byte := 93
  const DASH: byte := 45
  const CARET: byte := 94

  // ----- the bit set

  type Words = w: seq<bv32> | |w| == 8 witness seq(8, _ => 0)

  const ALL: Words := seq(8, _ => 0xFFFF_FFFF)

  function Bit(b: byte): bv32 {
    (1 as bv32) << (b % 32)
  }

  predicate Contains(w: Words, b: byte) {
    w[b / 32] & Bit(b) != 0
  }

  /** `w` represents the set `members`. */
  ghost predicate Represents(w: Words, members: set<byte>) {
    forall b: byte {:trigger Contains(w, b)} :: Contains(w, b) <==> b in members
  }

  lemma OrBit(w: bv32, b: byte, c: byte)
    requires b / 32 == c / 32
    ensures (w | Bit(b)) & Bit(c) != 0 <==> b == c || w & Bit(c) != 0
  {
    OrShifted(w, b % 32, c % 32);
  }

  lemma OrShifted(w: bv32, j: nat, k: nat)
    requires j < 32 && k < 32
    ensures (w | ((1 as bv32) << j)) & ((1 as bv32) << k) != 0 <==> j == k || w & ((1 as bv32) << k) != 0
  {
  }

  lemma NotShifted(w: bv32, k: nat)
    requires k < 32
    ensures !w & ((1 as bv32) << k) != 0 <==> w & ((1 as bv32) << k) == 0
  {
  }

  method Add(charSet: array<bv32>, b: byte, ghost members: set<byte>)
    requires charSet.Length == 8 && Represents(charSet[..], members)
    modifies charSet
    ensures Represents(charSet[..], members + {b})
  {
    ghost var was: Words := charSet[..];
    charSet[b / 32] := charSet[b / 32] | Bit(b);
    forall c: byte
      ensures Contains(charSet[..], c) <==> c == b || Contains(was, c)
    {
      if c / 32 == b / 32 { OrBit(was[b / 32], b, c); }
    }
  }

  method Invert(charSet: array<bv32>, ghost members: set<byte>)
    requires charSet.Length == 8 && Represents(charSet[..], members)
    modifies charSet
    ensures Represents(charSet[..], set b: byte | b !in members)
  {
    ghost var was: Words := charSet[..];
    for i := 0 to 8
      invariant forall k :: 0 <= k < 8 ==> charSet[k] == if k < i then !was[k] else was[k]
    {
      charSet[i] := !charSet[i];
    }
    forall b: byte
      ensures Contains(charSet[..], b) <==> !Contains(was, b)
    {
      NotShifted(was[b / 32], b % 32);
    }
  }

  lemma AllRepresentsEveryByte()
    ensures Represents(ALL, set b: byte | InSpan(0, b, 256))
  {
    forall b: byte
      ensures Contains(ALL, b)
    {
      AllOnes(b % 32);
    }
  }

  /** The one set that `w` represents. */
  ghost function MembersOf(w: Words): set<byte> {
    set b: byte {:trigger Contains(w, b)} | Contains(w, b)
  }

  lemma RepresentsOne(w: Words, members: set<byte>)
    requires Represents(w, members)
    ensures MembersOf(w) == members
  {
    forall b: byte
      ensures b in MembersOf(w) <==> b in members
    {
      assert Contains(w, b) <==> b in members;
    }
  }

  /** Only the words whose bits are all set represent every byte. */
  lemma OnlyAllRepresentsEveryByte(w: Words)
    requires Represents(w, Span(0, 256))
    ensures w == ALL
  {
    forall i | 0 <= i < 8
      ensures w[i] == 0xFFFF_FFFF
    {
      forall k: nat | k < 32
        ensures HasBit(w[i], k)
      {
        var b: byte := 32 * i + k;
        assert InSpan(0, b, 256);
        assert Contains(w, b);
        assert b / 32 == i && b % 32 == k;
      }
      FullWord(w[i]);
    }
  }

  predicate HasBit(x: bv32, k: nat)
    requires k < 32
  {
    x & ((1 as bv32) << k) != 0
  }

  lemma FullWord(x: bv32)
    requires forall k: nat :: k < 32 ==> HasBit(x, k)
    ensures x == 0xFFFF_FFFF
  {
    LowHalf(x);
    HighHalf(x);
  }

  lemma LowHalf(x: bv32)
    requires forall k: nat :: k < 32 ==> HasBit(x, k)
    ensures x & 0xFFFF == 0xFFFF
  {
    assert HasBit(x, 0) && HasBit(x, 1) && HasBit(x, 2) && HasBit(x, 3);
    assert HasBit(x, 4) && HasBit(x, 5) && HasBit(x, 6) && HasBit(x, 7);
    assert HasBit(x, 8) && HasBit(x, 9) && HasBit(x, 10) && HasBit(x, 11);
    assert HasBit(x, 12) && HasBit(x, 13) && HasBit(x, 14) && HasBit(x, 15);
  }

  lemma HighHalf(x: bv32)
    requires forall k: nat :: k < 32 ==> HasBit(x, k)
    ensures x & 0xFFFF_0000 == 0xFFFF_0000
  {
    assert HasBit(x, 16) && HasBit(x, 17) && HasBit(x, 18) && HasBit(x, 19);
    assert HasBit(x, 20) && HasBit(x, 21) && HasBit(x, 22) && HasBit(x, 23);
    assert HasBit(x, 24) && HasBit(x, 25) && HasBit(x, 26) && HasBit(x, 27);
    assert HasBit(x, 28) && HasBit(x, 29) && HasBit(x, 30) && HasBit(x, 31);
  }

  lemma NoneRepresentsNothing(w: Words)
    requires forall k :: 0 <= k < 8 ==> w[k] == 0
    ensures Represents(w, {})
  {
  }

  lemma AllOnes(k: nat)
    requires k < 32
    ensures (0xFFFF_FFFF as bv32) & ((1 as bv32) << k) != 0
  {
  }

  // ----- the grammar

  /** One item of a group: a byte, or a range of bytes given by its ends. */
  datatype Item = Single(b: byte) | Range(lo: byte, hi: byte) {
    function Denotes(): set<byte> {
      match this
      case Single(b) => {b}
      case Range(lo, hi) => Span(lo, hi + 1)
    }
  }

  predicate InSpan(lo: int, b: byte, end: int) { lo <= b < end }

  /** The bytes from `lo` up to but not including `end`. */
  function Span(lo: int, end: int): set<byte> {
    set b: byte | InSpan(lo, b, end)
  }

  /** A '-' between two bytes makes a range; anywhere else it is a byte like any other. */
  function Items(c: bytes): seq<Item> {
    if |c| == 0 then []
    else if |c| == 2 && c[1] == DASH then [Single(c[0]), Single(DASH)]
    else if |c| >= 3 && c[1] == DASH then [Range(c[0], c[2])] + Items(c[3..])
    else [Single(c[0])] + Items(c[1..])
  }

  function Union(items: seq<Item>): set<byte> {
    if items == [] then {} else items[0].Denotes() + Union(items[1..])
  }

  /** A leading '^' complements the group, unless it opens a range. */
  predicate Complemented(c: bytes) {
    c != [] && c[0] == CARET && !(|c| >= 3 && c[1] == DASH)
  }

  function GroupItems(c: bytes): seq<Item> {
    if Complemented(c) then Items(c[1..]) else Items(c)
  }

  /** The set of bytes that a group with content `c` stands for. */
  function Group(c: bytes): set<byte> {
    if Complemented(c) then set b: byte | b !in Union(GroupItems(c)) else Union(GroupItems(c))
  }

  /** Where the group ends: at its first ']' that is not its first byte, or with the input. */
  function CloseAt(s: bytes, from: nat := 0): (k: nat)
    requires from <= |s|
    ensures from <= k <= |s|
    ensures forall i :: from <= i < k ==> !(s[i] == CLOSE && i > 0)
    ensures k < |s| ==> s[k] == CLOSE && k > 0
    decreases |s| - from
  {
    if from == |s| || (s[from] == CLOSE && from > 0) then from else CloseAt(s, from + 1)
  }

  function Content(s: bytes): bytes { s[..CloseAt(s)] }

  /** What follows the group. */
  function After(s: bytes): (left: bytes)
    ensures s != [] ==> |left| < |s|
    ensures |left| <= |s|
  {
    var k := CloseAt(s);
    if k < |s| then s[k + 1..] else []
  }

  /** No range ends at the last byte; the byte counter of the scanner could not pass it. */
  predicate BelowTop(items: seq<Item>) {
    items == [] || ((items[0].Range? ==> items[0].hi < 255) && BelowTop(items[1..]))
  }

  // ----- the scanner

  /** The bytes that the scanner has read but not yet put into its set. */
  function Unread(last: byte, charRead: bool, charRange: bool): bytes {
    (if charRead then [last] else []) + (if charRange then [DASH] else [])
  }

  /** Reading one more item. */
  lemma ItemsStep(c: bytes)
    requires c != []
    ensures |c| >= 3 && c[1] == DASH ==>
              Union(Items(c)) == Range(c[0], c[2]).Denotes() + Union(Items(c[3..]))
    ensures |c| >= 3 && c[1] == DASH ==> (BelowTop(Items(c)) <==> c[2] < 255 && BelowTop(Items(c[3..])))
    ensures !(|c| >= 2 && c[1] == DASH) ==> Union(Items(c)) == {c[0]} + Union(Items(c[1..]))
    ensures !(|c| >= 2 && c[1] == DASH) ==> (BelowTop(Items(c)) <==> BelowTop(Items(c[1..])))
    ensures |c| == 2 && c[1] == DASH ==> Union(Items(c)) == {c[0], DASH}
  {
    if |c| >= 3 && c[1] == DASH {
      assert Items(c)[1..] == Items(c[3..]);
    } else if |c| == 2 && c[1] == DASH {
      assert Items(c)[1..] == [Single(DASH)];
      assert Union([Single(DASH)]) == {DASH} + Union([]);
    } else {
      assert Items(c)[1..] == Items(c[1..]);
    }
  }

  method AddRange(charSet: array<bv32>, lo: byte, hi: byte, ghost members: set<byte>)
    requires charSet.Length == 8 && Represents(charSet[..], members) && hi < 255
    modifies charSet
    ensures Represents(charSet[..], members + Span(lo, hi + 1))
  {
    var c: byte := lo;
    assert members + Span(lo, c) == members;
    while c <= hi
      invariant lo <= c && (lo <= hi ==> c <= hi + 1) && (lo > hi ==> c == lo)
      invariant Represents(charSet[..], members + Span(lo, c))
      decreases 255 - c
    {
      Add(charSet, c, members + Span(lo, c));
      assert members + Span(lo, c) + {c} == members + Span(lo, c + 1);
      c := c + 1;
    }
    assert Span(lo, c) == Span(lo, hi + 1);
  }

  /** The final additions put in what is left unread at the end of a group. */
  lemma ItemsOfUnread(last: byte, charRead: bool, charRange: bool)
    requires charRange ==> charRead
    ensures Union(Items(Unread(last, charRead, charRange))) ==
            (if charRead then {last} else {}) + (if charRange then {DASH} else {})
  {
    if charRead {
      ItemsStep(Unread(last, charRead, charRange));
    }
  }

  /** The scanner's variables, apart from the set it fills. */
  datatype Scan = Scan(last: byte, charRead: bool, charRange: bool, inverted: bool, mayBeInverted: bool) {
    function Rest(tail: bytes): bytes {
      Unread(last, charRead, charRange) + tail
    }

    /** Nothing but a '^', or a '^' and a '-', was read so far. */
    ghost predicate Undecided(content: bytes, i: nat, members: set<byte>)
      requires i <= |content|
    {
      && !inverted && members == {} && Rest(content[i..]) == content
      && (mayBeInverted ==> charRead && last == CARET && i == (if charRange then 2 else 1))
    }

    /** Whether the group is complemented is known, and what is unread makes up the rest of its union. */
    ghost predicate Decided(content: bytes, i: nat, members: set<byte>)
      requires i <= |content|
    {
      && !mayBeInverted && (inverted <==> Complemented(content))
      && Union(GroupItems(content)) == members + Union(Items(Rest(content[i..])))
      && BelowTop(Items(Rest(content[i..])))
    }

    ghost predicate Follows(content: bytes, i: nat, members: set<byte>) {
      && i <= |content|
      && (charRange ==> charRead)
      && if i == 0 then !charRead && !mayBeInverted && Undecided(content, i, members)
         else if mayBeInverted then Undecided(content, i, members)
         else Decided(content, i, members)
    }
  }

  lemma DashStep(x: Scan, content: bytes, i: nat, members: set<byte>)
    requires x.Follows(content, i, members) && i < |content|
    requires content[i] == DASH && x.charRead && !x.charRange
    ensures x.(charRange := true).Follows(content, i + 1, members)
  {
    assert content[i..] == [DASH] + content[i + 1..];
    assert x.(charRange := true).Rest(content[i + 1..]) == x.Rest(content[i..]);
  }

  /** The state once the byte at `i` has told whether a leading '^' complements the group. */
  function Settle(x: Scan): Scan {
    if x.mayBeInverted && !x.charRange then x.(charRead := false, inverted := true, mayBeInverted := false)
    else x.(mayBeInverted := false)
  }

  /** What one turn of the scanner's loop does to its variables. */
  function Stepped(x: Scan, i: nat, b: byte): Scan {
    var y := Settle(x);
    if b == DASH && x.charRead && !x.charRange then x.(charRange := true)
    else if y.charRange then y.(charRead := false, charRange := false)
    else y.(last := b, charRead := true, mayBeInverted := i == 0 && b == CARET)
  }

  lemma SettleStep(x: Scan, content: bytes, i: nat, members: set<byte>)
    requires BelowTop(GroupItems(content))
    requires x.Follows(content, i, members) && i < |content|
    requires !(content[i] == DASH && x.charRead && !x.charRange)
    requires i > 0
    ensures Settle(x).Decided(content, i, members)
  {
    if x.mayBeInverted {
      assert Settle(x).Rest(content[i..]) == if x.charRange then content else content[1..];
    }
  }

  lemma RangeStep(x: Scan, content: bytes, i: nat, members: set<byte>)
    requires 0 < i < |content| && x.charRead && x.charRange
    requires x.Decided(content, i, members)
    ensures content[i] < 255
    ensures x.(charRead := false, charRange := false).Follows(content, i + 1, members + Span(x.last, content[i] + 1))
  {
    var now, tail := x.Rest(content[i..]), content[i + 1..];
    assert content[i..] == [content[i]] + tail;
    assert now == [x.last, DASH, content[i]] + tail && now[3..] == tail;
    ItemsStep(now);
    assert x.(charRead := false, charRange := false).Rest(tail) == tail;
  }

  lemma ByteStep(x: Scan, content: bytes, i: nat, members: set<byte>)
    requires 0 < i < |content| && !x.charRange
    requires x.Decided(content, i, members)
    requires x.charRead ==> content[i] != DASH
    ensures x.(last := content[i], charRead := true).Follows(
              content, i + 1, if x.charRead then members + {x.last} else members)
  {
    var y := x.(last := content[i], charRead := true);
    RestStep(x, i, content[i], content[i + 1..]);
    assert content[i..] == [content[i]] + content[i + 1..];
    hide Items, Union, GroupItems, BelowTop, Complemented, Scan.Rest;
    if x.charRead {
      assert members + ({x.last} + Union(Items(y.Rest(content[i + 1..])))) ==
        members + {x.last} + Union(Items(y.Rest(content[i + 1..])));
    }
  }

  /** What one byte does to the items that are still to come. */
  lemma RestStep(x: Scan, i: nat, b: byte, tail: bytes)
    requires i > 0 && !x.mayBeInverted && (x.charRange ==> x.charRead)
    ensures var now, y := x.Rest([b] + tail), Stepped(x, i, b);
      if x.charRange then BelowTop(Items(now)) <==> b < 255 && BelowTop(Items(y.Rest(tail)))
      else if x.charRead && b != DASH then
        && Union(Items(now)) == {x.last} + Union(Items(y.Rest(tail)))
        && (BelowTop(Items(now)) <==> BelowTop(Items(y.Rest(tail))))
      else now == y.Rest(tail)
  {
    var now, y := x.Rest([b] + tail), Stepped(x, i, b);
    if x.charRange {
      assert now == [x.last, DASH, b] + tail && now[3..] == tail && y.Rest(tail) == tail;
      ItemsStep(now);
    } else if x.charRead && b != DASH {
      assert now == [x.last, b] + tail && now[1..] == y.Rest(tail) == [b] + tail;
      ItemsStep(now);
    }
  }

  lemma StartStep(x: Scan, content: bytes)
    requires x == Scan(x.last, false, false, false, false)
    ensures x.Follows(content, 0, {})
  {
    assert x.Rest(content[0..]) == content;
  }

  lemma FirstStep(x: Scan, content: bytes)
    requires BelowTop(GroupItems(content))
    requires x.Follows(content, 0, {}) && content != []
    ensures Scan(content[0], true, false, false, content[0] == CARET).Follows(content, 1, {})
  {
    assert [content[0]] + content[1..] == content;
    assert Scan(content[0], true, false, false, content[0] == CARET).Rest(content[1..]) == content;
  }

  lemma LastStep(x: Scan, content: bytes, members: set<byte>)
    requires x.Follows(content, |content|, members)
    ensures Complemented(content) <==> x.inverted || x.mayBeInverted
    ensures Union(GroupItems(content)) ==
            members + (if x.charRead && !x.mayBeInverted then {x.last} else {}) + (if x.charRange then {DASH} else {})
  {
    assert content[|content|..] == [];
    assert x.Rest([]) == Unread(x.last, x.charRead, x.charRange);
    ItemsOfUnread(x.last, x.charRead, x.charRange);
    if x.mayBeInverted {
      assert content[1..] == if x.charRange then [DASH] else [];
      if x.charRange { ItemsStep([DASH]); }
    }
  }

  /** One turn of the scanner's loop, for a byte that does not close the group. */
  method ScanByte(charSet: array<bv32>, x: Scan, i: nat, b: byte, ghost content: bytes, ghost members: set<byte>)
    returns (y: Scan, ghost more: set<byte>)
    requires BelowTop(GroupItems(content)) && i < |content| && content[i] == b
    requires charSet.Length == 8 && Represents(charSet[..], members)
    requires x.Follows(content, i, members)
    modifies charSet
    ensures Represents(charSet[..], more)
    ensures y.Follows(content, i + 1, more)
    ensures y == Stepped(x, i, b)
  {
    if b == DASH && x.charRead && !x.charRange {
      DashStep(x, content, i, members);
      return x.(charRange := true), members;
    }
    if i == 0 {
      FirstStep(x, content);
    } else {
      SettleStep(x, content, i, members);
    }
    y := Settle(x);
    if y.charRange {
      RangeStep(y, content, i, members);
      AddRange(charSet, y.last, b, members);
      return y.(charRead := false, charRange := false), members + Span(y.last, b + 1);
    }
    if i > 0 {
      ByteStep(y, content, i, members);
    }
    more := members;
    if y.charRead {
      Add(charSet, y.last, members);
      more := members + {y.last};
    }
    y := y.(last := b, charRead := true, mayBeInverted := i == 0 && b == CARET);
  }

  /** The scanner's loop. */
  method ScanContent(s: bytes, charSet: array<bv32>) returns (x: Scan, left: bytes, ghost members: set<byte>)
    requires BelowTop(GroupItems(Content(s)))
    requires charSet.Length == 8 && Represents(charSet[..], {})
    modifies charSet
    ensures x.Follows(Content(s), |Content(s)|, members)
    ensures Represents(charSet[..], members)
    ensures left == After(s)
  {
    x := Scan(0, false, false, false, false);
    left := [];
    ghost var content := Content(s);
    members := {};
    StartStep(x, content);
    hide Scan.Follows, GroupItems, BelowTop, Represents;

    var i := 0;
    while i < |s|
      invariant i <= |content|
      invariant x.Follows(content, i, members)
      invariant Represents(charSet[..], members)
      invariant left == []
    {
      if s[i] == CLOSE && i > 0 {
        left := s[i + 1..];
        break;
      }
      x, members := ScanByte(charSet, x, i, s[i], content, members);
      i := i + 1;
    }
  }

  /** Reads a group up to its ']' and returns its set and what follows. */
  method CharSetFromGroup(s: bytes) returns (w: Words, left: bytes)
    requires BelowTop(GroupItems(Content(s)))
    ensures Represents(w, Group(Content(s)))
    ensures left == After(s)
  {
    var charSet := new bv32[8](_ => 0);
    NoneRepresentsNothing(charSet[..]);
    var x;
    ghost var content, members := Content(s), {};
    x, left, members := ScanContent(s, charSet);
    LastStep(x, content, members);
    hide Scan.Follows, GroupItems, BelowTop, Represents, Union, Content;

    if x.charRead && !x.mayBeInverted {
      Add(charSet, x.last, members);
      members := members + {x.last};
    }
    if x.charRange {
      Add(charSet, DASH, members);
      members := members + {DASH};
    }
    if x.inverted || x.mayBeInverted {
      Invert(charSet, members);
    }
    w := charSet[..];
  }

  // ----- when the scanner ends

  /** The byte counter after `n` turns; it starts again at 0 behind the last byte. */
  function Counter(lo: byte, n: nat): byte { (lo + n) % 256 }

  /** The loop that adds a range ends: some time the counter is past the end of the range. */
  ghost predicate RangeEnds(lo: byte, hi: byte) {
    exists n: nat :: Counter(lo, n) > hi
  }

  lemma RangeEndsIff(lo: byte, hi: byte)
    ensures RangeEnds(lo, hi) <==> hi < 255
  {
    if hi < 255 {
      assert Counter(lo, if lo <= hi then hi + 1 - lo else 0) > hi;
    }
  }

  /** Every range loop ends that the scanner enters from index `i` on. */
  ghost predicate Ends(x: Scan, content: bytes, i: nat)
    decreases |content| - i
  {
    i < |content| ==>
      (x.charRange ==> RangeEnds(x.last, content[i])) && Ends(Stepped(x, i, content[i]), content, i + 1)
  }

  lemma {:induction false} DecidedEnds(x: Scan, content: bytes, i: nat)
    requires 0 < i <= |content| && !x.mayBeInverted && (x.charRange ==> x.charRead)
    ensures Ends(x, content, i) <==> BelowTop(Items(x.Rest(content[i..])))
    decreases |content| - i
  {
    if i == |content| {
      UnreadBelowTop(x);
      assert x.Rest(content[i..]) == Unread(x.last, x.charRead, x.charRange);
    } else {
      var y := Stepped(x, i, content[i]);
      RestStep(x, i, content[i], content[i + 1..]);
      assert content[i..] == [content[i]] + content[i + 1..];
      RangeEndsIff(x.last, content[i]);
      hide Items, BelowTop, Scan.Rest;
      DecidedEnds(y, content, i + 1);
    }
  }

  lemma UnreadBelowTop(x: Scan)
    requires x.charRange ==> x.charRead
    ensures BelowTop(Items(Unread(x.last, x.charRead, x.charRange)))
  {
    var u := Unread(x.last, x.charRead, x.charRange);
    if x.charRange { assert Items(u)[1..] == [Single(DASH)]; }
  }

  /** Behind a leading '^' the next byte decides what the items are. */
  lemma UndecidedEnds(x: Scan, content: bytes, i: nat)
    requires 0 < i <= |content| && x.mayBeInverted && x.Undecided(content, i, {})
    ensures Ends(x, content, i) <==> BelowTop(GroupItems(content))
    decreases |content| - i
  {
    if i == |content| {
      if x.charRange { ItemsStep([DASH]); }
      assert content[1..] == if x.charRange then [DASH] else [];
    } else if content[i] == DASH && !x.charRange {
      DashStep(x, content, i, {});
      UndecidedEnds(x.(charRange := true), content, i + 1);
    } else {
      var y := Settle(x);
      assert y.Rest(content[i..]) == if x.charRange then content else content[1..];
      assert Stepped(x, i, content[i]) == Stepped(y, i, content[i]);
      DecidedEnds(y, content, i);
    }
  }

  /** The scanner ends if and only if no range of the group ends at the last byte. */
  lemma ScanEndsIff(s: bytes)
    ensures Ends(Scan(0, false, false, false, false), Content(s), 0) <==> BelowTop(GroupItems(Content(s)))
  {
    var content := Content(s);
    if content != [] {
      var x := Stepped(Scan(0, false, false, false, false), 0, content[0]);
      assert x.Rest(content[1..]) == content;
      if x.mayBeInverted {
        UndecidedEnds(x, content, 1);
      } else {
        DecidedEnds(x, content, 1);
      }
    }
  }

  /** The range from 'a' to the last byte is never done. */
  lemma TopRangeNeverEnds()
    ensures !Ends(Scan(0, false, false, false, false), Content([97, DASH, 255]), 0)
  {
    var s: bytes := [97, DASH, 255];
    assert CloseAt(s) == 3 by { assert CloseAt(s, 2) == CloseAt(s, 3) == 3; }
    assert Content(s) == s;
    ScanEndsIff(s);
    ItemsStep(s);
  }
}
