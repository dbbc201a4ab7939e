// Allow lists: lines that include or exclude hosts and address prefixes.
module AllowLists {
  import opened Basics
  import opened AddrRanges
  import opened Prefixes
  import opened Globs
  import opened MatchSets
  import opened GlobMeaning
  import opened Lines

  const SLASH: byte := 47
  const BANG: byte := 33
  const AT_SIGN: byte := 64
  const OPEN_BRACKET: byte := 91
  const CLOSE_BRACKET: byte := 93

  /** What is asked: a host, a port, and the address that the host stands for, if it is one. */
  datatype Query = Query(host: bytes, port: bytes, addr: Option<Addr>)

  /** A rule is an address prefix, or a glob for hosts with a port unless it is for all ports. */
  datatype Rule = Net(prefix: Prefix) | Name(pattern: bytes, port: Option<bytes>)

  datatype Line = Line(exclude: bool, rule: Rule)

  // ----- what one line means

  ghost predicate RuleAccepts(rule: Rule, q: Query) {
    match rule
    case Net(p) => q.addr.Some? && q.addr.value.width == 8 * |p.address| && InPrefix(p, q.addr.value.value)
    case Name(pattern, port) => Accepts(pattern, q.host) && (port.None? || port.value == q.port)
  }

  ghost predicate AnyLine(lines: seq<Line>, exclude: bool, q: Query) {
    exists k :: 0 <= k < |lines| && lines[k].exclude == exclude && RuleAccepts(lines[k].rule, q)
  }

  /** The decision, taken line by line. */
  ghost predicate Allowed(lines: seq<Line>, q: Query) {
    AnyLine(lines, false, q) && !AnyLine(lines, true, q)
  }

  // ----- reading a line

  predicate Digit(b: byte) { 48 <= b <= 57 }

  /** How many digits a text ends with. */
  function EndDigits(s: bytes): (n: nat)
    ensures n <= |s|
  {
    if s != [] && Digit(s[|s| - 1]) then 1 + EndDigits(s[..|s| - 1]) else 0
  }

  /** The length of a ':' and digits at the end, or 0. */
  function PortSuffix(s: bytes): (n: nat)
    ensures n <= |s|
  {
    var d := EndDigits(s);
    if d > 0 && d < |s| && s[|s| - d - 1] == COLON then d + 1 else 0
  }

  /** A glob in brackets may hold ':'; otherwise a second ':' makes the whole text an IPv6 address. */
  function ReadName(s: bytes): Rule {
    var n := PortSuffix(s);
    var pattern, port := s[..|s| - n], if n == 0 then None else Some(s[|s| - n + 1..]);
    if pattern != [] && pattern[0] == OPEN_BRACKET && pattern[|pattern| - 1] == CLOSE_BRACKET then
      Name(pattern[1..|pattern| - 1], port)
    else if n != 0 && COLON in pattern then Name(s, None)
    else Name(pattern, port)
  }

  predicate Digits(s: bytes) { s != [] && forall k :: 0 <= k < |s| ==> Digit(s[k]) }

  lemma {:induction false} EndDigitsOf(p: bytes, d: bytes)
    requires p != [] && !Digit(p[|p| - 1]) && forall k :: 0 <= k < |d| ==> Digit(d[k])
    ensures EndDigits(p + d) == |d|
  {
    if d == [] {
      assert p + d == p;
    } else {
      assert (p + d)[..|p| + |d| - 1] == p + d[..|d| - 1];
      EndDigitsOf(p, d[..|d| - 1]);
    }
  }

  lemma {:induction false} EndDigitsAre(s: bytes)
    ensures forall k :: |s| - EndDigits(s) <= k < |s| ==> Digit(s[k])
  {
    if EndDigits(s) > 0 {
      EndDigitsAre(s[..|s| - 1]);
      assert forall k :: 0 <= k < |s| - 1 ==> s[k] == s[..|s| - 1][k];
    }
  }

  predicate Bracketed(s: bytes) {
    s != [] && s[0] == OPEN_BRACKET && s[|s| - 1] == CLOSE_BRACKET
  }

  /** A host with a port, whose meaning depends on brackets and on other ':' in the host. */
  lemma ReadHostPort(host: bytes, port: bytes)
    requires Digits(port)
    ensures ReadName(host + [COLON] + port) ==
      if Bracketed(host) then Name(host[1..|host| - 1], Some(port))
      else if COLON in host then Name(host + [COLON] + port, None)
      else Name(host, Some(port))
  {
    var s := host + [COLON] + port;
    EndDigitsOf(host + [COLON], port);
    assert s == (host + [COLON]) + port;
    assert s[..|s| - |port| - 1] == host && s[|s| - |port|..] == port;
  }

  /** A text that does not end with a port. */
  lemma ReadHost(s: bytes)
    requires forall host, port :: Digits(port) ==> s != host + [COLON] + port
    ensures ReadName(s) == Name(if Bracketed(s) then s[1..|s| - 1] else s, None)
  {
    PortSuffixIs(s);
    assert s[..|s| - 0] == s;
  }

  lemma PortSuffixIs(s: bytes)
    ensures var n := PortSuffix(s);
      n > 0 ==> Digits(s[|s| - n + 1..]) && s == s[..|s| - n] + [COLON] + s[|s| - n + 1..]
  {
    EndDigitsAre(s);
  }

  /** `parse` is the library's reading of a prefix. */
  type Parse = bytes -> Option<Prefix>

  predicate Good(p: Prefix) { |p.address| in {4, 16} && p.bits <= 8 * |p.address| }

  ghost predicate Sane(parse: Parse) {
    forall s :: parse(s).Some? ==> Good(parse(s).value)
  }

  /** A text with a '/' is a prefix. */
  function ReadText(parse: Parse, s: bytes): Option<Rule> {
    if SLASH in s then (match parse(s) case None => None case Some(p) => Some(Net(p)))
    else Some(ReadName(s))
  }

  function ReadLine(parse: Parse, line: bytes): Option<Line>
    requires line != []
  {
    var exclude := line[0] == BANG;
    match ReadText(parse, if exclude then line[1..] else line)
    case None => None
    case Some(rule) => Some(Line(exclude, rule))
  }

  // ----- the last address of each width

  const N255: bytes := [50, 53, 53]
  const FFFF: bytes := [102, 102, 102, 102]

  const LAST4: bytes := N255 + [DOT] + N255 + [DOT] + N255 + [DOT] + N255
  const LAST16: bytes := FFFF + [COLON] + FFFF + [COLON] + FFFF + [COLON] + FFFF
    + [COLON] + FFFF + [COLON] + FFFF + [COLON] + FFFF + [COLON] + FFFF

  /** The text of the last address of an IPv4 or an IPv6 width. */
  function LastText(width: nat): bytes {
    if width == 32 then LAST4 else LAST16
  }

  function Last(width: nat): Addr { Addr(width, Pow2(width) - 1) }

  /** The host of a query is the text of its address, if it has one. */
  predicate Consistent(q: Query) {
    && (q.addr.Some? ==> q.addr.value.width in {32, 128})
    && (q.host == LAST4 <==> q.addr == Some(Last(32)))
    && (q.host == LAST16 <==> q.addr == Some(Last(128)))
  }

  lemma LastTakesItself(width: nat, host: bytes)
    ensures var s := LastText(width); Scannable(s) && GroupCount(s) == 0
    ensures Accepts(LastText(width), host) <==> host == LastText(width)
  {
    PlainTakesItself(LastText(width), host);
  }

  // ----- collecting the lines

  /** The ports of a pattern, or none for all of them. */
  type Config = Option<seq<bytes>>

  predicate ForPort(config: Config, port: bytes) {
    config.None? || port in config.value
  }

  type Patterns = map<bytes, Config>

  ghost predicate PatternsAccept(patterns: Patterns, q: Query) {
    exists p :: p in patterns && Accepts(p, q.host) && ForPort(patterns[p], q.port)
  }

  ghost predicate RangesAccept(ranges: Ranges, q: Query) {
    q.addr.Some? && Holds(ranges, q.addr.value)
  }

  /** What a pattern has after one more line for it. */
  function WithPort(patterns: Patterns, pattern: bytes, port: Option<bytes>): Config {
    if port.None? then None
    else if pattern !in patterns then Some([port.value])
    else if patterns[pattern].None? || port.value in patterns[pattern].value then patterns[pattern]
    else Some(patterns[pattern].value + [port.value])
  }

  /** Merging the lines of a pattern keeps the meaning of each. */
  lemma WithPortAccepts(patterns: Patterns, pattern: bytes, port: Option<bytes>, q: Query)
    ensures PatternsAccept(patterns[pattern := WithPort(patterns, pattern, port)], q)
       <==> PatternsAccept(patterns, q) || RuleAccepts(Name(pattern, port), q)
  {
    hide Accepts;
    var more := patterns[pattern := WithPort(patterns, pattern, port)];
    if PatternsAccept(patterns, q) {
      var p :| p in patterns && Accepts(p, q.host) && ForPort(patterns[p], q.port);
      assert p in more && ForPort(more[p], q.port);
    }
    if RuleAccepts(Name(pattern, port), q) {
      assert ForPort(more[pattern], q.port);
    }
  }

  /** The pattern that a rule adds, if any. */
  function PatternOf(rule: Rule): set<bytes> {
    match rule
    case Name(pattern, _) => {pattern}
    case Net(p) =>
      var width := 8 * |p.address|;
      if InPrefix(p, Pow2(width) - 1) then {LastText(width)} else {}
  }

  /** `lines` is everything that was collected so far for one of the two sides. */
  ghost predicate Collected(patterns: Patterns, ranges: Ranges, lines: seq<Line>, exclude: bool) {
    && Separate(ranges)
    && patterns.Keys == PatternsOf(lines, exclude)
    && forall q :: Consistent(q) ==>
      (RangesAccept(ranges, q) || PatternsAccept(patterns, q) <==> AnyLine(lines, exclude, q))
  }

  function PatternsOf(lines: seq<Line>, exclude: bool): set<bytes> {
    if lines == [] then {} else
      var last := lines[|lines| - 1];
      PatternsOf(lines[..|lines| - 1], exclude) + if last.exclude == exclude then PatternOf(last.rule) else {}
  }

  lemma AnyLineMore(lines: seq<Line>, line: Line, exclude: bool, q: Query)
    ensures AnyLine(lines + [line], exclude, q)
       <==> AnyLine(lines, exclude, q) || (line.exclude == exclude && RuleAccepts(line.rule, q))
  {
    hide RuleAccepts;
    var more := lines + [line];
    if AnyLine(lines, exclude, q) {
      var k :| 0 <= k < |lines| && lines[k].exclude == exclude && RuleAccepts(lines[k].rule, q);
      assert more[k] == lines[k];
    }
    if line.exclude == exclude && RuleAccepts(line.rule, q) { assert more[|lines|] == line; }
    if AnyLine(more, exclude, q) {
      var k :| 0 <= k < |more| && more[k].exclude == exclude && RuleAccepts(more[k].rule, q);
      assert k == |lines| || lines[k] == more[k];
    }
  }

  /** A line for the other side changes nothing. */
  lemma CollectedOther(patterns: Patterns, ranges: Ranges, lines: seq<Line>, line: Line, exclude: bool)
    requires Collected(patterns, ranges, lines, exclude) && line.exclude != exclude
    ensures Collected(patterns, ranges, lines + [line], exclude)
  {
    assert (lines + [line])[..|lines|] == lines;
    forall q | Consistent(q)
      ensures RangesAccept(ranges, q) || PatternsAccept(patterns, q) <==> AnyLine(lines + [line], exclude, q)
    {
      AnyLineMore(lines, line, exclude, q);
    }
  }

  lemma CollectedName(patterns: Patterns, ranges: Ranges, lines: seq<Line>, line: Line)
    requires Collected(patterns, ranges, lines, line.exclude) && line.rule.Name?
    ensures var r := line.rule;
      Collected(patterns[r.pattern := WithPort(patterns, r.pattern, r.port)], ranges, lines + [line], line.exclude)
  {
    var r := line.rule;
    var more := patterns[r.pattern := WithPort(patterns, r.pattern, r.port)];
    assert (lines + [line])[..|lines|] == lines;
    hide WithPort, RuleAccepts, PatternsAccept;
    forall q | Consistent(q)
      ensures RangesAccept(ranges, q) || PatternsAccept(more, q) <==> AnyLine(lines + [line], line.exclude, q)
    {
      AnyLineMore(lines, line, line.exclude, q);
      WithPortAccepts(patterns, r.pattern, r.port, q);
    }
  }

  /** `r` covers the prefix, together with its own end if it is closed. */
  ghost predicate RangeOf(p: Prefix, r: AddrRange, closed: bool) {
    var width := 8 * |p.address|;
    && (forall v: nat :: InPrefix(p, v) <==> Covers(r, closed, Addr(width, v)))
    && (forall v: Addr :: Covers(r, closed, v) ==> v.width == width)
    && (closed <==> InPrefix(p, Pow2(width) - 1))
    && (closed ==> r.high == Last(width))
  }

  /** The literal that stands in for the last address accepts just this address. */
  lemma NetAccepts(p: Prefix, r: AddrRange, closed: bool, q: Query)
    requires Good(p) && RangeOf(p, r, closed) && Consistent(q)
    ensures RuleAccepts(Net(p), q) <==>
      (q.addr.Some? && InRange(r, q.addr.value)) || (closed && RuleAccepts(Name(LastText(8 * |p.address|), None), q))
  {
    var width := 8 * |p.address|;
    LastTakesItself(width, q.host);
    hide Accepts, InPrefix, Pow2;
    if q.addr.Some? {
      var v := q.addr.value;
      assert v == Addr(v.width, v.value);
      if v.width == width { assert InPrefix(p, v.value) <==> Covers(r, closed, v); }
    }
  }

  lemma CollectedNet(patterns: Patterns, was: Ranges, ranges: Ranges, lines: seq<Line>, line: Line,
                     r: AddrRange, closed: bool)
    requires Collected(patterns, was, lines, line.exclude) && line.rule.Net?
    requires Good(line.rule.prefix) && RangeOf(line.rule.prefix, r, closed)
    requires Separate(ranges) && forall v :: Holds(ranges, v) <==> Holds(was, v) || InRange(r, v)
    ensures var s := LastText(8 * |line.rule.prefix.address|);
      var more := if closed then patterns[s := WithPort(patterns, s, None)] else patterns;
      Collected(more, ranges, lines + [line], line.exclude)
  {
    var p := line.rule.prefix;
    var s := LastText(8 * |p.address|);
    var more := if closed then patterns[s := WithPort(patterns, s, None)] else patterns;
    assert (lines + [line])[..|lines|] == lines;
    assert more.Keys == PatternsOf(lines + [line], line.exclude);
    hide RuleAccepts, PatternsAccept, RangeOf, LastText, WithPort;
    forall q | Consistent(q)
      ensures RangesAccept(ranges, q) || PatternsAccept(more, q) <==> AnyLine(lines + [line], line.exclude, q)
    {
      AnyLineMore(lines, line, line.exclude, q);
      WithPortAccepts(patterns, s, None, q);
      NetAccepts(p, r, closed, q);
    }
  }

  class Settings {
    var patterns: Patterns
    const ipranges: AddrRangeSet

    constructor ()
      ensures patterns == map[] && fresh(ipranges) && ipranges.ranges == []
    {
      patterns := map[];
      ipranges := new AddrRangeSet();
    }

    /** Exactly these lines have been collected. */
    ghost predicate Holds(lines: seq<Line>, exclude: bool)
      reads this, ipranges
    {
      Collected(patterns, ipranges.ranges, lines, exclude)
    }

    /** Every port, or one more port, for a pattern. */
    method AddName(pattern: bytes, port: Option<bytes>)
      modifies this
      ensures patterns == old(patterns)[pattern := WithPort(old(patterns), pattern, port)]
    {
      if port.None? {
        patterns := patterns[pattern := None];
        return;
      }
      if pattern in patterns && patterns[pattern].None? {
        assert patterns == patterns[pattern := None];
        return;
      }
      var ports := if pattern in patterns then patterns[pattern].value else [];
      if port.value in ports {
        assert patterns == patterns[pattern := patterns[pattern]];
        return;
      }
      assert [] + [port.value] == [port.value];
      patterns := patterns[pattern := Some(ports + [port.value])];
    }

    /** A prefix, whose last address the ranges cannot hold if no address follows it. */
    method AddNet(parsed: Option<Prefix>, ghost lines: seq<Line>, ghost exclude: bool) returns (ok: bool)
      requires Holds(lines, exclude) && (parsed.Some? ==> Good(parsed.value))
      modifies this, ipranges
      ensures ok <==> parsed.Some?
      ensures ok ==> Holds(lines + [Line(exclude, Net(parsed.value))], exclude)
    {
      var r, closed := ParsePrefix(parsed);
      if r.None? {
        return false;
      }
      ghost var was := ipranges.ranges;
      ipranges.Add(r.value);
      if closed {
        AddName(LastText(r.value.high.width), None);
      }
      CollectedNet(old(patterns), was, ipranges.ranges, lines, Line(exclude, Net(parsed.value)), r.value, closed);
      return true;
    }

    /** A line without its '!'. */
    method AddText(parse: Parse, s: bytes, ghost lines: seq<Line>, ghost exclude: bool) returns (ok: bool)
      requires Holds(lines, exclude) && Sane(parse)
      modifies this, ipranges
      ensures ok <==> ReadText(parse, s).Some?
      ensures ok ==> Holds(lines + [Line(exclude, ReadText(parse, s).value)], exclude)
    {
      hide Collected;
      if SLASH in s {
        ok := AddNet(parse(s), lines, exclude);
      } else {
        var rule := ReadName(s);
        AddName(rule.pattern, rule.port);
        CollectedName(old(patterns), ipranges.ranges, lines, Line(exclude, rule));
        ok := true;
      }
    }
  }

  // ----- lines in files

  /** The lines of each file, and how a relative path is joined to the name of the file it stands in. */
  datatype Disk = Disk(files: map<bytes, seq<bytes>>, join: (bytes, bytes) -> bytes)

  predicate StartsWith(s: bytes, p: bytes) { |p| <= |s| && s[..|p|] == p }

  /** The file that an '@' line in the file `name` names. */
  function Target(disk: Disk, name: bytes, line: bytes): bytes
    requires line != []
  {
    var path := line[1..];
    if StartsWith(path, [DOT, SLASH]) || StartsWith(path, [DOT, DOT, SLASH]) then disk.join(name, path) else path
  }

  /** What comes of the lines of the file `name` when `leaf` is applied to every line and to every line
      of an included file.  At most `depth` files can be open inside one another. */
  function Walk<T>(disk: Disk, leaf: bytes -> Option<seq<T>>, name: bytes, texts: seq<bytes>, depth: nat)
    : Option<seq<T>>
    decreases depth, |texts|
  {
    if texts == [] then Some([])
    else
      Both(Walk(disk, leaf, name, texts[..|texts| - 1], depth), WalkOne(disk, leaf, name, texts[|texts| - 1], depth))
  }

  function WalkOne<T>(disk: Disk, leaf: bytes -> Option<seq<T>>, name: bytes, text: bytes, depth: nat): Option<seq<T>>
    decreases depth, 0
  {
    if text != [] && text[0] == AT_SIGN then
      var file := Target(disk, name, text);
      if depth == 0 || file !in disk.files then None else Walk(disk, leaf, file, disk.files[file], depth - 1)
    else leaf(text)
  }

  lemma {:induction false} WalkStops<T>(
    disk: Disk, leaf: bytes -> Option<seq<T>>, name: bytes, texts: seq<bytes>, depth: nat, k: nat)
    requires k <= |texts| && Walk(disk, leaf, name, texts[..k], depth).None?
    ensures Walk(disk, leaf, name, texts, depth).None?
    decreases |texts|
  {
    if k == |texts| {
      assert texts[..k] == texts;
    } else {
      var n := |texts| - 1;
      assert texts[..n][..k] == texts[..k];
      WalkStops(disk, leaf, name, texts[..n], depth, k);
    }
  }

  function Both<T>(a: Option<seq<T>>, b: Option<seq<T>>): Option<seq<T>> {
    if a.None? || b.None? then None else Some(a.value + b.value)
  }

  function Itself(text: bytes): Option<seq<bytes>> { Some([text]) }

  function Each<T>(leaf: bytes -> Option<seq<T>>, texts: seq<bytes>): Option<seq<T>> {
    if texts == [] then Some([]) else Both(Each(leaf, texts[..|texts| - 1]), leaf(texts[|texts| - 1]))
  }

  lemma {:induction false} EachConcat<T>(leaf: bytes -> Option<seq<T>>, a: seq<bytes>, b: seq<bytes>)
    ensures Each(leaf, a + b) == Both(Each(leaf, a), Each(leaf, b))
  {
    if b == [] {
      assert a + b == a;
      assert Each(leaf, a).Some? ==> Each(leaf, a).value + [] == Each(leaf, a).value;
    } else {
      var n := |b| - 1;
      assert (a + b)[..|a| + n] == a + b[..n] && (a + b)[|a| + n] == b[n];
      EachConcat(leaf, a, b[..n]);
      BothAssociates(Each(leaf, a), Each(leaf, b[..n]), leaf(b[n]));
    }
  }

  lemma BothAssociates<T>(a: Option<seq<T>>, b: Option<seq<T>>, c: Option<seq<T>>)
    ensures Both(Both(a, b), c) == Both(a, Both(b, c))
  {
    if a.Some? && b.Some? && c.Some? {
      assert a.value + b.value + c.value == a.value + (b.value + c.value);
    }
  }

  /** Whatever is done with included files can be done with the flat list of lines. */
  lemma {:induction false} WalkFlat<T>(
    disk: Disk, leaf: bytes -> Option<seq<T>>, name: bytes, texts: seq<bytes>, depth: nat)
    ensures var flat := Walk(disk, Itself, name, texts, depth);
      Walk(disk, leaf, name, texts, depth) == if flat.None? then None else Each(leaf, flat.value)
    decreases depth, |texts|
  {
    if texts != [] {
      var n := |texts| - 1;
      WalkFlat(disk, leaf, name, texts[..n], depth);
      var init := Walk(disk, Itself, name, texts[..n], depth);
      var tail := WalkOne(disk, Itself, name, texts[n], depth);
      WalkOneFlat(disk, leaf, name, texts[n], depth);
      assert Walk(disk, Itself, name, texts, depth) == Both(init, tail);
      if init.Some? && tail.Some? { EachConcat(leaf, init.value, tail.value); }
    }
  }

  lemma {:induction false} WalkOneFlat<T>(
    disk: Disk, leaf: bytes -> Option<seq<T>>, name: bytes, text: bytes, depth: nat)
    ensures var flat := WalkOne(disk, Itself, name, text, depth);
      WalkOne(disk, leaf, name, text, depth) == if flat.None? then None else Each(leaf, flat.value)
    decreases depth, 0
  {
    if text != [] && text[0] == AT_SIGN {
      var file := Target(disk, name, text);
      if depth > 0 && file in disk.files { WalkFlat(disk, leaf, file, disk.files[file], depth - 1); }
    } else {
      var one: seq<bytes> := [text];
      assert one[..0] == [];
      assert leaf(text).Some? ==> [] + leaf(text).value == leaf(text).value;
    }
  }

  /** Scanned lines are not empty and hold no line break. */
  predicate Scanned(texts: seq<bytes>) {
    forall k :: 0 <= k < |texts| ==> texts[k] != [] && NEWLINE !in texts[k]
  }

  /** The lines of a text that count are scanned lines. */
  lemma {:induction false} LinesScanned(s: bytes)
    ensures Scanned(LinesOf(s))
    decreases |s|
  {
    if s != [] {
      TrimNoBreak(s[..LineEnd(s)]);
      LinesScanned(AfterLine(s));
    }
  }

  lemma TrimNoBreak(s: bytes)
    requires NEWLINE !in s
    ensures NEWLINE !in Trim(s)
  {
    TrimLeftNoBreak(s);
    TrimRightNoBreak(TrimLeft(s));
  }

  lemma {:induction false} TrimLeftNoBreak(s: bytes)
    requires NEWLINE !in s
    ensures NEWLINE !in TrimLeft(s)
  {
    if SpaceFront(s) > 0 { TrimLeftNoBreak(s[SpaceFront(s)..]); }
  }

  lemma {:induction false} TrimRightNoBreak(s: bytes)
    requires NEWLINE !in s
    ensures NEWLINE !in TrimRight(s)
  {
    if SpaceBack(s) > 0 { TrimRightNoBreak(s[..|s| - SpaceBack(s)]); }
  }

  predicate DiskScanned(disk: Disk) {
    forall f :: f in disk.files ==> Scanned(disk.files[f])
  }

  /** A line as a rule. */
  function LineLeaf(parse: Parse): bytes -> Option<seq<Line>> {
    (text: bytes) =>
      if text == [] then None else match ReadLine(parse, text) case None => None case Some(line) => Some([line])
  }

  class AllowListParser {
    const includes: Settings
    const excludes: Settings

    ghost predicate Valid()
      reads this
    {
      includes != excludes && includes.ipranges != excludes.ipranges
    }

    /** Everything that was parsed so far. */
    ghost predicate Parsed(lines: seq<Line>)
      reads this, includes, excludes, includes.ipranges, excludes.ipranges
    {
      Valid() && includes.Holds(lines, false) && excludes.Holds(lines, true)
    }

    constructor ()
      ensures Parsed([])
      ensures fresh(includes) && fresh(excludes) && fresh(includes.ipranges) && fresh(excludes.ipranges)
    {
      includes := new Settings();
      excludes := new Settings();
    }

    /** One line that is not an `@` line. */
    method ParseRule(parse: Parse, line: bytes, ghost lines: seq<Line>) returns (ok: bool)
      requires Parsed(lines) && Sane(parse) && line != []
      modifies includes, excludes, includes.ipranges, excludes.ipranges
      ensures ok <==> ReadLine(parse, line).Some?
      ensures ok ==> Parsed(lines + [ReadLine(parse, line).value])
    {
      var exclude := line[0] == BANG;
      var s := if exclude then line[1..] else line;
      var settings := if exclude then excludes else includes;
      hide Collected, ReadText;
      ok := settings.AddText(parse, s, lines, exclude);
      if ok {
        var other := if exclude then includes else excludes;
        CollectedOther(other.patterns, other.ipranges.ranges, lines, ReadLine(parse, line).value, !exclude);
      }
    }

    /** The lines of the file `name`, with those of the files that they include. */
    method ParseLines(parse: Parse, disk: Disk, name: bytes, texts: seq<bytes>, depth: nat, ghost lines: seq<Line>)
      returns (ok: bool)
      requires Parsed(lines) && Sane(parse) && Scanned(texts) && DiskScanned(disk)
      modifies includes, excludes, includes.ipranges, excludes.ipranges
      ensures ok <==> Walk(disk, LineLeaf(parse), name, texts, depth).Some?
      ensures ok ==> Parsed(lines + Walk(disk, LineLeaf(parse), name, texts, depth).value)
      decreases depth
    {
      hide Parsed, LineLeaf, Target;
      ghost var leaf := LineLeaf(parse);
      ghost var all := lines;
      assert texts[..0] == [] && lines + [] == lines;
      for k := 0 to |texts|
        invariant Walk(disk, leaf, name, texts[..k], depth).Some?
        invariant all == lines + Walk(disk, leaf, name, texts[..k], depth).value && Parsed(all)
      {
        var text := texts[k];
        ghost var more;
        ok, more := ParseText(parse, disk, name, text, depth, all);
        assert texts[..k + 1][..k] == texts[..k];
        if !ok {
          WalkStops(disk, leaf, name, texts, depth, k + 1);
          return false;
        }
        all := all + more;
      }
      assert texts[..|texts|] == texts;
      return true;
    }

    /** One line of the file `name`. */
    method ParseText(parse: Parse, disk: Disk, name: bytes, text: bytes, depth: nat, ghost lines: seq<Line>)
      returns (ok: bool, ghost more: seq<Line>)
      requires Parsed(lines) && Sane(parse) && text != [] && DiskScanned(disk)
      modifies includes, excludes, includes.ipranges, excludes.ipranges
      ensures ok <==> WalkOne(disk, LineLeaf(parse), name, text, depth).Some?
      ensures ok ==> more == WalkOne(disk, LineLeaf(parse), name, text, depth).value && Parsed(lines + more)
      decreases depth, 0
    {
      hide Parsed, Target;
      more := [];
      if text[0] == AT_SIGN {
        var file := Target(disk, name, text);
        if depth == 0 || file !in disk.files {
          return false, [];
        }
        ok := ParseLines(parse, disk, file, disk.files[file], depth - 1, lines);
        more := if ok then Walk(disk, LineLeaf(parse), file, disk.files[file], depth - 1).value else [];
      } else {
        ok := ParseRule(parse, text, lines);
        more := if ok then [ReadLine(parse, text).value] else [];
      }
    }
  }

  // ----- checksums

  function Terminated(text: bytes): Option<bytes> { Some(text + [NEWLINE]) }

  /** What is fed to the hash function. */
  function Digest(disk: Disk, texts: seq<bytes>, depth: nat): Option<bytes> {
    Walk(disk, Terminated, [DOT], texts, depth)
  }

  /** Feeds the lines of a file to the hash function, with those of the files that they include. */
  method ChecksumLines(disk: Disk, name: bytes, texts: seq<bytes>, depth: nat, digest: bytes)
    returns (sum: Option<bytes>)
    requires Scanned(texts) && DiskScanned(disk)
    ensures sum == Both(Some(digest), Walk(disk, Terminated, name, texts, depth))
    decreases depth
  {
    var written := digest;
    assert texts[..0] == [] && digest + [] == digest;
    for k := 0 to |texts|
      invariant Walk(disk, Terminated, name, texts[..k], depth).Some?
      invariant written == digest + Walk(disk, Terminated, name, texts[..k], depth).value
    {
      var text := texts[k];
      assert texts[..k + 1][..k] == texts[..k];
      ghost var one := WalkOne(disk, Terminated, name, text, depth);
      if text[0] == AT_SIGN {
        var file := Target(disk, name, text);
        sum := None;
        if depth > 0 && file in disk.files {
          sum := ChecksumLines(disk, file, disk.files[file], depth - 1, written);
        }
        if sum.None? {
          WalkStops(disk, Terminated, name, texts, depth, k + 1);
          return None;
        }
        written := sum.value;
      } else {
        written := written + text + [NEWLINE];
      }
    }
    assert texts[..|texts|] == texts;
    sum := Some(written);
  }

  lemma {:induction false} LinesApart(a: seq<bytes>, b: seq<bytes>)
    requires Scanned(a) && Scanned(b) && Each(Terminated, a) == Each(Terminated, b)
    ensures a == b
  {
    EachTerminated(a);
    EachTerminated(b);
    if a != [] && b != [] {
      var n, m := |a| - 1, |b| - 1;
      EachTerminated(a[..n]);
      EachTerminated(b[..m]);
      LastLine(Each(Terminated, a[..n]).value, a[n], Each(Terminated, b[..m]).value, b[m]);
      LinesApart(a[..n], b[..m]);
      assert a == a[..n] + [a[n]] && b == b[..m] + [b[m]];
    }
  }

  lemma {:induction false} EachTerminated(a: seq<bytes>)
    ensures Each(Terminated, a).Some?
    ensures a != [] ==> Each(Terminated, a).value != []
    ensures Each(Terminated, a).value != [] ==> Each(Terminated, a).value[|Each(Terminated, a).value| - 1] == NEWLINE
  {
    if a != [] { EachTerminated(a[..|a| - 1]); }
  }

  lemma LongerHasBreak(p: bytes, x: bytes, q: bytes, y: bytes)
    requires |p| > |q| && p[|p| - 1] == NEWLINE && p + (x + [NEWLINE]) == q + (y + [NEWLINE])
    ensures NEWLINE in y
  {
    var k := |p| - 1 - |q|;
    assert (p + (x + [NEWLINE]))[|p| - 1] == NEWLINE;
    assert (q + (y + [NEWLINE]))[|p| - 1] == (y + [NEWLINE])[k];
    assert |p| + |x| == |q| + |y|;
    assert y[k] == NEWLINE;
  }

  /** The last line of a text is what stands between its last two line breaks. */
  lemma LastLine(p: bytes, x: bytes, q: bytes, y: bytes)
    requires NEWLINE !in x && NEWLINE !in y
    requires (p != [] ==> p[|p| - 1] == NEWLINE) && (q != [] ==> q[|q| - 1] == NEWLINE)
    requires p + (x + [NEWLINE]) == q + (y + [NEWLINE])
    ensures p == q && x == y
  {
    var s, t := p + (x + [NEWLINE]), q + (y + [NEWLINE]);
    if |p| > |q| { LongerHasBreak(p, x, q, y); }
    if |q| > |p| { LongerHasBreak(q, y, p, x); }
    assert p == s[..|p|] && q == t[..|q|];
    assert x == s[|p|..|s| - 1] && y == t[|q|..|t| - 1];
  }

  lemma {:induction false} FlatScanned(disk: Disk, name: bytes, texts: seq<bytes>, depth: nat)
    requires Scanned(texts) && DiskScanned(disk) && Walk(disk, Itself, name, texts, depth).Some?
    ensures Scanned(Walk(disk, Itself, name, texts, depth).value)
    decreases depth, |texts|
  {
    if texts != [] {
      var n := |texts| - 1;
      FlatScanned(disk, name, texts[..n], depth);
      var text := texts[n];
      if text[0] == AT_SIGN {
        var file := Target(disk, name, text);
        FlatScanned(disk, file, disk.files[file], depth - 1);
      }
    }
  }

  /** Texts with the same checksum, read at different times, hold the same rules. */
  lemma SameChecksumSameRules(disk: Disk, a: seq<bytes>, disk': Disk, b: seq<bytes>, depth: nat, parse: Parse)
    requires Scanned(a) && Scanned(b) && DiskScanned(disk) && DiskScanned(disk')
    requires Digest(disk, a, depth).Some? && Digest(disk, a, depth) == Digest(disk', b, depth)
    ensures Walk(disk, LineLeaf(parse), [DOT], a, depth) == Walk(disk', LineLeaf(parse), [DOT], b, depth)
  {
    WalkFlat(disk, Terminated, [DOT], a, depth);
    WalkFlat(disk', Terminated, [DOT], b, depth);
    WalkFlat(disk, LineLeaf(parse), [DOT], a, depth);
    WalkFlat(disk', LineLeaf(parse), [DOT], b, depth);
    FlatScanned(disk, [DOT], a, depth);
    FlatScanned(disk', [DOT], b, depth);
    LinesApart(Walk(disk, Itself, [DOT], a, depth).value, Walk(disk', Itself, [DOT], b, depth).value);
  }

  // ----- the allow list

  /** How many groups the patterns of a set have. */
  ghost function Groups(s: set<bytes>): nat {
    if s == {} then 0 else var p :| p in s; GroupCount(p) + Groups(s - {p})
  }

  lemma {:induction false} GroupsWithout(s: set<bytes>, p: bytes)
    requires p in s
    ensures Groups(s) == GroupCount(p) + Groups(s - {p})
  {
    var x :| x in s && Groups(s) == GroupCount(x) + Groups(s - {x});
    if x != p {
      GroupsWithout(s - {x}, p);
      GroupsWithout(s - {p}, x);
      assert s - {x} - {p} == s - {p} - {x};
    }
  }

  /** The patterns that a set of globs can hold. */
  ghost predicate Usable(patterns: set<bytes>) {
    && (forall p :: p in patterns ==> Scannable(p))
    && 256 + Groups(patterns) <= ATOM_LIMIT
  }

  /** `set` holds the patterns of `keys` with their ports. */
  ghost predicate Filled(globs: seq<bytes>, stored: seq<Pattern<Config>>, patterns: Patterns, keys: set<bytes>)
    requires keys <= patterns.Keys
  {
    && |globs| == |stored|
    && (forall k :: 0 <= k < |globs| ==> globs[k] in keys && stored[k].data == patterns[globs[k]])
    && (forall p :: p in keys ==> exists k :: 0 <= k < |globs| && globs[k] == p)
  }

  /** Adds every pattern once, in no particular order. */
  method AddPatterns(matcher: MatchSet<Config>, patterns: Patterns)
    requires matcher.Valid() && matcher.globs == [] && matcher.patterns == [] && matcher.FreeAtom() == 256
    requires Usable(patterns.Keys)
    modifies matcher
    ensures matcher.Valid() && Filled(matcher.globs, matcher.patterns, patterns, patterns.Keys)
  {
    var left := patterns.Keys;
    while left != {}
      invariant left <= patterns.Keys && matcher.Valid()
      invariant matcher.FreeAtom() + Groups(left) <= ATOM_LIMIT
      invariant Filled(matcher.globs, matcher.patterns, patterns, patterns.Keys - left)
    {
      var p :| p in left;
      GroupsWithout(left, p);
      ghost var globs, stored := matcher.globs, matcher.patterns;
      hide Groups, GroupCount, Scannable, Tokens, Filled, MatchSet.Valid;
      matcher.Add(p, patterns[p]);
      FilledMore(globs, stored, matcher.globs, matcher.patterns, patterns, patterns.Keys - left, p);
      assert patterns.Keys - left + {p} == patterns.Keys - (left - {p});
      left := left - {p};
    }
    assert patterns.Keys - left == patterns.Keys;
  }

  lemma FilledMore(globs: seq<bytes>, stored: seq<Pattern<Config>>, globs': seq<bytes>, stored': seq<Pattern<Config>>,
                   patterns: Patterns, keys: set<bytes>, p: bytes)
    requires keys <= patterns.Keys && p in patterns && Filled(globs, stored, patterns, keys)
    requires globs' == globs + [p] && |stored'| == |stored| + 1 && stored'[..|stored|] == stored
    requires stored'[|stored|].data == patterns[p]
    ensures Filled(globs', stored', patterns, keys + {p})
  {
    assert forall k :: 0 <= k < |stored| ==> stored'[k] == stored[k];
    forall x | x in keys + {p}
      ensures exists k :: 0 <= k < |globs'| && globs'[k] == x
    {
      if x in keys {
        var k :| 0 <= k < |globs| && globs[k] == x;
        assert globs'[k] == x;
      } else {
        assert globs'[|globs|] == x;
      }
    }
  }

  /** One side of an allow list accepts the query. */
  method Match(matcher: MatchSet<Config>, ipranges: AddrRangeSet, q: Query) returns (accepted: bool)
    requires matcher.Valid() && Separate(ipranges.ranges)
    ensures accepted <==> SideAccepts(matcher, ipranges, q)
  {
    assert |matcher.globs| == |matcher.patterns|;
    hide MatchSet.Valid, Separate, Holds;
    if q.addr.Some? {
      var found := ipranges.Contains(q.addr.value);
      if found { return true; }
    }
    var reported := matcher.Match(q.host);
    accepted := AnyForPort(reported, q.port);
    ReportedForPort(matcher.globs, matcher.patterns, reported, q);
  }

  method AnyForPort(reported: seq<Config>, port: bytes) returns (found: bool)
    ensures found <==> exists d :: d in reported && ForPort(d, port)
  {
    for k := 0 to |reported|
      invariant forall j :: 0 <= j < k ==> !ForPort(reported[j], port)
    {
      if ForPort(reported[k], port) {
        assert reported[k] in reported;
        return true;
      }
    }
    return false;
  }

  lemma ReportedForPort(globs: seq<bytes>, stored: seq<Pattern<Config>>, reported: seq<Config>, q: Query)
    requires |globs| == |stored|
    requires forall d :: d in reported <==>
      exists k :: 0 <= k < |stored| && stored[k].data == d && Accepts(globs[k], q.host)
    ensures (exists d :: d in reported && ForPort(d, q.port))
       <==> exists k :: 0 <= k < |globs| && Accepts(globs[k], q.host) && ForPort(stored[k].data, q.port)
  {
    hide Accepts;
    if k :| 0 <= k < |globs| && Accepts(globs[k], q.host) && ForPort(stored[k].data, q.port) {
      assert stored[k].data in reported;
    }
  }

  ghost predicate SideAccepts(matcher: MatchSet<Config>, ipranges: AddrRangeSet, q: Query)
    reads matcher, ipranges
    requires |matcher.globs| == |matcher.patterns|
  {
    RangesAccept(ipranges.ranges, q)
    || exists k ::
      0 <= k < |matcher.globs| && Accepts(matcher.globs[k], q.host) && ForPort(matcher.patterns[k].data, q.port)
  }

  class AllowList {
    const includes: MatchSet<Config>
    const excludes: MatchSet<Config>
    var includeRanges: AddrRangeSet
    var excludeRanges: AddrRangeSet

    /** The list decides as the lines do. */
    ghost predicate Decides(lines: seq<Line>)
      reads this, includes, excludes, includeRanges, excludeRanges
    {
      && includes.Valid() && excludes.Valid()
      && Separate(includeRanges.ranges) && Separate(excludeRanges.ranges)
      && (forall q :: Consistent(q) ==> (SideAccepts(includes, includeRanges, q) <==> AnyLine(lines, false, q)))
      && (forall q :: Consistent(q) ==> (SideAccepts(excludes, excludeRanges, q) <==> AnyLine(lines, true, q)))
    }

    /** Reads the lines of a text into a list that does not decide anything yet. */
    constructor ()
      ensures includes.Valid() && includes.globs == [] && includes.patterns == [] && includes.FreeAtom() == 256
      ensures excludes.Valid() && excludes.globs == [] && excludes.patterns == [] && excludes.FreeAtom() == 256
      ensures fresh(includes) && fresh(excludes) && includes != excludes
    {
      includes := new MatchSet();
      excludes := new MatchSet();
      includeRanges := new AddrRangeSet();
      excludeRanges := new AddrRangeSet();
    }

    /** Reads the lines of a text and of the files that it includes. */
    method Init(parse: Parse, disk: Disk, texts: seq<bytes>, depth: nat) returns (ok: bool)
      requires Sane(parse) && Scanned(texts) && DiskScanned(disk)
      requires includes.Valid() && includes.globs == [] && includes.patterns == [] && includes.FreeAtom() == 256
      requires excludes.Valid() && excludes.globs == [] && excludes.patterns == [] && excludes.FreeAtom() == 256
      requires includes != excludes
      requires var lines := Walk(disk, LineLeaf(parse), [DOT], texts, depth);
        lines.Some? ==> Usable(PatternsOf(lines.value, false)) && Usable(PatternsOf(lines.value, true))
      modifies this, includes, excludes
      ensures ok <==> Walk(disk, LineLeaf(parse), [DOT], texts, depth).Some?
      ensures ok ==> Decides(Walk(disk, LineLeaf(parse), [DOT], texts, depth).value)
    {
      ghost var lines := Walk(disk, LineLeaf(parse), [DOT], texts, depth);
      hide LineLeaf, Usable, Accepts, RangesAccept;
      var p := new AllowListParser();
      ok := p.ParseLines(parse, disk, [DOT], texts, depth, []);
      if !ok {
        return;
      }
      assert [] + lines.value == lines.value;
      AddPatterns(includes, p.includes.patterns);
      AddPatterns(excludes, p.excludes.patterns);
      includeRanges := p.includes.ipranges;
      excludeRanges := p.excludes.ipranges;
      SideDecides(includes, includeRanges, p.includes.patterns, lines.value, false);
      SideDecides(excludes, excludeRanges, p.excludes.patterns, lines.value, true);
    }

    /** The decision on a query whose host is the text of its address, if it has one. */
    method Allow(q: Query, ghost lines: seq<Line>) returns (allowed: bool)
      requires Decides(lines)
      ensures Consistent(q) ==> (allowed <==> Allowed(lines, q))
    {
      allowed := Match(includes, includeRanges, q);
      if allowed {
        var excluded := Match(excludes, excludeRanges, q);
        allowed := !excluded;
      }
    }
  }

  /** The matcher and the ranges of a side decide as the collected lines do. */
  lemma SideDecides(
    matcher: MatchSet<Config>, ipranges: AddrRangeSet, patterns: Patterns, lines: seq<Line>, exclude: bool)
    requires Collected(patterns, ipranges.ranges, lines, exclude)
    requires Filled(matcher.globs, matcher.patterns, patterns, patterns.Keys)
    ensures forall q :: Consistent(q) ==> (SideAccepts(matcher, ipranges, q) <==> AnyLine(lines, exclude, q))
  {
    forall q | Consistent(q)
      ensures SideAccepts(matcher, ipranges, q) <==> AnyLine(lines, exclude, q)
    {
      FilledAccepts(matcher.globs, matcher.patterns, patterns, q);
    }
  }

  lemma FilledAccepts(globs: seq<bytes>, stored: seq<Pattern<Config>>, patterns: Patterns, q: Query)
    requires Filled(globs, stored, patterns, patterns.Keys)
    ensures PatternsAccept(patterns, q)
       <==> exists k :: 0 <= k < |globs| && Accepts(globs[k], q.host) && ForPort(stored[k].data, q.port)
  {
    hide Accepts;
    if PatternsAccept(patterns, q) {
      var p :| p in patterns && Accepts(p, q.host) && ForPort(patterns[p], q.port);
      var k :| 0 <= k < |globs| && globs[k] == p;
      assert Accepts(globs[k], q.host) && ForPort(stored[k].data, q.port);
    }
    if k :| 0 <= k < |globs| && Accepts(globs[k], q.host) && ForPort(stored[k].data, q.port) {
      assert globs[k] in patterns;
    }
  }

  /** Neither the order of the lines nor repeated lines matter. */
  lemma OrderIndependent(a: seq<Line>, b: seq<Line>, q: Query)
    requires forall l :: l in a <==> l in b
    ensures Allowed(a, q) <==> Allowed(b, q)
  {
    forall exclude
      ensures AnyLine(a, exclude, q) <==> AnyLine(b, exclude, q)
    {
      hide RuleAccepts;
      if AnyLine(a, exclude, q) {
        var k :| 0 <= k < |a| && a[k].exclude == exclude && RuleAccepts(a[k].rule, q);
        assert a[k] in b;
      }
      if AnyLine(b, exclude, q) {
        var k :| 0 <= k < |b| && b[k].exclude == exclude && RuleAccepts(b[k].rule, q);
        assert b[k] in a;
      }
    }
  }
}
