// What an allow list decides, said of its text, byte by byte.
module AllowTexts {
  import opened Basics
  import opened Prefixes
  import opened Globs
  import opened MatchSets
  import opened Lines
  import opened AllowLists

  // ----- what a line accepts

  /** A text that ends with ':' and a port. */
  predicate HasPort(t: bytes, host: bytes, port: bytes) {
    Digits(port) && t == host + [58] + port
  }

  /** In brackets. */
  predicate Boxed(t: bytes) { |t| > 1 && t[0] == 91 && t[|t| - 1] == 93 }

  function Unboxed(t: bytes): bytes { if Boxed(t) then t[1..|t| - 1] else t }

  /** The text of a line, without its '!', accepts the query.  With a '/' it is a prefix, and the address
      must be in it.  Otherwise it is a glob for the host, with a port that must be that of the query unless
      there is none or the text is an IPv6 address. */
  ghost predicate TextAccepts(parse: Parse, t: bytes, q: Query) {
    if 47 in t then
      && parse(t).Some? && q.addr.Some?
      && q.addr.value.width == 8 * |parse(t).value.address| && InPrefix(parse(t).value, q.addr.value.value)
    else
      || (exists host, port :: HasPort(t, host, port) && HostPortAccepts(host, port, q))
      || ((forall host, port :: !HasPort(t, host, port)) && Accepts(Unboxed(t), q.host))
  }

  ghost predicate HostPortAccepts(host: bytes, port: bytes, q: Query) {
    if Boxed(host) || 58 !in host then Accepts(Unboxed(host), q.host) && port == q.port
    else Accepts(host + [58] + port, q.host)
  }

  /** A line without '!' that accepts the query, and one with it. */
  ghost predicate Included(parse: Parse, texts: seq<bytes>, q: Query) {
    exists k :: 0 <= k < |texts| && texts[k] != [] && texts[k][0] != 33 && TextAccepts(parse, texts[k], q)
  }

  ghost predicate Excluded(parse: Parse, texts: seq<bytes>, q: Query) {
    exists k :: 0 <= k < |texts| && texts[k] != [] && texts[k][0] == 33 && TextAccepts(parse, texts[k][1..], q)
  }

  /** Every text with a '/' is a prefix. */
  ghost predicate Readable(parse: Parse, texts: seq<bytes>) {
    forall k :: 0 <= k < |texts| && texts[k] != [] ==>
      var t := if texts[k][0] == 33 then texts[k][1..] else texts[k];
      47 in t ==> parse(t).Some?
  }

  lemma OnePort(t: bytes, host: bytes, port: bytes, host': bytes, port': bytes)
    requires HasPort(t, host, port) && HasPort(t, host', port')
    ensures host == host' && port == port'
  {
    EndDigitsOf(host + [58], port);
    EndDigitsOf(host' + [58], port');
    assert t == (host + [58]) + port && t == (host' + [58]) + port';
    assert port == t[|t| - |port|..] && host == t[..|t| - |port| - 1];
  }

  lemma SuffixIsPort(t: bytes, host: bytes, port: bytes)
    requires HasPort(t, host, port)
    ensures PortSuffix(t) == |port| + 1
  {
    EndDigitsOf(host + [58], port);
    assert t == (host + [58]) + port;
  }

  lemma PortOrNone(t: bytes)
    ensures var n := PortSuffix(t);
      if n > 0 then HasPort(t, t[..|t| - n], t[|t| - n + 1..]) else forall host, port :: !HasPort(t, host, port)
  {
    PortSuffixIs(t);
    forall host, port | HasPort(t, host, port)
      ensures PortSuffix(t) > 0
    {
      SuffixIsPort(t, host, port);
    }
  }

  lemma NameOfText(t: bytes, q: Query)
    requires 47 !in t
    ensures RuleAccepts(ReadName(t), q) <==>
      || (exists host, port :: HasPort(t, host, port) && HostPortAccepts(host, port, q))
      || ((forall host, port :: !HasPort(t, host, port)) && Accepts(Unboxed(t), q.host))
  {
    hide Accepts, PortSuffix, ReadName;
    PortOrNone(t);
    var n := PortSuffix(t);
    if n > 0 {
      var host, port := t[..|t| - n], t[|t| - n + 1..];
      ReadHostPort(host, port);
      forall host', port' | HasPort(t, host', port')
        ensures host' == host && port' == port
      {
        OnePort(t, host, port, host', port');
      }
      assert RuleAccepts(ReadName(t), q) <==> HostPortAccepts(host, port, q);
      hide HasPort, HostPortAccepts, RuleAccepts;
    } else {
      forall host, port: bytes | Digits(port)
        ensures t != host + [COLON] + port
      {
        assert !HasPort(t, host, port);
      }
      ReadHost(t);
    }
  }

  /** The rule that is read from a text accepts just what the text says. */
  lemma RuleOfText(parse: Parse, t: bytes, q: Query)
    ensures ReadText(parse, t).Some? <==> (47 in t ==> parse(t).Some?)
    ensures ReadText(parse, t).Some? ==> (RuleAccepts(ReadText(parse, t).value, q) <==> TextAccepts(parse, t, q))
  {
    hide Accepts, InPrefix, HasPort, HostPortAccepts;
    if 47 !in t { NameOfText(t, q); }
  }

  // ----- what a list of lines says

  lemma {:induction false} LinesOfTexts(parse: Parse, texts: seq<bytes>, q: Query)
    requires Scanned(texts)
    ensures Each(LineLeaf(parse), texts).Some? <==> Readable(parse, texts)
    ensures Each(LineLeaf(parse), texts).Some? ==>
      var lines := Each(LineLeaf(parse), texts).value;
      && (AnyLine(lines, false, q) <==> Included(parse, texts, q))
      && (AnyLine(lines, true, q) <==> Excluded(parse, texts, q))
  {
    if texts != [] {
      var n := |texts| - 1;
      var t := texts[n];
      LinesOfTexts(parse, texts[..n], q);
      RuleOfText(parse, if t[0] == 33 then t[1..] else t, q);
      OneMoreText(parse, texts, q);
      hide TextAccepts, RuleAccepts, ReadText;
      if Each(LineLeaf(parse), texts).Some? {
        var before := Each(LineLeaf(parse), texts[..n]).value;
        var line := ReadLine(parse, t).value;
        assert Each(LineLeaf(parse), texts).value == before + [line];
        AnyLineMore(before, line, false, q);
        AnyLineMore(before, line, true, q);
      }
    }
  }

  lemma OneMoreText(parse: Parse, texts: seq<bytes>, q: Query)
    requires texts != [] && texts[|texts| - 1] != []
    ensures var n := |texts| - 1; var t := texts[n];
      && (Included(parse, texts, q) <==>
            Included(parse, texts[..n], q) || (t[0] != 33 && TextAccepts(parse, t, q)))
      && (Excluded(parse, texts, q) <==>
            Excluded(parse, texts[..n], q) || (t[0] == 33 && TextAccepts(parse, t[1..], q)))
      && (Readable(parse, texts) <==>
            Readable(parse, texts[..n]) && Readable(parse, [t]))
  {
    hide TextAccepts;
    var n := |texts| - 1;
    var last := [texts[n]];
    assert last[0] == texts[n] && forall k :: 0 <= k < n ==> texts[..n][k] == texts[k];
    assert Readable(parse, texts) ==> Readable(parse, last);
  }

  // ----- included files

  lemma {:induction false} WalkConcat<T>(
    disk: Disk, leaf: bytes -> Option<seq<T>>, name: bytes, a: seq<bytes>, b: seq<bytes>, depth: nat)
    ensures Walk(disk, leaf, name, a + b, depth)
      == Both(Walk(disk, leaf, name, a, depth), Walk(disk, leaf, name, b, depth))
    decreases |b|
  {
    var whole := Walk(disk, leaf, name, a, depth);
    if b == [] {
      assert a + b == a;
      assert whole.Some? ==> whole.value + [] == whole.value;
    } else {
      var n := |b| - 1;
      assert (a + b)[..|a| + n] == a + b[..n] && (a + b)[|a| + n] == b[n];
      WalkConcat(disk, leaf, name, a, b[..n], depth);
      BothAssociates(whole, Walk(disk, leaf, name, b[..n], depth), WalkOne(disk, leaf, name, b[n], depth));
    }
  }

  /** The file that '@' and a path name: "./" and "../" make the path relative to the file it stands in. */
  function FileOf(disk: Disk, name: bytes, path: bytes): bytes {
    if (|path| >= 2 && path[0] == 46 && path[1] == 47)
       || (|path| >= 3 && path[0] == 46 && path[1] == 46 && path[2] == 47)
    then disk.join(name, path) else path
  }

  /** The lines of a file come in place of the line with '@' that names it, and every other line is itself. */
  lemma IncludedInPlace(disk: Disk, name: bytes, before: seq<bytes>, line: bytes, after: seq<bytes>, depth: nat)
    requires line != []
    ensures Walk(disk, Itself, name, before + [line] + after, depth) ==
      Both(Both(Walk(disk, Itself, name, before, depth),
                if line[0] != 64 then Some([line])
                else
                  var file := FileOf(disk, name, line[1..]);
                  if depth > 0 && file in disk.files
                  then Walk(disk, Itself, file, disk.files[file], depth - 1) else None),
           Walk(disk, Itself, name, after, depth))
  {
    var one := [line];
    WalkConcat(disk, Itself, name, before + one, after, depth);
    WalkConcat(disk, Itself, name, before, one, depth);
    assert one[..0] == [];
    var w := WalkOne(disk, Itself, name, line, depth);
    assert w.Some? ==> [] + w.value == w.value;
    assert Walk(disk, Itself, name, one, depth) == w;
    assert line[0] == 64 ==> Target(disk, name, line) == FileOf(disk, name, line[1..]);
  }

  // ----- the decision

  /** From the text of an allow list to a decision: all lines, those of included files too, are read, and the
      query is allowed just when a line without '!' accepts it and no line with '!' does. */
  method Decide(parse: Parse, disk: Disk, texts: seq<bytes>, depth: nat, q: Query) returns (ok: bool, allowed: bool)
    requires Sane(parse) && Scanned(texts) && DiskScanned(disk) && Consistent(q)
    requires var lines := Walk(disk, LineLeaf(parse), [46], texts, depth);
      lines.Some? ==> Usable(PatternsOf(lines.value, false)) && Usable(PatternsOf(lines.value, true))
    ensures var flat := Walk(disk, Itself, [46], texts, depth);
      && (ok <==> flat.Some? && Readable(parse, flat.value))
      && (ok ==> (allowed <==> Included(parse, flat.value, q) && !Excluded(parse, flat.value, q)))
  {
    ghost var flat := Walk(disk, Itself, [46], texts, depth);
    WalkFlat(disk, LineLeaf(parse), [46], texts, depth);
    if flat.Some? {
      FlatScanned(disk, [46], texts, depth);
      LinesOfTexts(parse, flat.value, q);
    }
    hide LineLeaf, AllowList.Decides, Included, Excluded, Readable, AnyLine, Usable, Consistent;
    var list := new AllowList();
    ok := list.Init(parse, disk, texts, depth);
    allowed := false;
    if ok { allowed := list.Allow(q, Walk(disk, LineLeaf(parse), [46], texts, depth).value); }
  }

  /** The texts of the last addresses: "255.255.255.255", and eight times "ffff" with ':' in between. */
  lemma LastTexts()
    ensures LastText(32) == [50, 53, 53, 46, 50, 53, 53, 46, 50, 53, 53, 46, 50, 53, 53]
    ensures |LastText(128)| == 39
    ensures forall k :: 0 <= k < 39 ==> LastText(128)[k] == if k % 5 == 4 then 58 else 102
  {
  }
}
