// The set of globs that a source is matched against.
module MatchSets {
  import opened Basics
  import opened Globs
  import opened GlobCompile
  import opened GlobRun
  import CharSets
  import Utf8

  // Single marks that stand for the special atoms; see ByteToken.
  const MAGIC_DOT: nat := 0
  const MAGIC_ASTERISK: nat := 1
  const MAGIC_ASTERISK2: nat := 2
  const MAGIC_QUESTION: nat := 3
  const MAGIC_UNDERSCORE: nat := 4

  /** Atoms below this are represented exactly in a stored pattern. */
  const ATOM_LIMIT: nat := 0xD800

  type Atoms = seq<nat>

  type Env = map<nat, CharSets.Words>

  /** What an atom means: a byte, or a set that the table gives. */
  ghost function TokenOf(env: Env, a: nat): Token {
    if a < 256 then ByteToken(a)
    else Group(if a in env then CharSets.MembersOf(env[a]) else {})
  }

  ghost function TokensOf(env: Env, atoms: Atoms): (toks: seq<Token>)
    ensures |toks| == |atoms|
    ensures forall i :: 0 <= i < |atoms| ==> toks[i] == TokenOf(env, atoms[i])
  {
    seq(|atoms|, i requires 0 <= i < |atoms| => TokenOf(env, atoms[i]))
  }

  /** Every atom stands for a byte or is in the table, and can be stored. */
  predicate Known(env: Env, atoms: Atoms) {
    forall i :: 0 <= i < |atoms| ==> atoms[i] < ATOM_LIMIT && (atoms[i] < 256 || atoms[i] in env)
  }

  /** `atoms` is what the stored bytes decode to, and nothing is lost in storage. */
  predicate Storable(env: Env, stored: bytes) {
    Utf8.Encode(Utf8.Decode(stored)) == stored && Known(env, Utf8.Decode(stored))
  }

  /** The table only gets new entries. */
  ghost predicate Grows(env: Env, more: Env) {
    env.Keys <= more.Keys && forall a :: a in env ==> more[a] == env[a]
  }

  /** Atoms that are known keep their meaning while the table grows. */
  lemma StillMeans(env: Env, more: Env, atoms: Atoms)
    requires Known(env, atoms) && Grows(env, more)
    ensures Known(more, atoms) && TokensOf(more, atoms) == TokensOf(env, atoms)
  {
  }

  /** `stored` is the compiled form of `glob`. */
  ghost predicate Means(env: Env, stored: bytes, glob: bytes) {
    && Storable(env, stored)
    && TokensOf(env, Utf8.Decode(stored)) == Compile(Tokens(glob))
  }

  lemma StillHolds(env: Env, more: Env, stored: bytes, glob: bytes)
    requires Means(env, stored, glob) && Grows(env, more)
    ensures Means(more, stored, glob)
  {
    StillMeans(env, more, Utf8.Decode(stored));
  }

  /** The replacement of a dot at either end, on atoms. */
  function MarkAtoms(atoms: Atoms): Atoms
    requires atoms != []
  {
    var m := if atoms[0] == DOT then atoms[0 := MAGIC_DOT] else atoms;
    if m[|m| - 1] == DOT then m[|m| - 1 := MAGIC_DOT] else m
  }

  lemma MarkAtomsMeans(env: Env, atoms: Atoms)
    requires Known(env, atoms) && atoms != []
    ensures Known(env, MarkAtoms(atoms)) && TokensOf(env, MarkAtoms(atoms)) == Mark(TokensOf(env, atoms))
  {
  }

  /** Parsing, reversing, moving the stars and storing gives the compiled form. */
  lemma CompiledMeans(env: Env, parsed: Atoms, reversed: Atoms, atoms: Atoms, glob: bytes)
    requires Known(env, parsed)
    requires TokensOf(env, parsed) == Mark(Merge(Tokens(glob)))
    requires reversed == Reversed(parsed)
    requires Known(env, reversed) ==> Known(env, atoms)
    requires TokensOf(env, atoms) == Bubble(TokensOf(env, reversed), 0)
    ensures Means(env, Utf8.Encode(atoms), glob)
  {
    assert TokensOf(env, reversed) == Reversed(TokensOf(env, parsed));
    EncodeStorable(env, atoms);
  }

  datatype Pattern<D> = Pattern(atoms: bytes, data: D)

  // ----- stored patterns

  lemma EncodeStorable(env: Env, atoms: Atoms)
    requires Known(env, atoms)
    ensures Utf8.Decode(Utf8.Encode(atoms)) == atoms
    ensures Storable(env, Utf8.Encode(atoms))
  {
    forall r | r in atoms
      ensures Utf8.Scalar(r)
    {
      var i :| 0 <= i < |atoms| && atoms[i] == r;
    }
    Utf8.DecodeEncode(atoms);
  }

  /** Taking the first atom off a stored pattern. */
  lemma StoredTail(env: Env, stored: bytes)
    requires Storable(env, stored) && stored != []
    ensures var atoms := Utf8.Decode(stored);
      atoms != [] && Utf8.DecodeRune(stored) == (atoms[0], |Utf8.EncodeRune(atoms[0])|)
    ensures var rest := stored[Utf8.DecodeRune(stored).1..];
      && Utf8.Decode(rest) == Utf8.Decode(stored)[1..] && Storable(env, rest)
      && (rest == [] <==> Utf8.Decode(rest) == [])
  {
    var atoms := Utf8.Decode(stored);
    Utf8.EncodedTail(atoms);
    assert atoms[1..] == Utf8.Decode(stored[Utf8.DecodeRune(stored).1..]);
  }

  /** The look-ahead on bytes is the look-ahead on atoms. */
  predicate LookAheadBytes(rest: bytes) {
    || |rest| == 0
    || (|rest| == 1 && rest[0] as int in {MAGIC_DOT, MAGIC_ASTERISK, MAGIC_ASTERISK2})
    || (|rest| == 2 && rest[0] as int in {MAGIC_ASTERISK, MAGIC_ASTERISK2} && rest[1] == MAGIC_DOT)
  }

  predicate LookAheadAtoms(rest: Atoms) {
    || rest == []
    || (|rest| == 1 && rest[0] in {MAGIC_DOT, MAGIC_ASTERISK, MAGIC_ASTERISK2})
    || (|rest| == 2 && rest[0] in {MAGIC_ASTERISK, MAGIC_ASTERISK2} && rest[1] == MAGIC_DOT)
  }

  lemma LookAheadEncoded(rest: Atoms)
    ensures LookAheadBytes(Utf8.Encode(rest)) <==> LookAheadAtoms(rest)
  {
    if |rest| >= 2 {
      EncodeTwo(rest);
    } else if |rest| == 1 {
      assert Utf8.Encode(rest) == Utf8.EncodeRune(rest[0]) + [];
    }
  }

  lemma EncodeTwo(rest: Atoms)
    requires |rest| >= 2
    ensures Utf8.Encode(rest) == Utf8.EncodeRune(rest[0]) + Utf8.EncodeRune(rest[1]) + Utf8.Encode(rest[2..])
    ensures |rest| > 2 ==> |Utf8.Encode(rest)| > 2
  {
    assert rest[1..][1..] == rest[2..];
  }

  lemma LookAheadStored(env: Env, rest: bytes)
    requires Storable(env, rest)
    ensures LookAheadBytes(rest) <==> LookAhead(TokensOf(env, Utf8.Decode(rest)))
  {
    LookAheadEncoded(Utf8.Decode(rest));
  }

  /** A pattern with something left to match. */
  predicate Active<D>(env: Env, patt: Pattern<D>) {
    Storable(env, patt.atoms) && patt.atoms != []
  }

  predicate AllActive<D>(env: Env, patts: seq<Pattern<D>>) {
    forall k :: 0 <= k < |patts| ==> Active(env, patts[k])
  }

  /** The reports of one pattern. */
  predicate Only<D(==)>(hits: seq<D>, data: D) {
    forall k :: 0 <= k < |hits| ==> hits[k] == data
  }

  predicate AllOf<D(==)>(patts: seq<Pattern<D>>, data: D) {
    forall k :: 0 <= k < |patts| ==> patts[k].data == data
  }

  lemma AllAt<D>(env: Env, patts: seq<Pattern<D>>, data: D, k: nat)
    requires AllActive(env, patts) && AllOf(patts, data) && k < |patts|
    ensures Active(env, patts[k]) && patts[k].data == data
  {
  }

  lemma AllConcat<D>(env: Env, a: seq<Pattern<D>>, b: seq<Pattern<D>>, data: D)
    requires AllActive(env, a) && AllActive(env, b) && AllOf(a, data) && AllOf(b, data)
    ensures AllActive(env, a + b) && AllOf(a + b, data)
  {
  }

  lemma MeansActive<D>(env: Env, patt: Pattern<D>, glob: bytes)
    requires Means(env, patt.atoms, glob)
    ensures Active(env, patt)
  {
  }

  ghost predicate Runs<D>(env: Env, patt: Pattern<D>, v: bytes, first: bool)
    requires patt.atoms != [] && |v| > 0
  {
    Run(TokensOf(env, Utf8.Decode(patt.atoms)), v, first)
  }

  /** One of the first `n` patterns reports its data. */
  ghost predicate AnyRuns<D(!new)>(env: Env, patts: seq<Pattern<D>>, n: nat, v: bytes, first: bool)
    requires AllActive(env, patts) && |v| > 0 && n <= |patts|
  {
    exists k :: 0 <= k < n && Runs(env, patts[k], v, first)
  }

  lemma AnyRunsStep<D(!new)>(env: Env, patts: seq<Pattern<D>>, n: nat, v: bytes, first: bool)
    requires AllActive(env, patts) && |v| > 0 && n < |patts|
    ensures AnyRuns(env, patts, n + 1, v, first) <==>
            AnyRuns(env, patts, n, v, first) || Runs(env, patts[n], v, first)
  {
  }

  /** One of the patterns reports its data from the next index on. */
  ghost predicate Later<D(!new)>(env: Env, patts: seq<Pattern<D>>, v: bytes)
    requires AllActive(env, patts)
  {
    |v| > 1 && AnyRuns(env, patts, |patts|, v[1..], false)
  }

  lemma LaterConcat<D(!new)>(env: Env, a: seq<Pattern<D>>, b: seq<Pattern<D>>, v: bytes)
    requires AllActive(env, a) && AllActive(env, b)
    ensures Later(env, a + b, v) <==> Later(env, a, v) || Later(env, b, v)
  {
    if Later(env, a, v) {
      var k :| 0 <= k < |a| && Runs(env, a[k], v[1..], false);
      assert (a + b)[k] == a[k];
    }
    if Later(env, b, v) {
      var k :| 0 <= k < |b| && Runs(env, b[k], v[1..], false);
      assert (a + b)[|a| + k] == b[k];
    }
  }

  lemma LaterPlus<D(!new)>(env: Env, a: seq<Pattern<D>>, m: Pattern<D>, v: bytes)
    requires AllActive(env, a) && Active(env, m)
    ensures Later(env, a + [m], v) <==> Later(env, a, v) || (|v| > 1 && Runs(env, m, v[1..], false))
  {
    LaterConcat(env, a, [m], v);
    if |v| > 1 && Runs(env, m, v[1..], false) {
      assert [m][0] == m;
    }
  }

  /** `next` is `patt` without its first atom. */
  ghost predicate Next<D>(env: Env, patt: Pattern<D>, next: Pattern<D>) {
    var atoms := Utf8.Decode(patt.atoms);
    && next.data == patt.data && |next.atoms| < |patt.atoms|
    && Storable(env, next.atoms)
    && atoms != [] && Utf8.DecodeRune(patt.atoms).0 == atoms[0]
    && Utf8.Decode(next.atoms) == atoms[1..] && (next.atoms == [] <==> atoms[1..] == [])
    && TokensOf(env, Utf8.Decode(next.atoms)) == TokensOf(env, atoms)[1..]
  }

  lemma NextOf<D>(env: Env, patt: Pattern<D>)
    requires Active(env, patt)
    ensures Next(env, patt, Pattern(patt.atoms[Utf8.DecodeRune(patt.atoms).1..], patt.data))
  {
    hide Utf8.DecodeRune;
    StoredTail(env, patt.atoms);
  }

  /** What one step owes: its reports and the patterns it adds stand for the rest of the run. */
  ghost predicate Stepped<D(!new)>(
    env: Env, patt: Pattern<D>, v: bytes, first: bool, added: seq<Pattern<D>>, hits: seq<D>)
    requires patt.atoms != [] && |v| > 0
  {
    && AllActive(env, added) && AllOf(added, patt.data)
    && (Only(hits, patt.data))
    && (Runs(env, patt, v, first) <==> hits != [] || Later(env, added, v))
  }

  /** Which token an atom is, and which bytes it takes. */
  lemma AtomMeans(env: Env, atom: nat, b: byte)
    ensures TokenOf(env, atom) == Edge <==> atom == MAGIC_DOT
    ensures Many(TokenOf(env, atom)) <==> atom == MAGIC_ASTERISK || atom == MAGIC_ASTERISK2
    ensures var sep := b == DOT || b == COLON;
      Takes(TokenOf(env, atom), b) <==>
      if atom == MAGIC_DOT then false
      else if atom == MAGIC_ASTERISK || atom == MAGIC_QUESTION then !sep
      else atom == MAGIC_ASTERISK2 || atom == MAGIC_UNDERSCORE || atom == b ||
           (atom in env && atom >= 256 && CharSets.Contains(env[atom], b))
  {
  }

  /** The sources that the matcher takes for a glob. */
  predicate Accepts(glob: bytes, source: bytes) {
    source != [] && Run(Compile(Tokens(glob)), Reversed(source), true)
  }

  /** For a glob without zero bytes these are the sources in its exact language. */
  lemma AcceptsExact(glob: bytes, source: bytes)
    requires NoEdge(Tokens(glob)) && source != []
    ensures Accepts(glob, source) <==> Exact(Compile(Tokens(glob)), Reversed(source))
  {
    CompiledEdges(Tokens(glob));
    RunExact(Compile(Tokens(glob)), Reversed(source));
  }

  class MatchSet<D(==,!new)> {
    var patterns: seq<Pattern<D>>
    var nextAtom: nat
    var charSetToAtom: map<CharSets.Words, nat>
    var atomToCharSet: Env

    /** The globs that were added, in order. */
    ghost var globs: seq<bytes>

    /** The two tables are inverse to each other and hold the atoms from 256 up to `nextAtom`. */
    ghost predicate Tables()
      reads this`nextAtom, this`charSetToAtom, this`atomToCharSet
    {
      && (nextAtom == 0 ==> charSetToAtom == map[] && atomToCharSet == map[])
      && (nextAtom != 0 ==> 256 <= nextAtom <= ATOM_LIMIT)
      && (forall w :: w in charSetToAtom ==>
            charSetToAtom[w] in atomToCharSet && atomToCharSet[charSetToAtom[w]] == w && w != CharSets.ALL)
      && (forall a :: a in atomToCharSet ==>
            256 <= a < nextAtom && atomToCharSet[a] in charSetToAtom && charSetToAtom[atomToCharSet[a]] == a)
    }

    ghost predicate Valid()
      reads this
    {
      && Tables()
      && |globs| == |patterns|
      && forall k :: 0 <= k < |patterns| ==> Means(atomToCharSet, patterns[k].atoms, globs[k])
    }

    constructor ()
      ensures Valid() && globs == [] && patterns == [] && FreeAtom() == 256
    {
      patterns, nextAtom, charSetToAtom, atomToCharSet, globs := [], 0, map[], map[], [];
    }

    /** The first atom that is still free. */
    function FreeAtom(): nat
      reads this
    {
      if nextAtom == 0 then 256 else nextAtom
    }

    method ReadAtom(s: bytes) returns (atom: nat, left: bytes)
      requires Tables() && s != [] && Scannable(s)
      requires FreeAtom() + GroupCount(s) <= ATOM_LIMIT
      modifies this`nextAtom, this`charSetToAtom, this`atomToCharSet
      ensures Tables()
      ensures Grows(old(atomToCharSet), atomToCharSet)
      ensures (TokenOf(atomToCharSet, atom), left) == ReadToken(s)
      ensures Known(atomToCharSet, [atom])
      ensures FreeAtom() + GroupCount(left) <= ATOM_LIMIT
      ensures FreeAtom() + GroupCount(left) <= old(FreeAtom()) + GroupCount(s)
    {
      if s[0] == OPEN_GROUP {
        var charSet;
        charSet, left := CharSets.CharSetFromGroup(s[1..]);
        ghost var members := CharSets.Group(CharSets.Content(s[1..]));
        CharSets.RepresentsOne(charSet, members);
        if members == EVERY_BYTE { CharSets.OnlyAllRepresentsEveryByte(charSet); }
        if charSet in charSetToAtom {
          return charSetToAtom[charSet], left;
        }
        if charSet == CharSets.ALL {
          CharSets.AllRepresentsEveryByte();
          CharSets.RepresentsOne(charSet, EVERY_BYTE);
          return MAGIC_UNDERSCORE, left;
        }
        if nextAtom == 0 {
          nextAtom := 256;
        }
        atom := nextAtom;
        nextAtom := nextAtom + 1;
        charSetToAtom := charSetToAtom[charSet := atom];
        atomToCharSet := atomToCharSet[atom := charSet];
        return;
      }
      atom, left := s[0], s[1..];
      if s[0] == ASTERISK {
        atom := MAGIC_ASTERISK;
        if left != [] && left[0] == ASTERISK {
          atom := MAGIC_ASTERISK2;
          left := left[1..];
        }
      } else if s[0] == QUESTION {
        atom := MAGIC_QUESTION;
      } else if s[0] == UNDERSCORE {
        atom := MAGIC_UNDERSCORE;
      }
    }

    /** Appends an atom, with the merging and reordering that Push describes. */
    static method PushAtom(env: Env, atoms: Atoms, last: nat, atom: nat) returns (more: Atoms, lastAtom: nat)
      requires Known(env, atoms) && Known(env, [atom])
      requires last == if atoms == [] then 0 else atoms[|atoms| - 1]
      ensures Known(env, more) && more != []
      ensures TokensOf(env, more) == Push(TokensOf(env, atoms), TokenOf(env, atom))
      ensures lastAtom == more[|more| - 1]
    {
      more, lastAtom := atoms, last;
      if atom == MAGIC_ASTERISK {
        if last != MAGIC_ASTERISK && last != MAGIC_ASTERISK2 {
          more, lastAtom := more + [MAGIC_ASTERISK], MAGIC_ASTERISK;
        }
      } else if atom == MAGIC_ASTERISK2 {
        if last == MAGIC_ASTERISK {
          more, lastAtom := more[|more| - 1 := MAGIC_ASTERISK2], MAGIC_ASTERISK2;
        } else if last != MAGIC_ASTERISK2 {
          more, lastAtom := more + [MAGIC_ASTERISK2], MAGIC_ASTERISK2;
        }
      } else if atom == MAGIC_QUESTION {
        if last == MAGIC_ASTERISK {
          more := more[|more| - 1 := MAGIC_QUESTION] + [MAGIC_ASTERISK];
        } else {
          more, lastAtom := more + [MAGIC_QUESTION], MAGIC_QUESTION;
        }
      } else if atom == MAGIC_UNDERSCORE {
        if last == MAGIC_ASTERISK2 {
          more := more[|more| - 1 := MAGIC_UNDERSCORE] + [MAGIC_ASTERISK2];
        } else {
          more, lastAtom := more + [MAGIC_UNDERSCORE], MAGIC_UNDERSCORE;
        }
      } else {
        more, lastAtom := more + [atom], atom;
      }
    }

    /** The tokens of a pattern as atoms, merged on the way. */
    method ParseAtoms(s: bytes) returns (atoms: Atoms)
      requires Tables() && Scannable(s)
      requires FreeAtom() + GroupCount(s) <= ATOM_LIMIT
      modifies this`nextAtom, this`charSetToAtom, this`atomToCharSet
      ensures Tables() && Grows(old(atomToCharSet), atomToCharSet)
      ensures Known(atomToCharSet, atoms)
      ensures TokensOf(atomToCharSet, atoms) == Merge(Tokens(s))
      ensures FreeAtom() <= old(FreeAtom()) + GroupCount(s)
    {
      hide Tables, Push, ReadToken, TokenOf;
      var left, lastAtom := s, 0;
      ghost var done: seq<Token> := [];
      atoms := [];
      while left != []
        invariant Tables() && Scannable(left)
        invariant FreeAtom() + GroupCount(left) <= ATOM_LIMIT
        invariant FreeAtom() + GroupCount(left) <= old(FreeAtom()) + GroupCount(s)
        invariant Grows(old(atomToCharSet), atomToCharSet)
        invariant Known(atomToCharSet, atoms)
        invariant lastAtom == if atoms == [] then 0 else atoms[|atoms| - 1]
        invariant done + Tokens(left) == Tokens(s)
        invariant TokensOf(atomToCharSet, atoms) == Merge(done)
        decreases |left|
      {
        ghost var env, t, tail := atomToCharSet, ReadToken(left).0, Tokens(ReadToken(left).1);
        assert done + ([t] + tail) == done + [t] + tail;
        MergeOneMore(done, t);
        var currentAtom;
        currentAtom, left := ReadAtom(left);
        StillMeans(env, atomToCharSet, atoms);
        done := done + [t];
        atoms, lastAtom := PushAtom(atomToCharSet, atoms, lastAtom, currentAtom);
      }
      assert done == Tokens(s);
    }

    method Parse(s: bytes) returns (atoms: Atoms)
      requires Tables() && Scannable(s)
      requires FreeAtom() + GroupCount(s) <= ATOM_LIMIT
      modifies this`nextAtom, this`charSetToAtom, this`atomToCharSet
      ensures Tables() && Grows(old(atomToCharSet), atomToCharSet)
      ensures Known(atomToCharSet, atoms)
      ensures TokensOf(atomToCharSet, atoms) == Mark(Merge(Tokens(s)))
      ensures FreeAtom() <= old(FreeAtom()) + GroupCount(s)
    {
      atoms := ParseAtoms(s);
      if atoms == [] {
        return [MAGIC_DOT];
      }
      MarkAtomsMeans(atomToCharSet, atoms);
      if atoms[0] == DOT {
        atoms := atoms[0 := MAGIC_DOT];
      }
      if atoms[|atoms| - 1] == DOT {
        atoms := atoms[|atoms| - 1 := MAGIC_DOT];
      }
    }

    /** The pass that moves stars behind their partners, on the reversed atoms. */
    method BubbleStars(atoms: array<nat>)
      modifies atoms
      ensures TokensOf(atomToCharSet, atoms[..]) == Bubble(TokensOf(atomToCharSet, old(atoms[..])), 0)
      ensures old(Known(atomToCharSet, atoms[..])) ==> Known(atomToCharSet, atoms[..])
    {
      var i := 0;
      while i < atoms.Length - 1
        invariant 0 <= i
        invariant Bubble(TokensOf(atomToCharSet, atoms[..]), i) == Bubble(TokensOf(atomToCharSet, old(atoms[..])), 0)
        invariant old(Known(atomToCharSet, atoms[..])) ==> Known(atomToCharSet, atoms[..])
      {
        ghost var toks := TokensOf(atomToCharSet, atoms[..]);
        if (atoms[i] == MAGIC_ASTERISK && atoms[i + 1] == MAGIC_QUESTION) ||
           (atoms[i] == MAGIC_ASTERISK2 && atoms[i + 1] == MAGIC_UNDERSCORE) {
          assert Partners(toks[i], toks[i + 1]);
          atoms[i], atoms[i + 1] := atoms[i + 1], atoms[i];
          assert TokensOf(atomToCharSet, atoms[..]) == Swap(toks, i);
        }
        i := i + 1;
      }
    }

    /** The stored form of a glob; the atoms are reversed and reordered in place. */
    method Store(patt: bytes) returns (stored: bytes)
      requires Tables() && Scannable(patt)
      requires FreeAtom() + GroupCount(patt) <= ATOM_LIMIT
      modifies this`nextAtom, this`charSetToAtom, this`atomToCharSet
      ensures Tables() && Grows(old(atomToCharSet), atomToCharSet)
      ensures Means(atomToCharSet, stored, patt)
      ensures FreeAtom() <= old(FreeAtom()) + GroupCount(patt)
    {
      hide Means, Tables, Utf8.Encode;
      var parsed := Parse(patt);
      var atoms := new nat[|parsed|](i requires 0 <= i < |parsed| => parsed[i]);
      assert atoms[..] == parsed;
      ReverseInPlace(atoms);
      ghost var reversed := atoms[..];
      BubbleStars(atoms);
      stored := Utf8.Encode(atoms[..]);
      CompiledMeans(atomToCharSet, parsed, reversed, atoms[..], patt);
    }

    /** Adds a pattern. It means what its glob means, and so do all earlier patterns. */
    method Add(patt: bytes, data: D)
      requires Valid() && Scannable(patt)
      requires FreeAtom() + GroupCount(patt) <= ATOM_LIMIT
      modifies this
      ensures Valid()
      ensures globs == old(globs) + [patt]
      ensures |patterns| == |old(patterns)| + 1
      ensures patterns[..|old(patterns)|] == old(patterns)
      ensures patterns[|old(patterns)|].data == data
      ensures FreeAtom() <= old(FreeAtom()) + GroupCount(patt)
    {
      hide Means, Tables;
      var stored := Store(patt);
      patterns := patterns + [Pattern(stored, data)];
      globs := globs + [patt];
      forall k | 0 <= k < |patterns|
        ensures Means(atomToCharSet, patterns[k].atoms, globs[k])
      {
        if k < |old(patterns)| {
          StillHolds(old(atomToCharSet), atomToCharSet, patterns[k].atoms, globs[k]);
        }
      }
    }

    predicate Empty()
      reads this
    {
      patterns == []
    }

    /** One step of one active pattern at index `i` of the reversed source. */
    method CheckPattern(patt: Pattern<D>, source: bytes, i: nat, matches: seq<Pattern<D>>, reported: seq<D>)
      returns (more: seq<Pattern<D>>, now: seq<D>, ghost added: seq<Pattern<D>>, ghost hits: seq<D>)
      requires Tables() && Active(atomToCharSet, patt) && i < |source|
      ensures more == matches + added && now == reported + hits
      ensures Stepped(atomToCharSet, patt, source[i..], i == 0, added, hits)
      decreases |patt.atoms|, 1
    {
      hide Utf8.DecodeRune, Stepped, Next, Storable;
      var (atom, size) := Utf8.DecodeRune(patt.atoms);
      var next := Pattern(patt.atoms[size..], patt.data);
      NextOf(atomToCharSet, patt);
      if atom == MAGIC_DOT {
        more, now, added, hits := CheckDot(patt, next, source, i, matches, reported);
      } else if atom == MAGIC_ASTERISK || atom == MAGIC_ASTERISK2 {
        more, now, added, hits := CheckStar(patt, atom, next, source, i, matches, reported);
      } else {
        more, now, added, hits := CheckByte(patt, atom, next, source, i, matches, reported);
      }
    }

    method CheckDot(patt: Pattern<D>, next: Pattern<D>, source: bytes, i: nat,
                    matches: seq<Pattern<D>>, reported: seq<D>)
      returns (more: seq<Pattern<D>>, now: seq<D>, ghost added: seq<Pattern<D>>, ghost hits: seq<D>)
      requires Tables() && Active(atomToCharSet, patt) && i < |source|
      requires Next(atomToCharSet, patt, next) && Utf8.DecodeRune(patt.atoms).0 == MAGIC_DOT
      ensures more == matches + added && now == reported + hits
      ensures Stepped(atomToCharSet, patt, source[i..], i == 0, added, hits)
      decreases |patt.atoms|, 0
    {
      hide Utf8.DecodeRune, Utf8.Decode, Utf8.Encode, TokenOf;
      ghost var env, v := atomToCharSet, source[i..];
      AtomMeans(env, MAGIC_DOT, source[i]);
      more, now, added, hits := matches, reported, [], [];
      if next.atoms == [] {
        if i == 0 || source[i] == DOT {
          now, hits := now + [patt.data], [patt.data];
        }
        return;
      }
      if i == 0 {
        more, now, added, hits := CheckPattern(next, source[i..], 0, matches, reported);
        assert v[0..] == v;
      }
      if source[i] == DOT {
        LaterPlus(env, added, next, v);
        more, added := more + [next], added + [next];
      }
      LaterPlus(env, added, patt, v);
      more, added := more + [patt], added + [patt];
    }

    method CheckStar(patt: Pattern<D>, atom: nat, next: Pattern<D>, source: bytes, i: nat,
                     matches: seq<Pattern<D>>, reported: seq<D>)
      returns (more: seq<Pattern<D>>, now: seq<D>, ghost added: seq<Pattern<D>>, ghost hits: seq<D>)
      requires Tables() && Active(atomToCharSet, patt) && i < |source|
      requires Next(atomToCharSet, patt, next) && Utf8.DecodeRune(patt.atoms).0 == atom
      requires atom == MAGIC_ASTERISK || atom == MAGIC_ASTERISK2
      ensures more == matches + added && now == reported + hits
      ensures Stepped(atomToCharSet, patt, source[i..], i == 0, added, hits)
      decreases |patt.atoms|, 0
    {
      hide Utf8.DecodeRune, Utf8.Decode, Utf8.Encode, TokenOf;
      ghost var env, v := atomToCharSet, source[i..];
      AtomMeans(env, atom, source[i]);
      more, now, added, hits := matches, reported, [], [];
      if next.atoms != [] {
        more, now, added, hits := CheckPattern(next, source[i..], 0, matches, reported);
        assert v[0..] == v;
      }
      if atom == MAGIC_ASTERISK && (source[i] == DOT || source[i] == COLON) {
        return;
      }
      if i + 1 == |source| {
        if next.atoms == [] {
          now, hits := now + [patt.data], [patt.data];
        }
        return;
      }
      LaterPlus(env, added, patt, v);
      more, added := more + [patt], added + [patt];
    }

    /** The step of a pattern whose first atom takes a single byte. */
    method CheckByte(patt: Pattern<D>, atom: nat, next: Pattern<D>, source: bytes, i: nat,
                     matches: seq<Pattern<D>>, reported: seq<D>)
      returns (more: seq<Pattern<D>>, now: seq<D>, ghost added: seq<Pattern<D>>, ghost hits: seq<D>)
      requires Tables() && Active(atomToCharSet, patt) && i < |source|
      requires Next(atomToCharSet, patt, next) && Utf8.DecodeRune(patt.atoms).0 == atom
      requires atom != MAGIC_DOT && atom != MAGIC_ASTERISK && atom != MAGIC_ASTERISK2
      ensures more == matches + added && now == reported + hits
      ensures Stepped(atomToCharSet, patt, source[i..], i == 0, added, hits)
    {
      hide Utf8.DecodeRune, Utf8.Decode, Utf8.Encode;
      ghost var env, v := atomToCharSet, source[i..];
      AtomMeans(env, atom, source[i]);
      hide TokenOf, CharSets.Contains, Takes;
      more, now, added, hits := matches, reported, [], [];
      if atom == MAGIC_QUESTION && (source[i] == DOT || source[i] == COLON) {
        return;
      }
      if atom == MAGIC_QUESTION || atom == MAGIC_UNDERSCORE || atom == source[i]
         || (atom in atomToCharSet && CharSets.Contains(atomToCharSet[atom], source[i])) {
        if i + 1 == |source| {
          LookAheadStored(env, next.atoms);
          if LookAheadBytes(next.atoms) {
            now, hits := now + [patt.data], [patt.data];
          }
          return;
        }
        if next.atoms == [] {
          return;
        }
        LaterPlus(env, [], next, v);
        more, added := more + [next], [next];
      }
    }

    /** Reports the data of exactly the patterns whose glob takes `source`. */
    method Match(source: bytes) returns (reported: seq<D>)
      requires Valid()
      ensures forall d :: d in reported <==>
        exists k :: 0 <= k < |patterns| && patterns[k].data == d && Accepts(globs[k], source)
    {
      hide Utf8.Encode, Utf8.Decode, Compile, Run, Tokens;
      reported := [];
      if Empty() {
        return;
      }
      var reversed := new byte[|source|](i requires 0 <= i < |source| => source[i]);
      assert reversed[..] == source;
      ReverseInPlace(reversed);
      var bytes := reversed[..];
      for k := 0 to |patterns|
        invariant forall d :: d in reported <==>
          exists j :: 0 <= j < k && patterns[j].data == d && Accepts(globs[j], source)
      {
        ghost var hits;
        reported, hits := MatchOne(patterns[k], bytes, reported, globs[k]);
        assert hits != [] <==> Accepts(globs[k], source);
        forall d
          ensures d in hits <==> hits != [] && d == patterns[k].data
        {
          if hits != [] { assert hits[0] in hits; }
        }
      }
    }

    /** The inner loop: runs one pattern over the reversed source. */
    method MatchOne(patt: Pattern<D>, bytes: bytes, reported: seq<D>, ghost glob: bytes)
      returns (now: seq<D>, ghost hits: seq<D>)
      requires Tables() && Means(atomToCharSet, patt.atoms, glob)
      ensures now == reported + hits
      ensures Only(hits, patt.data)
      ensures hits != [] <==> bytes != [] && Run(Compile(Tokens(glob)), bytes, true)
    {
      hide Utf8.Encode, Utf8.Decode, Utf8.DecodeRune, Compile, Run;
      now, hits := reported, [];
      ghost var env := atomToCharSet;
      if bytes == [] {
        return;
      }
      MeansActive(env, patt, glob);
      var patterns := [patt];
      assert bytes[0..] == bytes;
      assert Runs(env, patterns[0], bytes[0..], true) <==> Run(Compile(Tokens(glob)), bytes, true);
      for i := 0 to |bytes|
        invariant now == reported + hits
        invariant Only(hits, patt.data)
        invariant AllActive(env, patterns) && AllOf(patterns, patt.data)
        invariant Run(Compile(Tokens(glob)), bytes, true) <==>
          hits != [] || (i < |bytes| && AnyRuns(env, patterns, |patterns|, bytes[i..], i == 0))
      {
        var matches;
        ghost var found;
        matches, now, found := StepAll(patterns, bytes, i, now, patt.data);
        hits := hits + found;
        if matches == [] {
          break;
        }
        assert i + 1 < |bytes| ==> bytes[i..][1..] == bytes[i + 1..];
        patterns := matches;
      }
    }

    /** All active patterns take one step. */
    method StepAll(patterns: seq<Pattern<D>>, bytes: bytes, i: nat, reported: seq<D>, ghost data: D)
      returns (matches: seq<Pattern<D>>, now: seq<D>, ghost hits: seq<D>)
      requires Tables() && i < |bytes|
      requires AllActive(atomToCharSet, patterns) && AllOf(patterns, data)
      ensures now == reported + hits && Only(hits, data)
      ensures AllActive(atomToCharSet, matches) && AllOf(matches, data)
      ensures hits != [] || Later(atomToCharSet, matches, bytes[i..]) <==>
        AnyRuns(atomToCharSet, patterns, |patterns|, bytes[i..], i == 0)
    {
      ghost var env, v := atomToCharSet, bytes[i..];
      matches, now, hits := [], reported, [];
      assert !Later(env, matches, v) && !AnyRuns(env, patterns, 0, v, i == 0);
      hide Active, AllActive, AllOf, Later, Runs, AnyRuns, Tables;
      for j := 0 to |patterns|
        invariant now == reported + hits && Only(hits, data)
        invariant AllActive(env, matches) && AllOf(matches, data)
        invariant hits != [] || Later(env, matches, v) <==>
          AnyRuns(env, patterns, j, v, i == 0)
      {
        ghost var added, found, was := [], [], matches;
        AllAt(env, patterns, data, j);
        matches, now, added, found := CheckPattern(patterns[j], bytes, i, matches, now);
        AllConcat(env, was, added, data);
        LaterConcat(env, was, added, v);
        AnyRunsStep(env, patterns, j, v, i == 0);
        hits := hits + found;
      }
    }
  }
}
