// Times to live in the DNS cache: clamped when stored, aged when served.
module DnsCaches {
  import opened Basics

  const SECOND := 1_000_000_000
  const WORD := 0x1_0000_0000
  const MAX_TTL: u32 := 0xFFFF_FFFF

  type u32 = n: int | 0 <= n < 0x1_0000_0000

  /** A record without a header has no time to live; `answer` says that it is in the answer section. */
  datatype Record = Record(ttl: Option<u32>, v6: bool, answer: bool)

  /** Bounds on times to live in nanoseconds; one that is not positive is not set. */
  datatype Bounds = Bounds(min: int, max: int)

  /** `time` is when the answer came; without a deadline it is not cached. */
  datatype Answer = Answer(records: seq<Record>, time: int, deadline: Option<int>)

  // ----- clamping

  function Clamped(b: Bounds, ns: int): int {
    var up := if b.min > 0 && ns < b.min then b.min else ns;
    if b.max > 0 && up > b.max then b.max else up
  }

  /** Nanoseconds as seconds, rounded up. */
  function Ceil(ns: int): int { (ns + SECOND - 1) / SECOND }

  /** The time to live that is kept for a record. */
  function Kept(b: Bounds, ttl: u32): u32 {
    var ns := Clamped(b, ttl * SECOND);
    if (b.min > 0 || b.max > 0) && ns != ttl * SECOND then Ceil(ns) % WORD else ttl
  }

  /** No bound is too large for a time to live. */
  predicate Sane(b: Bounds) {
    Ceil(b.min) < WORD && Ceil(b.max) < WORD
  }

  /** The time to live is within the bounds; a maximum below the minimum wins. */
  predicate Within(b: Bounds, ttl: int) {
    && (b.min > 0 ==> Ceil(if 0 < b.max < b.min then b.max else b.min) <= ttl)
    && (b.max > 0 ==> ttl <= Ceil(b.max))
  }

  /** Keeping is a projection: onto the bounds, and the identity on what the bounds allow. */
  lemma KeptIsProjection(b: Bounds, ttl: u32)
    requires Sane(b)
    ensures Within(b, Kept(b, ttl))
    ensures Within(b, ttl) ==> Kept(b, ttl) == ttl
    ensures Kept(b, Kept(b, ttl)) == Kept(b, ttl)
  {
  }

  /** A longer time to live never becomes the shorter one. */
  lemma KeptAscends(b: Bounds, x: u32, y: u32)
    requires Sane(b) && x <= y
    ensures Kept(b, x) <= Kept(b, y)
  {
  }

  // ----- answers

  /** Every time to live is kept, and `m` is the least of them, or the greatest number if there is none. */
  ghost predicate KeptAll(b: Bounds, was: seq<Record>, now: seq<Record>, m: u32) {
    && |now| == |was|
    && (forall k :: 0 <= k < |was| ==>
          now[k] == if was[k].ttl.Some? then was[k].(ttl := Some(Kept(b, was[k].ttl.value))) else was[k])
    && (forall k :: 0 <= k < |was| && now[k].ttl.Some? ==> m <= now[k].ttl.value)
    && (m == MAX_TTL || exists k :: 0 <= k < |was| && now[k].ttl == Some(m))
  }

  /** Clamps the records of an answer in place. */
  method KeepAll(records: array<Record>, b: Bounds) returns (minTTL: u32)
    modifies records
    ensures KeptAll(b, old(records[..]), records[..], minTTL)
  {
    minTTL := MAX_TTL;
    for i := 0 to records.Length
      invariant forall k :: i <= k < records.Length ==> records[k] == old(records[k])
      invariant KeptAll(b, old(records[..i]), records[..i], minTTL)
    {
      var rr := records[i];
      ghost var before, m := records[..i], minTTL;
      if rr.ttl.Some? {
        var h := rr.ttl.value;
        if b.min > 0 || b.max > 0 {
          var ttl := h * SECOND;
          if b.min > 0 && ttl < b.min { ttl := b.min; }
          if b.max > 0 && ttl > b.max { ttl := b.max; }
          if ttl != h * SECOND { h := Ceil(ttl) % WORD; }
        }
        records[i] := rr.(ttl := Some(h));
        if minTTL > h { minTTL := h; }
      }
      OneMore(b, old(records[..i]), before, m, rr, records[i], minTTL);
      assert old(records[..i + 1]) == old(records[..i]) + [rr];
      assert records[..i + 1] == before + [records[i]];
    }
    assert old(records[..records.Length]) == old(records[..]) && records[..records.Length] == records[..];
  }

  lemma OneMore(b: Bounds, was: seq<Record>, now: seq<Record>, m: u32, rr: Record, kept: Record, m': u32)
    requires KeptAll(b, was, now, m)
    requires kept == if rr.ttl.Some? then rr.(ttl := Some(Kept(b, rr.ttl.value))) else rr
    requires m' == if kept.ttl.Some? && kept.ttl.value < m then kept.ttl.value else m
    ensures KeptAll(b, was + [rr], now + [kept], m')
  {
    hide Kept;
    if m' != MAX_TTL {
      if m' == m {
        var k :| 0 <= k < |was| && now[k].ttl == Some(m);
        assert (now + [kept])[k].ttl == Some(m');
      } else {
        assert (now + [kept])[|was|].ttl == Some(m');
      }
    }
  }

  predicate Excluded(x: Record) { x.answer && x.v6 }

  /** The records without the IPv6 addresses of the answer section. */
  function WithoutV6(records: seq<Record>): seq<Record> {
    if records == [] then []
    else (if Excluded(records[0]) then [] else [records[0]]) + WithoutV6(records[1..])
  }

  /** Just the records that are not excluded are left, as often as before. */
  lemma {:induction false} WithoutV6Has(records: seq<Record>, x: Record)
    ensures multiset(WithoutV6(records))[x] == if x.answer && x.v6 then 0 else multiset(records)[x]
  {
    if records != [] {
      assert records == [records[0]] + records[1..];
      WithoutV6Has(records[1..], x);
    }
  }

  /** The records that are left keep their order. */
  lemma {:induction false} WithoutV6InOrder(a: seq<Record>, x: Record, b: seq<Record>)
    ensures WithoutV6(a + [x] + b) == WithoutV6(a) + (if x.answer && x.v6 then [] else [x]) + WithoutV6(b)
  {
    if a == [] {
      assert a + [x] + b == [x] + b && ([x] + b)[1..] == b;
    } else {
      assert (a + [x] + b)[1..] == a[1..] + [x] + b;
      WithoutV6InOrder(a[1..], x, b);
    }
  }

  /** An answer that came at `time`: its records with the times to live that are kept, and a deadline
      by the one that lives shortest, excluded or not. */
  method Receive(records: array<Record>, b: Bounds, v4Only: bool, time: int) returns (a: Answer, ghost minTTL: u32)
    modifies records
    ensures KeptAll(b, old(records[..]), records[..], minTTL)
    ensures a.time == time && a.records == if v4Only then WithoutV6(records[..]) else records[..]
    ensures a.deadline == if minTTL < MAX_TTL then Some(time + minTTL * SECOND) else None
    ensures a.deadline.Some? ==> Cacheable(b, a)
  {
    var m := KeepAll(records, b);
    minTTL := m;
    var left := records[..];
    if v4Only { left := WithoutV6(left); }
    a := Answer(left, time, None);
    if m < MAX_TTL {
      a := a.(deadline := Some(time + m * SECOND));
    }
    forall x | x in left && x.ttl.Some?
      ensures m <= x.ttl.value && (Sane(b) ==> Within(b, x.ttl.value))
    {
      if v4Only { WithoutV6Has(records[..], x); }
      assert x in multiset(records[..]);
      var k :| 0 <= k < records.Length && records[..][k] == x;
      KeptWithin(b, old(records[..]), records[..], m, k);
    }
  }

  lemma KeptWithin(b: Bounds, was: seq<Record>, now: seq<Record>, m: u32, k: nat)
    requires KeptAll(b, was, now, m) && k < |now| && now[k].ttl.Some?
    ensures m <= now[k].ttl.value && (Sane(b) ==> Within(b, now[k].ttl.value))
  {
    if Sane(b) { KeptIsProjection(b, was[k].ttl.value); }
  }

  /** No record outlives its time, and all are within the bounds. */
  ghost predicate Cacheable(b: Bounds, a: Answer) {
    && a.deadline.Some? && a.time <= a.deadline.value < a.time + MAX_TTL * SECOND
    && forall x :: x in a.records && x.ttl.Some? ==>
      a.deadline.value <= a.time + x.ttl.value * SECOND && (Sane(b) ==> Within(b, x.ttl.value))
  }

  // ----- ageing

  function AgedTTL(ttl: u32, n: u32): u32 { if ttl > n then ttl - n else 0 }

  function AgedRecord(rr: Record, n: u32): Record {
    if rr.ttl.Some? then rr.(ttl := Some(AgedTTL(rr.ttl.value, n))) else rr
  }

  /** Ageing changes the time to live of a record that has one, and nothing else. */
  lemma AgesOnly(rr: Record, n: u32)
    ensures AgedRecord(rr, n).v6 == rr.v6 && AgedRecord(rr, n).answer == rr.answer
    ensures rr.ttl.None? ==> AgedRecord(rr, n).ttl.None?
    ensures rr.ttl.Some? ==> AgedRecord(rr, n).ttl == Some(if rr.ttl.value >= n then rr.ttl.value - n else 0)
  {
  }

  /** Takes `n` seconds off every record of a reply. */
  method Age(records: array<Record>, n: u32)
    modifies records
    ensures forall k :: 0 <= k < records.Length ==> records[k] == AgedRecord(old(records[k]), n)
    ensures forall k :: 0 <= k < records.Length ==>
      records[k].v6 == old(records[k].v6) && records[k].answer == old(records[k].answer)
  {
    for i := 0 to records.Length
      invariant forall k :: 0 <= k < i ==> records[k] == AgedRecord(old(records[k]), n)
      invariant forall k :: i <= k < records.Length ==> records[k] == old(records[k])
    {
      var h := records[i].ttl;
      if h.Some? && h.value != 0 {
        if h.value > n {
          records[i] := records[i].(ttl := Some(h.value - n));
        } else {
          records[i] := records[i].(ttl := Some(0));
        }
      }
    }
  }

  type Key = nat

  class DnsCache {
    const bounds: Bounds
    var entries: map<Key, Answer>

    ghost predicate Valid()
      reads this
    {
      forall key :: key in entries ==> Cacheable(bounds, entries[key])
    }

    constructor (bounds: Bounds)
      ensures Valid() && this.bounds == bounds && entries == map[]
    {
      this.bounds, entries := bounds, map[];
    }

    /** Answers without a deadline are not stored. */
    method Store(key: Key, a: Answer)
      requires Valid() && (a.deadline.Some? ==> Cacheable(bounds, a))
      modifies this
      ensures Valid() && entries == if a.deadline.Some? then old(entries)[key := a] else old(entries)
    {
      if a.deadline.Some? { entries := entries[key := a]; }
    }

    method Lookup(key: Key, now: int) returns (a: Option<Answer>)
      requires Valid()
      ensures a.Some? <==> key in entries && now < entries[key].deadline.value
      ensures a.Some? ==> a.value == entries[key]
    {
      a := None;
      if key in entries && entries[key].deadline.value > now { a := Some(entries[key]); }
    }

    /** A reply from the cache: found at `now` and aged at `later`.  If it is sent in time, every record
        still has at least a second to live; the cache keeps what it has, so the next reply ages rightly too. */
    method Serve(key: Key, now: int, later: int) returns (reply: Option<array<Record>>)
      requires Valid() && now <= later
      requires key in entries ==> entries[key].time <= now && later - entries[key].time < WORD * SECOND
      ensures reply.Some? <==> key in entries && now < entries[key].deadline.value
      ensures reply.Some? ==> var a := entries[key]; var n := (later - a.time) / SECOND;
        && fresh(reply.value) && reply.value.Length == |a.records|
        && (forall k :: 0 <= k < |a.records| ==> reply.value[k] == AgedRecord(a.records[k], n))
        && (later < a.deadline.value ==>
              forall k :: 0 <= k < |a.records| && a.records[k].ttl.Some? ==>
                reply.value[k].ttl == Some(a.records[k].ttl.value - n) && reply.value[k].ttl.value >= 1)
    {
      var found := Lookup(key, now);
      if found.None? {
        return None;
      }
      var a := found.value;
      var records := new Record[|a.records|](i requires 0 <= i < |a.records| => a.records[i]);
      var n := ((later - a.time) / SECOND) % WORD;
      if n > 0 { Age(records, n); }
      forall k | 0 <= k < |a.records| && a.records[k].ttl.Some? && later < a.deadline.value
        ensures n < a.records[k].ttl.value
      {
        assert a.records[k] in a.records;
      }
      return Some(records);
    }
  }

  /** Answers with a time to live of zero are never found. */
  lemma ZeroIsNeverServed(b: Bounds, a: Answer, now: int, x: Record)
    requires Cacheable(b, a) && x in a.records && x.ttl == Some(0) && a.time <= now
    ensures !(now < a.deadline.value)
  {
  }

  /** An answer that is found in time but aged after its deadline has no time left to live. */
  lemma ServedTooLate(a: Answer, k: nat, later: int)
    requires k < |a.records| && a.records[k].ttl.Some? && a.deadline == Some(a.time + a.records[k].ttl.value * SECOND)
    requires a.time <= later < a.time + WORD * SECOND
    ensures AgedTTL(a.records[k].ttl.value, (later - a.time) / SECOND) >= 1 <==> later < a.deadline.value
  {
  }

  // ----- reloading

  /** `other` stands for the remaining options on which the answers depend. */
  class Config {
    const caching: bool
    const bounds: Bounds
    const other: nat
    var cache: DnsCache?

    constructor (caching: bool, bounds: Bounds, other: nat)
      ensures this.caching == caching && this.bounds == bounds && this.other == other && cache == null
    {
      this.caching, this.bounds, this.other, cache := caching, bounds, other, null;
    }

    /** The cache, if there is one, keeps to the bounds that are in force. */
    ghost predicate Fits()
      reads this, cache
    {
      && (caching <==> cache != null)
      && (cache != null ==> cache.bounds == bounds && cache.Valid())
    }

    /** New options take over the cache of the old ones unless something changed. */
    method Load(old': Config)
      requires old'.Fits() && old' != this && cache == null
      modifies this
      ensures Fits()
      ensures caching && old'.caching && bounds == old'.bounds && other == old'.other ==> cache == old'.cache
      ensures cache != null && cache != old'.cache ==> fresh(cache) && cache.entries == map[]
      ensures cache != null && cache == old'.cache ==> old'.caching && bounds == old'.bounds && other == old'.other
    {
      cache := old'.cache;
      if caching != old'.caching { cache := null; }
      if caching {
        if cache == null || bounds != old'.bounds || other != old'.other {
          cache := new DnsCache(bounds);
        }
      }
    }
  }
}
