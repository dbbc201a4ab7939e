// The routes of the HTTP service: reloading them, and looking them up through a cache.
module Routes {
  import opened Basics
  import opened AllowLists

  /** A configured route with the lines it was loaded with, the checksum of these, and its proxy. */
  datatype RouteOptions = RouteOptions(name: bytes, texts: seq<bytes>, checksum: bytes, proxy: int)

  /** An allow list with its checksum and the lines that it decides by. */
  datatype Listing = Listing(checksum: bytes, lines: seq<Line>, list: AllowList)

  datatype Route = Route(name: bytes, list: Listing, proxy: int)

  /** `cache` names one of the caches that were ever made, and `lists` the last route of each name. */
  datatype Options = Options(
    configured: seq<RouteOptions>, proxy: int,
    routes: seq<Route>, cache: Option<nat>, lists: map<bytes, nat>)

  /** A cache is made together with the routes whose choices it remembers. */
  datatype Cache = Cache(routes: seq<Route>, entries: map<bytes, Route>)

  predicate RouteEqual(a: RouteOptions, b: RouteOptions) {
    a.name == b.name && a.checksum == b.checksum && a.proxy == b.proxy
  }

  predicate RoutesEqual(a: seq<RouteOptions>, b: seq<RouteOptions>) {
    |a| == |b| && forall i :: 0 <= i < |a| ==> RouteEqual(a[i], b[i])
  }

  /** The first route that allows the query. */
  ghost function First(routes: seq<Route>, q: Query): Option<Route> {
    if routes == [] then None
    else if Allowed(routes[0].list.lines, q) then Some(routes[0])
    else First(routes[1..], q)
  }

  /** The proxy for an address: that of the first route that allows it, or the default one. */
  ghost function Chosen(routes: seq<Route>, proxy: int, q: Query): int {
    var r := First(routes, q);
    if r.Some? then r.value.proxy else proxy
  }

  lemma {:induction false} FirstAt(routes: seq<Route>, q: Query, k: nat)
    requires k <= |routes| && forall i :: 0 <= i < k ==> !Allowed(routes[i].list.lines, q)
    ensures First(routes, q) ==
      if k < |routes| && Allowed(routes[k].list.lines, q) then Some(routes[k]) else First(routes[k..], q)
    ensures k == |routes| ==> First(routes, q) == None
  {
    if k > 0 {
      FirstAt(routes[1..], q, k - 1);
      assert routes[1..][k - 1..] == routes[k..];
    }
  }

  class Routing {
    const parse: Parse
    const depth: nat
    const query: bytes -> Query

    var cell: Options
    var caches: seq<Cache>

    constructor (parse: Parse, depth: nat, query: bytes -> Query)
      ensures this.parse == parse && this.depth == depth && this.query == query
      ensures Valid() && cell == Options([], 0, [], None, map[])
    {
      this.parse, this.depth, this.query := parse, depth, query;
      cell, caches := Options([], 0, [], None, map[]), [];
    }

    /** The rules of a list of lines that is read now. */
    ghost function Fresh(disk: Disk, texts: seq<bytes>): Option<seq<Line>> {
      Walk(disk, LineLeaf(parse), [DOT], texts, depth)
    }

    ghost predicate ReadFrom(l: Listing, disk: Disk, texts: seq<bytes>) {
      && Scanned(texts) && DiskScanned(disk)
      && Digest(disk, texts, depth) == Some(l.checksum) && Fresh(disk, texts) == Some(l.lines)
    }

    /** The list was read at some time, and decides as its lines do. */
    ghost predicate Built(l: Listing)
      reads l.list, l.list.includes, l.list.excludes, l.list.includeRanges, l.list.excludeRanges
    {
      l.list.Decides(l.lines) && exists disk, texts :: ReadFrom(l, disk, texts)
    }

    /** The routes are those of the configuration. */
    ghost predicate Follow(configured: seq<RouteOptions>, routes: seq<Route>)
      reads *
    {
      && |routes| == |configured|
      && (forall i :: 0 <= i < |routes| ==> Built(routes[i].list))
      && (forall i :: 0 <= i < |routes| ==>
            && routes[i].name == configured[i].name && routes[i].proxy == configured[i].proxy
            && routes[i].list.checksum == configured[i].checksum)
    }

    /** Options as they were in force at some time. */
    ghost predicate Made(o: Options)
      reads *
    {
      && Follow(o.configured, o.routes)
      && LastOfName(o.routes, o.lists)
      && (o.cache.None? ==> o.routes == [])
      && (o.cache.Some? ==> o.cache.value < |caches| && caches[o.cache.value].routes == o.routes)
    }

    /** Every cache remembers only first matches. */
    ghost predicate Exact(c: Cache) {
      forall addr :: addr in c.entries ==> First(c.routes, query(addr)) == Some(c.entries[addr])
    }

    ghost predicate Valid()
      reads *
    {
      Made(cell) && forall k :: 0 <= k < |caches| ==> Exact(caches[k])
    }

    /** Caches are only added, and each stays with its routes. */
    ghost predicate Extends(was: seq<Cache>)
      reads this
    {
      |was| <= |caches| && forall k :: 0 <= k < |was| ==> caches[k].routes == was[k].routes
    }

    // ----- looking an address up, in steps between which anything may happen

    method Receive() returns (o: Options)
      requires Valid()
      ensures o == cell && Made(o)
    {
      o := cell;
    }

    /** The choice for the address is remembered. */
    predicate Cached(o: Options, addr: bytes)
      requires o.cache.Some? ==> o.cache.value < |caches|
      reads this
    {
      o.cache.Some? && addr in caches[o.cache.value].entries
    }

    method Load(o: Options, addr: bytes) returns (r: Option<Route>)
      requires Valid() && Made(o) && o.cache.Some?
      ensures r.Some? ==> r == First(o.routes, query(addr))
      ensures r.Some? <==> Cached(o, addr)
    {
      var entries := caches[o.cache.value].entries;
      assert Exact(caches[o.cache.value]);
      r := if addr in entries then Some(entries[addr]) else None;
    }

    /** The scan over the routes. */
    method Scan(o: Options, addr: bytes) returns (r: Option<Route>)
      requires Made(o) && Consistent(query(addr))
      ensures r == First(o.routes, query(addr))
    {
      hide AllowList.Decides, Allowed, Consistent;
      for i := 0 to |o.routes|
        invariant forall k :: 0 <= k < i ==> !Allowed(o.routes[k].list.lines, query(addr))
      {
        assert Built(o.routes[i].list);
        var allowed := o.routes[i].list.list.Allow(query(addr), o.routes[i].list.lines);
        if allowed {
          FirstAt(o.routes, query(addr), i);
          return Some(o.routes[i]);
        }
      }
      FirstAt(o.routes, query(addr), |o.routes|);
      return None;
    }

    method Store(o: Options, addr: bytes, r: Route)
      requires Valid() && Made(o) && o.cache.Some? && First(o.routes, query(addr)) == Some(r)
      modifies this`caches
      ensures Valid() && Extends(old(caches))
      ensures forall a :: Cached(o, a) <==> old(Cached(o, a)) || a == addr
    {
      hide AllowList.Decides, ReadFrom;
      var k := o.cache.value;
      caches := caches[k := caches[k].(entries := caches[k].entries[addr := r])];
    }

    /** Looking an address up in options that were received before, whatever was loaded or stored since:
        the proxy is that of the first of their routes that allows the address, cached or not. */
    method Choose(o: Options, addr: bytes) returns (proxy: int)
      requires Valid() && Made(o) && Consistent(query(addr))
      modifies this`caches
      ensures Valid() && Extends(old(caches)) && cell == old(cell)
      ensures proxy == Chosen(o.routes, o.proxy, query(addr))
      ensures forall a :: Cached(o, a) <==>
        old(Cached(o, a)) || (a == addr && First(o.routes, query(addr)).Some?)
    {
      hide AllowList.Decides, Allowed, Consistent, Exact, Built;
      proxy := o.proxy;
      if o.cache.Some? {
        var r := Load(o, addr);
        if r.None? {
          r := Scan(o, addr);
          if r.Some? { Store(o, addr, r.value); }
        }
        if r.Some? { proxy := r.value.proxy; }
      }
    }

    method GetOpts(addr: bytes) returns (proxy: int)
      requires Valid() && Consistent(query(addr))
      modifies this`caches
      ensures Valid() && Extends(old(caches)) && cell == old(cell)
      ensures proxy == Chosen(cell.routes, cell.proxy, query(addr))
      ensures forall a :: Cached(cell, a) <==>
        old(Cached(cell, a)) || (a == addr && First(cell.routes, query(addr)).Some?)
    {
      var o := Receive();
      proxy := Choose(o, addr);
    }

    // ----- reloading

    /** The list of the route is as good as one that is read from what is on the disk now. */
    ghost predicate AsNew(disk: Disk, c: RouteOptions, r: Route) {
      r.name == c.name && r.proxy == c.proxy && ReadFrom(r.list, disk, c.texts)
    }

    /** The routes are as good as those that are built from scratch. */
    ghost predicate FromScratch(disk: Disk, configured: seq<RouteOptions>, routes: seq<Route>)
      reads *
    {
      && |routes| == |configured|
      && (forall i :: 0 <= i < |routes| ==> AsNew(disk, configured[i], routes[i]))
      && (forall i :: 0 <= i < |routes| ==> Built(routes[i].list))
    }

    /** `summed` is `configured` with the checksums of what is on the disk now. */
    ghost predicate Summed(disk: Disk, configured: seq<RouteOptions>, summed: seq<RouteOptions>) {
      && |summed| == |configured|
      && forall i :: 0 <= i < |summed| ==>
        && summed[i] == configured[i].(checksum := summed[i].checksum)
        && Scanned(summed[i].texts) && Digest(disk, summed[i].texts, depth) == Some(summed[i].checksum)
    }

    /** A list with the checksum of what is on the disk now is as good as a new one. */
    lemma ReadAgain(l: Listing, disk: Disk, texts: seq<bytes>)
      requires Built(l) && Scanned(texts) && DiskScanned(disk) && Digest(disk, texts, depth) == Some(l.checksum)
      ensures ReadFrom(l, disk, texts)
    {
      var disk', texts' :| ReadFrom(l, disk', texts');
      SameChecksumSameRules(disk', texts', disk, texts, depth, parse);
    }

    method Sum(disk: Disk, configured: seq<RouteOptions>) returns (summed: Option<seq<RouteOptions>>)
      requires DiskScanned(disk) && forall i :: 0 <= i < |configured| ==> Scanned(configured[i].texts)
      ensures summed.Some? <==> forall i :: 0 <= i < |configured| ==> Digest(disk, configured[i].texts, depth).Some?
      ensures summed.Some? ==> Summed(disk, configured, summed.value)
    {
      var done: seq<RouteOptions> := [];
      for i := 0 to |configured|
        invariant Summed(disk, configured[..i], done)
      {
        var sum := ChecksumLines(disk, [DOT], configured[i].texts, depth, []);
        if sum.None? {
          return None;
        }
        var walked := Digest(disk, configured[i].texts, depth).value;
        assert [] + walked == walked;
        done := done + [configured[i].(checksum := sum.value)];
      }
      assert configured[..|configured|] == configured;
      return Some(done);
    }

    /** Every text that can be read has patterns that a set of globs can hold. */
    ghost predicate AllUsable(disk: Disk, configured: seq<RouteOptions>) {
      forall i :: 0 <= i < |configured| && Fresh(disk, configured[i].texts).Some? ==>
        var lines := Fresh(disk, configured[i].texts).value;
        Usable(PatternsOf(lines, false)) && Usable(PatternsOf(lines, true))
    }

    /** A new allow list, and the lines it decides by. */
    method Build(disk: Disk, r: RouteOptions) returns (l: Option<Listing>)
      requires Sane(parse) && DiskScanned(disk) && Summed(disk, [r], [r]) && AllUsable(disk, [r])
      ensures l.Some? <==> Fresh(disk, r.texts).Some?
      ensures l.Some? ==> fresh(l.value.list) && Built(l.value) && ReadFrom(l.value, disk, r.texts)
      ensures l.Some? ==> l.value.checksum == r.checksum
    {
      var list := new AllowList();
      assert [r][0] == r;
      hide AllowList.Decides, Usable;
      var ok := list.Init(parse, disk, r.texts, depth);
      if !ok {
        return None;
      }
      var built := Listing(r.checksum, Walk(disk, LineLeaf(parse), [DOT], r.texts, depth).value, list);
      assert ReadFrom(built, disk, r.texts);
      return Some(built);
    }

    /** Each name has its last route. */
    static ghost predicate LastOfName(routes: seq<Route>, lists: map<bytes, nat>) {
      && (forall i :: 0 <= i < |routes| ==> routes[i].name in lists && i <= lists[routes[i].name])
      && (forall name :: name in lists ==> lists[name] < |routes| && routes[lists[name]].name == name)
    }

    /** The list is the old one of that name if its checksum is the same. */
    static ghost predicate TakesOver(was: Options, c: RouteOptions, r: Route) {
      c.name in was.lists && was.lists[c.name] < |was.routes|
        && was.routes[was.lists[c.name]].list.checksum == c.checksum ==>
      r.list == was.routes[was.lists[c.name]].list
    }

    static lemma Unnamed()
      ensures LastOfName([], map[])
    {
    }

    static lemma Named(o: Options)
      requires LastOfName(o.routes, o.lists)
      ensures forall name :: name in o.lists ==> o.lists[name] < |o.routes|
    {
    }

    static lemma OneMoreName(routes: seq<Route>, lists: map<bytes, nat>, r: Route)
      requires LastOfName(routes, lists)
      ensures LastOfName(routes + [r], lists[r.name := |routes|])
    {
    }

    static lemma Overtaken(was: Options, c: RouteOptions, r: Route)
      requires LastOfName(was.routes, was.lists)
      requires c.name in was.lists ==>
        var l := was.routes[was.lists[c.name]].list; l.checksum == c.checksum ==> r.list == l
      ensures TakesOver(was, c, r)
    {
    }

    /** Builds the routes anew, but takes over the lists whose name and checksum are unchanged. */
    method Rebuild(disk: Disk, configured: seq<RouteOptions>, old': Options)
      returns (ok: bool, routes: seq<Route>, lists: map<bytes, nat>)
      requires Sane(parse) && DiskScanned(disk) && Summed(disk, configured, configured) && AllUsable(disk, configured)
      requires Made(old')
      ensures ok <==> forall i :: 0 <= i < |configured| ==> Fresh(disk, configured[i].texts).Some?
      ensures ok ==> FromScratch(disk, configured, routes)
      ensures ok ==> LastOfName(routes, lists)
      ensures ok ==> forall i :: 0 <= i < |routes| ==> TakesOver(old', configured[i], routes[i])
    {
      hide AllowList.Decides, ReadFrom, AsNew, Summed, AllUsable, LastOfName, TakesOver;
      ok, routes, lists := true, [], map[];
      Unnamed();
      Named(old');
      for i := 0 to |configured|
        invariant |routes| == i && forall k :: 0 <= k < i ==> AsNew(disk, configured[k], routes[k])
        invariant forall k :: 0 <= k < i ==> Built(routes[k].list)
        invariant LastOfName(routes, lists)
        invariant forall k :: 0 <= k < i ==> TakesOver(old', configured[k], routes[k])
        invariant forall k :: 0 <= k < |old'.routes| ==> Built(old'.routes[k].list)
        invariant forall name :: name in old'.lists ==> old'.lists[name] < |old'.routes|
      {
        var r := configured[i];
        OneOf(disk, configured, i);
        var l := None;
        if r.name in old'.lists { l := Taken(disk, r, old'.routes[old'.lists[r.name]].list); }
        if l.None? {
          l := Build(disk, r);
          if l.None? {
            return false, [], map[];
          }
        }
        var route := Route(r.name, l.value, r.proxy);
        NewRoute(disk, r, l.value);
        Overtaken(old', r, route);
        OneMoreName(routes, lists, route);
        routes := routes + [route];
        lists := lists[r.name := i];
      }
      AsNewFresh(disk, configured, routes);
    }

    lemma OneOf(disk: Disk, configured: seq<RouteOptions>, i: nat)
      requires Summed(disk, configured, configured) && AllUsable(disk, configured) && i < |configured|
      ensures Summed(disk, [configured[i]], [configured[i]]) && AllUsable(disk, [configured[i]])
    {
    }

    lemma NewRoute(disk: Disk, r: RouteOptions, l: Listing)
      requires ReadFrom(l, disk, r.texts)
      ensures AsNew(disk, r, Route(r.name, l, r.proxy))
    {
    }

    lemma AsNewFresh(disk: Disk, configured: seq<RouteOptions>, routes: seq<Route>)
      requires FromScratch(disk, configured, routes)
      ensures forall i :: 0 <= i < |configured| ==> Fresh(disk, configured[i].texts).Some?
    {
      forall i | 0 <= i < |configured|
        ensures Fresh(disk, configured[i].texts).Some?
      {
        assert AsNew(disk, configured[i], routes[i]);
      }
    }

    /** An old list can be taken over if its checksum is unchanged. */
    method Taken(disk: Disk, r: RouteOptions, was: Listing) returns (l: Option<Listing>)
      requires DiskScanned(disk) && Summed(disk, [r], [r]) && Built(was)
      ensures l.Some? <==> was.checksum == r.checksum
      ensures l.Some? ==> l.value == was && Built(was) && ReadFrom(was, disk, r.texts)
    {
      assert [r][0] == r;
      if was.checksum != r.checksum {
        return None;
      }
      ReadAgain(was, disk, r.texts);
      return Some(was);
    }

    /** The routes for a new configuration, which are those in force if nothing about them has changed. */
    method NextRoutes(disk: Disk, summed: seq<RouteOptions>)
      returns (ok: bool, same: bool, routes: seq<Route>, lists: map<bytes, nat>)
      requires Valid() && Sane(parse) && DiskScanned(disk)
      requires Summed(disk, summed, summed) && AllUsable(disk, summed)
      ensures ok <==> forall i :: 0 <= i < |summed| ==> Fresh(disk, summed[i].texts).Some?
      ensures ok ==> FromScratch(disk, summed, routes) && Follow(summed, routes)
      ensures ok ==> LastOfName(routes, lists)
      ensures same == RoutesEqual(summed, cell.configured)
      ensures same ==> routes == cell.routes && lists == cell.lists
      ensures ok && !same ==> forall i :: 0 <= i < |routes| ==> TakesOver(cell, summed[i], routes[i])
    {
      hide AllowList.Decides, ReadFrom, AsNew;
      same := RoutesEqual(summed, cell.configured);
      if same {
        Kept(disk, summed, cell.configured, cell.routes);
        AsNewFresh(disk, summed, cell.routes);
        return true, same, cell.routes, cell.lists;
      }
      ok, routes, lists := Rebuild(disk, summed, cell);
      if ok { FollowsFromScratch(disk, summed, routes); }
    }

    /** A new configuration takes effect as if everything had been built anew, or not at all.
        `addressed` says that the listen address is well formed. */
    method LoadEvent(disk: Disk, addressed: bool, configured: seq<RouteOptions>, proxy: int) returns (ok: bool)
      requires Valid() && Sane(parse) && DiskScanned(disk) && AllUsable(disk, configured)
      requires forall i :: 0 <= i < |configured| ==> Scanned(configured[i].texts)
      modifies this
      ensures Valid() && Extends(old(caches))
      ensures ok <==> addressed && forall i :: 0 <= i < |configured| ==> Fresh(disk, configured[i].texts).Some?
      ensures ok ==> cell.proxy == proxy && Summed(disk, configured, cell.configured)
      ensures ok ==> FromScratch(disk, configured, cell.routes)
      ensures !ok ==> cell == old(cell)
      ensures ok && RoutesEqual(cell.configured, old(cell.configured)) ==>
        cell.routes == old(cell.routes) && cell.cache == old(cell.cache) && caches == old(caches)
      ensures ok && !RoutesEqual(cell.configured, old(cell.configured)) ==>
        && (forall i :: 0 <= i < |cell.routes| ==> TakesOver(old(cell), cell.configured[i], cell.routes[i]))
        && (forall a :: !Cached(cell, a))
    {
      if !addressed {
        return false;
      }
      var summed := Sum(disk, configured);
      FreshIffDigest(disk, configured);
      if summed.None? {
        return false;
      }
      SummedTexts(disk, configured, summed.value);
      var same, routes, lists;
      hide AllowList.Decides, ReadFrom, AsNew;
      ok, same, routes, lists := NextRoutes(disk, summed.value);
      if ok {
        SummedFromScratch(disk, configured, summed.value, routes);
        hide Summed, AsNew, Valid;
        Install(summed.value, proxy, routes, lists, same);
      }
    }

    /** Puts new options in force, with a new cache unless the routes stay. */
    method Install(configured: seq<RouteOptions>, proxy: int, routes: seq<Route>, lists: map<bytes, nat>, same: bool)
      requires Valid() && Follow(configured, routes) && LastOfName(routes, lists)
      requires same ==> routes == cell.routes
      modifies this
      ensures Valid() && Extends(old(caches))
      ensures cell == Options(configured, proxy, routes, cell.cache, lists)
      ensures same ==> cell.cache == old(cell.cache) && caches == old(caches)
      ensures !same ==> forall a :: !Cached(cell, a)
    {
      hide AllowList.Decides, ReadFrom, First;
      var cache := if same then cell.cache else if routes == [] then None else Some(|caches|);
      if !same && routes != [] { caches := caches + [Cache(routes, map[])]; }
      cell := Options(configured, proxy, routes, cache, lists);
    }

    lemma SummedTexts(disk: Disk, configured: seq<RouteOptions>, summed: seq<RouteOptions>)
      requires Summed(disk, configured, summed)
      ensures Summed(disk, summed, summed) && (AllUsable(disk, configured) ==> AllUsable(disk, summed))
      ensures forall i :: 0 <= i < |summed| ==> summed[i].texts == configured[i].texts
    {
      hide Usable, PatternsOf;
    }

    /** Routes that are kept because their configuration is the same are as good as new ones. */
    lemma Kept(disk: Disk, summed: seq<RouteOptions>, configured: seq<RouteOptions>, routes: seq<Route>)
      requires DiskScanned(disk) && Summed(disk, summed, summed)
      requires RoutesEqual(summed, configured) && Follow(configured, routes)
      ensures FromScratch(disk, summed, routes) && Follow(summed, routes)
    {
      forall i | 0 <= i < |routes|
        ensures AsNew(disk, summed[i], routes[i])
      {
        assert RouteEqual(summed[i], configured[i]) && Built(routes[i].list);
        ReadAgain(routes[i].list, disk, summed[i].texts);
      }
    }

    lemma FollowsFromScratch(disk: Disk, summed: seq<RouteOptions>, routes: seq<Route>)
      requires Summed(disk, summed, summed) && FromScratch(disk, summed, routes)
      ensures Follow(summed, routes)
    {
      forall i | 0 <= i < |routes|
        ensures routes[i].list.checksum == summed[i].checksum
      {
        assert AsNew(disk, summed[i], routes[i]);
        assert ReadFrom(routes[i].list, disk, summed[i].texts);
      }
    }

    lemma SummedFromScratch(disk: Disk, configured: seq<RouteOptions>, summed: seq<RouteOptions>, routes: seq<Route>)
      requires Summed(disk, configured, summed)
      ensures FromScratch(disk, summed, routes) <==> FromScratch(disk, configured, routes)
    {
    }

    lemma FreshIffDigest(disk: Disk, configured: seq<RouteOptions>)
      ensures forall i :: 0 <= i < |configured| && Fresh(disk, configured[i].texts).Some? ==>
        Digest(disk, configured[i].texts, depth).Some?
    {
      forall i | 0 <= i < |configured| && Fresh(disk, configured[i].texts).Some?
        ensures Digest(disk, configured[i].texts, depth).Some?
      {
        WalkFlat(disk, LineLeaf(parse), [DOT], configured[i].texts, depth);
        WalkFlat(disk, Terminated, [DOT], configured[i].texts, depth);
        EachTerminated(Walk(disk, Itself, [DOT], configured[i].texts, depth).value);
      }
    }

    // ----- reloading and looking up

    /** What a configuration says about an address: the proxy of the first route whose text allows it. */
    ghost function Configured(disk: Disk, configured: seq<RouteOptions>, proxy: int, q: Query): int {
      if configured == [] then proxy
      else
        var lines := Fresh(disk, configured[0].texts);
        if lines.Some? && Allowed(lines.value, q) then configured[0].proxy
        else Configured(disk, configured[1..], proxy, q)
    }

    /** This is the proxy of route `k` if its text allows the query and no text before it does, and the
        default one if no text allows it. */
    lemma {:induction false} ConfiguredIs(disk: Disk, configured: seq<RouteOptions>, proxy: int, q: Query, k: nat)
      requires k <= |configured|
      requires forall i :: 0 <= i < k ==>
        var lines := Fresh(disk, configured[i].texts); lines.None? || !Allowed(lines.value, q)
      ensures k < |configured| ==>
        var lines := Fresh(disk, configured[k].texts);
        lines.Some? && Allowed(lines.value, q) ==> Configured(disk, configured, proxy, q) == configured[k].proxy
      ensures k == |configured| ==> Configured(disk, configured, proxy, q) == proxy
    {
      hide Allowed;
      if k > 0 { ConfiguredIs(disk, configured[1..], proxy, q, k - 1); }
    }

    lemma {:induction false} ChosenAsConfigured(
      disk: Disk, configured: seq<RouteOptions>, routes: seq<Route>, proxy: int, q: Query)
      requires |routes| == |configured|
      requires forall i :: 0 <= i < |routes| ==> AsNew(disk, configured[i], routes[i])
      ensures Chosen(routes, proxy, q) == Configured(disk, configured, proxy, q)
    {
      if routes != [] {
        assert AsNew(disk, configured[0], routes[0]);
        ChosenAsConfigured(disk, configured[1..], routes[1..], proxy, q);
      }
    }

    /** After a reload an address gets the proxy that the new texts give it. */
    method ReloadAndLookUp(disk: Disk, configured: seq<RouteOptions>, proxy: int, addr: bytes)
      returns (ok: bool, chosen: int)
      requires Valid() && Sane(parse) && DiskScanned(disk) && AllUsable(disk, configured) && Consistent(query(addr))
      requires forall i :: 0 <= i < |configured| ==> Scanned(configured[i].texts)
      modifies this
      ensures Valid()
      ensures ok <==> forall i :: 0 <= i < |configured| ==> Fresh(disk, configured[i].texts).Some?
      ensures chosen == if ok then Configured(disk, configured, proxy, query(addr))
        else old(Chosen(cell.routes, cell.proxy, query(addr)))
    {
      ok := LoadEvent(disk, true, configured, proxy);
      hide Valid, AsNew, Built, Configured, Chosen;
      if ok { ChosenAsConfigured(disk, configured, cell.routes, proxy, query(addr)); }
      chosen := GetOpts(addr);
    }

    /** A lookup that a reload overtakes still gets what was in force when it began. */
    method LookUpAcrossReload(disk: Disk, configured: seq<RouteOptions>, proxy: int, addr: bytes) returns (chosen: int)
      requires Valid() && Sane(parse) && DiskScanned(disk) && AllUsable(disk, configured) && Consistent(query(addr))
      requires forall i :: 0 <= i < |configured| ==> Scanned(configured[i].texts)
      modifies this
      ensures Valid()
      ensures chosen == old(Chosen(cell.routes, cell.proxy, query(addr)))
    {
      hide AllowList.Decides, ReadFrom, Summed, AsNew, First, Exact;
      var o := Receive();
      var ok := LoadEvent(disk, true, configured, proxy);
      chosen := Choose(o, addr);
    }
  }
}
