/**
 The request router.  Building it compiles the route list into a regex list, a path table
 and a registry; matching reads the tables.  The reference is a direct scan of the routes.
 */
module Router {
  import opened Wrappers
  import opened AccessControl
  import opened Config
  import opened PathTable

  /** The libraries behind routing: regular expressions and network parsing. */
  datatype Library = Library(compiles: string -> bool, matches: (string, string) -> bool, parse: Parser)

  datatype RouteEntry = RouteEntry(conf: RouteConf, access: Option<Compiled>)

  datatype Router = Router(regexRoutes: seq<(string, nat)>, table: Table, registry: map<nat, RouteEntry>)

  datatype RouterError = RouteError | AclError

  type Routes = seq<RouteConf>

  // ---------- accepted configurations ----------

  predicate IsPathRoute(r: RouteConf) {
    !r.pathType.Regex?
  }

  predicate PathAccepted(lib: Library, r: RouteConf) {
    if r.pathType.Regex? then lib.compiles(r.path) else ['/'] <= r.path && ParsePattern(r.path).Some?
  }

  predicate SamePattern(r: RouteConf, s: RouteConf) {
    IsPathRoute(r) && IsPathRoute(s) && ParsePattern(r.path) == ParsePattern(s.path)
  }

  /** Route `i` can be added after the routes before it. */
  predicate Insertable(lib: Library, routes: Routes, i: nat)
    requires i < |routes|
  {
    PathAccepted(lib, routes[i]) && forall j :: 0 <= j < i ==> !SamePattern(routes[j], routes[i])
  }

  predicate Accepted(lib: Library, routes: Routes) {
    forall i :: 0 <= i < |routes| ==> Insertable(lib, routes, i) && AclAccepted(lib.parse, routes[i].access)
  }

  lemma AcceptedPrefix(lib: Library, routes: Routes, n: nat)
    requires Accepted(lib, routes) && n <= |routes|
    ensures Accepted(lib, routes[..n])
  {
  }

  // ---------- the tables of a configuration ----------

  function RegexTable(routes: Routes): seq<(string, nat)> {
    if routes == [] then []
    else
      var n := |routes| - 1;
      if routes[n].pathType.Regex? then RegexTable(routes[..n]) + [(routes[n].path, n)] else RegexTable(routes[..n])
  }

  function TableOf(routes: Routes): Table {
    if routes == [] then EMPTY
    else
      var n := |routes| - 1;
      var before := TableOf(routes[..n]);
      if IsPathRoute(routes[n]) && ParsePattern(routes[n].path).Some?
      then before.Insert(ParsePattern(routes[n].path).value, n) else before
  }

  function EntryOf(lib: Library, r: RouteConf): RouteEntry
    requires AclAccepted(lib.parse, r.access)
  {
    RouteEntry(r, CompileAcl(lib.parse, r.access))
  }

  function RegistryOf(lib: Library, routes: Routes): map<nat, RouteEntry>
    requires Accepted(lib, routes)
  {
    map i: nat | 0 <= i < |routes| :: EntryOf(lib, routes[i])
  }

  predicate Built(lib: Library, routes: Routes, router: Router) {
    Accepted(lib, routes) && router == Router(RegexTable(routes), TableOf(routes), RegistryOf(lib, routes))
  }

  lemma {:induction false} TableHas(lib: Library, routes: Routes, p: Pattern)
    requires Accepted(lib, routes)
    ensures TableOf(routes).Has(p) <==>
            exists i :: 0 <= i < |routes| && IsPathRoute(routes[i]) && ParsePattern(routes[i].path) == Some(p)
  {
    if routes != [] {
      var n := |routes| - 1;
      AcceptedPrefix(lib, routes, n);
      TableHas(lib, routes[..n], p);
      assert forall i :: 0 <= i < n ==> routes[..n][i] == routes[i];
      assert Insertable(lib, routes, n);
    }
  }

  /** The construction loop: it succeeds exactly on the accepted configurations, and a failure
      names the first route that cannot be added. */
  method New(lib: Library, routes: Routes) returns (r: Result<Router, RouterError>)
    ensures r.Ok? <==> Accepted(lib, routes)
    ensures r.Ok? ==> Built(lib, routes, r.value)
    ensures r.Err? ==> exists i ::
      && 0 <= i < |routes| && Accepted(lib, routes[..i])
      && (r.error.RouteError? <==> !Insertable(lib, routes, i))
      && (r.error.AclError? ==> !AclAccepted(lib.parse, routes[i].access))
  {
    var regexRoutes: seq<(string, nat)> := [];
    var table := EMPTY;
    var registry: map<nat, RouteEntry> := map[];
    for idx := 0 to |routes|
      invariant Accepted(lib, routes[..idx])
      invariant regexRoutes == RegexTable(routes[..idx])
      invariant table == TableOf(routes[..idx])
      invariant registry == RegistryOf(lib, routes[..idx])
    {
      var route := routes[idx];
      var added := AddMatcher(lib, routes, idx, regexRoutes, table);
      if added.None? {
        NotInsertable(lib, routes, idx);
        return Err(RouteError);
      }
      regexRoutes, table := added.value.0, added.value.1;
      var acl := BuildAcl(lib.parse, route.access);
      if acl.Err? {
        NotAccepted(lib, routes, idx);
        return Err(AclError);
      }
      AcceptedNext(lib, routes, idx);
      registry := registry[idx := RouteEntry(route, acl.value)];
      RegistryNext(lib, routes, idx);
    }
    assert routes[..|routes|] == routes;
    return Ok(Router(regexRoutes, table, registry));
  }

  /** The matching half of one iteration: a compiled expression or a table insertion. */
  method AddMatcher(lib: Library, routes: Routes, idx: nat, regexRoutes: seq<(string, nat)>, table: Table)
    returns (added: Option<(seq<(string, nat)>, Table)>)
    requires idx < |routes| && Accepted(lib, routes[..idx])
    requires regexRoutes == RegexTable(routes[..idx]) && table == TableOf(routes[..idx])
    ensures added.Some? <==> Insertable(lib, routes, idx)
    ensures added.Some? ==> added.value == (RegexTable(routes[..idx + 1]), TableOf(routes[..idx + 1]))
  {
    var route := routes[idx];
    TablesNext(routes, idx);
    if route.pathType.Regex? {
      if !lib.compiles(route.path) {
        return None;
      }
      return Some((regexRoutes + [(route.path, idx)], table));
    }
    var pattern := ParsePattern(route.path);
    if !(['/'] <= route.path) || pattern.None? {
      return None;
    }
    HasMeansClash(lib, routes, idx, pattern.value);
    if table.Has(pattern.value) {
      return None;
    }
    return Some((regexRoutes, table.Insert(pattern.value, idx)));
  }

  lemma TablesNext(routes: Routes, idx: nat)
    requires idx < |routes|
    ensures RegexTable(routes[..idx + 1]) ==
            if routes[idx].pathType.Regex? then RegexTable(routes[..idx]) + [(routes[idx].path, idx)]
            else RegexTable(routes[..idx])
    ensures TableOf(routes[..idx + 1]) ==
            if IsPathRoute(routes[idx]) && ParsePattern(routes[idx].path).Some?
            then TableOf(routes[..idx]).Insert(ParsePattern(routes[idx].path).value, idx) else TableOf(routes[..idx])
  {
    assert routes[..idx + 1][..idx] == routes[..idx];
  }

  lemma HasMeansClash(lib: Library, routes: Routes, idx: nat, p: Pattern)
    requires idx < |routes| && Accepted(lib, routes[..idx])
    requires IsPathRoute(routes[idx]) && ParsePattern(routes[idx].path) == Some(p)
    ensures TableOf(routes[..idx]).Has(p) <==> exists j :: 0 <= j < idx && SamePattern(routes[j], routes[idx])
  {
    var before := routes[..idx];
    TableHas(lib, before, p);
    assert forall j :: 0 <= j < idx ==> before[j] == routes[j];
    if TableOf(before).Has(p) {
      var j :| 0 <= j < |before| && IsPathRoute(before[j]) && ParsePattern(before[j].path) == Some(p);
      assert SamePattern(routes[j], routes[idx]);
    }
    if exists j :: 0 <= j < idx && SamePattern(routes[j], routes[idx]) {
      var j :| 0 <= j < idx && SamePattern(routes[j], routes[idx]);
      assert IsPathRoute(before[j]) && ParsePattern(before[j].path) == Some(p);
    }
  }

  lemma RegistryNext(lib: Library, routes: Routes, idx: nat)
    requires idx < |routes| && Accepted(lib, routes[..idx]) && Accepted(lib, routes[..idx + 1])
    requires AclAccepted(lib.parse, routes[idx].access)
    ensures RegistryOf(lib, routes[..idx + 1]) == RegistryOf(lib, routes[..idx])[idx := EntryOf(lib, routes[idx])]
  {
  }

  lemma NotInsertable(lib: Library, routes: Routes, i: nat)
    requires i < |routes| && !Insertable(lib, routes, i)
    ensures !Accepted(lib, routes)
  {
  }

  lemma NotAccepted(lib: Library, routes: Routes, i: nat)
    requires i < |routes| && !AclAccepted(lib.parse, routes[i].access)
    ensures !Accepted(lib, routes)
  {
  }

  lemma AcceptedNext(lib: Library, routes: Routes, i: nat)
    requires i < |routes| && Accepted(lib, routes[..i])
    requires Insertable(lib, routes, i) && AclAccepted(lib.parse, routes[i].access)
    ensures Accepted(lib, routes[..i + 1])
  {
  }

  // ---------- the direct scan ----------

  predicate HostAllowed(r: RouteConf, host: Option<string>) {
    r.hostnames.None? || (host.Some? && host.value in r.hostnames.value)
  }

  /** The most specific Prefix or Exact route whose pattern matches. */
  function BestPath(routes: Routes, path: string): (best: Option<nat>)
    ensures best.Some? ==> best.value < |routes| && IsPathRoute(routes[best.value])
                           && ParsePattern(routes[best.value].path).Some?
  {
    if routes == [] then None
    else
      var n := |routes| - 1;
      var best := BestPath(routes[..n], path);
      var pattern := ParsePattern(routes[n].path);
      if IsPathRoute(routes[n]) && pattern.Some? && Matches(pattern.value, path)
         && (best.None? || Beats(pattern.value, ParsePattern(routes[best.value].path).value))
      then Some(n) else best
  }

  /** The first Regex route, from `k` on, whose expression and hosts match. */
  function FirstRegex(lib: Library, routes: Routes, path: string, host: Option<string>, k: nat): (i: Option<nat>)
    requires k <= |routes|
    ensures i.Some? ==> k <= i.value < |routes|
    decreases |routes| - k
  {
    if k == |routes| then None
    else if routes[k].pathType.Regex? && lib.matches(routes[k].path, path) && HostAllowed(routes[k], host) then Some(k)
    else FirstRegex(lib, routes, path, host, k + 1)
  }

  function Scan(lib: Library, routes: Routes, path: string, host: Option<string>): (i: Option<nat>)
    ensures i.Some? ==> i.value < |routes|
  {
    var best := BestPath(routes, path);
    if best.Some? && routes[best.value].pathType.Exact? && path != routes[best.value].path then None
    else if best.Some? && HostAllowed(routes[best.value], host) then best
    else FirstRegex(lib, routes, path, host, 0)
  }

  lemma {:induction false} TableAgrees(lib: Library, routes: Routes, path: string)
    requires Accepted(lib, routes)
    ensures match TableOf(routes).Find(path)
      case None => BestPath(routes, path) == None
      case Some(hit) => BestPath(routes, path) == Some(hit.1) && ParsePattern(routes[hit.1].path) == Some(hit.0)
  {
    if routes != [] {
      var n := |routes| - 1;
      AcceptedPrefix(lib, routes, n);
      TableAgrees(lib, routes[..n], path);
      if IsPathRoute(routes[n]) {
        assert Insertable(lib, routes, n);
        var p := ParsePattern(routes[n].path).value;
        TableHas(lib, routes[..n], p);
        assert !TableOf(routes[..n]).Has(p);
        FindAfterInsert(TableOf(routes[..n]), p, n, path);
      }
    }
  }

  /** Scanning the regex list finds what scanning the routes finds. */
  lemma {:induction false} RegexTableSplit(routes: Routes, n: nat)
    requires n <= |routes|
    ensures RegexTable(routes[..n]) <= RegexTable(routes)
    decreases |routes| - n
  {
    if n == |routes| {
      assert routes[..n] == routes;
    } else {
      RegexTableSplit(routes, n + 1);
      TablesNext(routes, n);
    }
  }

  method MatchRequest(lib: Library, ghost routes: Routes, router: Router, path: string, host: Option<string>)
    returns (entry: Option<RouteEntry>)
    requires Built(lib, routes, router)
    ensures entry == EntryAt(lib, routes, Scan(lib, routes, path, host))
    ensures entry.Some? && entry.value.conf.hostnames.Some? ==>
      host.Some? && host.value in entry.value.conf.hostnames.value
  {
    HostIsListed(lib, routes, path, host);
    TableAgrees(lib, routes, path);
    var at := router.table.At(path);
    if at.Some? {
      var route := router.registry[at.value];
      if route.conf.pathType.Exact? && path != route.conf.path {
        return None;
      }
      if HostAllowed(route.conf, host) {
        return Some(route);
      }
    }
    entry := MatchRegex(lib, routes, router, path, host);
  }

  /** The entry behind a route index. */
  ghost function EntryAt(lib: Library, routes: Routes, i: Option<nat>): Option<RouteEntry>
    requires Accepted(lib, routes) && (i.Some? ==> i.value < |routes|)
  {
    match i case None => None case Some(k) => Some(EntryOf(lib, routes[k]))
  }

  /** The second half of matching: the regex list in order. */
  method MatchRegex(lib: Library, ghost routes: Routes, router: Router, path: string, host: Option<string>)
    returns (entry: Option<RouteEntry>)
    requires Built(lib, routes, router)
    ensures entry == EntryAt(lib, routes, FirstRegex(lib, routes, path, host, 0))
  {
    ghost var n := 0;
    for k := 0 to |router.regexRoutes|
      invariant n <= |routes| && |RegexTable(routes[..n])| == k
      invariant FirstRegex(lib, routes, path, host, 0) == FirstRegex(lib, routes, path, host, n)
    {
      ghost var m := NextRegex(lib, routes, path, host, n, k);
      var (re, id) := router.regexRoutes[k];
      assert re == routes[m].path && id == m;
      if lib.matches(re, path) {
        var route := router.registry[id];
        assert route == EntryOf(lib, routes[m]);
        if HostAllowed(route.conf, host) {
          return Some(route);
        }
      }
      n := m + 1;
    }
    NoMoreRegex(lib, routes, path, host, n);
    return None;
  }

  lemma RegexTableAt(routes: Routes, n: nat)
    requires n < |routes|
    ensures |RegexTable(routes[..n + 1])| <= |RegexTable(routes)|
    ensures routes[n].pathType.Regex? ==>
      && |RegexTable(routes[..n + 1])| == |RegexTable(routes[..n])| + 1
      && RegexTable(routes)[|RegexTable(routes[..n])|] == (routes[n].path, n)
    ensures !routes[n].pathType.Regex? ==> RegexTable(routes[..n + 1]) == RegexTable(routes[..n])
  {
    RegexTableSplit(routes, n + 1);
    TablesNext(routes, n);
  }

  /** Skip to the route behind entry `k` of the regex list. */
  lemma {:induction false} NextRegex(
    lib: Library, routes: Routes, path: string, host: Option<string>, n: nat, k: nat) returns (m: nat)
    requires n <= |routes| && k == |RegexTable(routes[..n])| < |RegexTable(routes)|
    ensures n <= m < |routes| && routes[m].pathType.Regex?
    ensures RegexTable(routes)[k] == (routes[m].path, m) && |RegexTable(routes[..m + 1])| == k + 1
    ensures FirstRegex(lib, routes, path, host, n) ==
            if lib.matches(routes[m].path, path) && HostAllowed(routes[m], host) then Some(m)
            else FirstRegex(lib, routes, path, host, m + 1)
    decreases |routes| - n
  {
    assert routes[..|routes|] == routes;
    RegexTableAt(routes, n);
    if routes[n].pathType.Regex? {
      m := n;
    } else {
      m := NextRegex(lib, routes, path, host, n + 1, k);
    }
  }

  lemma {:induction false} NoMoreRegex(lib: Library, routes: Routes, path: string, host: Option<string>, n: nat)
    requires n <= |routes| && |RegexTable(routes[..n])| == |RegexTable(routes)|
    ensures FirstRegex(lib, routes, path, host, n) == None
    decreases |routes| - n
  {
    if n < |routes| {
      RegexTableAt(routes, n);
      NoMoreRegex(lib, routes, path, host, n + 1);
    }
  }

  // ---------- what the scan means ----------

  predicate PathMatches(r: RouteConf, path: string) {
    IsPathRoute(r) && ParsePattern(r.path).Some? && Matches(ParsePattern(r.path).value, path)
  }

  predicate MoreSpecific(r: RouteConf, s: RouteConf) {
    && ParsePattern(r.path).Some? && ParsePattern(s.path).Some?
    && Beats(ParsePattern(r.path).value, ParsePattern(s.path).value)
  }

  /** The winner of the path table: it matches and beats every other matching path route. */
  lemma {:induction false} BestPathMeaning(routes: Routes, path: string)
    ensures match BestPath(routes, path)
      case None => forall j :: 0 <= j < |routes| ==> !PathMatches(routes[j], path)
      case Some(i) =>
        && PathMatches(routes[i], path)
        && forall j :: 0 <= j < |routes| && PathMatches(routes[j], path) ==> MoreSpecific(routes[i], routes[j])
  {
    if routes != [] {
      var n := |routes| - 1;
      BestPathMeaning(routes[..n], path);
      assert forall j :: 0 <= j < n ==> routes[..n][j] == routes[j];
    }
  }

  /** The winner as a route rather than an index. */
  function BestRoute(routes: Routes, path: string): Option<RouteConf> {
    match BestPath(routes, path) case None => None case Some(i) => Some(routes[i])
  }

  function RegexOnly(routes: Routes): Routes {
    if routes == [] then []
    else if routes[0].pathType.Regex? then [routes[0]] + RegexOnly(routes[1..])
    else RegexOnly(routes[1..])
  }

  function FirstRegexRoute(lib: Library, regexes: Routes, path: string, host: Option<string>): Option<RouteConf> {
    if regexes == [] then None
    else if lib.matches(regexes[0].path, path) && HostAllowed(regexes[0], host) then Some(regexes[0])
    else FirstRegexRoute(lib, regexes[1..], path, host)
  }

  /** The answer of the router as a route. */
  function Answer(lib: Library, routes: Routes, path: string, host: Option<string>): Option<RouteConf> {
    match Scan(lib, routes, path, host) case None => None case Some(i) => Some(routes[i])
  }

  lemma {:induction false} FirstRegexMeaning(lib: Library, routes: Routes, path: string, host: Option<string>, k: nat)
    requires k <= |routes|
    ensures FirstRegexRoute(lib, RegexOnly(routes[k..]), path, host) ==
            match FirstRegex(lib, routes, path, host, k) case None => None case Some(i) => Some(routes[i])
    decreases |routes| - k
  {
    if k < |routes| {
      FirstRegexMeaning(lib, routes, path, host, k + 1);
      assert routes[k..][1..] == routes[k + 1..];
    }
  }

  lemma AnswerMeaning(lib: Library, routes: Routes, path: string, host: Option<string>)
    ensures Answer(lib, routes, path, host) ==
            var best := BestRoute(routes, path);
            if best.Some? && best.value.pathType.Exact? && path != best.value.path then None
            else if best.Some? && HostAllowed(best.value, host) then best
            else FirstRegexRoute(lib, RegexOnly(routes), path, host)
  {
    FirstRegexMeaning(lib, routes, path, host, 0);
    assert routes[0..] == routes;
  }

  // ---------- the answer in terms of the configured texts ----------

  /** A configured path covers a request path: the same text, or a stem of it followed by a
      catch-all. */
  ghost predicate Covers(r: RouteConf, path: string) {
    && (r.pathType.Prefix? || r.pathType.Exact?)
    && ((Plain(r.path) && r.path == path)
        || exists stem, name :: WrittenAs(r.path, stem, name) && |stem| < |path| && stem <= path)
  }

  /** A literal path outranks every other, and a longer stem a shorter one. */
  ghost predicate Outranks(p: string, q: string) {
    Plain(p) || exists stem, name :: WrittenAs(p, stem, name) && StemAtMost(q, |stem|)
  }

  ghost predicate StemAtMost(q: string, n: nat) {
    exists stem, name :: WrittenAs(q, stem, name) && |stem| <= n
  }

  lemma CatchAllMatches(r: RouteConf, path: string, stem: string, name: string)
    requires WrittenAs(r.path, stem, name)
    ensures PathMatches(r, path) <==> IsPathRoute(r) && |stem| < |path| && stem <= path
  {
    WrittenOnce(r.path, stem, name);
  }

  lemma MatchingCovers(r: RouteConf, path: string)
    requires PathMatches(r, path)
    ensures Covers(r, path)
  {
    if !Plain(r.path) {
      var stem := ParsePattern(r.path).value.stem;
      var name := CatchAllWasWritten(r.path, stem);
      CatchAllMatches(r, path, stem, name);
    }
  }

  lemma CoveringMatches(r: RouteConf, path: string)
    requires Covers(r, path)
    ensures PathMatches(r, path)
  {
    if !(Plain(r.path) && r.path == path) {
      var stem, name :| WrittenAs(r.path, stem, name) && |stem| < |path| && stem <= path;
      CatchAllMatches(r, path, stem, name);
    }
  }

  lemma CoversMeaning(r: RouteConf, path: string)
    ensures Covers(r, path) <==> PathMatches(r, path)
  {
    if Covers(r, path) {
      CoveringMatches(r, path);
    } else if PathMatches(r, path) {
      MatchingCovers(r, path);
    }
  }

  lemma StemsDecide(p: string, q: string, stem: string, name: string)
    requires WrittenAs(p, stem, name) && ParsePattern(q).Some?
    ensures StemAtMost(q, |stem|) <==> ParsePattern(q).value.CatchAll? && |ParsePattern(q).value.stem| <= |stem|
  {
    PatternMeaning(q);
    if ParsePattern(q).value.CatchAll? {
      var name := CatchAllWasWritten(q, ParsePattern(q).value.stem);
    }
  }

  lemma OutranksMeaning(r: RouteConf, s: RouteConf)
    requires ParsePattern(r.path).Some? && ParsePattern(s.path).Some?
    ensures Outranks(r.path, s.path) <==> MoreSpecific(r, s)
  {
    PatternMeaning(r.path);
    if !Plain(r.path) {
      var stem := ParsePattern(r.path).value.stem;
      var name := CatchAllWasWritten(r.path, stem);
      forall stem', name' | WrittenAs(r.path, stem', name') ensures stem' == stem {
        WrittenOnce(r.path, stem', name');
      }
      StemsDecide(r.path, s.path, stem, name);
    }
  }

  /** The route whose configured path decides: it covers the request path and outranks every
      other that does. */
  ghost predicate Decides(routes: Routes, path: string, i: nat) {
    && i < |routes| && Covers(routes[i], path)
    && forall j :: 0 <= j < |routes| && Covers(routes[j], path) ==> Outranks(routes[i].path, routes[j].path)
  }

  lemma BestPathDecides(lib: Library, routes: Routes, path: string, i: nat)
    requires Accepted(lib, routes)
    ensures Decides(routes, path, i) <==> BestPath(routes, path) == Some(i)
  {
    BestPathMeaning(routes, path);
    forall j | 0 <= j < |routes| ensures Covers(routes[j], path) <==> PathMatches(routes[j], path) {
      CoversMeaning(routes[j], path);
    }
    var best := BestPath(routes, path);
    if best.Some? {
      var b := best.value;
      forall j, k | 0 <= j < |routes| && 0 <= k < |routes| && Covers(routes[j], path) && Covers(routes[k], path)
        ensures Outranks(routes[j].path, routes[k].path) <==> MoreSpecific(routes[j], routes[k])
      {
        OutranksMeaning(routes[j], routes[k]);
      }
      if Decides(routes, path, i) && i != b {
        assert Insertable(lib, routes, i) && Insertable(lib, routes, b);
        BothWaysMeansSame(ParsePattern(routes[i].path).value, ParsePattern(routes[b].path).value, path);
      }
    }
  }

  predicate PassesExact(r: RouteConf, path: string) {
    r.pathType.Exact? ==> r.path == path
  }

  /** The route lists no hosts, or it lists this one. */
  predicate Lists(r: RouteConf, host: Option<string>) {
    r.hostnames.Some? ==> exists k :: 0 <= k < |r.hostnames.value| && host == Some(r.hostnames.value[k])
  }

  /** Route `k` is the first Regex route that matches and lists the host. */
  predicate FirstMatch(lib: Library, routes: Routes, path: string, host: Option<string>, k: nat) {
    && k < |routes| && RegexServes(lib, routes[k], path, host)
    && forall j :: 0 <= j < k ==> !RegexServes(lib, routes[j], path, host)
  }

  predicate RegexServes(lib: Library, r: RouteConf, path: string, host: Option<string>) {
    r.pathType.Regex? && lib.matches(r.path, path) && Lists(r, host)
  }

  lemma {:induction false} FirstRegexIsFirst(lib: Library, routes: Routes, path: string, host: Option<string>, n: nat)
    requires n <= |routes| && forall j :: 0 <= j < n ==> !RegexServes(lib, routes[j], path, host)
    ensures match FirstRegex(lib, routes, path, host, n)
      case None => forall j :: 0 <= j < |routes| ==> !RegexServes(lib, routes[j], path, host)
      case Some(k) => FirstMatch(lib, routes, path, host, k)
    decreases |routes| - n
  {
    if n < |routes| {
      assert HostAllowed(routes[n], host) <==> Lists(routes[n], host);
      if !RegexServes(lib, routes[n], path, host) {
        FirstRegexIsFirst(lib, routes, path, host, n + 1);
      }
    }
  }

  /** If any configured path covers the request path, exactly one route decides. */
  lemma OneRouteDecides(lib: Library, routes: Routes, path: string, j: nat) returns (i: nat)
    requires Accepted(lib, routes) && j < |routes| && Covers(routes[j], path)
    ensures Decides(routes, path, i)
    ensures forall k: nat :: Decides(routes, path, k) ==> k == i
  {
    CoversMeaning(routes[j], path);
    BestPathMeaning(routes, path);
    i := BestPath(routes, path).value;
    forall k: nat ensures Decides(routes, path, k) <==> i == k {
      BestPathDecides(lib, routes, path, k);
    }
  }

  /** The deciding route, if it is an Exact route of a different text, ends the search, and is
      otherwise the answer if it lists the host. */
  lemma DecidingRouteAnswers(lib: Library, routes: Routes, path: string, host: Option<string>, i: nat)
    requires Accepted(lib, routes) && Decides(routes, path, i)
    ensures !PassesExact(routes[i], path) ==> Answer(lib, routes, path, host) == None
    ensures PassesExact(routes[i], path) && Lists(routes[i], host) ==>
      Answer(lib, routes, path, host) == Some(routes[i])
  {
    BestPathDecides(lib, routes, path, i);
    assert HostAllowed(routes[i], host) <==> Lists(routes[i], host);
  }

  /** When no route's path decides, or the one that does lists other hosts, the answer is the
      first Regex route that matches and lists the host, if there is one. */
  lemma RegexRouteAnswers(lib: Library, routes: Routes, path: string, host: Option<string>)
    requires Accepted(lib, routes)
    requires forall i: nat :: Decides(routes, path, i) ==> PassesExact(routes[i], path) && !Lists(routes[i], host)
    ensures match Answer(lib, routes, path, host)
      case Some(r) => exists k: nat :: FirstMatch(lib, routes, path, host, k) && r == routes[k]
      case None => forall k :: 0 <= k < |routes| ==> !RegexServes(lib, routes[k], path, host)
  {
    FirstRegexIsFirst(lib, routes, path, host, 0);
    var best := BestPath(routes, path);
    if best.Some? {
      BestPathDecides(lib, routes, path, best.value);
      assert HostAllowed(routes[best.value], host) <==> Lists(routes[best.value], host);
    }
  }

  /** No request is answered by a route that names hosts and not this one. */
  lemma HostIsListed(lib: Library, routes: Routes, path: string, host: Option<string>)
    ensures var answer := Answer(lib, routes, path, host);
            answer.Some? && answer.value.hostnames.Some? ==> host.Some? && host.value in answer.value.hostnames.value
  {
    FirstRegexIsFirst(lib, routes, path, host, 0);
  }

  // ---------- accepted configurations, in terms of the texts ----------

  /** Two texts that the path matcher takes for the same pattern. */
  ghost predicate Clash(p: string, q: string) {
    || (Plain(p) && p == q)
    || exists stem, name, name' :: WrittenAs(p, stem, name) && WrittenAs(q, stem, name')
  }

  ghost predicate Readable(text: string) {
    text != "" && text[0] == '/' && (Plain(text) || exists stem, name :: WrittenAs(text, stem, name))
  }

  lemma ReadableMeaning(r: RouteConf)
    ensures Readable(r.path) <==> ['/'] <= r.path && ParsePattern(r.path).Some?
  {
    PatternMeaning(r.path);
    if ParsePattern(r.path).Some? && !Plain(r.path) {
      var name := CatchAllWasWritten(r.path, ParsePattern(r.path).value.stem);
    }
  }

  lemma ClashMeaning(r: RouteConf, s: RouteConf)
    requires IsPathRoute(r) && IsPathRoute(s) && ParsePattern(r.path).Some? && ParsePattern(s.path).Some?
    ensures Clash(r.path, s.path) <==> SamePattern(r, s)
  {
    if stem, name, name' :| WrittenAs(r.path, stem, name) && WrittenAs(s.path, stem, name') {
      WrittenOnce(r.path, stem, name);
      WrittenOnce(s.path, stem, name');
    }
    var pattern := ParsePattern(r.path).value;
    if SamePattern(r, s) && pattern.CatchAll? {
      var name := CatchAllWasWritten(r.path, pattern.stem);
      var name' := CatchAllWasWritten(s.path, pattern.stem);
    }
  }

  /** What a route must satisfy alone. */
  ghost predicate Usable(lib: Library, r: RouteConf) {
    && (if r.pathType.Regex? then lib.compiles(r.path) else Readable(r.path))
    && (r.access.Some? ==>
          forall block :: block in r.access.value.allow + r.access.value.deny ==> lib.parse(block).Some?)
  }

  /** Which configurations the router is built from. */
  lemma AcceptedMeaning(lib: Library, routes: Routes)
    ensures Accepted(lib, routes) <==>
      && (forall i :: 0 <= i < |routes| ==> Usable(lib, routes[i]))
      && (forall i, j :: 0 <= j < i < |routes| && !routes[i].pathType.Regex? && !routes[j].pathType.Regex? ==>
            !Clash(routes[j].path, routes[i].path))
  {
    forall r | r in routes ensures Usable(lib, r) <==> PathAccepted(lib, r) && AclAccepted(lib.parse, r.access) {
      ReadableMeaning(r);
    }
    forall r, s | r in routes && s in routes && IsPathRoute(r) && IsPathRoute(s) && Readable(r.path) && Readable(s.path)
      ensures Clash(r.path, s.path) <==> SamePattern(r, s)
    {
      ReadableMeaning(r);
      ReadableMeaning(s);
      ClashMeaning(r, s);
    }
    if Accepted(lib, routes) {
      assert forall i :: 0 <= i < |routes| ==> Insertable(lib, routes, i);
    }
  }

  // ---------- order independence ----------

  predicate SamePathRoutes(one: Routes, other: Routes) {
    && (forall i :: 0 <= i < |one| && IsPathRoute(one[i]) ==> one[i] in other)
    && (forall i :: 0 <= i < |other| && IsPathRoute(other[i]) ==> other[i] in one)
  }

  lemma BestRouteIgnoresOrder(lib: Library, one: Routes, other: Routes, path: string)
    requires Accepted(lib, one) && Accepted(lib, other) && SamePathRoutes(one, other)
    ensures BestRoute(one, path) == BestRoute(other, path)
  {
    BestPathMeaning(one, path);
    BestPathMeaning(other, path);
    var a := BestPath(one, path);
    var b := BestPath(other, path);
    if a.Some? {
      var j :| 0 <= j < |other| && other[j] == one[a.value];
    }
    if b.Some? {
      var j :| 0 <= j < |one| && one[j] == other[b.value];
      assert a.Some?;
      var p := ParsePattern(one[a.value].path).value;
      var q := ParsePattern(one[j].path).value;
      BothWaysMeansSame(p, q, path);
      assert SamePattern(one[a.value], one[j]) && SamePattern(one[j], one[a.value]);
      assert Insertable(lib, one, a.value) && Insertable(lib, one, j);
      assert a.value == j;
    }
  }

  /** Answers depend only on the set of Prefix/Exact routes and the order of Regex routes. */
  lemma AnswerIgnoresPathOrder(lib: Library, one: Routes, other: Routes, path: string, host: Option<string>)
    requires Accepted(lib, one) && Accepted(lib, other)
    requires SamePathRoutes(one, other) && RegexOnly(one) == RegexOnly(other)
    ensures Answer(lib, one, path, host) == Answer(lib, other, path, host)
  {
    BestRouteIgnoresOrder(lib, one, other, path);
    AnswerMeaning(lib, one, path, host);
    AnswerMeaning(lib, other, path, host);
  }

  lemma {:induction false} RegexOnlyConcat(a: Routes, b: Routes)
    ensures RegexOnly(a + b) == RegexOnly(a) + RegexOnly(b)
  {
    if a == [] {
      assert a + b == b;
    } else {
      assert (a + b)[1..] == a[1..] + b;
      RegexOnlyConcat(a[1..], b);
    }
  }

  /** `after` lists the routes of `before` in the order `from`, each at most once. */
  predicate Rearranges(before: Routes, after: Routes, from: seq<nat>) {
    && |from| == |after|
    && (forall i :: 0 <= i < |after| ==> from[i] < |before| && after[i] == before[from[i]])
    && (forall i, j :: 0 <= i < j < |after| ==> from[i] != from[j])
  }

  lemma RearrangedIsAccepted(lib: Library, before: Routes, after: Routes, from: seq<nat>)
    requires Accepted(lib, before) && Rearranges(before, after, from)
    ensures Accepted(lib, after)
  {
    forall i | 0 <= i < |after| ensures Insertable(lib, after, i) && AclAccepted(lib.parse, after[i].access) {
      assert Insertable(lib, before, from[i]);
      forall j | 0 <= j < i ensures !SamePattern(after[j], after[i]) {
        assert Insertable(lib, before, from[j]);
        if from[j] < from[i] {
          assert !SamePattern(before[from[j]], before[from[i]]);
        } else {
          assert !SamePattern(before[from[i]], before[from[j]]);
        }
      }
    }
  }

  lemma MovedLaterIsAccepted(lib: Library, a: Routes, r: RouteConf, b: Routes, c: Routes)
    requires Accepted(lib, a + [r] + b + c)
    ensures Accepted(lib, a + b + [r] + c)
  {
    var early, late := a + [r] + b + c, a + b + [r] + c;
    var m, n := |a|, |a| + |b|;
    var from := seq(|late|, i requires 0 <= i < |late| => if i < m || i > n then i else if i == n then m else i + 1);
    assert |early| == |late| == n + 1 + |c|;
    forall i | 0 <= i < |late| ensures 0 <= from[i] < |early| && late[i] == early[from[i]] {
      if m <= i < n {
        assert late[i] == b[i - m];
      }
    }
    RearrangedIsAccepted(lib, early, late, from);
  }

  lemma MovedEarlierIsAccepted(lib: Library, a: Routes, r: RouteConf, b: Routes, c: Routes)
    requires Accepted(lib, a + b + [r] + c)
    ensures Accepted(lib, a + [r] + b + c)
  {
    var early, late := a + [r] + b + c, a + b + [r] + c;
    var m, n := |a|, |a| + |b|;
    var from := seq(|early|, i requires 0 <= i < |early| => if i < m || i > n then i else if i == m then n else i - 1);
    assert |early| == |late| == n + 1 + |c|;
    forall i | 0 <= i < |early| ensures 0 <= from[i] < |late| && early[i] == late[from[i]] {
      if m < i <= n {
        assert early[i] == b[i - m - 1];
      }
    }
    RearrangedIsAccepted(lib, late, early, from);
  }

  lemma RegexOnlyOfFour(a: Routes, b: Routes, c: Routes, d: Routes)
    ensures RegexOnly(a + b + c + d) == RegexOnly(a) + RegexOnly(b) + RegexOnly(c) + RegexOnly(d)
  {
    RegexOnlyConcat(a + b + c, d);
    RegexOnlyConcat(a + b, c);
    RegexOnlyConcat(a, b);
  }

  /** Moving a Prefix or Exact route anywhere, towards the end of the list or towards its start,
      keeps the configuration accepted and every answer unchanged. */
  lemma MovingPathRoute(
    lib: Library, a: Routes, r: RouteConf, b: Routes, c: Routes, path: string, host: Option<string>)
    requires IsPathRoute(r)
    ensures Accepted(lib, a + [r] + b + c) <==> Accepted(lib, a + b + [r] + c)
    ensures Accepted(lib, a + [r] + b + c) || Accepted(lib, a + b + [r] + c) ==>
      Answer(lib, a + b + [r] + c, path, host) == Answer(lib, a + [r] + b + c, path, host)
  {
    if Accepted(lib, a + [r] + b + c) {
      MovedLaterIsAccepted(lib, a, r, b, c);
    }
    if Accepted(lib, a + b + [r] + c) {
      MovedEarlierIsAccepted(lib, a, r, b, c);
      assert RegexOnly(a + b + [r] + c) == RegexOnly(a + [r] + b + c) by {
        assert RegexOnly([r]) == [];
        RegexOnlyOfFour(a, [r], b, c);
        RegexOnlyOfFour(a, b, [r], c);
      }
      assert forall s :: s in a + [r] + b + c <==> s in a || s == r || s in b || s in c;
      assert forall s :: s in a + b + [r] + c <==> s in a || s == r || s in b || s in c;
      AnswerIgnoresPathOrder(lib, a + [r] + b + c, a + b + [r] + c, path, host);
    }
  }

  lemma {:induction false} FirstRegexOfSnoc(
    lib: Library, regexes: Routes, r: RouteConf, path: string, host: Option<string>)
    ensures FirstRegexRoute(lib, regexes, path, host).Some? ==>
      FirstRegexRoute(lib, regexes + [r], path, host) == FirstRegexRoute(lib, regexes, path, host)
  {
    if regexes != [] {
      assert (regexes + [r])[1..] == regexes[1..] + [r];
      FirstRegexOfSnoc(lib, regexes[1..], r, path, host);
    }
  }

  /** Appending a Regex route changes no answer that was already a route. */
  lemma AppendingRegex(lib: Library, routes: Routes, r: RouteConf, path: string, host: Option<string>)
    requires r.pathType.Regex? && Answer(lib, routes, path, host).Some?
    ensures Answer(lib, routes + [r], path, host) == Answer(lib, routes, path, host)
  {
    AnswerMeaning(lib, routes, path, host);
    AnswerMeaning(lib, routes + [r], path, host);
    var extended := routes + [r];
    assert extended[..|extended| - 1] == routes;
    assert BestPath(extended, path) == BestPath(routes, path);
    assert BestRoute(extended, path) == BestRoute(routes, path);
    RegexOnlyConcat(routes, [r]);
    assert RegexOnly([r]) == [r] by {
      assert [r][1..] == [];
    }
    FirstRegexOfSnoc(lib, RegexOnly(routes), r, path, host);
  }
}
