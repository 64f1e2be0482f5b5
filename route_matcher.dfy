/**
 * Route lookup of the gateway service: wildcard/prefix matching of a request
 * path against route patterns, most-specific-route selection, and the
 * public-path test.
 */
module RouteMatcher {
  import opened Wrappers
  import opened JavaStrings
  import opened GatewayRouteConfig

  // A pattern ending in a slash and two stars is a wildcard pattern.
  predicate IsWildcard(pattern: string) {
    EndsWith(pattern, "/**")
  }

  /**
   * `matchesPath`: a wildcard pattern matches every path starting with the
   * pattern minus its last three characters; any other pattern matches the
   * path itself and the paths below it.
   */
  predicate MatchesPath(path: string, pattern: string) {
    if IsWildcard(pattern) then StartsWith(path, pattern[..|pattern| - 3])
    else path == pattern || StartsWith(path, pattern + "/")
  }

  /** The stream filter of `findMatchingRoute`: routes with a pattern that matches. */
  predicate Candidate(route: Route, path: string) {
    route.path.Some? && MatchesPath(path, route.path.value)
  }

  function PatternLength(route: Route): nat {
    |route.path.GetOr("")|
  }

  /**
   * The index `Stream.max` selects among the candidates of `routes`: a left
   * fold that keeps the accumulated route unless the next candidate's pattern
   * is strictly longer.
   */
  function BestIndex(routes: seq<Route>, path: string): (r: Option<nat>)
    ensures r.Some? ==> r.value < |routes|
    decreases |routes|
  {
    if routes == [] then None
    else
      var prev := BestIndex(routes[..|routes| - 1], path);
      var last := |routes| - 1;
      if !Candidate(routes[last], path) then prev
      else if prev.Some? && PatternLength(routes[prev.value]) >= PatternLength(routes[last]) then prev
      else Some(last)
  }

  /** `findMatchingRoute`; None stands for null. */
  function FindMatchingRoute(config: Config, path: string): Option<Route> {
    if config.routes.None? || config.routes.value == [] then None
    else
      match BestIndex(config.routes.value, path)
      case Some(i) => Some(config.routes.value[i])
      case None => None
  }

  /** `anyMatch` of the public-path test over a list of prefixes. */
  predicate AnyPrefix(prefixes: seq<string>, path: string)
    decreases |prefixes|
  {
    prefixes != [] && (StartsWith(path, prefixes[0]) || AnyPrefix(prefixes[1..], path))
  }

  /** `isPublicPath` */
  predicate IsPublicPath(config: Config, path: string) {
    config.publicPaths.Some? && AnyPrefix(config.publicPaths.value, path)
  }

  // ---------------------------------------------------------------------------
  // Specification of the selection

  /**
   * Route `i` is the most specific match: it matches, no matching pattern is
   * longer, and every earlier matching pattern is strictly shorter.
   */
  predicate IsBestMatch(routes: seq<Route>, path: string, i: int) {
    && 0 <= i < |routes|
    && Candidate(routes[i], path)
    && (forall j :: 0 <= j < |routes| && Candidate(routes[j], path) ==> PatternLength(routes[j]) <= PatternLength(routes[i]))
    && (forall j :: 0 <= j < i && Candidate(routes[j], path) ==> PatternLength(routes[j]) < PatternLength(routes[i]))
  }

  predicate NoCandidate(routes: seq<Route>, path: string) {
    forall j :: 0 <= j < |routes| ==> !Candidate(routes[j], path)
  }

  lemma {:induction false} BestIndexSpec(routes: seq<Route>, path: string)
    ensures BestIndex(routes, path).None? <==> NoCandidate(routes, path)
    ensures BestIndex(routes, path).Some? ==> IsBestMatch(routes, path, BestIndex(routes, path).value)
    decreases |routes|
  {
    if routes != [] {
      var init := routes[..|routes| - 1];
      BestIndexSpec(init, path);
      assert forall j :: 0 <= j < |init| ==> init[j] == routes[j];
    }
  }

  /** At most one index is the most specific match. */
  lemma BestMatchUnique(routes: seq<Route>, path: string, i: int, j: int)
    requires IsBestMatch(routes, path, i) && IsBestMatch(routes, path, j)
    ensures i == j
  {
  }

  /** `findMatchingRoute` answers null exactly when no route matches, and otherwise the most specific match. */
  lemma FindMatchingRouteSpec(config: Config, path: string)
    ensures FindMatchingRoute(config, path).None? <==>
              config.routes.None? || NoCandidate(config.routes.value, path)
    ensures FindMatchingRoute(config, path).Some? ==>
              exists i :: IsBestMatch(config.routes.value, path, i) && config.routes.value[i] == FindMatchingRoute(config, path).value
  {
    if config.routes.Some? {
      BestIndexSpec(config.routes.value, path);
    }
  }

  /** A returned route matches, has a pattern, and belongs to the table. */
  lemma FoundRouteMatches(config: Config, path: string)
    requires FindMatchingRoute(config, path).Some?
    ensures var r := FindMatchingRoute(config, path).value;
            config.routes.Some? && r in config.routes.value && r.path.Some? && MatchesPath(path, r.path.value)
  {
    FindMatchingRouteSpec(config, path);
  }

  /** Every path matches its own pattern, wildcard or not. */
  lemma MatchesOwnPattern(p: string)
    ensures MatchesPath(p, p)
  {
  }

  /** A pattern that is not a wildcard matches only whole path segments. */
  lemma ExactPatternSegments(path: string, pattern: string)
    requires !IsWildcard(pattern) && MatchesPath(path, pattern)
    ensures StartsWith(path, pattern)
    ensures path == pattern || (|path| > |pattern| && path[|pattern|] == '/')
  {
    if path != pattern {
      assert path[..|pattern| + 1] == pattern + "/";
      assert path[..|pattern|] == (pattern + "/")[..|pattern|];
    }
  }

  /** A path equal to a configured pattern always finds a route at least as specific as that one. */
  lemma ExactPathFindsRoute(config: Config, i: int)
    requires config.routes.Some? && 0 <= i < |config.routes.value|
    requires config.routes.value[i].path.Some?
    ensures var p := config.routes.value[i].path.value;
            FindMatchingRoute(config, p).Some? && PatternLength(FindMatchingRoute(config, p).value) >= |p|
  {
    var p := config.routes.value[i].path.value;
    MatchesOwnPattern(p);
    assert Candidate(config.routes.value[i], p);
    FindMatchingRouteSpec(config, p);
  }

  /** The public-path test is a plain prefix test against the configured list. */
  lemma {:induction false} AnyPrefixSpec(prefixes: seq<string>, path: string)
    ensures AnyPrefix(prefixes, path) <==> exists k :: 0 <= k < |prefixes| && StartsWith(path, prefixes[k])
    decreases |prefixes|
  {
    if prefixes != [] {
      AnyPrefixSpec(prefixes[1..], path);
      assert forall k :: 1 <= k < |prefixes| ==> prefixes[1..][k - 1] == prefixes[k];
    }
  }

  lemma IsPublicPathSpec(config: Config, path: string)
    ensures config.publicPaths.None? ==> !IsPublicPath(config, path)
    ensures config.publicPaths.Some? ==>
              (IsPublicPath(config, path) <==> exists k :: 0 <= k < |config.publicPaths.value| && StartsWith(path, config.publicPaths.value[k]))
  {
    if config.publicPaths.Some? {
      AnyPrefixSpec(config.publicPaths.value, path);
    }
  }

  /** With nothing configured, no path is routed and none is public. */
  lemma DefaultConfigRoutesNothing(path: string)
    ensures FindMatchingRoute(DefaultConfig(), path).None?
    ensures !IsPublicPath(DefaultConfig(), path)
  {
  }

  // ---------------------------------------------------------------------------
  // Worked cases

  // The wildcard "/api" pattern matches "/api", "/api/x" and also "/apix"; the plain "/api" does not match "/apix".
  lemma WildcardExamples()
    ensures MatchesPath("/api", "/api/**") && MatchesPath("/api/x", "/api/**") && MatchesPath("/apix", "/api/**")
    ensures !MatchesPath("/apix", "/api") && MatchesPath("/api/x", "/api")
  {
    assert "/api/**"[..4] == "/api";
    assert "/apix"[..4] == "/api";
    assert "/api/x"[..4] == "/api";
    assert "/api/x"[..5] == "/api/";
    assert "/apix"[..5][4] != "/api/"[4];
  }

  // Between the "/api" and "/api/accounts" wildcards the more specific wins for "/api/accounts/1", in either order.
  lemma MostSpecificWins()
    ensures var general := Route(Some("/api/**"), Some("service-gateway"), true);
            var specific := Route(Some("/api/accounts/**"), Some("service-account"), true);
            FindMatchingRoute(BindConfig([general, specific], [], None), "/api/accounts/1") == Some(specific)
            && FindMatchingRoute(BindConfig([specific, general], [], None), "/api/accounts/1") == Some(specific)
  {
    var general := Route(Some("/api/**"), Some("service-gateway"), true);
    var specific := Route(Some("/api/accounts/**"), Some("service-account"), true);
    assert "/api/**"[..4] == "/api" && "/api/accounts/1"[..4] == "/api";
    assert "/api/accounts/**"[..13] == "/api/accounts" && "/api/accounts/1"[..13] == "/api/accounts";
    assert Candidate(general, "/api/accounts/1") && Candidate(specific, "/api/accounts/1");
    assert [general, specific][..1] == [general];
    assert [specific, general][..1] == [specific];
  }

  /** Two matching patterns of equal length: the route configured first wins. */
  lemma EqualLengthTieGoesToFirst()
    ensures var a := Route(Some("/x/**"), Some("service-a"), true);
            var b := Route(Some("/x/ab"), Some("service-b"), false);
            FindMatchingRoute(BindConfig([a, b], [], None), "/x/ab") == Some(a)
            && FindMatchingRoute(BindConfig([b, a], [], None), "/x/ab") == Some(b)
  {
    var a := Route(Some("/x/**"), Some("service-a"), true);
    var b := Route(Some("/x/ab"), Some("service-b"), false);
    assert "/x/**"[..2] == "/x" && "/x/ab"[..2] == "/x";
    assert Candidate(a, "/x/ab") && Candidate(b, "/x/ab");
    assert [a, b][..1] == [a];
    assert [b, a][..1] == [b];
  }

  /** A longer wildcard pattern can outrank a route whose exact pattern equals the path. */
  lemma ExactPatternCanLoseToWildcard()
    ensures var exact := Route(Some("/a/b"), Some("service-a"), true);
            var wide := Route(Some("/a/**"), Some("service-b"), true);
            FindMatchingRoute(BindConfig([exact, wide], [], None), "/a/b") == Some(wide)
  {
    var exact := Route(Some("/a/b"), Some("service-a"), true);
    var wide := Route(Some("/a/**"), Some("service-b"), true);
    assert "/a/**"[..2] == "/a" && "/a/b"[..2] == "/a";
    assert Candidate(exact, "/a/b") && Candidate(wide, "/a/b");
    assert [exact, wide][..1] == [exact];
  }
}
