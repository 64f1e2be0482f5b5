/**
 * The gateway's route table as bound from configuration: an ordered list of
 * routes, an ordered list of public path prefixes, and the token-validation
 * endpoint. Lists keep their configuration order; a null list or property is
 * None.
 */
module GatewayRouteConfig {
  import opened Wrappers

  /**
   * One route. `path` is a pattern such as "/api/accounts/" followed by two stars; `service` is a
   * logical service id resolved by service discovery, not a host address.
   */
  datatype Route = Route(path: Option<string>, service: Option<string>, requiresAuth: bool)

  datatype OAuth2 = OAuth2(validationEndpoint: Option<string>)

  datatype Config = Config(oauth2: Option<OAuth2>, routes: Option<seq<Route>>, publicPaths: Option<seq<string>>)

  /** A route bound from configuration: a property that is not configured keeps its field default. */
  function BindRoute(path: Option<string>, service: Option<string>, requiresAuth: Option<bool>): (r: Route)
    ensures requiresAuth.None? ==> r.requiresAuth
  {
    Route(path, service, requiresAuth.GetOr(true))
  }

  /** The configuration when nothing is configured. */
  function DefaultConfig(): (c: Config)
    ensures c.oauth2.Some? && c.oauth2.value.validationEndpoint.None?
    ensures c.routes == Some([]) && c.publicPaths == Some([])
  {
    Config(Some(OAuth2(None)), Some([]), Some([]))
  }

  /** The configuration with the given lists and endpoint, every other property at its default. */
  function BindConfig(routes: seq<Route>, publicPaths: seq<string>, validationEndpoint: Option<string>): Config {
    Config(Some(OAuth2(validationEndpoint)), Some(routes), Some(publicPaths))
  }
}
