/**
 The gateway hooks as functions of the context and the message.  Each hook walks the
 middleware chain and then does its own work on both.  `Keys` says under which type the later
 hooks look up the route configuration: as written they ask for `RouteConf` although an
 `Arc<RouteConf>` was stored.
 */
module Hooks {
  import opened Wrappers
  import opened Config
  import opened Router
  import opened Context
  import opened HeaderRules
  import opened Middlewares

  datatype Keys = AsWritten | Aligned

  /** `upstreams` maps each configured upstream to its server name, and `iterate` is the order
      in which a hash map yields its keys. */
  datatype Setup = Setup(
    keys: Keys, lib: Library, routes: Routes, upstreams: map<string, string>, chain: Chain,
    iterate: map<string, string> -> seq<string>)

  ghost predicate ValidSetup(g: Setup) {
    && Accepted(g.lib, g.routes)
    && forall additions :: IsOrder(g.iterate(additions), additions)
  }

  datatype ErrorType = ConnectRefused | ConnectNoRoute | BindError | ReadTimedout | ConnectTimedout | OtherError

  function StatusFor(e: ErrorType): int {
    match e
    case ConnectRefused => 502
    case ConnectNoRoute => 502
    case BindError => 502
    case ReadTimedout => 504
    case ConnectTimedout => 504
    case OtherError => 500
  }

  /** What the gateway itself does to the outside: an error response, a peer selection on an
      upstream, a custom error page. */
  datatype Effect = Respond(code: int) | Select(upstreamId: string) | ErrorPage(code: int)

  /** `Proceeded` is Ok, `Responded` is Ok(true), `Errored` is Err, `Panicked` a failed expect. */
  datatype HookResult = Proceeded | Responded | Errored | Panicked

  datatype Performed = Performed(result: HookResult, ctx: TypedStore, message: Headers, effects: seq<Effect>)

  /** How a hook reads the end of its walk; `stop` is its answer to Stop. */
  function AfterWalk(end: Outcome, stop: HookResult): HookResult {
    match end
    case Continued => Proceeded
    case Stopped => stop
    case Failed => Errored
    case Crashed => Panicked
  }

  /** The configuration a later hook finds in the context. */
  function StoredConf(keys: Keys, ctx: TypedStore): Option<RouteConf> {
    match keys
    case AsWritten => if RouteConfKey in ctx then Some(ctx[RouteConfKey].conf) else None
    case Aligned => if ArcRouteConfKey in ctx then Some(ctx[ArcRouteConfKey].conf) else None
  }

  const NO_MESSAGE: Headers := map[]

  function NewContext(): TypedStore {
    map[RequestMetaKey := MetaValue(RequestMeta("", None, None, None))]
  }

  function PlainForward(g: Setup, hook: Hook, input: Input, ctx: TypedStore, stop: HookResult): Performed {
    var w := Forward(g.chain, hook, input, Scene(ctx, NO_MESSAGE));
    Performed(AfterWalk(w.end, stop), w.scene.ctx, w.scene.message, [])
  }

  /** The context as the request filter leaves it for the chain once a route matched. */
  function RoutedContext(g: Setup, i: nat, uuid: string, ctx: TypedStore): TypedStore
    requires Accepted(g.lib, g.routes) && i < |g.routes| && RequestMetaKey in ctx
  {
    var route := g.routes[i];
    var meta := ctx[RequestMetaKey].meta.(
      requestId := uuid, matchedRouteId := Some(route.path), upstreamId := Some(route.upstreamId));
    ctx[RequestMetaKey := MetaValue(meta)]
      [RouteEntryKey := EntryValue(EntryOf(g.lib, route))]
      [ArcRouteConfKey := ArcConfValue(route)]
  }

  function RequestFilter(
    g: Setup, input: Input, path: string, host: Option<string>, uuid: string, ctx: TypedStore): Performed
    requires Accepted(g.lib, g.routes)
  {
    if RequestMetaKey !in ctx then Performed(Panicked, ctx, NO_MESSAGE, [])
    else
      match Scan(g.lib, g.routes, path, host)
      case None =>
        var meta := ctx[RequestMetaKey].meta.(requestId := uuid);
        var result := if input.writable then Responded else Errored;
        Performed(result, ctx[RequestMetaKey := MetaValue(meta)], NO_MESSAGE, [Respond(404)])
      case Some(i) => PlainForward(g, Request, input, RoutedContext(g, i, uuid, ctx), Responded)
  }

  /** `available` says whether the upstream could name a backend. */
  function UpstreamPeer(g: Setup, available: bool, ctx: TypedStore): Performed {
    if RequestMetaKey !in ctx then Performed(Panicked, ctx, NO_MESSAGE, [])
    else
      var meta := ctx[RequestMetaKey].meta;
      if meta.upstreamId.None? || meta.upstreamId.value !in g.upstreams then
        Performed(Errored, ctx, NO_MESSAGE, [Respond(500)])
      else
        var id := meta.upstreamId.value;
        if !available then Performed(Errored, ctx, NO_MESSAGE, [Select(id)])
        else
          var named := meta.(sni := Some(g.upstreams[id]));
          Performed(Proceeded, ctx[RequestMetaKey := MetaValue(named)], NO_MESSAGE, [Select(id)])
  }

  function UpstreamRequestFilter(g: Setup, input: Input, message: Headers, ctx: TypedStore): Performed
    requires ValidSetup(g)
  {
    var w := Forward(g.chain, UpstreamRequest, input, Scene(ctx, message));
    if !w.end.Continued? then Performed(AfterWalk(w.end, Errored), w.scene.ctx, w.scene.message, [])
    else
      var conf := StoredConf(g.keys, w.scene.ctx);
      var meta := MetaIn(w.scene.ctx);
      if conf.None? || meta.None? then Performed(Panicked, w.scene.ctx, w.scene.message, [])
      else
        var rules := conf.value.headers;
        match RewriteRequest(rules, meta.value.sni, g.iterate(rules.addRequest), w.scene.message)
        case None => Performed(Errored, w.scene.ctx, NO_MESSAGE, [])
        case Some(rewritten) => Performed(Proceeded, w.scene.ctx, rewritten, [])
  }

  function UpstreamResponseFilter(g: Setup, input: Input, message: Headers, ctx: TypedStore): Performed {
    var w := Backward(g.chain, UpstreamResponse, input, false, Scene(ctx, message));
    if !w.end.Continued? then Performed(AfterWalk(w.end, Errored), w.scene.ctx, w.scene.message, [])
    else
      match StoredConf(g.keys, w.scene.ctx)
      case None => Performed(Panicked, w.scene.ctx, w.scene.message, [])
      case Some(conf) =>
        Performed(Proceeded, w.scene.ctx, RemoveAll(w.scene.message, conf.headers.removeResponse), [])
  }

  function ResponseFilter(g: Setup, input: Input, message: Headers, ctx: TypedStore): Performed
    requires ValidSetup(g)
  {
    var w := Backward(g.chain, Response, input, false, Scene(ctx, message));
    if !w.end.Continued? then Performed(AfterWalk(w.end, Errored), w.scene.ctx, w.scene.message, [])
    else
      match StoredConf(g.keys, w.scene.ctx)
      case None => Performed(Panicked, w.scene.ctx, w.scene.message, [])
      case Some(conf) =>
        match AddAll(w.scene.message, conf.headers.addResponse, g.iterate(conf.headers.addResponse))
        case None => Performed(Errored, w.scene.ctx, NO_MESSAGE, [])
        case Some(added) => Performed(Proceeded, w.scene.ctx, added, [])
  }

  function ResponseBodyFilter(g: Setup, input: Input, ctx: TypedStore): Performed {
    var w := Backward(g.chain, ResponseBody, input, false, Scene(ctx, NO_MESSAGE));
    Performed(AfterWalk(w.end, Errored), w.scene.ctx, w.scene.message, [])
  }

  function LoggingHook(g: Setup, input: Input, ctx: TypedStore): Performed {
    var w := Backward(g.chain, Logging, input, true, Scene(ctx, NO_MESSAGE));
    Performed(AfterWalk(w.end, Proceeded), w.scene.ctx, w.scene.message, [])
  }

  /** The error page configured for a status, if the context yields the route. */
  function PageFor(keys: Keys, ctx: TypedStore, code: int): Option<string> {
    match StoredConf(keys, ctx)
    case None => None
    case Some(conf) =>
      if conf.errorPages.Some? && code in conf.errorPages.value then Some(conf.errorPages.value[code]) else None
  }

  /** `readable` says whether the page file could be read, `written` whether the response
      header could be sent. */
  function FailToProxy(
    g: Setup, input: Input, error: ErrorType, readable: bool, written: bool, ctx: TypedStore): Performed
  {
    var w := Backward(g.chain, ErrorHook, input, true, Scene(ctx, NO_MESSAGE));
    var code := StatusFor(error);
    if !w.end.Continued? then Performed(AfterWalk(w.end, Proceeded), w.scene.ctx, w.scene.message, [])
    else if PageFor(g.keys, w.scene.ctx, code).Some? && readable && written then
      Performed(Proceeded, w.scene.ctx, w.scene.message, [ErrorPage(code)])
    else Performed(Proceeded, w.scene.ctx, w.scene.message, [Respond(code)])
  }
}
