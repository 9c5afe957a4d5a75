/** The gateway itself: its hooks work in place on the live context and message. */
module Gateway {
  import opened Wrappers
  import opened Config
  import opened Router
  import opened Context
  import opened HeaderRules
  import opened Middlewares
  import opened Hooks

  class Gateway {
    const setup: Setup
    const router: Router

    ghost predicate Valid() {
      ValidSetup(setup) && Built(setup.lib, setup.routes, router)
    }

    constructor (setup: Setup, router: Router)
      requires ValidSetup(setup) && Built(setup.lib, setup.routes, router)
      ensures Valid() && this.setup == setup
    {
      this.setup := setup;
      this.router := router;
    }

    method NewCtx() returns (ctx: GatewayContext)
      ensures fresh(ctx) && ctx.Valid() && ctx.state == NewContext()
    {
      ctx := new GatewayContext();
      var previous := ctx.Insert(MetaValue(RequestMeta("", None, None, None)));
    }

    /** A forward or backward walk by a hook that has no message. */
    method PlainWalk(hook: Hook, input: Input, order: seq<nat>, tolerant: bool, stop: HookResult, ctx: GatewayContext)
      returns (result: HookResult, ghost message: Headers)
      requires ctx.Valid() && InChain(setup.chain, order)
      modifies ctx
      ensures ctx.Valid()
      ensures var w := WalkAlong(setup.chain, hook, input, order, tolerant, Scene(old(ctx.state), NO_MESSAGE));
              result == AfterWalk(w.end, stop) && ctx.state == w.scene.ctx && message == w.scene.message
    {
      var m := new Message(NO_MESSAGE);
      var called, end := WalkChain(setup.chain, hook, input, order, tolerant, ctx, m);
      result, message := AfterWalk(end, stop), m.headers;
    }

    method EarlyRequestFilter(input: Input, ctx: GatewayContext) returns (result: HookResult)
      requires Valid() && ctx.Valid()
      modifies ctx
      ensures ctx.Valid()
      ensures var p := PlainForward(setup, EarlyRequest, input, old(ctx.state), Proceeded);
              result == p.result && ctx.state == p.ctx
    {
      ghost var m: Headers;
      result, m := PlainWalk(EarlyRequest, input, Ascending(|setup.chain|), false, Proceeded, ctx);
    }

    method RequestFilter(input: Input, path: string, host: Option<string>, uuid: string, ctx: GatewayContext)
      returns (result: HookResult, effects: seq<Effect>)
      requires Valid() && ctx.Valid()
      modifies ctx
      ensures ctx.Valid()
      ensures var p := Hooks.RequestFilter(setup, input, path, host, uuid, old(ctx.state));
              result == p.result && ctx.state == p.ctx && effects == p.effects
    {
      effects := [];
      var found := ctx.Get(RequestMetaKey);
      if found.None? {
        return Panicked, [];
      }
      var meta := found.value.meta.(requestId := uuid);
      var previous := ctx.GetMut(MetaValue(meta));
      var entry := MatchRequest(setup.lib, setup.routes, router, path, host);
      if entry.None? {
        return if input.writable then Responded else Errored, [Respond(404)];
      }
      StoreRoute(meta, entry.value, ctx);
      ghost var i := Scan(setup.lib, setup.routes, path, host).value;
      assert ctx.state == RoutedContext(setup, i, uuid, old(ctx.state));
      ghost var m: Headers;
      result, m := PlainWalk(Request, input, Ascending(|setup.chain|), false, Responded, ctx);
    }

    /** Record the matched route in the metadata and under both of its types. */
    method StoreRoute(meta: RequestMeta, entry: RouteEntry, ctx: GatewayContext)
      requires ctx.Valid() && RequestMetaKey in ctx.state
      modifies ctx
      ensures ctx.Valid()
      ensures ctx.state == old(ctx.state)
        [RequestMetaKey :=
          MetaValue(meta.(matchedRouteId := Some(entry.conf.path), upstreamId := Some(entry.conf.upstreamId)))]
        [RouteEntryKey := EntryValue(entry)]
        [ArcRouteConfKey := ArcConfValue(entry.conf)]
    {
      var route := entry.conf;
      var matched := meta.(matchedRouteId := Some(route.path), upstreamId := Some(route.upstreamId));
      var previous := ctx.GetMut(MetaValue(matched));
      previous := ctx.Insert(EntryValue(entry));
      previous := ctx.Insert(ArcConfValue(route));
    }

    method RequestBodyFilter(input: Input, ctx: GatewayContext) returns (result: HookResult)
      requires Valid() && ctx.Valid()
      modifies ctx
      ensures ctx.Valid()
      ensures var p := PlainForward(setup, RequestBody, input, old(ctx.state), Errored);
              result == p.result && ctx.state == p.ctx
    {
      ghost var m: Headers;
      result, m := PlainWalk(RequestBody, input, Ascending(|setup.chain|), false, Errored, ctx);
    }

    method ConnectedToUpstream(input: Input, ctx: GatewayContext) returns (result: HookResult)
      requires Valid() && ctx.Valid()
      modifies ctx
      ensures ctx.Valid()
      ensures var p := PlainForward(setup, UpstreamConnected, input, old(ctx.state), Errored);
              result == p.result && ctx.state == p.ctx
    {
      ghost var m: Headers;
      result, m := PlainWalk(UpstreamConnected, input, Ascending(|setup.chain|), false, Errored, ctx);
    }

    method UpstreamPeer(available: bool, ctx: GatewayContext) returns (result: HookResult, effects: seq<Effect>)
      requires Valid() && ctx.Valid()
      modifies ctx
      ensures ctx.Valid()
      ensures var p := Hooks.UpstreamPeer(setup, available, old(ctx.state));
              result == p.result && ctx.state == p.ctx && effects == p.effects
    {
      var found := ctx.Get(RequestMetaKey);
      if found.None? {
        return Panicked, [];
      }
      var meta := found.value.meta;
      if meta.upstreamId.None? {
        return Errored, [Respond(500)];
      }
      var id := meta.upstreamId.value;
      if id !in setup.upstreams {
        return Errored, [Respond(500)];
      }
      if !available {
        return Errored, [Select(id)];
      }
      var previous := ctx.GetMut(MetaValue(meta.(sni := Some(setup.upstreams[id]))));
      return Proceeded, [Select(id)];
    }

    method UpstreamRequestFilter(input: Input, message: Message, ctx: GatewayContext) returns (result: HookResult)
      requires Valid() && ctx.Valid()
      modifies ctx, message
      ensures ctx.Valid()
      ensures var p := Hooks.UpstreamRequestFilter(setup, input, old(message.headers), old(ctx.state));
              result == p.result && ctx.state == p.ctx && (result.Proceeded? ==> message.headers == p.message)
    {
      var called, end := WalkChain(setup.chain, UpstreamRequest, input, Ascending(|setup.chain|), false, ctx, message);
      if !end.Continued? {
        return AfterWalk(end, Errored);
      }
      var conf := StoredConf(setup.keys, ctx.state);
      var meta := ctx.Get(RequestMetaKey);
      if conf.None? || meta.None? {
        return Panicked;
      }
      var rules := conf.value.headers;
      var ok := message.ApplyRequestRules(rules, meta.value.meta.sni, setup.iterate(rules.addRequest));
      return if ok then Proceeded else Errored;
    }

    method UpstreamResponseFilter(input: Input, message: Message, ctx: GatewayContext) returns (result: HookResult)
      requires Valid() && ctx.Valid()
      modifies ctx, message
      ensures ctx.Valid()
      ensures var p := Hooks.UpstreamResponseFilter(setup, input, old(message.headers), old(ctx.state));
              result == p.result && ctx.state == p.ctx && (result.Proceeded? ==> message.headers == p.message)
    {
      var order := Descending(|setup.chain|);
      var called, end := WalkChain(setup.chain, UpstreamResponse, input, order, false, ctx, message);
      if !end.Continued? {
        return AfterWalk(end, Errored);
      }
      var conf := StoredConf(setup.keys, ctx.state);
      if conf.None? {
        return Panicked;
      }
      message.RemoveAllInPlace(conf.value.headers.removeResponse);
      return Proceeded;
    }

    method ResponseFilter(input: Input, message: Message, ctx: GatewayContext) returns (result: HookResult)
      requires Valid() && ctx.Valid()
      modifies ctx, message
      ensures ctx.Valid()
      ensures var p := Hooks.ResponseFilter(setup, input, old(message.headers), old(ctx.state));
              result == p.result && ctx.state == p.ctx && (result.Proceeded? ==> message.headers == p.message)
    {
      var called, end := WalkChain(setup.chain, Response, input, Descending(|setup.chain|), false, ctx, message);
      if !end.Continued? {
        return AfterWalk(end, Errored);
      }
      var conf := StoredConf(setup.keys, ctx.state);
      if conf.None? {
        return Panicked;
      }
      var additions := conf.value.headers.addResponse;
      var ok := message.AddAllInPlace(additions, setup.iterate(additions));
      return if ok then Proceeded else Errored;
    }

    method ResponseBodyFilter(input: Input, ctx: GatewayContext) returns (result: HookResult)
      requires Valid() && ctx.Valid()
      modifies ctx
      ensures ctx.Valid()
      ensures var p := Hooks.ResponseBodyFilter(setup, input, old(ctx.state));
              result == p.result && ctx.state == p.ctx
    {
      ghost var m: Headers;
      result, m := PlainWalk(ResponseBody, input, Descending(|setup.chain|), false, Errored, ctx);
    }

    method Logging(input: Input, ctx: GatewayContext) returns (result: HookResult)
      requires Valid() && ctx.Valid()
      modifies ctx
      ensures ctx.Valid()
      ensures var p := LoggingHook(setup, input, old(ctx.state));
              result == p.result && ctx.state == p.ctx
    {
      ghost var m: Headers;
      result, m := PlainWalk(Hook.Logging, input, Descending(|setup.chain|), true, Proceeded, ctx);
    }

    method FailToProxy(input: Input, error: ErrorType, readable: bool, written: bool, ctx: GatewayContext)
      returns (result: HookResult, effects: seq<Effect>)
      requires Valid() && ctx.Valid()
      modifies ctx
      ensures ctx.Valid()
      ensures var p := Hooks.FailToProxy(setup, input, error, readable, written, old(ctx.state));
              result == p.result && ctx.state == p.ctx && effects == p.effects
    {
      var m := new Message(NO_MESSAGE);
      var called, end := WalkChain(setup.chain, ErrorHook, input, Descending(|setup.chain|), true, ctx, m);
      if !end.Continued? {
        return AfterWalk(end, Proceeded), [];
      }
      var code := StatusFor(error);
      var served := false;
      effects := [];
      var page := PageFor(setup.keys, ctx.state, code);
      if page.Some? && readable && written {
        effects := effects + [ErrorPage(code)];
        served := true;
      }
      if !served {
        effects := effects + [Respond(code)];
      }
      result := Proceeded;
    }
  }
}
