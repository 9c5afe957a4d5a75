/**
 Whole requests.  The proxy engine calls the gateway's hooks in phases: early filter, request
 filter, then, once the request is admitted, peer selection, connection, body and response
 hooks in any order and any number of times, an error report after a failure of a hook or of
 the engine itself, and logging.  Every theorem ranges over all such runs, all inputs and all
 middleware decisions.
 */
module Lifecycle {
  import opened Wrappers
  import opened Arithmetic
  import AccessControl
  import opened Config
  import PathTable
  import opened Router
  import opened Context
  import opened HeaderRules
  import opened Middlewares
  import opened Hooks

  datatype Call =
    | CallEarly(input: Input)
    | CallRequest(input: Input, path: string, host: Option<string>, uuid: string)
    | CallPeer(available: bool)
    | CallConnected(input: Input)
    | CallUpstreamRequest(input: Input, message: Headers)
    | CallRequestBody(input: Input)
    | CallUpstreamResponse(input: Input, message: Headers)
    | CallResponse(input: Input, message: Headers)
    | CallResponseBody(input: Input)
    | CallFailure(input: Input, error: ErrorType, readable: bool, written: bool)
    | CallLogging(input: Input)

  function Perform(g: Setup, call: Call, ctx: TypedStore): Performed
    requires ValidSetup(g)
  {
    match call
    case CallEarly(input) => PlainForward(g, EarlyRequest, input, ctx, Proceeded)
    case CallRequest(input, path, host, uuid) => RequestFilter(g, input, path, host, uuid, ctx)
    case CallPeer(available) => UpstreamPeer(g, available, ctx)
    case CallConnected(input) => PlainForward(g, UpstreamConnected, input, ctx, Errored)
    case CallUpstreamRequest(input, message) => UpstreamRequestFilter(g, input, message, ctx)
    case CallRequestBody(input) => PlainForward(g, RequestBody, input, ctx, Errored)
    case CallUpstreamResponse(input, message) => UpstreamResponseFilter(g, input, message, ctx)
    case CallResponse(input, message) => ResponseFilter(g, input, message, ctx)
    case CallResponseBody(input) => ResponseBodyFilter(g, input, ctx)
    case CallFailure(input, error, readable, written) => FailToProxy(g, input, error, readable, written, ctx)
    case CallLogging(input) => LoggingHook(g, input, ctx)
  }

  datatype Phase = Opened | Routing | Serving | Answered | Failing | Reported | Finished | Aborted

  /** `route` is the route the request matched, and `peer` says whether an upstream peer has
      been chosen. */
  datatype State = State(phase: Phase, ctx: TypedStore, effects: seq<Effect>, route: Option<RouteConf>, peer: bool)

  function Initial(): State {
    State(Opened, NewContext(), [], None, false)
  }

  /** The engine reports a failure after a hook failed, and may report one of its own (a refused
      connection, a timeout) at any time until the request is answered. */
  predicate Enabled(s: State, call: Call) {
    match call
    case CallEarly(_) => s.phase.Opened?
    case CallRequest(_, _, _, _) => s.phase.Routing?
    case CallFailure(_, _, _, _) => s.phase.Failing? || s.phase.Serving? || Unrouted(s)
    case CallLogging(_) => s.phase.Serving? || s.phase.Answered? || s.phase.Reported?
    case _ => s.phase.Serving?
  }

  /** Before the request filter has run. */
  predicate Unrouted(s: State) {
    s.phase.Opened? || s.phase.Routing?
  }

  function NextPhase(call: Call, result: HookResult): Phase {
    match result
    case Panicked => Aborted
    case Errored => Failing
    case Responded => Answered
    case Proceeded =>
      match call
      case CallEarly(_) => Routing
      case CallFailure(_, _, _, _) => Reported
      case CallLogging(_) => Finished
      case _ => Serving
  }

  function Step(g: Setup, s: State, call: Call): State
    requires ValidSetup(g)
  {
    var p := Perform(g, call, s.ctx);
    State(
      NextPhase(call, p.result), p.ctx, s.effects + p.effects,
      if call.CallRequest? then Answer(g.lib, g.routes, call.path, call.host) else s.route,
      s.peer || (call.CallPeer? && p.result.Proceeded?))
  }

  ghost predicate IsRun(g: Setup, run: seq<State>, calls: seq<Call>) {
    && ValidSetup(g)
    && |run| == |calls| + 1
    && run[0] == Initial()
    && forall i :: 0 <= i < |calls| ==> Enabled(run[i], calls[i]) && run[i + 1] == Step(g, run[i], calls[i])
  }

  // ---------- the invariant ----------

  /** What holds once a request is admitted. */
  ghost predicate ServingInv(g: Setup, s: State) {
    && s.route.Some?
    && RequestMetaKey in s.ctx
    && s.ctx[RequestMetaKey].meta.upstreamId == Some(s.route.value.upstreamId)
    && (LimitsSize(g.chain) ==> RequestSizeKey in s.ctx)
    && s.ctx[RequestMetaKey].meta.sni ==
       (if s.peer && s.route.value.upstreamId in g.upstreams then Some(g.upstreams[s.route.value.upstreamId]) else None)
    && (s.peer ==> s.route.value.upstreamId in g.upstreams)
  }

  /** What the context says of the route: never a `RouteConf`, and from the match on, whatever
      the phase, the matched configuration behind its `Arc`. */
  ghost predicate KnowsRoute(g: Setup, s: State) {
    && RouteConfKey !in s.ctx
    && (s.route.Some? ==> ArcRouteConfKey in s.ctx && s.ctx[ArcRouteConfKey] == ArcConfValue(s.route.value))
    && (s.route.None? && StoresNoRoute(g.chain) ==> ArcRouteConfKey !in s.ctx)
  }

  ghost predicate Inv(g: Setup, s: State) {
    && KnowsRoute(g, s)
    && (Unrouted(s) ==> RequestMetaKey in s.ctx && s.ctx[RequestMetaKey].meta.sni == None && !s.peer)
    && (s.phase.Serving? ==> ServingInv(g, s))
    && (forall u :: Select(u) in s.effects ==> s.route.Some? && s.route.value.upstreamId == u)
    && (Unrouted(s) ==> s.route.None? && s.effects == [])
  }

  lemma PlainKeepsServing(g: Setup, s: State, hook: Hook, input: Input, order: seq<nat>, message: Headers)
    requires RespectfulChain(g.chain) && InChain(g.chain, order) && Inv(g, s) && s.phase.Serving?
    ensures var w := WalkAlong(g.chain, hook, input, order, false, Scene(s.ctx, message));
            !w.end.Crashed? && ServingInv(g, s.(ctx := w.scene.ctx)) && KnowsRoute(g, s.(ctx := w.scene.ctx))
  {
    WalkIsFramed(g.chain, hook, input, order, false, Scene(s.ctx, message));
  }

  lemma PlainServingStep(g: Setup, s: State, call: Call)
    requires ValidSetup(g) && RespectfulChain(g.chain) && Inv(g, s) && s.phase.Serving?
    requires call.CallConnected? || call.CallRequestBody? || call.CallResponseBody?
    ensures Inv(g, Step(g, s, call)) && !Step(g, s, call).phase.Aborted?
  {
    if call.CallConnected? {
      PlainKeepsServing(g, s, UpstreamConnected, call.input, Ascending(|g.chain|), NO_MESSAGE);
    } else if call.CallRequestBody? {
      PlainKeepsServing(g, s, RequestBody, call.input, Ascending(|g.chain|), NO_MESSAGE);
    } else {
      PlainKeepsServing(g, s, ResponseBody, call.input, Descending(|g.chain|), NO_MESSAGE);
    }
  }

  lemma UpstreamRequestStep(g: Setup, s: State, call: Call)
    requires ValidSetup(g) && RespectfulChain(g.chain) && Inv(g, s) && s.phase.Serving? && call.CallUpstreamRequest?
    ensures Inv(g, Step(g, s, call))
    ensures g.keys.Aligned? ==> !Step(g, s, call).phase.Aborted?
  {
    PlainKeepsServing(g, s, UpstreamRequest, call.input, Ascending(|g.chain|), call.message);
  }

  lemma UpstreamResponseStep(g: Setup, s: State, call: Call)
    requires ValidSetup(g) && RespectfulChain(g.chain) && Inv(g, s) && s.phase.Serving? && call.CallUpstreamResponse?
    ensures Inv(g, Step(g, s, call))
    ensures g.keys.Aligned? ==> !Step(g, s, call).phase.Aborted?
  {
    PlainKeepsServing(g, s, UpstreamResponse, call.input, Descending(|g.chain|), call.message);
  }

  lemma ResponseStep(g: Setup, s: State, call: Call)
    requires ValidSetup(g) && RespectfulChain(g.chain) && Inv(g, s) && s.phase.Serving? && call.CallResponse?
    ensures Inv(g, Step(g, s, call))
    ensures g.keys.Aligned? ==> !Step(g, s, call).phase.Aborted?
  {
    PlainKeepsServing(g, s, Response, call.input, Descending(|g.chain|), call.message);
  }

  lemma PeerStep(g: Setup, s: State, call: Call)
    requires ValidSetup(g) && Inv(g, s) && Enabled(s, call) && call.CallPeer?
    ensures Inv(g, Step(g, s, call)) && !Step(g, s, call).phase.Aborted?
  {
  }

  lemma EarlyStep(g: Setup, s: State, call: Call)
    requires ValidSetup(g) && RespectfulChain(g.chain) && Inv(g, s) && Enabled(s, call) && call.CallEarly?
    ensures Inv(g, Step(g, s, call)) && !Step(g, s, call).phase.Aborted?
  {
    WalkIsFramed(g.chain, EarlyRequest, call.input, Ascending(|g.chain|), false, Scene(s.ctx, NO_MESSAGE));
  }

  /** Admission: a route matched and every middleware continued. */
  ghost predicate Admits(g: Setup, s: State, call: Call)
    requires ValidSetup(g)
  {
    && call.CallRequest? && RequestMetaKey in s.ctx
    && var i := Scan(g.lib, g.routes, call.path, call.host);
       && i.Some?
       && var routed := RoutedContext(g, i.value, call.uuid, s.ctx);
          Forward(g.chain, Request, call.input, Scene(routed, NO_MESSAGE)).end.Continued?
  }

  lemma RequestStep(g: Setup, s: State, call: Call)
    requires ValidSetup(g) && RespectfulChain(g.chain) && Inv(g, s) && Enabled(s, call) && call.CallRequest?
    ensures Inv(g, Step(g, s, call)) && !Step(g, s, call).phase.Aborted?
    ensures Step(g, s, call).phase.Serving? <==> Admits(g, s, call)
    ensures Step(g, s, call).route == Answer(g.lib, g.routes, call.path, call.host)
    ensures Step(g, s, call).route.None? ==>
      && Step(g, s, call).phase == (if call.input.writable then Answered else Failing)
      && Step(g, s, call).effects == s.effects + [Respond(404)]
    ensures Step(g, s, call).route.Some? ==> Step(g, s, call).effects == s.effects
    ensures Step(g, s, call).route.Some? && !Admits(g, s, call) ==>
      var routed := RoutedContext(g, Scan(g.lib, g.routes, call.path, call.host).value, call.uuid, s.ctx);
      var w := Forward(g.chain, Request, call.input, Scene(routed, NO_MESSAGE));
      Step(g, s, call).phase == if Stopped in w.outcomes then Answered else Failing
  {
    var i := Scan(g.lib, g.routes, call.path, call.host);
    if i.Some? {
      var routed := Scene(RoutedContext(g, i.value, call.uuid, s.ctx), NO_MESSAGE);
      RequestWalk(g.chain, call.input, routed);
      WalkEnd(g.chain, Request, call.input, Ascending(|g.chain|), false, routed);
    }
  }

  /** The walk of a hook that does nothing of its own. */
  function PlainWalk(g: Setup, call: Call, ctx: TypedStore): Walk
    requires call.CallConnected? || call.CallRequestBody? || call.CallResponseBody?
  {
    var s := Scene(ctx, NO_MESSAGE);
    match call
    case CallConnected(input) => Forward(g.chain, UpstreamConnected, input, s)
    case CallRequestBody(input) => Forward(g.chain, RequestBody, input, s)
    case CallResponseBody(input) => Backward(g.chain, ResponseBody, input, false, s)
  }

  lemma HaltedWalk(g: Setup, s: State, hook: Hook, input: Input, order: seq<nat>)
    requires RespectfulChain(g.chain) && InChain(g.chain, order) && Inv(g, s) && s.phase.Serving?
    ensures var w := WalkAlong(g.chain, hook, input, order, false, Scene(s.ctx, NO_MESSAGE));
            && AfterWalk(w.end, Errored) in {Proceeded, Errored}
            && (w.end.Continued? <==> forall o :: o in w.outcomes ==> o.Continued?)
  {
    PlainKeepsServing(g, s, hook, input, order, NO_MESSAGE);
    OnlyContinues(g.chain, hook, input, order, Scene(s.ctx, NO_MESSAGE));
  }

  /** These hooks let a request being served go on exactly when every middleware continues; a
      Stop fails it like an error does. */
  lemma HaltedHooksFail(g: Setup, s: State, call: Call)
    requires ValidSetup(g) && RespectfulChain(g.chain) && Inv(g, s) && s.phase.Serving?
    requires call.CallConnected? || call.CallRequestBody? || call.CallResponseBody?
    ensures var outcomes := PlainWalk(g, call, s.ctx).outcomes;
            Step(g, s, call).phase == if forall o :: o in outcomes ==> o.Continued? then Serving else Failing
  {
    if call.CallConnected? {
      HaltedWalk(g, s, UpstreamConnected, call.input, Ascending(|g.chain|));
    } else if call.CallRequestBody? {
      HaltedWalk(g, s, RequestBody, call.input, Ascending(|g.chain|));
    } else {
      HaltedWalk(g, s, ResponseBody, call.input, Descending(|g.chain|));
    }
  }

  /** The error and logging hooks take a failing middleware for Continue, so they always
      complete, whatever the chain decides and whoever raised the failure. */
  lemma EndStep(g: Setup, s: State, call: Call)
    requires ValidSetup(g) && RespectfulChain(g.chain) && Inv(g, s) && Enabled(s, call)
    requires call.CallFailure? || call.CallLogging?
    ensures Inv(g, Step(g, s, call))
    ensures Step(g, s, call).phase == if call.CallFailure? then Reported else Finished
  {
    var hook := if call.CallFailure? then ErrorHook else Logging;
    WalkIsFramed(g.chain, hook, call.input, Descending(|g.chain|), true, Scene(s.ctx, NO_MESSAGE));
    TolerantWalk(g.chain, hook, call.input, Descending(|g.chain|), Scene(s.ctx, NO_MESSAGE));
  }

  lemma StepKeepsInv(g: Setup, s: State, call: Call)
    requires ValidSetup(g) && RespectfulChain(g.chain) && Inv(g, s) && Enabled(s, call)
    ensures Inv(g, Step(g, s, call))
    ensures g.keys.Aligned? ==> !Step(g, s, call).phase.Aborted?
  {
    match call {
      case CallEarly(_) => EarlyStep(g, s, call);
      case CallRequest(_, _, _, _) => RequestStep(g, s, call);
      case CallPeer(_) => PeerStep(g, s, call);
      case CallFailure(_, _, _, _) => EndStep(g, s, call);
      case CallLogging(_) => EndStep(g, s, call);
      case CallUpstreamRequest(_, _) => UpstreamRequestStep(g, s, call);
      case CallUpstreamResponse(_, _) => UpstreamResponseStep(g, s, call);
      case CallResponse(_, _) => ResponseStep(g, s, call);
      case _ => PlainServingStep(g, s, call);
    }
  }

  lemma {:induction false} RunKeepsInv(g: Setup, run: seq<State>, calls: seq<Call>, i: nat)
    requires IsRun(g, run, calls) && RespectfulChain(g.chain) && i < |run|
    ensures Inv(g, run[i])
    ensures g.keys.Aligned? ==> !run[i].phase.Aborted?
  {
    if i > 0 {
      RunKeepsInv(g, run, calls, i - 1);
      StepKeepsInv(g, run[i - 1], calls[i - 1]);
    }
  }

  // ---------- context keys ----------

  /** With the lookup key aligned to the stored one, no run of any respectful chain panics:
      every `expect` on the metadata, the route and the body count succeeds. */
  lemma AlignedRunsNeverPanic(g: Setup, run: seq<State>, calls: seq<Call>, i: nat)
    requires IsRun(g, run, calls) && RespectfulChain(g.chain) && g.keys.Aligned? && i < |run|
    ensures !run[i].phase.Aborted?
  {
    RunKeepsInv(g, run, calls, i);
  }

  predicate IsHeaderCall(call: Call) {
    call.CallUpstreamRequest? || call.CallUpstreamResponse? || call.CallResponse?
  }

  /** The walk a header hook makes before it looks the route up. */
  function HeaderWalk(g: Setup, call: Call, ctx: TypedStore): Walk
    requires IsHeaderCall(call)
  {
    match call
    case CallUpstreamRequest(input, message) => Forward(g.chain, UpstreamRequest, input, Scene(ctx, message))
    case CallUpstreamResponse(input, message) => Backward(g.chain, UpstreamResponse, input, false, Scene(ctx, message))
    case CallResponse(input, message) => Backward(g.chain, Response, input, false, Scene(ctx, message))
  }

  lemma HeaderWalkIsFramed(g: Setup, call: Call, ctx: TypedStore)
    requires RespectfulChain(g.chain)
    requires IsHeaderCall(call)
    ensures Framed(ctx, HeaderWalk(g, call, ctx).scene.ctx) && !HeaderWalk(g, call, ctx).end.Crashed?
  {
    var s := Scene(ctx, call.message);
    match call {
      case CallUpstreamRequest(input, _) =>
        WalkIsFramed(g.chain, UpstreamRequest, input, Ascending(|g.chain|), false, s);
      case CallUpstreamResponse(input, _) =>
        WalkIsFramed(g.chain, UpstreamResponse, input, Descending(|g.chain|), false, s);
      case CallResponse(input, _) =>
        WalkIsFramed(g.chain, Response, input, Descending(|g.chain|), false, s);
    }
  }

  /** With the keys as written the lookups always miss, at every point of every run; a header hook
      whose walk is not halted panics, and one whose walk is halted fails. */
  lemma AsWrittenLookupsMiss(g: Setup, run: seq<State>, calls: seq<Call>, i: nat)
    requires IsRun(g, run, calls) && RespectfulChain(g.chain) && g.keys.AsWritten? && i < |run|
    ensures StoredConf(g.keys, run[i].ctx).None?
    ensures i < |calls| && IsHeaderCall(calls[i]) ==>
      run[i + 1].phase == if HeaderWalk(g, calls[i], run[i].ctx).end.Continued? then Aborted else Failing
  {
    RunKeepsInv(g, run, calls, i);
    if i < |calls| && IsHeaderCall(calls[i]) {
      HeaderWalkIsFramed(g, calls[i], run[i].ctx);
    }
  }

  lemma ShippedHeaderWalk(g: Setup, maxBytes: Usize, call: Call, ctx: TypedStore)
    requires g.chain == ShippedChain(maxBytes) && IsHeaderCall(call)
    ensures HeaderWalk(g, call, ctx).end.Continued? && HeaderWalk(g, call, ctx).scene == Scene(ctx, call.message)
  {
    var s := Scene(ctx, call.message);
    match call {
      case CallUpstreamRequest(input, _) =>
        QuietShippedWalk(maxBytes, UpstreamRequest, input, Ascending(|g.chain|), false, s);
      case CallUpstreamResponse(input, _) =>
        QuietShippedWalk(maxBytes, UpstreamResponse, input, Descending(|g.chain|), false, s);
      case CallResponse(input, _) =>
        QuietShippedWalk(maxBytes, Response, input, Descending(|g.chain|), false, s);
    }
  }

  /** Every header hook the shipped chain is called for panics with the keys as written. */
  lemma ShippedHeaderHooksAbort(g: Setup, maxBytes: Usize, run: seq<State>, calls: seq<Call>, i: nat)
    requires IsRun(g, run, calls) && g.chain == ShippedChain(maxBytes) && g.keys.AsWritten?
    requires i < |calls| && IsHeaderCall(calls[i])
    ensures run[i + 1].phase.Aborted?
  {
    AsWrittenLookupsMiss(g, run, calls, i);
    ShippedHeaderWalk(g, maxBytes, calls[i], run[i].ctx);
  }

  /** The calls of an ordinary request up to its first header hook. */
  function OrdinaryCalls(input: Input, path: string, host: Option<string>, uuid: string, message: Headers): seq<Call> {
    [CallEarly(input), CallRequest(input, path, host, uuid), CallPeer(true), CallConnected(input),
     CallUpstreamRequest(input, message)]
  }

  /** The states a sequence of calls leads through. */
  function StatesFrom(g: Setup, s: State, calls: seq<Call>): (run: seq<State>)
    requires ValidSetup(g)
    ensures |run| == |calls| + 1 && run[0] == s
    ensures forall i :: 0 <= i < |calls| ==> run[i + 1] == Step(g, run[i], calls[i])
    decreases |calls|
  {
    if calls == [] then [s] else [s] + StatesFrom(g, Step(g, s, calls[0]), calls[1..])
  }

  /** Will the shipped chain let this request through on its route? */
  ghost predicate LetThrough(g: Setup, maxBytes: Usize, input: Input, path: string, host: Option<string>) {
    var route := Answer(g.lib, g.routes, path, host);
    route.Some? && route.value.upstreamId in g.upstreams && Welcome(g, maxBytes, route.value, input)
  }

  lemma OrdinaryAdmission(g: Setup, maxBytes: Usize, s: State, call: Call)
    requires ValidSetup(g) && g.chain == ShippedChain(maxBytes)
    requires Inv(g, s) && s.phase.Routing? && call.CallRequest?
    requires LetThrough(g, maxBytes, call.input, call.path, call.host)
    ensures Step(g, s, call).phase.Serving?
  {
    var k := Scan(g.lib, g.routes, call.path, call.host);
    ShippedRequestWalk(g, maxBytes, k.value, call.uuid, s.ctx, call.input);
  }

  lemma OrdinaryConnection(g: Setup, maxBytes: Usize, s: State, input: Input)
    requires ValidSetup(g) && g.chain == ShippedChain(maxBytes)
    requires Inv(g, s) && s.phase.Serving? && s.route.value.upstreamId in g.upstreams
    ensures var chosen := Step(g, s, CallPeer(true));
            chosen.phase.Serving? && Step(g, chosen, CallConnected(input)).phase.Serving?
  {
    var chosen := Step(g, s, CallPeer(true));
    QuietShippedWalk(maxBytes, UpstreamConnected, input, Ascending(|g.chain|), false, Scene(chosen.ctx, NO_MESSAGE));
  }

  lemma OrdinaryPhases(g: Setup, maxBytes: Usize, run: seq<State>, calls: seq<Call>)
    requires ValidSetup(g) && g.chain == ShippedChain(maxBytes) && |run| == |calls| + 1 == 6 && run[0] == Initial()
    requires forall i :: 0 <= i < 5 ==> run[i + 1] == Step(g, run[i], calls[i])
    requires calls[0].CallEarly? && calls[1].CallRequest? && calls[2] == CallPeer(true) && calls[3].CallConnected?
    requires LetThrough(g, maxBytes, calls[1].input, calls[1].path, calls[1].host)
    ensures run[1].phase.Routing? && run[2].phase.Serving? && run[3].phase.Serving? && run[4].phase.Serving?
  {
    EarlyStep(g, run[0], calls[0]);
    EarlyStopIsIgnored(g, run[0], calls[0].input);
    OrdinaryAdmission(g, maxBytes, run[1], calls[1]);
    RequestStep(g, run[1], calls[1]);
    OrdinaryConnection(g, maxBytes, run[2], calls[3].input);
  }

  /** Every ordinary request that the shipped chain lets through, on any configuration, is run
      into a panic by the keys as written. */
  lemma OrdinaryRequestsAbort(
    g: Setup, maxBytes: Usize, input: Input, path: string, host: Option<string>, uuid: string, message: Headers)
    requires ValidSetup(g) && g.chain == ShippedChain(maxBytes) && g.keys.AsWritten?
    requires LetThrough(g, maxBytes, input, path, host)
    ensures var calls := OrdinaryCalls(input, path, host, uuid, message);
            var run := StatesFrom(g, Initial(), calls);
            IsRun(g, run, calls) && run[5].phase.Aborted?
  {
    var calls := OrdinaryCalls(input, path, host, uuid, message);
    var run := StatesFrom(g, Initial(), calls);
    OrdinaryPhases(g, maxBytes, run, calls);
    ShippedHeaderHooksAbort(g, maxBytes, run, calls, 4);
  }

  /** A gateway with one route, for the path "/", and a single upstream. */
  ghost function SmallSetup(keys: Keys, maxBytes: Usize): (g: Setup)
    ensures ValidSetup(g) && g.keys == keys && g.chain == ShippedChain(maxBytes)
  {
    var route := RouteConf("/", Exact, "backend", None, HeaderConf(map[], [], map[], [], false), None, None);
    var lib := Library(_ => false, (_, _) => false, _ => None);
    var upstreams := map["backend" := "backend.local"];
    Setup(keys, lib, [route], upstreams, ShippedChain(maxBytes), additions => SomeOrder(additions))
  }

  /** So there is such a run. */
  lemma SomeRunAborts(maxBytes: Usize, input: Input, message: Headers) returns (run: seq<State>, calls: seq<Call>)
    requires input.contentLength.None?
    ensures IsRun(SmallSetup(AsWritten, maxBytes), run, calls) && run[|calls|].phase.Aborted?
  {
    var g := SmallSetup(AsWritten, maxBytes);
    assert g.routes[..0] == [] && PathTable.Plain("/");
    assert BestPath(g.routes, "/") == Some(0);
    calls := OrdinaryCalls(input, "/", None, "", message);
    run := StatesFrom(g, Initial(), calls);
    OrdinaryRequestsAbort(g, maxBytes, input, "/", None, "", message);
  }

  /** Does a matched route configure an error page for the status? */
  predicate HasPage(route: Option<RouteConf>, code: int) {
    route.Some? && route.value.errorPages.Some? && code in route.value.errorPages.value
  }

  /** With the keys as written no run ever serves a custom error page.  With aligned keys a
      failure is answered with one exactly when the walk ends well, the matched route
      configures a page for the status, and it can be read and sent. */
  lemma ErrorPages(g: Setup, run: seq<State>, calls: seq<Call>, i: nat)
    requires IsRun(g, run, calls) && RespectfulChain(g.chain) && i < |calls| && calls[i].CallFailure?
    ensures var call := calls[i];
            var code := StatusFor(call.error);
            var w := Backward(g.chain, ErrorHook, call.input, true, Scene(run[i].ctx, NO_MESSAGE));
            var effects := Perform(g, call, run[i].ctx).effects;
            && (w.end.Stopped? ==> effects == [])
            && (!w.end.Stopped? && g.keys.AsWritten? ==> effects == [Respond(code)])
            && (!w.end.Stopped? && g.keys.Aligned? && (run[i].route.Some? || StoresNoRoute(g.chain)) ==>
                  effects == if HasPage(run[i].route, code) && call.readable && call.written
                             then [ErrorPage(code)] else [Respond(code)])
  {
    RunKeepsInv(g, run, calls, i);
    EndStep(g, run[i], calls[i]);
    RunKeepsInv(g, run, calls, i + 1);
    TolerantWalk(g.chain, ErrorHook, calls[i].input, Descending(|g.chain|), Scene(run[i].ctx, NO_MESSAGE));
  }

  /** The shipped chain is respectful, and its early hooks do nothing. */
  lemma ShippedChainIsRespectful(maxBytes: Usize)
    ensures RespectfulChain(ShippedChain(maxBytes)) && StoresNoRoute(ShippedChain(maxBytes))
    ensures EarlyPassive(ShippedChain(maxBytes))
    ensures LeavesResponsesAlone(ShippedChain(maxBytes))
  {
  }

  /** A middleware that drops the request metadata in the early hook. */
  const THIEF := Custom((hook: Hook, input: Input, s: Scene) =>
    (Continued, if hook.EarlyRequest? then s.(ctx := s.ctx - {RequestMetaKey}) else s))

  /** Keeping the metadata is needed: a chain that drops it makes the request filter panic,
      whatever the keys. */
  lemma DisrespectfulChainPanics(g: Setup, input: Input, path: string, host: Option<string>, uuid: string)
    requires ValidSetup(g) && g.chain == [THIEF]
    ensures Step(g, Step(g, Initial(), CallEarly(input)), CallRequest(input, path, host, uuid)).phase.Aborted?
  {
    var s := Scene(NewContext(), NO_MESSAGE);
    var order := Ascending(1);
    assert order == [0] && order[1..] == [];
    assert WalkAlong(g.chain, EarlyRequest, input, order, false, s).scene.ctx == map[];
  }

  // ---------- the body of an admitted request ----------

  /** Bytes handed to the body hook by a sequence of calls. */
  function Sent(calls: seq<Call>): nat {
    if calls == [] then 0
    else
      Sent(calls[..|calls| - 1]) + ChunkOf(calls[|calls| - 1])
  }

  function ChunkOf(call: Call): nat {
    if call.CallRequestBody? && call.input.chunk.Some? then call.input.chunk.value else 0
  }

  ghost predicate ChunksFit(calls: seq<Call>) {
    forall i :: 0 <= i < |calls| ==> ChunkOf(calls[i]) <= RequestSize.ISIZE_MAX
  }

  ghost predicate Counted(g: Setup, maxBytes: nat, s: State, sent: nat) {
    && (Unrouted(s) ==> sent == 0)
    && (s.phase.Serving? ==> sent < maxBytes && RequestSizeKey in s.ctx && s.ctx[RequestSizeKey] == SizeValue(sent))
  }

  lemma {:induction false} QuietShippedWalk(
    maxBytes: Usize, hook: Hook, input: Input, order: seq<nat>, tolerant: bool, s: Scene)
    requires InChain(ShippedChain(maxBytes), order)
    requires forall i :: 0 <= i < |order| ==> Act(ShippedChain(maxBytes)[order[i]], hook, input, s) == (Continued, s)
    ensures var w := WalkAlong(ShippedChain(maxBytes), hook, input, order, tolerant, s);
            w.end.Continued? && w.scene == s
    decreases |order|
  {
    if order != [] {
      QuietShippedWalk(maxBytes, hook, input, order[1..], tolerant, s);
    }
  }

  /** The three calls of a forward walk of the shipped chain, the last of which is the size
      limit's; the first never halts and neither of the first two changes anything. */
  lemma ShippedForward(maxBytes: Usize, hook: Hook, input: Input, s: Scene)
    ensures var w := Forward(ShippedChain(maxBytes), hook, input, s);
            var (second, _) := Act(IpRestriction, hook, input, s);
            var (third, s') := Act(RequestSizeLimit(maxBytes), hook, input, s);
            if second.Continued? then w.end == third && w.scene == s' else w.end == second && w.scene == s
  {
    var chain := ShippedChain(maxBytes);
    assert Ascending(|chain|) == [0, 1, 2];
    assert [0, 1, 2][1..] == [1, 2] && [1, 2][1..] == [2] && [2][1..] == [];
    var last := WalkAlong(chain, hook, input, [2], false, s);
    var middle := WalkAlong(chain, hook, input, [1, 2], false, s);
    var second := Act(IpRestriction, hook, input, s).0;
    assert last.end == Act(RequestSizeLimit(maxBytes), hook, input, s).0;
    assert middle.end == if second.Continued? then last.end else second;
    assert !second.Continued? ==> middle.scene == s;
  }

  lemma CountedAdmission(g: Setup, maxBytes: Usize, s: State, call: Call)
    requires ValidSetup(g) && g.chain == ShippedChain(maxBytes) && call.CallRequest? && Enabled(s, call)
    requires Step(g, s, call).phase.Serving?
    ensures RequestSizeKey in Step(g, s, call).ctx && Step(g, s, call).ctx[RequestSizeKey] == SizeValue(0)
  {
    var i := Scan(g.lib, g.routes, call.path, call.host);
    if i.Some? && RequestMetaKey in s.ctx {
      ShippedForward(maxBytes, Request, call.input, Scene(RoutedContext(g, i.value, call.uuid, s.ctx), NO_MESSAGE));
    }
  }

  lemma CountedBody(g: Setup, maxBytes: Usize, s: State, call: Call)
    requires ValidSetup(g) && g.chain == ShippedChain(maxBytes) && call.CallRequestBody? && Enabled(s, call)
    requires RequestSizeKey in s.ctx && Step(g, s, call).phase.Serving?
    ensures RequestSizeKey in Step(g, s, call).ctx
    ensures var bytesRead := s.ctx[RequestSizeKey].bytesRead;
            && Step(g, s, call).ctx[RequestSizeKey] == SizeValue(RequestSize.Count(bytesRead, call.input.chunk))
            && !RequestSize.Exceeds(maxBytes, bytesRead, call.input.chunk)
  {
    ShippedForward(maxBytes, RequestBody, call.input, Scene(s.ctx, NO_MESSAGE));
  }

  lemma CountedElsewhere(g: Setup, maxBytes: Usize, s: State, call: Call)
    requires ValidSetup(g) && g.chain == ShippedChain(maxBytes) && Enabled(s, call)
    requires s.phase.Serving? && !call.CallRequestBody? && Step(g, s, call).phase.Serving?
    requires RequestSizeKey in s.ctx
    ensures RequestSizeKey in Step(g, s, call).ctx && Step(g, s, call).ctx[RequestSizeKey] == s.ctx[RequestSizeKey]
  {
    match call {
      case CallConnected(input) =>
        QuietShippedWalk(maxBytes, UpstreamConnected, input, Ascending(|g.chain|), false, Scene(s.ctx, NO_MESSAGE));
      case CallResponseBody(input) =>
        QuietShippedWalk(maxBytes, ResponseBody, input, Descending(|g.chain|), false, Scene(s.ctx, NO_MESSAGE));
      case _ =>
        if IsHeaderCall(call) {
          ShippedHeaderWalk(g, maxBytes, call, s.ctx);
        }
    }
  }

  lemma CountedStep(g: Setup, maxBytes: Usize, s: State, call: Call, sent: nat)
    requires ValidSetup(g) && g.chain == ShippedChain(maxBytes) && Enabled(s, call)
    requires 0 < maxBytes <= RequestSize.ISIZE_MAX + 2 && ChunkOf(call) <= RequestSize.ISIZE_MAX
    requires Counted(g, maxBytes, s, sent)
    ensures Counted(g, maxBytes, Step(g, s, call), sent + ChunkOf(call))
  {
    if Step(g, s, call).phase.Serving? {
      if call.CallRequest? {
        CountedAdmission(g, maxBytes, s, call);
      } else if call.CallRequestBody? {
        CountedBody(g, maxBytes, s, call);
      } else {
        CountedElsewhere(g, maxBytes, s, call);
      }
    }
  }

  /** In every run of the shipped gateway, the body bytes an admitted request has got past the
      filters are exactly the stored count and stay below the limit. */
  lemma {:induction false} ForwardedBodyStaysBelow(g: Setup, maxBytes: Usize, run: seq<State>, calls: seq<Call>, i: nat)
    requires IsRun(g, run, calls) && g.chain == ShippedChain(maxBytes) && i < |run|
    requires 0 < maxBytes <= RequestSize.ISIZE_MAX + 2 && ChunksFit(calls)
    ensures Counted(g, maxBytes, run[i], Sent(calls[..i]))
  {
    if i > 0 {
      ForwardedBodyStaysBelow(g, maxBytes, run, calls, i - 1);
      assert calls[..i][..i - 1] == calls[..i - 1];
      CountedStep(g, maxBytes, run[i - 1], calls[i - 1], Sent(calls[..i - 1]));
    }
  }

  // ---------- what the shipped chain decides ----------

  lemma ShippedAccess(g: Setup, i: nat, uuid: string, ctx: TypedStore, input: Input)
    requires ValidSetup(g) && i < |g.routes| && RequestMetaKey in ctx
    ensures var access := g.routes[i].access;
            AccessOutcome(RoutedContext(g, i, uuid, ctx), input) ==
              if access.Some? && input.client.Inet?
                 && !AccessControl.Permitted(g.lib.parse, access.value, input.client.ip)
              then FromResult(RequestSize.Refusal(input.writable)) else Continued
  {
    assert RoutedContext(g, i, uuid, ctx)[RouteEntryKey].entry == EntryOf(g.lib, g.routes[i]);
    if input.client.Inet? {
      AccessControl.DecisionMeaning(g.lib.parse, g.routes[i].access, input.client.ip);
    }
  }

  /** May this client, with this declared length, use the route?  The client has an IP address
      only on an IP connection, and the declared length may be missing or unreadable. */
  ghost predicate Welcome(g: Setup, maxBytes: Usize, route: RouteConf, input: Input) {
    && (route.access.Some? && input.client.Inet? ==>
          AccessControl.Permitted(g.lib.parse, route.access.value, input.client.ip))
    && (input.contentLength.Some? ==>
          forall n: nat :: RequestSize.Declares(input.contentLength.value, n) ==> n <= maxBytes)
  }

  lemma ShippedRequestWalk(g: Setup, maxBytes: Usize, i: nat, uuid: string, ctx: TypedStore, input: Input)
    requires ValidSetup(g) && i < |g.routes| && RequestMetaKey in ctx
    ensures var w := Forward(ShippedChain(maxBytes), Request, input, Scene(RoutedContext(g, i, uuid, ctx), NO_MESSAGE));
            w.end == if Welcome(g, maxBytes, g.routes[i], input) then Continued
                     else FromResult(RequestSize.Refusal(input.writable))
  {
    ShippedAccess(g, i, uuid, ctx, input);
    RequestSize.DeclaredTooLargeMeaning(maxBytes, input.contentLength);
    ShippedForward(maxBytes, Request, input, Scene(RoutedContext(g, i, uuid, ctx), NO_MESSAGE));
  }

  /** In every run of the shipped gateway a request is admitted exactly when a route matches, the
      route's access list permits the client, and no length above the limit is declared.  It is
      otherwise answered, or fails if the answer cannot be written. */
  lemma ShippedAdmission(g: Setup, maxBytes: Usize, run: seq<State>, calls: seq<Call>, i: nat)
    requires IsRun(g, run, calls) && g.chain == ShippedChain(maxBytes) && i < |calls| && calls[i].CallRequest?
    ensures var call := calls[i];
            var route := Answer(g.lib, g.routes, call.path, call.host);
            run[i + 1].phase ==
              if route.Some? && Welcome(g, maxBytes, route.value, call.input) then Serving
              else if call.input.writable then Answered else Failing
  {
    var call := calls[i];
    RunKeepsInv(g, run, calls, i);
    RequestStep(g, run[i], call);
    var k := Scan(g.lib, g.routes, call.path, call.host);
    if k.Some? {
      ShippedRequestWalk(g, maxBytes, k.value, call.uuid, run[i].ctx, call.input);
    }
  }

  /** The context records the request and its route for whoever comes later. */
  lemma ShippedRecord(g: Setup, maxBytes: Usize, run: seq<State>, calls: seq<Call>, i: nat)
    requires IsRun(g, run, calls) && g.chain == ShippedChain(maxBytes) && i < |calls| && calls[i].CallRequest?
    requires Answer(g.lib, g.routes, calls[i].path, calls[i].host).Some?
    ensures var route := Answer(g.lib, g.routes, calls[i].path, calls[i].host).value;
            var ctx := run[i + 1].ctx;
            && RequestMetaKey in ctx && RouteEntryKey in ctx && ArcRouteConfKey in ctx
            && ctx[RequestMetaKey].meta == RequestMeta(calls[i].uuid, Some(route.path), Some(route.upstreamId), None)
            && ctx[RouteEntryKey].entry.conf == ctx[ArcRouteConfKey].conf == route
  {
    RunKeepsInv(g, run, calls, i);
    var k := Scan(g.lib, g.routes, calls[i].path, calls[i].host);
    var routed := RoutedContext(g, k.value, calls[i].uuid, run[i].ctx);
    ShippedForward(maxBytes, Request, calls[i].input, Scene(routed, NO_MESSAGE));
    assert run[i + 1].ctx == routed || run[i + 1].ctx == routed[RequestSizeKey := SizeValue(0)];
  }

  /** A body call of an admitted request goes through exactly while the bytes handed over so far,
      its own included, stay below the limit; a call without data always does. */
  lemma ShippedBody(g: Setup, maxBytes: Usize, run: seq<State>, calls: seq<Call>, i: nat)
    requires IsRun(g, run, calls) && g.chain == ShippedChain(maxBytes) && i < |calls| && calls[i].CallRequestBody?
    requires 0 < maxBytes <= RequestSize.ISIZE_MAX + 2 && ChunksFit(calls)
    ensures run[i + 1].phase ==
            if calls[i].input.chunk.None? || Sent(calls[..i + 1]) < maxBytes then Serving else Failing
  {
    ForwardedBodyStaysBelow(g, maxBytes, run, calls, i);
    assert calls[..i + 1][..i] == calls[..i];
    ShippedForward(maxBytes, RequestBody, calls[i].input, Scene(run[i].ctx, NO_MESSAGE));
  }

  /** Outside the request and its body the shipped middlewares never interfere. */
  lemma ShippedHooksContinue(
    maxBytes: Usize, hook: Hook, input: Input, order: seq<nat>, tolerant: bool, s: Scene)
    requires InChain(ShippedChain(maxBytes), order) && !hook.Request? && !hook.RequestBody?
    ensures var w := WalkAlong(ShippedChain(maxBytes), hook, input, order, tolerant, s);
            w.end.Continued? && w.scene == s
  {
    QuietShippedWalk(maxBytes, hook, input, order, tolerant, s);
  }

  /** In the shipped gateway every failure is answered once: 502 for a failed connection, 504 for
      a timeout and 500 otherwise, as a page exactly with aligned keys and a page configured by
      the matched route that can be read and sent. */
  lemma ShippedFailures(g: Setup, maxBytes: Usize, run: seq<State>, calls: seq<Call>, i: nat, code: int)
    requires IsRun(g, run, calls) && g.chain == ShippedChain(maxBytes) && i < |calls| && calls[i].CallFailure?
    requires calls[i].error in {ConnectRefused, ConnectNoRoute, BindError} ==> code == 502
    requires calls[i].error in {ReadTimedout, ConnectTimedout} ==> code == 504
    requires calls[i].error.OtherError? ==> code == 500
    ensures run[i + 1].phase.Reported?
    ensures run[i + 1].effects == run[i].effects +
              if g.keys.Aligned? && HasPage(run[i].route, code) && calls[i].readable && calls[i].written
              then [ErrorPage(code)] else [Respond(code)]
  {
    RunKeepsInv(g, run, calls, i);
    EndStep(g, run[i], calls[i]);
    ErrorPages(g, run, calls, i);
    var order := Descending(|g.chain|);
    ShippedHooksContinue(maxBytes, ErrorHook, calls[i].input, order, true, Scene(run[i].ctx, NO_MESSAGE));
  }

  // ---------- peer selection ----------

  /** Once the request filter has run, the route stays. */
  lemma {:induction false} RouteIsKept(g: Setup, run: seq<State>, calls: seq<Call>, i: nat, j: nat)
    requires IsRun(g, run, calls) && i <= j < |run| && !Unrouted(run[i])
    ensures run[j].route == run[i].route && !Unrouted(run[j])
  {
    if i < j {
      RouteIsKept(g, run, calls, i, j - 1);
    }
  }

  /** The route of a run is what its only request call matched. */
  lemma RouteIsTheAnswer(g: Setup, run: seq<State>, calls: seq<Call>, i: nat, j: nat)
    requires IsRun(g, run, calls) && RespectfulChain(g.chain) && j < i < |run| && calls[j].CallRequest?
    ensures run[i].route == Answer(g.lib, g.routes, calls[j].path, calls[j].host)
  {
    RunKeepsInv(g, run, calls, j);
    RequestStep(g, run[j], calls[j]);
    RouteIsKept(g, run, calls, j + 1, i);
  }

  /** The request call that admitted a request being served. */
  lemma {:induction false} AdmittedAt(g: Setup, run: seq<State>, calls: seq<Call>, i: nat) returns (j: nat)
    requires IsRun(g, run, calls) && RespectfulChain(g.chain) && i < |run| && run[i].phase.Serving?
    ensures j < i && Admits(g, run[j], calls[j])
    ensures run[i].route == Answer(g.lib, g.routes, calls[j].path, calls[j].host)
  {
    RunKeepsInv(g, run, calls, i - 1);
    if calls[i - 1].CallRequest? {
      j := i - 1;
      RequestStep(g, run[j], calls[j]);
    } else {
      j := AdmittedAt(g, run, calls, i - 1);
    }
  }

  /** A peer is asked for only after a route matched and every middleware continued, and only
      on the upstream that route names; when that upstream is configured the two 500 branches
      are unreachable. */
  lemma PeerFollowsAdmission(g: Setup, run: seq<State>, calls: seq<Call>, i: nat) returns (j: nat)
    requires IsRun(g, run, calls) && RespectfulChain(g.chain) && i < |calls| && calls[i].CallPeer?
    ensures j < i && Admits(g, run[j], calls[j]) && run[i].route.Some?
    ensures var route := Answer(g.lib, g.routes, calls[j].path, calls[j].host);
            route.Some? && Perform(g, calls[i], run[i].ctx).effects ==
              if route.value.upstreamId in g.upstreams then [Select(route.value.upstreamId)] else [Respond(500)]
    ensures run[i + 1].phase ==
            if run[i].route.value.upstreamId in g.upstreams && calls[i].available then Serving else Failing
  {
    RunKeepsInv(g, run, calls, i);
    j := AdmittedAt(g, run, calls, i);
  }

  /** Over a whole run every selection is on the upstream of the admitted route, and if every
      route names a configured upstream, no peer call answers 500. */
  lemma SelectionsAreRouted(g: Setup, run: seq<State>, calls: seq<Call>, i: nat)
    requires IsRun(g, run, calls) && RespectfulChain(g.chain) && i < |run|
    ensures forall u :: Select(u) in run[i].effects ==> run[i].route.Some? && run[i].route.value.upstreamId == u
    ensures (forall k :: 0 <= k < |g.routes| ==> g.routes[k].upstreamId in g.upstreams)
            && i < |calls| && calls[i].CallPeer? ==>
              Respond(500) !in Perform(g, calls[i], run[i].ctx).effects
  {
    RunKeepsInv(g, run, calls, i);
    if i < |calls| && calls[i].CallPeer? {
      var j := PeerFollowsAdmission(g, run, calls, i);
    }
  }

  /** Early hooks that answer Continue or Stop and change nothing. */
  ghost predicate EarlyPassive(chain: Chain) {
    forall k, input, s: Scene :: 0 <= k < |chain| ==>
      var (o, s') := Act(chain[k], EarlyRequest, input, s); s' == s && (o.Continued? || o.Stopped?)
  }

  lemma {:induction false} PassiveWalk(chain: Chain, input: Input, order: seq<nat>, s: Scene)
    requires InChain(chain, order) && EarlyPassive(chain)
    ensures var w := WalkAlong(chain, EarlyRequest, input, order, false, s);
            w.scene == s && (w.end.Continued? || w.end.Stopped?)
    decreases |order|
  {
    if order != [] {
      var (o, s1) := Act(chain[order[0]], EarlyRequest, input, s);
      if GoesOn(o, false) {
        PassiveWalk(chain, input, order[1..], s1);
      }
    }
  }

  /** A Stop in the early hook does not keep the request from routing: for every chain it goes
      on, with the context the calls left, exactly when none of them failed or panicked. */
  lemma EarlyStopIsIgnored(g: Setup, s: State, input: Input)
    requires ValidSetup(g)
    ensures var w := Forward(g.chain, EarlyRequest, input, Scene(s.ctx, NO_MESSAGE));
            var next := Step(g, s, CallEarly(input));
            && (next.phase.Routing? <==> Failed !in w.outcomes && Crashed !in w.outcomes)
            && (next.phase.Routing? ==> next == s.(phase := Routing, ctx := w.scene.ctx))
            && (next.phase.Failing? <==> Failed in w.outcomes)
    ensures EarlyPassive(g.chain) ==> Step(g, s, CallEarly(input)) == s.(phase := Routing)
  {
    var order := Ascending(|g.chain|);
    WalkEnd(g.chain, EarlyRequest, input, order, false, Scene(s.ctx, NO_MESSAGE));
    if EarlyPassive(g.chain) {
      PassiveWalk(g.chain, input, order, Scene(s.ctx, NO_MESSAGE));
    }
  }

  // ---------- headers ----------

  /** With aligned keys, every upstream request that goes out after a peer was chosen carries,
      unless Host is preserved, the server name of the admitted route's upstream as Host. */
  lemma HostNamesTheUpstream(g: Setup, run: seq<State>, calls: seq<Call>, i: nat)
    requires IsRun(g, run, calls) && RespectfulChain(g.chain) && g.keys.Aligned?
    requires i < |calls| && calls[i].CallUpstreamRequest? && run[i].peer && run[i + 1].phase.Serving?
    ensures run[i].route.Some? && run[i].route.value.upstreamId in g.upstreams
    ensures !run[i].route.value.headers.preserveHost ==>
              Field(Perform(g, calls[i], run[i].ctx).message, "host") == [g.upstreams[run[i].route.value.upstreamId]]
  {
    RunKeepsInv(g, run, calls, i);
    HostName();
    HeaderWalkIsFramed(g, calls[i], run[i].ctx);
  }

  /** With aligned keys an upstream request goes out exactly when no middleware halts the hook and
      all that is to be set can be sent, and then field by field: the server name as Host unless
      it is preserved, then removal, then addition, then what the middlewares left. */
  lemma UpstreamRequestFields(g: Setup, run: seq<State>, calls: seq<Call>, i: nat, name: string)
    requires IsRun(g, run, calls) && RespectfulChain(g.chain) && g.keys.Aligned?
    requires i < |calls| && calls[i].CallUpstreamRequest?
    ensures run[i].route.Some? && (run[i].peer ==> run[i].route.value.upstreamId in g.upstreams)
    ensures var route := run[i].route.value;
            var rules := route.headers;
            var order := g.iterate(rules.addRequest);
            var w := HeaderWalk(g, calls[i], run[i].ctx);
            var setsHost := run[i].peer && !rules.preserveHost;
            && IsOrder(order, rules.addRequest)
            && run[i + 1].phase == (
                 if w.end.Continued? && ValidAdditions(rules.addRequest)
                    && (setsHost ==> ValidValue(g.upstreams[route.upstreamId]))
                 then Serving else Failing)
            && (run[i + 1].phase.Serving? ==>
                  Field(Perform(g, calls[i], run[i].ctx).message, name) ==
                  if name == "host" && setsHost then [g.upstreams[route.upstreamId]]
                  else if Removed(rules.removeRequest, name) then []
                  else match LastAdded(rules.addRequest, order, name)
                       case Some(v) => [v]
                       case None => Field(w.scene.message, name))
  {
    RunKeepsInv(g, run, calls, i);
    HeaderWalkIsFramed(g, calls[i], run[i].ctx);
    var w := HeaderWalk(g, calls[i], run[i].ctx);
    var rules := run[i].route.value.headers;
    var order := g.iterate(rules.addRequest);
    var sni := w.scene.ctx[RequestMetaKey].meta.sni;
    RewriteSucceeds(rules, sni, order, w.scene.message);
    if run[i + 1].phase.Serving? {
      RequestRulesMeaning(rules, sni, order, w.scene.message, name);
    }
  }

  /** Response hooks that do not touch the message. */
  ghost predicate LeavesResponsesAlone(chain: Chain) {
    forall k, hook: Hook, input, s: Scene :: 0 <= k < |chain| && (hook.UpstreamResponse? || hook.Response?) ==>
      Act(chain[k], hook, input, s).1.message == s.message
  }

  lemma {:induction false} QuietWalk(chain: Chain, hook: Hook, input: Input, order: seq<nat>, s: Scene)
    requires InChain(chain, order) && LeavesResponsesAlone(chain) && (hook.UpstreamResponse? || hook.Response?)
    ensures WalkAlong(chain, hook, input, order, false, s).scene.message == s.message
    decreases |order|
  {
    if order != [] {
      var (o, s1) := Act(chain[order[0]], hook, input, s);
      if GoesOn(o, false) {
        QuietWalk(chain, hook, input, order[1..], s1);
      }
    }
  }

  /** The message a response hook produces, with aligned keys and middlewares that leave it. */
  lemma ResponseMessages(g: Setup, s: State, call: Call)
    requires ValidSetup(g) && RespectfulChain(g.chain) && LeavesResponsesAlone(g.chain) && g.keys.Aligned?
    requires Inv(g, s) && s.phase.Serving? && Step(g, s, call).phase.Serving?
    requires call.CallUpstreamResponse? || call.CallResponse?
    ensures var rules := s.route.value.headers;
            && IsOrder(g.iterate(rules.addResponse), rules.addResponse)
            && Some(Perform(g, call, s.ctx).message) ==
               if call.CallUpstreamResponse? then Some(RemoveAll(call.message, rules.removeResponse))
               else AddAll(call.message, rules.addResponse, g.iterate(rules.addResponse))
  {
    var hook := if call.CallResponse? then Response else UpstreamResponse;
    HeaderWalkIsFramed(g, call, s.ctx);
    QuietWalk(g.chain, hook, call.input, Descending(|g.chain|), Scene(s.ctx, call.message));
  }

  /** With aligned keys a response hook lets the response go on exactly when no middleware halts it
      and all that is to be added can be sent; otherwise the request fails. */
  lemma ResponseGoesOn(g: Setup, run: seq<State>, calls: seq<Call>, i: nat)
    requires IsRun(g, run, calls) && RespectfulChain(g.chain) && g.keys.Aligned?
    requires i < |calls| && (calls[i].CallUpstreamResponse? || calls[i].CallResponse?)
    ensures run[i].route.Some?
    ensures run[i + 1].phase ==
            if HeaderWalk(g, calls[i], run[i].ctx).end.Continued?
               && (calls[i].CallResponse? ==> ValidAdditions(run[i].route.value.headers.addResponse))
            then Serving else Failing
  {
    RunKeepsInv(g, run, calls, i);
    HeaderWalkIsFramed(g, calls[i], run[i].ctx);
    var additions := run[i].route.value.headers.addResponse;
    AdditionsSucceed(HeaderWalk(g, calls[i], run[i].ctx).scene.message, additions, g.iterate(additions));
  }

  /** With aligned keys, a response that passes both response hooks ends with each configured
      addition in place, also for a removed name; any calls may lie between the two hooks. */
  lemma ResponseAdditionsWin(g: Setup, run: seq<State>, calls: seq<Call>, i: nat, j: nat, name: string)
    requires IsRun(g, run, calls) && RespectfulChain(g.chain) && LeavesResponsesAlone(g.chain) && g.keys.Aligned?
    requires i < j < |calls| && calls[i].CallUpstreamResponse? && calls[j].CallResponse?
    requires calls[j].message == Perform(g, calls[i], run[i].ctx).message
    requires run[i + 1].phase.Serving? && run[j + 1].phase.Serving?
    requires run[i].route.Some? && ValidAdditions(run[i].route.value.headers.addResponse)
    ensures var rules := run[i].route.value.headers;
            var order := g.iterate(rules.addResponse);
            && IsOrder(order, rules.addResponse)
            && Field(Perform(g, calls[j], run[j].ctx).message, name) ==
               match LastAdded(rules.addResponse, order, name)
               case Some(v) => [v]
               case None => if Removed(rules.removeResponse, name) then [] else Field(calls[i].message, name)
  {
    RunKeepsInv(g, run, calls, i);
    RunKeepsInv(g, run, calls, j);
    RouteIsKept(g, run, calls, i, j);
    var rules := run[i].route.value.headers;
    ResponseMessages(g, run[i], calls[i]);
    ResponseMessages(g, run[j], calls[j]);
    ResponseRulesMeaning(rules, g.iterate(rules.addResponse), calls[i].message, name);
  }
}
