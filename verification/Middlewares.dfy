/**
 The middleware chain.  A hook walks the chain in order, forward for request hooks and
 backward for response hooks, until a middleware stops or fails; the logging and error hooks
 take a failure for Continue.
 */
module Middlewares {
  import opened Wrappers
  import opened Arithmetic
  import opened AccessControl
  import opened Context
  import opened HeaderRules
  import opened RequestSize

  datatype Hook =
    | EarlyRequest | Request | RequestBody | UpstreamRequest | UpstreamConnected
    | UpstreamResponse | Response | ResponseBody | Logging | ErrorHook

  /** What one middleware call did; `Panicked` is a failed `expect`. */
  datatype Outcome = Continued | Stopped | Failed | Crashed

  /** What a call may read of the session; `tick` tells calls of a custom middleware apart, so
      that its decisions are arbitrary. */
  datatype Input = Input(
    client: Client, contentLength: Option<string>, chunk: Option<nat>, writable: bool, tick: nat)

  /** What a call may change: the context and the message at hand. */
  datatype Scene = Scene(ctx: TypedStore, message: Headers)

  datatype Middleware =
    | Metrics
    | IpRestriction
    | RequestSizeLimit(maxBytes: Usize)
    | Custom(act: (Hook, Input, Scene) -> (Outcome, Scene))

  function FromResult(r: Result<Decision, WriteError>): Outcome {
    match r
    case Ok(Continue) => Continued
    case Ok(Stop) => Stopped
    case Err(_) => Failed
  }

  /** The access decision of the stored route entry. */
  function AccessOutcome(ctx: TypedStore, input: Input): Outcome {
    if RouteEntryKey in ctx && !Admits(ctx[RouteEntryKey].entry.access, input.client)
    then FromResult(Refusal(input.writable))
    else Continued
  }

  /** One call of one middleware. */
  function Act(mw: Middleware, hook: Hook, input: Input, s: Scene): (Outcome, Scene) {
    match mw
    case Metrics => (Continued, s)
    case IpRestriction => (if hook.Request? then AccessOutcome(s.ctx, input) else Continued, s)
    case RequestSizeLimit(maxBytes) =>
      if hook.Request? then
        (if DeclaredTooLarge(maxBytes, input.contentLength) then FromResult(Refusal(input.writable)) else Continued,
         s.(ctx := s.ctx[RequestSizeKey := SizeValue(0)]))
      else if hook.RequestBody? then
        if RequestSizeKey !in s.ctx then (Crashed, s)
        else
          var bytesRead := s.ctx[RequestSizeKey].bytesRead;
          (if Exceeds(maxBytes, bytesRead, input.chunk) then FromResult(Refusal(input.writable)) else Continued,
           s.(ctx := s.ctx[RequestSizeKey := SizeValue(Count(bytesRead, input.chunk))]))
      else (Continued, s)
    case Custom(act) => act(hook, input, s)
  }

  /** The same call on the live context and message. */
  method Call(mw: Middleware, hook: Hook, input: Input, ctx: GatewayContext, message: Message)
    returns (outcome: Outcome)
    requires ctx.Valid()
    modifies ctx, message
    ensures ctx.Valid()
    ensures (outcome, Scene(ctx.state, message.headers))
            == Act(mw, hook, input, Scene(old(ctx.state), old(message.headers)))
  {
    match mw {
      case Metrics => outcome := Continued;
      case IpRestriction =>
        if hook.Request? {
          var found := ctx.Get(RouteEntryKey);
          var table := if found.Some? then Some(found.value.entry.access) else None;
          var r := AccessControl.HandleRequest(table, input.client, input.writable);
          outcome := FromResult(r);
        } else {
          outcome := Continued;
        }
      case RequestSizeLimit(maxBytes) =>
        var limit := new RequestSizeMiddleware(Some(maxBytes));
        if hook.Request? {
          var r := limit.HandleRequest(ctx, input.contentLength, input.writable);
          outcome := FromResult(r);
        } else if hook.RequestBody? {
          var present := ctx.Exists(RequestSizeKey);
          if !present {
            return Crashed;
          }
          var r := limit.HandleRequestBody(ctx, input.chunk, input.writable);
          outcome := FromResult(r);
        } else {
          outcome := Continued;
        }
      case Custom(act) =>
        var (o, s) := act(hook, input, Scene(ctx.state, message.headers));
        outcome, ctx.state, message.headers := o, s.ctx, s.message;
    }
  }

  // ---------- walking the chain ----------

  type Chain = seq<Middleware>

  /** The positions called with their outcomes, how the walk ended, and what it left. */
  datatype Walk = Walk(called: seq<nat>, outcomes: seq<Outcome>, end: Outcome, scene: Scene)

  /** Does a walk go on after this outcome? */
  predicate GoesOn(o: Outcome, tolerant: bool) {
    o.Continued? || (tolerant && o.Failed?)
  }

  predicate InChain(chain: Chain, order: seq<nat>) {
    forall i :: 0 <= i < |order| ==> order[i] < |chain|
  }

  function WalkAlong(chain: Chain, hook: Hook, input: Input, order: seq<nat>, tolerant: bool, s: Scene): Walk
    requires InChain(chain, order)
    decreases |order|
  {
    if order == [] then Walk([], [], Continued, s)
    else
      var (o, s1) := Act(chain[order[0]], hook, input, s);
      if GoesOn(o, tolerant) then
        var rest := WalkAlong(chain, hook, input, order[1..], tolerant, s1);
        Walk([order[0]] + rest.called, [o] + rest.outcomes, rest.end, rest.scene)
      else Walk([order[0]], [o], o, s1)
  }

  function Ascending(n: nat): (order: seq<nat>) {
    seq(n, i requires 0 <= i < n => i)
  }

  function Descending(n: nat): (order: seq<nat>) {
    seq(n, i requires 0 <= i < n => n - 1 - i)
  }

  function Forward(chain: Chain, hook: Hook, input: Input, s: Scene): Walk {
    WalkAlong(chain, hook, input, Ascending(|chain|), false, s)
  }

  function Backward(chain: Chain, hook: Hook, input: Input, tolerant: bool, s: Scene): Walk {
    WalkAlong(chain, hook, input, Descending(|chain|), tolerant, s)
  }

  lemma WalkNext(chain: Chain, hook: Hook, input: Input, order: seq<nat>, i: nat, tolerant: bool, s: Scene)
    requires InChain(chain, order) && i < |order|
    ensures var (o, s1) := Act(chain[order[i]], hook, input, s);
            var rest := WalkAlong(chain, hook, input, order[i + 1..], tolerant, s1);
            WalkAlong(chain, hook, input, order[i..], tolerant, s) ==
              if GoesOn(o, tolerant) then Walk([order[i]] + rest.called, [o] + rest.outcomes, rest.end, rest.scene)
              else Walk([order[i]], [o], o, s1)
  {
    assert order[i..][1..] == order[i + 1..];
  }

  /** The loop of every hook. */
  method WalkChain(chain: Chain, hook: Hook, input: Input, order: seq<nat>, tolerant: bool,
                   ctx: GatewayContext, message: Message)
    returns (called: seq<nat>, end: Outcome)
    requires ctx.Valid() && InChain(chain, order)
    modifies ctx, message
    ensures ctx.Valid()
    ensures var walk := WalkAlong(chain, hook, input, order, tolerant, Scene(old(ctx.state), old(message.headers)));
            called == walk.called && end == walk.end && Scene(ctx.state, message.headers) == walk.scene
  {
    called := [];
    ghost var scene := Scene(ctx.state, message.headers);
    ghost var whole := WalkAlong(chain, hook, input, order, tolerant, scene);
    assert order[0..] == order;
    for i := 0 to |order|
      invariant ctx.Valid() && scene == Scene(ctx.state, message.headers)
      invariant Continues(whole, called, WalkAlong(chain, hook, input, order[i..], tolerant, scene))
    {
      WalkNext(chain, hook, input, order, i, tolerant, scene);
      var o := Call(chain[order[i]], hook, input, ctx, message);
      scene := Scene(ctx.state, message.headers);
      called := called + [order[i]];
      if !GoesOn(o, tolerant) {
        return called, o;
      }
    }
    end := Continued;
  }

  /** A walk that has made the calls `called` and has `rest` still to do. */
  ghost predicate Continues(whole: Walk, called: seq<nat>, rest: Walk) {
    whole.called == called + rest.called && whole.end == rest.end && whole.scene == rest.scene
  }

  /** What a walk of any chain with any decisions calls: exactly the positions of its order up
      to the first outcome that halts it. */
  lemma {:induction false} WalkMeaning(
    chain: Chain, hook: Hook, input: Input, order: seq<nat>, tolerant: bool, s: Scene)
    requires InChain(chain, order)
    ensures var w := WalkAlong(chain, hook, input, order, tolerant, s);
            && w.called <= order && |w.outcomes| == |w.called|
            && (forall i :: 0 <= i < |w.outcomes| - 1 ==> GoesOn(w.outcomes[i], tolerant))
            && (w.end.Continued? ==> w.called == order && AllGoOn(w.outcomes, tolerant))
            && (!w.end.Continued? ==>
                  w.outcomes != [] && w.end == w.outcomes[|w.outcomes| - 1] && !GoesOn(w.end, tolerant))
    decreases |order|
  {
    if order != [] {
      var (o, s1) := Act(chain[order[0]], hook, input, s);
      if GoesOn(o, tolerant) {
        WalkMeaning(chain, hook, input, order[1..], tolerant, s1);
        var rest := WalkAlong(chain, hook, input, order[1..], tolerant, s1);
        var w := WalkAlong(chain, hook, input, order, tolerant, s);
        assert w.called <= order by {
          assert order == [order[0]] + order[1..];
        }
        assert w.outcomes == [o] + rest.outcomes;
        assert forall i :: 0 < i < |w.outcomes| ==> w.outcomes[i] == rest.outcomes[i - 1];
      }
    }
  }

  /** How a walk ends, in terms of what its calls answered: a failure that is not tolerated and
      a panic end it, so it has either exactly when it ends with it. */
  lemma WalkEnd(chain: Chain, hook: Hook, input: Input, order: seq<nat>, tolerant: bool, s: Scene)
    requires InChain(chain, order)
    ensures var w := WalkAlong(chain, hook, input, order, tolerant, s);
            && (w.end.Crashed? <==> Crashed in w.outcomes)
            && (w.end.Stopped? <==> Stopped in w.outcomes)
            && (w.end.Failed? <==> Failed in w.outcomes && !tolerant)
  {
    WalkMeaning(chain, hook, input, order, tolerant, s);
  }

  /** What one call of a middleware may do: custom code does as it likes, and the shipped ones act
      only on the request and its body. */
  ghost predicate Ran(mw: Middleware, hook: Hook, input: Input, before: Scene, o: Outcome, after: Scene) {
    match mw
    case Custom(act) => (o, after) == act(hook, input, before)
    case Metrics => o.Continued? && after == before
    case IpRestriction => after == before && (o.Continued? || hook.Request?)
    case RequestSizeLimit(_) =>
      && after.message == before.message
      && (forall k :: k != RequestSizeKey ==> Lookup(after.ctx, k) == Lookup(before.ctx, k))
      && (!hook.Request? && !hook.RequestBody? ==> o.Continued? && after == before)
  }

  /** A walk is a chain of calls, each on what the one before left. */
  lemma {:induction false} WalkTrace(
    chain: Chain, hook: Hook, input: Input, order: seq<nat>, tolerant: bool, s: Scene) returns (scenes: seq<Scene>)
    requires InChain(chain, order)
    ensures var w := WalkAlong(chain, hook, input, order, tolerant, s);
            && w.called <= order && |w.outcomes| == |w.called| == |scenes| - 1
            && scenes[0] == s && scenes[|scenes| - 1] == w.scene
            && forall i :: 0 <= i < |w.called| ==>
                 Ran(chain[w.called[i]], hook, input, scenes[i], w.outcomes[i], scenes[i + 1])
    decreases |order|
  {
    scenes := [s];
    if order != [] {
      var (o, s1) := Act(chain[order[0]], hook, input, s);
      assert Ran(chain[order[0]], hook, input, s, o, s1);
      assert order == [order[0]] + order[1..];
      var rest := [s1];
      if GoesOn(o, tolerant) {
        rest := WalkTrace(chain, hook, input, order[1..], tolerant, s1);
      }
      scenes := [s] + rest;
    }
  }

  /** Request hooks call the chain from its first middleware on, response hooks from its last. */
  lemma CallOrder(chain: Chain, hook: Hook, input: Input, tolerant: bool, s: Scene, i: nat)
    ensures i < |Forward(chain, hook, input, s).called| ==> Forward(chain, hook, input, s).called[i] == i < |chain|
    ensures i < |Backward(chain, hook, input, tolerant, s).called| ==>
      Backward(chain, hook, input, tolerant, s).called[i] == |chain| - 1 - i >= 0
  {
    WalkMeaning(chain, hook, input, Ascending(|chain|), false, s);
    WalkMeaning(chain, hook, input, Descending(|chain|), tolerant, s);
  }

  predicate AllGoOn(outcomes: seq<Outcome>, tolerant: bool) {
    forall i :: 0 <= i < |outcomes| ==> GoesOn(outcomes[i], tolerant)
  }

  function Reversed(s: seq<nat>): seq<nat> {
    seq(|s|, i requires 0 <= i < |s| => s[|s| - 1 - i])
  }

  /** When nothing stops, a response hook calls the chain in the reverse of the order in which
      a request hook called it. */
  lemma UnstoppedTracesMirror(
    chain: Chain, requestHook: Hook, responseHook: Hook, i: Input, j: Input, tolerant: bool, s: Scene, t: Scene)
    requires Forward(chain, requestHook, i, s).end.Continued?
    requires Backward(chain, responseHook, j, tolerant, t).end.Continued?
    ensures Backward(chain, responseHook, j, tolerant, t).called == Reversed(Forward(chain, requestHook, i, s).called)
  {
    WalkMeaning(chain, requestHook, i, Ascending(|chain|), false, s);
    WalkMeaning(chain, responseHook, j, Descending(|chain|), tolerant, t);
  }

  // ---------- what middlewares leave alone ----------

  function MetaIn(ctx: TypedStore): Option<RequestMeta> {
    if RequestMetaKey in ctx then Some(ctx[RequestMetaKey].meta) else None
  }

  /** The gateway's own entries survive: the request metadata with its upstream and server
      name, the stored configuration and the body count; no `RouteConf` appears. */
  ghost predicate Framed(before: TypedStore, after: TypedStore) {
    && (RequestMetaKey in before ==>
          && RequestMetaKey in after
          && after[RequestMetaKey].meta.upstreamId == before[RequestMetaKey].meta.upstreamId
          && after[RequestMetaKey].meta.sni == before[RequestMetaKey].meta.sni)
    && (ArcRouteConfKey in before ==> ArcRouteConfKey in after && after[ArcRouteConfKey] == before[ArcRouteConfKey])
    && (RequestSizeKey in before ==> RequestSizeKey in after)
    && (RouteConfKey !in before ==> RouteConfKey !in after)
  }

  /** A custom middleware that keeps to its own entries and does not panic. */
  ghost predicate Respectful(mw: Middleware) {
    mw.Custom? ==> forall hook, input, s: Scene ::
      var (o, s') := mw.act(hook, input, s); o != Crashed && Framed(s.ctx, s'.ctx)
  }

  ghost predicate RespectfulChain(chain: Chain) {
    forall i :: 0 <= i < |chain| ==> Respectful(chain[i])
  }

  /** Custom middlewares that never store a route configuration under its shared type. */
  ghost predicate StoresNoRoute(chain: Chain) {
    forall i, hook, input, s: Scene :: 0 <= i < |chain| && chain[i].Custom? && ArcRouteConfKey !in s.ctx ==>
      ArcRouteConfKey !in chain[i].act(hook, input, s).1.ctx
  }

  /** The chain the gateway ships with. */
  function ShippedChain(maxBytes: Usize): Chain {
    [Metrics, IpRestriction, RequestSizeLimit(maxBytes)]
  }

  predicate LimitsSize(chain: Chain) {
    exists i :: 0 <= i < |chain| && chain[i].RequestSizeLimit?
  }

  lemma ActIsFramed(mw: Middleware, hook: Hook, input: Input, s: Scene)
    requires Respectful(mw)
    ensures Framed(s.ctx, Act(mw, hook, input, s).1.ctx)
    ensures Act(mw, hook, input, s).0.Crashed? ==> mw.RequestSizeLimit? && hook.RequestBody? && RequestSizeKey !in s.ctx
  {
  }

  /** A walk of a respectful chain keeps the gateway's entries; it can only panic in the body
      hook of a size limit whose count was never stored. */
  lemma {:induction false} WalkIsFramed(
    chain: Chain, hook: Hook, input: Input, order: seq<nat>, tolerant: bool, s: Scene)
    requires InChain(chain, order) && RespectfulChain(chain)
    ensures var w := WalkAlong(chain, hook, input, order, tolerant, s);
            && Framed(s.ctx, w.scene.ctx)
            && (StoresNoRoute(chain) && ArcRouteConfKey !in s.ctx ==> ArcRouteConfKey !in w.scene.ctx)
            && (w.end.Crashed? ==> hook.RequestBody? && LimitsSize(chain) && RequestSizeKey !in s.ctx)
    decreases |order|
  {
    if order != [] {
      var mw := chain[order[0]];
      var (o, s1) := Act(mw, hook, input, s);
      ActIsFramed(mw, hook, input, s);
      if GoesOn(o, tolerant) {
        WalkIsFramed(chain, hook, input, order[1..], tolerant, s1);
      }
    }
  }

  /** After an unstopped request walk, a size limit in the chain has stored its count. */
  lemma {:induction false} RequestWalkStoresCount(chain: Chain, input: Input, order: seq<nat>, s: Scene, i: nat)
    requires InChain(chain, order) && RespectfulChain(chain)
    requires i in order && chain[i].RequestSizeLimit?
    requires WalkAlong(chain, Request, input, order, false, s).end.Continued?
    ensures RequestSizeKey in WalkAlong(chain, Request, input, order, false, s).scene.ctx
    decreases |order|
  {
    var (o, s1) := Act(chain[order[0]], Request, input, s);
    if order[0] == i {
      WalkIsFramed(chain, Request, input, order[1..], false, s1);
    } else {
      RequestWalkStoresCount(chain, input, order[1..], s1, i);
    }
  }

  lemma OnlyContinues(chain: Chain, hook: Hook, input: Input, order: seq<nat>, s: Scene)
    requires InChain(chain, order)
    ensures var w := WalkAlong(chain, hook, input, order, false, s);
            w.end.Continued? <==> forall o :: o in w.outcomes ==> o.Continued?
  {
    WalkMeaning(chain, hook, input, order, false, s);
  }

  /** A tolerant walk only ends early on a Stop. */
  lemma TolerantWalk(chain: Chain, hook: Hook, input: Input, order: seq<nat>, s: Scene)
    requires InChain(chain, order) && RespectfulChain(chain) && !hook.RequestBody?
    ensures var end := WalkAlong(chain, hook, input, order, true, s).end; end.Continued? || end.Stopped?
  {
    WalkIsFramed(chain, hook, input, order, true, s);
    WalkMeaning(chain, hook, input, order, true, s);
  }

  /** What the request walk leaves behind. */
  lemma RequestWalk(chain: Chain, input: Input, s: Scene)
    requires RespectfulChain(chain)
    ensures var w := Forward(chain, Request, input, s);
            && Framed(s.ctx, w.scene.ctx) && !w.end.Crashed?
            && (LimitsSize(chain) && w.end.Continued? ==> RequestSizeKey in w.scene.ctx)
  {
    var order := Ascending(|chain|);
    WalkIsFramed(chain, Request, input, order, false, s);
    if LimitsSize(chain) && Forward(chain, Request, input, s).end.Continued? {
      var k :| 0 <= k < |chain| && chain[k].RequestSizeLimit?;
      assert order[k] == k;
      RequestWalkStoresCount(chain, input, order, s, k);
    }
  }
}
