# Verified model of the Pingora gateway

This project models the logic of the gateway library under `src/` and of the lesson programs
under `examples/` that hold logic of their own, and proves what they keep over all inputs, all
chunkings, all interleavings and all runs.

| file | what it models |
|---|---|
| `Hooks.dfy`, `Gateway.dfy` | the gateway hooks, as functions and in place on a live context and message |
| `Middlewares.dfy` | the middleware chain: one call, and the walk every hook makes |
| `Lifecycle.dfy` | whole requests: hooks called by the proxy engine in phases |
| `Context.dfy` | the context keyed by type |
| `Config.dfy`, `PathTable.dfy`, `Router.dfy` | route configuration, the path matcher, the compiled router |
| `Arithmetic.dfy`, `Networks.dfy`, `AccessControl.dfy` | machine words, CIDR networks, access lists |
| `RequestSize.dfy` | the request size limit |
| `HeaderRules.dfy` | header maps and the per-route header rules |
| `Text.dfy`, `Utf8.dfy`, `BodyInspection.dfy` | text helpers, lossy UTF-8 decoding, the body scan |
| `Cookies.dfy`, `LoadBalancer.dfy`, `StickySessions.dfy` | cookie extraction, hash keys, session ids |
| `QueryParams.dfy` | query rewriting |
| `InflightLimit.dfy`, `HotSwap.dfy`, `GracefulShutdown.dfy` | concurrent protocols as interleaved atomic steps |

Parts that change state in the source are classes whose methods work in place and are proved
equal to a specification function; the theorems are about those functions and about runs.
`dafny verify dfyconfig.toml` checks everything.

## What the results say

- **Requests.** The engine's calls after admission may come in any order and any number of
  times, and until a request is answered the engine may at any time report a failure of its own,
  such as a refused connection or a timeout. A middleware is arbitrary code with arbitrary
  decisions; where a result needs the gateway's own context entries to survive, the chain is
  asked to be *respectful* (it keeps the request metadata's upstream and server name, the stored
  configuration and the body count, never stores a `RouteConf`, and does not panic). The shipped
  chain is respectful. `DisrespectfulChainPanics` shows that the clause on the metadata is needed.
- **Two variants of the context keys.** The source stores `Arc<RouteConf>` and looks up
  `RouteConf`. As written every such lookup misses at every point of every run, so the first
  header hook that is not halted panics and no custom error page is ever served; with the shipped
  chain every ordinary request that is let through on a configured upstream ends that way
  (`OrdinaryRequestsAbort`, and `SomeRunAborts` gives one such run). With the key aligned, no run
  panics, and an error page is served exactly when the matched route configures it.
- **Exact conditions.** Four laws hold only under a condition, which is proved to be exact: the
  stream limit holds for limits from 1 to 2^63 + 1 (a zero limit lets an empty body through, and
  above the bound a 64-bit count can wrap to zero); cookie extraction inverts printing for
  exactly those configured names that do not read as "name=value start"; sticky ids are distinct
  for exactly the runs that issue no more than 2^64; header rewriting is independent of the hash
  map order exactly when surviving additions that differ only in case agree.
- **What is decided** is stated in the terms of the configuration, the text or the events, apart
  from the code that decides it: which routes the router is built from and which one answers
  (`AcceptedMeaning`, `DecidingRouteAnswers`, `RegexRouteAnswers`), whom the shipped chain admits
  and which body bytes pass (`ShippedAdmission`, `ShippedBody`), what a failure is answered with
  (`ShippedFailures`), and what the concurrent programs show at each point of their event sequences.
- **A found cookie value is stripped repeatedly** in the sticky-session program, so a value that
  itself starts with `session-id=` is not kept as it is, and one that is empty or becomes empty
  counts as no session at all; `ReturnedCookie` says exactly when a value is kept.
- The listing in the repository's README shows `>` for the stream limit where the code uses
  `>=`; the model follows the code.

Parameters of the model: the regular expression engine and the network parser (arbitrary
functions), which backend an upstream yields (available or not), whether a response can be
written, whether an error page can be read, random identifiers, and the order in which a hash
map yields its keys.

## Model

| member | source | states |
|---|---|---|
| `Lifecycle.AlignedRunsNeverPanic` | src/gateway.rs:196-197 | with the lookup key aligned to the stored one, every `expect` on the metadata, the route and the body count succeeds in every run of every respectful chain, also after failures the engine raises |
| `Lifecycle.AsWrittenLookupsMiss` | src/gateway.rs:231 | with the keys as written the route is not found at any point of any run; each of the three header hooks panics unless its walk is halted, and then it fails |
| `Lifecycle.ShippedHeaderHooksAbort` | src/gateway.rs:257 | with the keys as written and the shipped chain, every call of a header hook in every run panics |
| `Lifecycle.OrdinaryRequestsAbort` | src/gateway.rs:196 | with the keys as written, the run early filter, request filter, peer, connection, upstream request filter exists for every request the shipped chain lets through on a configured upstream, and ends in a panic |
| `Lifecycle.SomeRunAborts` | src/gateway.rs:196 | there is a configuration with such a run, for every body limit and every client that declares no length |
| `Lifecycle.ErrorPages` | src/gateway.rs:320-360 | every failure, raised by a hook or by the engine, is answered by nothing after a Stop; otherwise with aligned keys by the error page exactly when the matched route configures one for the status and it can be read and sent, else by the status of the error; with the keys as written never by a page. Before a match the middlewares must not store a route of their own |
| `Lifecycle.RouteIsTheAnswer` | src/gateway.rs:112-122 | after the request filter ran, the route of a run is for good what its request call matched |
| `Lifecycle.DisrespectfulChainPanics` | src/gateway.rs:104-106 | a chain that drops the request metadata early makes the request filter panic, so that clause of respectfulness is needed |
| `Lifecycle.ShippedChainIsRespectful` | src/main.rs:117-123 | the chain built at startup keeps the gateway's entries, stores no route, has passive early hooks and leaves responses alone |
| `Lifecycle.ShippedAdmission` | src/middlewares/ip_restriction.rs:46-97 | in every run of the shipped chain a request is admitted exactly when a route matches, its configured access list permits the client (or there is no list, or no IP address), and no length above the limit is declared; otherwise it is answered, or fails if the answer cannot be written |
| `Lifecycle.ShippedRecord` | src/gateway.rs:104-122 | after a match the context of the shipped gateway holds the request identifier, the matched path, the upstream and the route |
| `Lifecycle.ShippedBody` | src/middlewares/request_size.rs:59-81 | a body call of the shipped gateway goes through exactly while the bytes handed over so far stay below the limit, and fails the request otherwise |
| `Lifecycle.ShippedFailures` | src/gateway.rs:320-360 | the shipped gateway answers every failure once: 502, 504 or 500 by the kind of error, as a page exactly with aligned keys and a configured, readable, writable page |
| `Lifecycle.RequestStep` | src/gateway.rs:99-130 | a request is admitted exactly when a route matches and every `handle_request` continues, and then on the route the direct scan gives; an unmatched one is answered 404, one that a middleware stopped counts as answered, one that a middleware failed fails |
| `Lifecycle.EndStep` | src/gateway.rs:291-318 | the error and logging hooks complete for every respectful chain and all decisions, because a failing middleware counts as Continue there; the error hook also for failures the engine raises |
| `Lifecycle.HaltedHooksFail` | src/gateway.rs:160-174 | in the connection and body hooks a request goes on exactly when every middleware called continues; a Stop fails it as an error does |
| `Lifecycle.PeerFollowsAdmission` | src/gateway.rs:66-97 | in every run a peer is asked for only after an admitting request call, on the upstream of that call's route; 500 is answered exactly when that upstream is not configured; the request goes on exactly with a configured upstream that names a backend |
| `Lifecycle.SelectionsAreRouted` | src/gateway.rs:71-95 | all selections of a run are on the admitted route's upstream; if every route names a configured upstream, both 500 branches are unreachable |
| `Lifecycle.EarlyStopIsIgnored` | src/gateway.rs:141-147 | for every chain a request goes on to routing, with the context the early calls left, exactly when no early call failed or panicked, so whether one stopped makes no difference |
| `Lifecycle.ForwardedBodyStaysBelow` | src/gateway.rs:160-174 | in every run of the shipped chain the bytes let through so far equal the stored count and stay below the limit |
| `Lifecycle.HostNamesTheUpstream` | src/gateway.rs:206-210 | once a peer was chosen, a non-preserved Host of every upstream request is the server name of the admitted route's upstream |
| `Lifecycle.UpstreamRequestFields` | src/gateway.rs:177-213 | with aligned keys an upstream request goes out exactly when no middleware halts it and every addition, and the Host, can be sent; then field by field Host, removal, addition, what the middlewares left |
| `Lifecycle.ResponseGoesOn` | src/gateway.rs:215-262 | with aligned keys a response hook goes on exactly when no middleware halts it and every addition can be sent |
| `Lifecycle.ResponseAdditionsWin` | src/gateway.rs:221-261 | through both response hooks, whatever calls lie between them, field by field: an added name ends with its added value even if it is also removed |
| `Gateway.Gateway.RequestFilter` | src/gateway.rs:99-130 | the in-place hook, with the compiled router, does what the specification function over the route list says |
| `Gateway.Gateway.UpstreamPeer` | src/gateway.rs:66-97 | both 500 branches, the failed selection, and the recorded server name |
| `Gateway.Gateway.UpstreamRequestFilter` | src/gateway.rs:177-213 | chain first, then the route's rules on the same message, in place |
| `Gateway.Gateway.FailToProxy` | src/gateway.rs:301-362 | the error chain, the status mapping, and page or plain response |
| `Middlewares.WalkMeaning` | src/gateway.rs:124-129 | a hook calls exactly a prefix of its order; all but the last call go on, the last one halts exactly when the walk ends early; with `tolerant`, an error goes on |
| `Middlewares.WalkTrace` | src/gateway.rs:124-129 | each call of a walk acts on what the call before left, and the shipped middlewares act on nothing but the request and its body |
| `Middlewares.CallOrder` | src/gateway.rs:221 | request hooks call the chain from its first middleware on, response hooks from its last |
| `Middlewares.UnstoppedTracesMirror` | src/gateway.rs:221 | when nothing stops, a response hook calls the chain in the reverse of a request hook's order |
| `Middlewares.WalkChain` | src/gateway.rs:186-194 | the loop with early exit on the live context equals the walk |
| `Middlewares.WalkIsFramed` | src/gateway.rs:160-173 | a respectful chain keeps the gateway's entries, and can panic only in the body hook of a size limit whose count is missing |
| `Middlewares.Call` | src/middlewares/ip_restriction.rs:46-97 | one middleware call in place, including the shipped access and size checks |
| `Context.ContextIsOneSlotPerType` | src/context.rs:36-73 | for every sequence of operations: stored types stay right, no downcast panics, and each type behaves as one optional slot untouched by operations on other types |
| `Context.ExistsAgreesWithGet` | src/context.rs:51-72 | after any operations on a new context, `exists` is true exactly when `get` finds a value |
| `Context.WriteThenRead` | src/context.rs:43-67 | a read after an insertion gives its value, after a removal nothing, after a borrow the value written if there was one; other types see no change |
| `Context.GatewayContext.Insert` | src/context.rs:43-49 | in-place insert returns the previous value and keeps the types right |
| `Context.GatewayContext.Remove` | src/context.rs:61-67 | in-place remove returns the removed value and keeps the types right |
| `Router.New` | src/upstreams/router.rs:50-134 | construction succeeds exactly on accepted configurations with exactly the tables of the route list; a failure names the first route that cannot be added and why |
| `Router.AcceptedMeaning` | src/upstreams/router.rs:56-119 | the accepted configurations, on the texts: expressions compile, paths start with '/' and are literal or a stem with a catch-all, no two paths stand for the same pattern, every network block parses |
| `Router.MatchRequest` | src/upstreams/router.rs:136-161 | on built tables, the answer is the direct scan's, no registry lookup misses, and an answered route that lists hosts lists this one |
| `Router.OneRouteDecides` | src/upstreams/router.rs:138-140 | if any configured path covers the request path, exactly one route covers it and outranks all others that do: a literal before stems, a longer stem before a shorter |
| `Router.DecidingRouteAnswers` | src/upstreams/router.rs:138-149 | the deciding route ends the search if it is an Exact route of another text, and is otherwise the answer if it lists no hosts or this one |
| `Router.RegexRouteAnswers` | src/upstreams/router.rs:151-160 | without a deciding route that lists the host, the answer is the first Regex route that matches and lists the host, or none if there is none |
| `Router.TableAgrees` | src/upstreams/router.rs:138-140 | the path table finds the route that scanning finds |
| `Router.BestPathMeaning` | src/upstreams/router.rs:138-149 | the scanned path candidate matches and is at least as specific as every other matching path route; none means none matches |
| `Router.AnswerIgnoresPathOrder` | src/upstreams/router.rs:55-90 | answers depend only on the set of Prefix/Exact routes and the order of Regex routes |
| `Router.MovingPathRoute` | src/upstreams/router.rs:70-89 | a list with a Prefix or Exact route moved, either way, is accepted exactly when the original is, and every answer is the same |
| `Router.AppendingRegex` | src/upstreams/router.rs:151-158 | appending a Regex route changes no answer that was already a route |
| `PathTable.FindAfterInsert` | src/upstreams/router.rs:79 | inserting a new pattern changes a lookup exactly when it matches and beats the previous winner |
| `PathTable.CatchAllIsRead` | src/upstreams/router.rs:202 | a written catch-all pattern is read back as its stem |
| `PathTable.PatternMeaning` | src/upstreams/router.rs:79 | a configured path is a literal exactly when it has no braces, and a catch-all exactly when it is a stem and `{*name}` |
| `Networks.ContainsMeansPrefix` | src/middlewares/ip_restriction.rs:71 | the range test is agreement on the leading bits, for 32-bit and 128-bit addresses |
| `Networks.SplitInHalves` | src/middlewares/ip_restriction.rs:82 | a network is the disjoint union of its two halves |
| `AccessControl.BuildAcl` | src/upstreams/router.rs:92-119 | compilation succeeds exactly when every block parses, and two empty lists compile to none |
| `AccessControl.HandleRequest` | src/middlewares/ip_restriction.rs:46-97 | the two scanning loops decide as the quantified decision, with the write error and the no-address cases |
| `AccessControl.DecisionMeaning` | src/middlewares/ip_restriction.rs:70-96 | the decision on the compiled table is the one on the configuration: no deny block holds the address, and the allow list is empty or holds it |
| `AccessControl.OnlyTheBlocksMatter` | src/middlewares/ip_restriction.rs:70-96 | reordering or repeating blocks changes no decision |
| `AccessControl.SplittingIsIrrelevant` | src/middlewares/ip_restriction.rs:70-96 | replacing any network by its halves changes no decision |
| `RequestSize.LimitsTheBodyExactly` | src/middlewares/request_size.rs:66-81 | for which limits "a body passes exactly when its length is below the limit" holds for all chunkings |
| `RequestSize.RefusalPoint` | src/middlewares/request_size.rs:69-77 | forwarded bytes stay below the limit, the count below the limit plus the refused chunk |
| `RequestSize.HeaderAgainstStream` | src/middlewares/request_size.rs:41-57 | the header test refuses exactly above the limit; header and stream disagree on exactly one length |
| `RequestSize.DeclaredTooLargeMeaning` | src/middlewares/request_size.rs:43-57 | the header test refuses exactly the texts that are the decimal of a number above the limit, after zeros and one '+' at most |
| `RequestSize.RequestSizeMiddleware.HandleRequestBody` | src/middlewares/request_size.rs:59-81 | the stored count and the answer after one chunk |
| `HeaderRules.RequestRulesMeaning` | src/gateway.rs:199-210 | field by field after a request rewrite: Host, then removal, then addition, then what was there |
| `HeaderRules.RewriteSucceeds` | src/gateway.rs:199-210 | a request rewrite is refused exactly when an addition, or the Host to be set, cannot be sent |
| `HeaderRules.NameCharMeaning` | src/gateway.rs:200 | a name can be sent exactly when it is made of visible ASCII other than the delimiters of RFC 9110 |
| `Text.LowerMeaning` | src/gateway.rs:200-204 | header names fold by turning each capital letter into its small one and nothing else |
| `HeaderRules.RequestOrderIrrelevant` | src/gateway.rs:199-201 | a request rewrite is independent of the iteration order exactly when surviving case-colliding additions agree |
| `HeaderRules.ResponseOrderIrrelevant` | src/gateway.rs:259-261 | the same for responses, where every addition survives |
| `HeaderRules.ResponseRulesMeaning` | src/gateway.rs:232-234 | field by field after removal then addition on responses |
| `HeaderRules.Message.ApplyRequestRules` | src/gateway.rs:199-210 | the in-place loops equal the rewrite, including a refused name or value |
| `Utf8.DecodeOfEncode` | examples/12_body_inspection.rs:48 | the lossy decoder returns every well-formed text unchanged |
| `Utf8.IllFormedRun` | examples/12_body_inspection.rs:48 | where no character starts, the decoder replaces the longest beginning of a character, or else one byte, by one U+FFFD |
| `Utf8.AsciiSearch` | examples/12_body_inspection.rs:48-49 | for every byte string an ASCII pattern is in the decoded text exactly when it is in the bytes |
| `BodyInspection.RefusalMeaning` | examples/12_body_inspection.rs:46-54 | for every chunking: refused exactly when the whole body contains the word, at the first chunk completing an occurrence |
| `BodyInspection.RogueMeaning` | examples/12_body_inspection.rs:49 | a body contains the word exactly when it is something, the five bytes, and something |
| `BodyInspection.VerdictIgnoresChunking` | examples/12_body_inspection.rs:46-54 | two chunkings of one body get the same verdict |
| `BodyInspection.ProxyBody` | examples/12_body_inspection.rs:36-55 | feeding chunks through the filter forwards exactly the chunks before the refusal, which never contain the word |
| `BodyInspection.BodyContext.RequestBodyFilter` | examples/12_body_inspection.rs:36-55 | the buffer grows by the chunk; the filter fails exactly when a chunk came and the raw buffer contains the word |
| `Cookies.RoundTripsExactly` | src/upstreams/load_balancer.rs:96-111 | for which configured names extraction inverts printing on all lists of well-formed cookies; every name without '=' is among them |
| `Cookies.KeyMatchesName` | src/upstreams/load_balancer.rs:55-61 | a printed cookie starts with the configured key exactly when it has the configured name |
| `Cookies.ExtractionMeaning` | src/upstreams/load_balancer.rs:98-109 | of any text, well-formed or not, the first part that once trimmed starts with the key gives the value after it |
| `Text.TrimMeaning` | src/upstreams/load_balancer.rs:100 | trimming takes off white space at both ends, and all of it |
| `LoadBalancer.ExtractCookie` | src/upstreams/load_balancer.rs:98-109 | the loop with break finds the first part that starts with the key |
| `LoadBalancer.LoadBalancerCluster.HashKey` | src/upstreams/load_balancer.rs:81-126 | the hash key for every hash source, with unreadable and missing headers |
| `StickySessions.IdsAreDistinct` | examples/29_sticky_sessions.rs:48-53 | over every run new session ids are pairwise distinct exactly when no more than 2^64 are issued |
| `StickySessions.ReturnedCookie` | examples/29_sticky_sessions.rs:35-46 | a cookie returned among others is keyed by its stripped value without a new id, unless that is empty, when a new id is drawn; the value itself is the key exactly when it is not empty and does not start with the cookie key |
| `StickySessions.FirstSessionCounts` | examples/29_sticky_sessions.rs:36-46 | of any readable header the first part that starts with the key gives the session, stripped |
| `StickySessions.StripMeaning` | examples/29_sticky_sessions.rs:41 | stripping takes the key off as often as it stands at the front |
| `StickySessions.NewClientDrawsAnId` | examples/29_sticky_sessions.rs:48-53 | without a header, with an unreadable one, or with no such part, the next id is drawn and is the key |
| `StickySessions.ReturningClientSticks` | examples/29_sticky_sessions.rs:70-82 | the id sent in Set-Cookie and returned among other cookies is the key again, at any later counter, and no new id is drawn |
| `StickySessions.Balancer.UpstreamPeer` | examples/29_sticky_sessions.rs:30-55 | the in-place counter, the key and the new session of one request |
| `QueryParams.RewriteMeaning` | examples/10_query_params.rs:43-47 | the rewritten query splits into exactly the kept original parts, in order, and the tag |
| `QueryParams.RewrittenParts` | examples/10_query_params.rs:43-47 | the last part is the tag; the others are original parts in their order, none empty or starting with "debug=", and every other part as often as before; the empty query becomes just the tag |
| `QueryParams.RewriteTwice` | examples/10_query_params.rs:43-47 | rewriting again only appends one more tag |
| `QueryParams.RequestHeader.UpstreamRequestFilter` | examples/10_query_params.rs:29-58 | the rebuilt URI reads back with the same path and the rewritten query |
| `InflightLimit.LimitIsKept` | examples/38_inflight_limit.rs:29-44 | in every interleaving the counter is the number of requests that have incremented and not dropped their guard, at most the limit are past the filter, and it is zero once all have ended |
| `InflightLimit.RejectionIsJustified` | examples/38_inflight_limit.rs:34-41 | from its decision to its end a request is rejected exactly when at least the limit of others held guards at its increment, and let through otherwise |
| `InflightLimit.NobodyWaits` | examples/38_inflight_limit.rs:32-44 | whatever is in flight, each request can arrive once, decide once and drop its guard once |
| `InflightLimit.Limiter.Advance` | examples/38_inflight_limit.rs:29-44 | each atomic step in place keeps the counter equal to the number of live guards and the admitted requests within the limit |
| `HotSwap.DiscoverSeesOneBackend` | examples/35_dynamic_reconfiguration.rs:35-38 | the set is one register: every discover sees exactly the backend in force at a step between its beginning and its return, which is the last one that a task inserted, as its own request posted it, or the initial one |
| `HotSwap.AcknowledgedIsVisible` | examples/35_dynamic_reconfiguration.rs:80-88 | if a request posted a backend and was answered 200, a discover begun later sees that backend or one that another request posted and had inserted after that answer |
| `HotSwap.AdminKeepsItsPost` | examples/35_dynamic_reconfiguration.rs:72-88 | until it is closed an admin task holds exactly the backend its own request posted |
| `HotSwap.AdminFollowsItsEvents` | examples/35_dynamic_reconfiguration.rs:80-88 | how far an admin task has come is what its own events say, whatever the other tasks did |
| `HotSwap.SomeTaskCanStep` | examples/35_dynamic_reconfiguration.rs:35-88 | no deadlock: while any task is unfinished, some task can take its next step |
| `HotSwap.DiscoversAreOrdered` | examples/35_dynamic_reconfiguration.rs:35-38 | a discover begun after another returned never sees an older backend |
| `HotSwap.UpstreamState.Advance` | examples/35_dynamic_reconfiguration.rs:63-97 | each atomic step on the locked set in place keeps it, outside a writer, the one newest backend, and every returned answer one backend of the history |
| `GracefulShutdown.NoJobIsLost` | examples/03_graceful_shutdown.rs:15-48 | ids are 1..n, every started job has completed exactly once when the loop has stopped, and at most one completes after any signal event |
| `GracefulShutdown.UndisturbedLoopKeepsWorking` | examples/03_graceful_shutdown.rs:19-46 | without a signal and with the sender alive the loop never stops and completes one job with every four of its steps |
| `GracefulShutdown.LoopStopsForAReason` | examples/03_graceful_shutdown.rs:20-43 | a loop that drains or has stopped was signalled, or lost the sender, before |
| `GracefulShutdown.NoticedJobIsFinished` | examples/03_graceful_shutdown.rs:34-43 | the watch cuts into a running job exactly when it was signalled or lost its sender, and the job is still completed before the exit |
| `GracefulShutdown.SignalEndsTheLoop` | examples/03_graceful_shutdown.rs:19-46 | after the signal the loop takes at most four more steps of its own, and the fourth is the exit |
| `GracefulShutdown.LoopIsNeverStuck` | examples/03_graceful_shutdown.rs:19-46 | until the loop has exited it always has a step of its own to take, so after the signal it does end |
| `GracefulShutdown.BatchJobService.Advance` | examples/03_graceful_shutdown.rs:15-48 | each step of the loop and of the watch in place keeps the jobs numbered without gaps, completed in order, all of them at exit, at most one after the signal, and exits only after a signal or the loss of the sender |

## Left out

- Path patterns other than a literal path or a stem ending in '/' with one trailing catch-all: parameters, escapes and other wildcard positions of the path matcher are refused by the model.
- The trie inside the path matcher: it is modelled as a table of literals and a table of stems with the precedence of literal over catch-all and longer over shorter stem.
- Regular expressions and the text syntax of networks: arbitrary functions.
- Bit operations on addresses: network and broadcast addresses are computed by rounding integers, which is what the masks do.
- The proxy engine's own retry and ordering logic: any order of the hooks that respects the phases is allowed.
- ErrorPages: with aligned keys and no matched route it says nothing of chains whose own middlewares store a route configuration, which the gateway would then use.
- Upstream and connection options, TLS, HTTP/2, health checks and the balancing algorithms behind `select`: the model only knows whether a backend was found.
- Backend discovery from files, DNS and static lists, and the dispatch over selection algorithms in `src/upstreams/factory.rs`: insertion loops and a plain dispatch that would only add easy members.
- The counter of the in-flight limiter is exact for its single key; its sketch with several rows and the width of the counter are not modelled.
- Sticky requests are ordered by their atomic increments; reading the cookie and writing the response are local to a request.
- HTTP parsing of the admin connection (finding the body, resolving the address): an admin task starts with the backend it will insert, and one that fails to parse never starts.
- The `expect` on the rebuilt URI in the query program, and the length limit on header names.
- `debug` builds, where the body count would panic instead of wrapping, and 32-bit machines.
- Metrics values, log output, request identifiers' uniqueness, and the start time of a request.
- Rate limiting, caching, authentication and the other lessons, whose logic lives in libraries.
