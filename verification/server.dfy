/** The handler registry of src/server.ts.

    A `Server` records the endpoints still waiting for a handler, in the
    API's order, and the handlers bound so far, in binding order. The source
    tracks the unimplemented endpoints in the type of the server so that
    binding an id twice, binding an unknown id, or finishing an incomplete
    server does not type-check; here those type-level conditions are
    preconditions, and the bookkeeping they guarantee is proved. */
module Server {
  import opened ApiModel

  // ---------------------------------------------------------------------
  // Handlers

  /** A service a handler still needs (`Context.Tag` identifier). */
  datatype Tag = Tag(name: string)

  /** A provision step applied to every bound handler: a layer that builds
      the services `supplies` out of the services `needs`, or one service
      value for one tag. */
  datatype Provision =
    | LayerProvision(layer: nat, supplies: set<Tag>, needs: set<Tag>)
    | ServiceProvision(tag: Tag, service: nat)

  /** A handler function, opaque except for the services it requires (the
      `R` parameter of its effect). Provision wraps it without looking in. */
  datatype HandlerFn =
    | Implementation(token: nat, requirements: set<Tag>)
    | Provided(inner: HandlerFn, provision: Provision)

  /** The services a handler function still requires, as its type says. For
      a layer, every requirement the layer supplies is replaced by the
      layer's own requirements (`_R extends R ? R0 : _R`, distributed over
      the members of `_R`); a service removes its tag (`Exclude`). */
  function Needs(fn: HandlerFn): set<Tag> {
    match fn
    case Implementation(_, req) => req
    case Provided(inner, LayerProvision(_, supplies, needs)) =>
      var req := Needs(inner);
      (req - supplies) + (if req * supplies != {} then needs else {})
    case Provided(inner, ServiceProvision(tag, _)) => Needs(inner) - {tag}
  }

  datatype Handler = Handler(fn: HandlerFn, endpoint: Endpoint)

  datatype Logger = PrettyLogger | JsonLogger | DefaultLogger | NoneLogger | CustomLogger(token: nat)

  datatype ValidationErrorFormatter = DefaultFormatterServer | CustomFormatter(token: nat)

  datatype Server = Server(
    unimplemented: seq<Endpoint>,
    handlers: seq<Handler>,
    api: Api,
    logger: Logger,
    formatter: ValidationErrorFormatter)

  function HandlerEndpoints(hs: seq<Handler>): seq<Endpoint> {
    seq(|hs|, i requires 0 <= i < |hs| => hs[i].endpoint)
  }

  function HandlerIds(hs: seq<Handler>): set<string> {
    Ids(HandlerEndpoints(hs))
  }

  /** The registry invariant: with distinct API ids, every API endpoint is
      either still unimplemented or bound to exactly one handler, never
      both, and nothing else is in either list. */
  predicate Partitioned(s: Server) {
    && UniqueIds(s.api.endpoints)
    && UniqueIds(s.unimplemented)
    && UniqueIds(HandlerEndpoints(s.handlers))
    && (forall e :: e in s.unimplemented ==> e in s.api.endpoints)
    && (forall h :: h in s.handlers ==> h.endpoint in s.api.endpoints)
    && Ids(s.unimplemented) !! HandlerIds(s.handlers)
    && Ids(s.unimplemented) + HandlerIds(s.handlers) == Ids(s.api.endpoints)
    && |s.handlers| + |s.unimplemented| == |s.api.endpoints|
  }

  // ---------------------------------------------------------------------
  // server

  /** `server(api)`: nothing implemented yet, no handlers, the pretty logger
      and the default validation error formatter. */
  function NewServer(api: Api): (r: Server)
    ensures r.unimplemented == api.endpoints
    ensures r.handlers == []
    ensures r.api == api
    ensures r.logger == PrettyLogger && r.formatter == DefaultFormatterServer
  {
    Server(api.endpoints, [], api, PrettyLogger, DefaultFormatterServer)
  }

  /** A fresh server over an API with distinct ids satisfies the registry
      invariant. */
  lemma NewServerPartitioned(api: Api)
    requires UniqueIds(api.endpoints)
    ensures Partitioned(NewServer(api))
  {
  }

  // ---------------------------------------------------------------------
  // handle

  /** The index of the first endpoint with `id` (`find`). */
  function FirstWithId(es: seq<Endpoint>, id: string): (i: nat)
    requires id in Ids(es)
    ensures i < |es| && es[i].id == id
    ensures forall j :: 0 <= j < i ==> es[j].id != id
  {
    if es[0].id == id then 0
    else
      assert id in Ids(es[1..]) by {
        var e :| e in es && e.id == id;
        var k :| 0 <= k < |es| && es[k] == e;
        assert es[1..][k - 1] == e;
      }
      1 + FirstWithId(es[1..], id)
  }

  /** The runtime `filter`: every endpoint with `id` is dropped. */
  function Without(es: seq<Endpoint>, id: string): (r: seq<Endpoint>)
    ensures forall e :: e in r <==> e in es && e.id != id
    ensures |r| <= |es|
  {
    if es == [] then []
    else if es[0].id == id then Without(es[1..], id)
    else [es[0]] + Without(es[1..], id)
  }

  /** The type-level `DropEndpoint`: only the first endpoint with `id` is
      dropped. */
  function DropEndpoint(es: seq<Endpoint>, id: string): seq<Endpoint> {
    if es == [] then []
    else if es[0].id == id then es[1..]
    else [es[0]] + DropEndpoint(es[1..], id)
  }

  /** `handle(id, fn)(server)`. The id must be one of the unimplemented ones
      (`Id extends ServerUnimplementedIds<S>`). */
  function Handle(s: Server, id: string, fn: HandlerFn): (r: Server)
    requires id in Ids(s.unimplemented)
    ensures r.unimplemented == Without(s.unimplemented, id)
    ensures Ids(r.unimplemented) == Ids(s.unimplemented) - {id}
    ensures |r.handlers| == |s.handlers| + 1
    ensures r.handlers[..|s.handlers|] == s.handlers
    ensures r.handlers[|s.handlers|].fn == fn
    ensures exists k ::
      && 0 <= k < |s.unimplemented|
      && r.handlers[|s.handlers|].endpoint == s.unimplemented[k]
      && s.unimplemented[k].id == id
      && (forall j :: 0 <= j < k ==> s.unimplemented[j].id != id)
    ensures r.api == s.api && r.logger == s.logger && r.formatter == s.formatter
  {
    var k := FirstWithId(s.unimplemented, id);
    var r := s.(unimplemented := Without(s.unimplemented, id),
                handlers := s.handlers + [Handler(fn, s.unimplemented[k])]);
    assert r.handlers[..|s.handlers|] == s.handlers;
    r
  }

  /** Filtering distributes over concatenation, so it keeps the surviving
      endpoints in their original relative order. */
  lemma {:induction false} WithoutConcat(a: seq<Endpoint>, b: seq<Endpoint>, id: string)
    ensures Without(a + b, id) == Without(a, id) + Without(b, id)
    decreases a
  {
    if a == [] {
      assert a + b == b;
    } else {
      assert (a + b)[0] == a[0];
      assert (a + b)[1..] == a[1..] + b;
      WithoutConcat(a[1..], b, id);
    }
  }

  /** A sequence with no endpoint carrying `id` is left unchanged by the
      filter and by `DropEndpoint`. */
  lemma {:induction false} AbsentIdUnchanged(es: seq<Endpoint>, id: string)
    requires id !in Ids(es)
    ensures Without(es, id) == es
    ensures DropEndpoint(es, id) == es
    decreases es
  {
    if es != [] {
      assert es[0] in es;
      assert Ids(es[1..]) <= Ids(es) by {
        forall x | x in Ids(es[1..]) ensures x in Ids(es) {
          var e :| e in es[1..] && e.id == x;
          assert e in es;
        }
      }
      AbsentIdUnchanged(es[1..], id);
      assert es == [es[0]] + es[1..];
    }
  }

  lemma TailIds(es: seq<Endpoint>)
    requires es != []
    ensures Ids(es) == {es[0].id} + Ids(es[1..])
  {
  }

  /** In a sequence with distinct ids, the head's id does not occur in the
      tail, and the tail has distinct ids. */
  lemma UniqueTail(es: seq<Endpoint>)
    requires UniqueIds(es) && es != []
    ensures es[0].id !in Ids(es[1..])
    ensures UniqueIds(es[1..])
  {
  }

  lemma UniqueCons(e: Endpoint, t: seq<Endpoint>)
    requires e.id !in Ids(t) && UniqueIds(t)
    ensures UniqueIds([e] + t)
  {
  }

  /** With distinct ids, the type-level `DropEndpoint` (first match only)
      and the runtime filter (all matches) agree. */
  lemma {:induction false} DropEndpointMatchesFilter(es: seq<Endpoint>, id: string)
    requires UniqueIds(es)
    ensures DropEndpoint(es, id) == Without(es, id)
    decreases es
  {
    if es != [] {
      UniqueTail(es);
      if es[0].id == id {
        AbsentIdUnchanged(es[1..], id);
      } else {
        DropEndpointMatchesFilter(es[1..], id);
      }
    }
  }

  /** Without distinct ids the two differ: the type would keep a duplicate
      that the runtime filter removes. */
  lemma DropEndpointDiffersOnDuplicates(e: Endpoint)
    ensures DropEndpoint([e, e], e.id) == [e]
    ensures Without([e, e], e.id) == []
  {
  }

  /** Filtering a sequence with distinct ids keeps them distinct and, when
      the id occurs, removes exactly one endpoint. */
  lemma {:induction false} WithoutUnique(es: seq<Endpoint>, id: string)
    requires UniqueIds(es)
    ensures UniqueIds(Without(es, id))
    ensures id in Ids(es) ==> |Without(es, id)| == |es| - 1
    decreases es
  {
    if es != [] {
      TailIds(es);
      UniqueTail(es);
      WithoutUnique(es[1..], id);
      if es[0].id == id {
        AbsentIdUnchanged(es[1..], id);
      } else {
        var t := Without(es[1..], id);
        assert Ids(t) <= Ids(es[1..]) by {
          forall x | x in Ids(t) ensures x in Ids(es[1..]) {
            var e :| e in t && e.id == x;
          }
        }
        UniqueCons(es[0], t);
      }
    }
  }

  lemma HandlerEndpointsAppend(hs: seq<Handler>, h: Handler)
    ensures HandlerEndpoints(hs + [h]) == HandlerEndpoints(hs) + [h.endpoint]
    ensures HandlerIds(hs + [h]) == HandlerIds(hs) + {h.endpoint.id}
  {
  }

  /** Binding an unimplemented id keeps the registry invariant: the id moves
      from the unimplemented list to the handlers, and the counts still add
      up to the number of API endpoints. */
  lemma HandlePreservesPartition(s: Server, id: string, fn: HandlerFn)
    requires Partitioned(s)
    requires id in Ids(s.unimplemented)
    ensures Partitioned(Handle(s, id, fn))
  {
    var r := Handle(s, id, fn);
    var h := r.handlers[|s.handlers|];
    assert r.handlers == s.handlers + [h];
    HandlerEndpointsAppend(s.handlers, h);
    WithoutUnique(s.unimplemented, id);
    var he := HandlerEndpoints(r.handlers);
    assert he == HandlerEndpoints(s.handlers) + [h.endpoint];
    assert id !in HandlerIds(s.handlers);
    forall i, j | 0 <= i < j < |he| ensures he[i].id != he[j].id {
      if j == |s.handlers| {
        assert he[i] in HandlerEndpoints(s.handlers);
      } else {
        assert he[i] == HandlerEndpoints(s.handlers)[i] && he[j] == HandlerEndpoints(s.handlers)[j];
      }
    }
  }

  /** Binds the remaining endpoints, in the order they are listed, to the
      given handler functions: the `pipe` of one `handle` per endpoint. */
  function HandleEach(s: Server, fns: seq<HandlerFn>): (r: Server)
    requires UniqueIds(s.unimplemented)
    requires |fns| == |s.unimplemented|
    ensures r.unimplemented == []
    ensures |r.handlers| == |s.handlers| + |fns|
    ensures r.api == s.api
    decreases |fns|
  {
    if fns == [] then s
    else
      var id := s.unimplemented[0].id;
      assert id in Ids(s.unimplemented);
      WithoutUnique(s.unimplemented, id);
      HandleEach(Handle(s, id, fns[0]), fns[1..])
  }

  /** From any server satisfying the registry invariant, binding every
      remaining endpoint once keeps the invariant and leaves every API id
      bound. (Whether `exhaustive` then accepts also depends on the
      handlers' service requirements, which this lemma does not track.) */
  lemma {:induction false} HandleEachPartitioned(s: Server, fns: seq<HandlerFn>)
    requires Partitioned(s)
    requires |fns| == |s.unimplemented|
    ensures Partitioned(HandleEach(s, fns))
    ensures HandlerIds(HandleEach(s, fns).handlers) == Ids(s.api.endpoints)
    decreases |fns|
  {
    if fns == [] {
      assert Ids(s.unimplemented) == {};
    } else {
      var id := s.unimplemented[0].id;
      assert id in Ids(s.unimplemented);
      HandlePreservesPartition(s, id, fns[0]);
      HandleEachPartitioned(Handle(s, id, fns[0]), fns[1..]);
    }
  }

  // ---------------------------------------------------------------------
  // provideLayer / provideService

  function ProvideAll(hs: seq<Handler>, p: Provision): (r: seq<Handler>)
    ensures |r| == |hs|
    ensures forall i :: 0 <= i < |hs| ==> r[i].endpoint == hs[i].endpoint && r[i].fn == Provided(hs[i].fn, p)
  {
    seq(|hs|, i requires 0 <= i < |hs| => Handler(Provided(hs[i].fn, p), hs[i].endpoint))
  }

  /** `provideLayer(layer)(server)`: every bound handler's function is
      wrapped with the layer; which endpoints are bound, and in what order,
      is unchanged. */
  function ProvideLayer(s: Server, layer: nat, supplies: set<Tag>, needs: set<Tag>): (r: Server)
    ensures r.unimplemented == s.unimplemented
    ensures HandlerEndpoints(r.handlers) == HandlerEndpoints(s.handlers)
    ensures r.api == s.api && r.logger == s.logger && r.formatter == s.formatter
    ensures forall i :: 0 <= i < |s.handlers| ==>
      r.handlers[i].fn == Provided(s.handlers[i].fn, LayerProvision(layer, supplies, needs))
    ensures forall i :: 0 <= i < |s.handlers| ==>
      Needs(r.handlers[i].fn) == (Needs(s.handlers[i].fn) - supplies)
        + (if Needs(s.handlers[i].fn) * supplies != {} then needs else {})
  {
    s.(handlers := ProvideAll(s.handlers, LayerProvision(layer, supplies, needs)))
  }

  /** `provideService(tag, service)(server)`: every bound handler's function
      is wrapped with the service and stops requiring `tag`; the bookkeeping
      is unchanged. */
  function ProvideService(s: Server, tag: Tag, service: nat): (r: Server)
    ensures r.unimplemented == s.unimplemented
    ensures HandlerEndpoints(r.handlers) == HandlerEndpoints(s.handlers)
    ensures r.api == s.api && r.logger == s.logger && r.formatter == s.formatter
    ensures forall i :: 0 <= i < |s.handlers| ==>
      r.handlers[i].fn == Provided(s.handlers[i].fn, ServiceProvision(tag, service))
    ensures forall i :: 0 <= i < |s.handlers| ==> Needs(r.handlers[i].fn) == Needs(s.handlers[i].fn) - {tag}
  {
    s.(handlers := ProvideAll(s.handlers, ServiceProvision(tag, service)))
  }

  /** Provision never changes which endpoints are bound or unimplemented, so
      the registry invariant survives it. */
  lemma ProvisionPreservesPartition(s: Server, layer: nat, supplies: set<Tag>, needs: set<Tag>, tag: Tag, service: nat)
    requires Partitioned(s)
    ensures Partitioned(ProvideLayer(s, layer, supplies, needs))
    ensures Partitioned(ProvideService(s, tag, service))
  {
  }

  // ---------------------------------------------------------------------
  // exhaustive

  /** `exhaustive(server)`: accepted only when no endpoint is left
      unimplemented and no handler still requires a service
      (`Server<[], Handler<any, never>[]>`); returns the server as it is. */
  function Exhaustive(s: Server): (r: Server)
    requires s.unimplemented == []
    requires forall h :: h in s.handlers ==> Needs(h.fn) == {}
    ensures r == s
    ensures Partitioned(s) ==> HandlerIds(r.handlers) == Ids(r.api.endpoints)
    ensures Partitioned(s) ==> |r.handlers| == |r.api.endpoints|
  {
    assert Ids(s.unimplemented) == {};
    s
  }

  // ---------------------------------------------------------------------
  // setLogger

  /** The argument of `setLogger`: a shorthand name or a logger instance. */
  datatype LoggerChoice = Named(name: string) | Instance(logger: Logger)

  predicate IsLoggerName(name: string) {
    name == "default" || name == "pretty" || name == "json" || name == "none"
  }

  /** `setLogger(choice)(server)`: a shorthand selects its built-in logger,
      an instance is used as given; nothing else changes. */
  function SetLogger(s: Server, choice: LoggerChoice): (r: Server)
    requires choice.Named? ==> IsLoggerName(choice.name)
    ensures choice == Named("pretty") ==> r.logger == PrettyLogger
    ensures choice == Named("json") ==> r.logger == JsonLogger
    ensures choice == Named("default") ==> r.logger == DefaultLogger
    ensures choice == Named("none") ==> r.logger == NoneLogger
    ensures choice.Instance? ==> r.logger == choice.logger
    ensures r.unimplemented == s.unimplemented && r.handlers == s.handlers
    ensures r.api == s.api && r.formatter == s.formatter
  {
    var logger :=
      if choice == Named("pretty") then PrettyLogger
      else if choice == Named("json") then JsonLogger
      else if choice == Named("default") then DefaultLogger
      else if choice == Named("none") then NoneLogger
      else choice.logger;
    s.(logger := logger)
  }

  /** Setting the logger twice is the same as setting it once to the second
      choice, and never touches the registry. */
  lemma SetLoggerLastWins(s: Server, a: LoggerChoice, b: LoggerChoice)
    requires a.Named? ==> IsLoggerName(a.name)
    requires b.Named? ==> IsLoggerName(b.name)
    ensures SetLogger(SetLogger(s, a), b) == SetLogger(s, b)
    ensures Partitioned(s) ==> Partitioned(SetLogger(s, a))
  {
  }
}
