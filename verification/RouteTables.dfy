/** Registering routes, on the application and in nested groups, and the dispatch tables they enter
    (app_routes.go:23-118, router.go:265-450, dispatch.go:25-163).  Tables that the program nests by
    method and path are keyed by the pair here. */
module RouteTables {
  import opened Prelude
  import opened DirectPattern
  import opened Middleware

  datatype Key = Key(verb: Bytes, path: Bytes)

  /** A registered route: on a group or on the application itself, with the middleware of its
      groups and its own. */
  datatype Registered = Registered(key: Key, slots: seq<Slot>, handler: nat, grouped: bool)

  datatype Dynamic = Dynamic(pattern: Bytes, parts: seq<Part>, handler: Handler)

  predicate IsDynamic(r: Registered) {
    OPEN in r.key.path
  }

  /** The tables by origin: application routes without middleware of their own, all group routes,
      and group routes whose middleware is native. */
  datatype Kind = Plain | Grouped | GroupedNative

  predicate Is(kind: Kind, r: Registered) {
    match kind
    case Plain => !r.grouped && r.slots == []
    case Grouped => r.grouped
    case GroupedNative => r.grouped && Native(r.slots)
  }

  type Exact = map<Key, Handler>
  type Patterns = map<Bytes, seq<Dynamic>>

  function EntryOf(r: Registered): Dynamic {
    Dynamic(r.key.path, PatternParts(r.key.path), Chain(r.slots, Route(r.handler)))
  }

  function Under(t: Patterns, verb: Bytes): seq<Dynamic> {
    if verb in t then t[verb] else []
  }

  /** The tables that a history of registrations leaves. */
  function ExactOf(routes: seq<Registered>, kind: Kind): Exact {
    if routes == [] then map[]
    else
      var (front, r) := (routes[..|routes| - 1], routes[|routes| - 1]);
      if Is(kind, r) && !IsDynamic(r) then ExactOf(front, kind)[r.key := Chain(r.slots, Route(r.handler))]
      else ExactOf(front, kind)
  }

  function PatternsOf(routes: seq<Registered>, kind: Kind): Patterns {
    if routes == [] then map[]
    else
      var (front, r) := (routes[..|routes| - 1], routes[|routes| - 1]);
      var t := PatternsOf(front, kind);
      if Is(kind, r) && IsDynamic(r) then t[r.key.verb := Under(t, r.key.verb) + [EntryOf(r)]] else t
  }

  /** What one more registration does to the tables. */
  lemma RegisterOne(routes: seq<Registered>, r: Registered, kind: Kind)
    ensures ExactOf(routes + [r], kind) ==
            (if Is(kind, r) && !IsDynamic(r) then ExactOf(routes, kind)[r.key := EntryOf(r).handler]
             else ExactOf(routes, kind))
    ensures PatternsOf(routes + [r], kind) ==
            (if Is(kind, r) && IsDynamic(r) then
               PatternsOf(routes, kind)[r.key.verb := Under(PatternsOf(routes, kind), r.key.verb) + [EntryOf(r)]]
             else PatternsOf(routes, kind))
  {
    assert (routes + [r])[..|routes|] == routes;
  }

  function WrapExact(t: Exact, slots: seq<Slot>): Exact {
    map k | k in t :: Chain(slots, t[k])
  }

  function WrapEntries(entries: seq<Dynamic>, slots: seq<Slot>): (r: seq<Dynamic>)
    ensures |r| == |entries|
    ensures forall i :: 0 <= i < |r| ==> r[i] == entries[i].(handler := Chain(slots, entries[i].handler))
  {
    seq(|entries|, i requires 0 <= i < |entries| => entries[i].(handler := Chain(slots, entries[i].handler)))
  }

  function WrapPatterns(t: Patterns, slots: seq<Slot>): Patterns {
    map k | k in t :: WrapEntries(t[k], slots)
  }

  /** A whole application, as far as routing goes. */
  class App {
    var globalMiddleware: seq<Slot>
    var routesByKey: set<Key>
    var routeHandlerFast: Exact
    var directDynamicRoutes: Patterns
    var groupRouteHandlers: Exact
    var groupRouteNative: Exact
    var groupDynamicHandlers: Patterns
    var groupDynamicNative: Patterns

    var routeChainFast: Exact
    var routeChainFastNative: Exact
    var groupRouteChainFast: Exact
    var groupRouteChainNative: Exact
    var groupDynamicChainFast: Patterns
    var groupDynamicChainNative: Patterns

    ghost var routes: seq<Registered>

    ghost predicate Valid()
      reads `routes, `routesByKey, `routeHandlerFast, `directDynamicRoutes, `groupRouteHandlers, `groupRouteNative,
            `groupDynamicHandlers, `groupDynamicNative
    {
      && routesByKey == (set i | 0 <= i < |routes| :: routes[i].key)
      && (forall i, j :: 0 <= i < j < |routes| ==> routes[i].key != routes[j].key)
      && routeHandlerFast == ExactOf(routes, Plain)
      && directDynamicRoutes == PatternsOf(routes, Plain)
      && groupRouteHandlers == ExactOf(routes, Grouped)
      && groupRouteNative == ExactOf(routes, GroupedNative)
      && groupDynamicHandlers == PatternsOf(routes, Grouped)
      && groupDynamicNative == PatternsOf(routes, GroupedNative)
    }

    /** The chains built from the tables. */
    ghost predicate ExactReady()
      reads `globalMiddleware, `routeHandlerFast, `groupRouteHandlers, `groupRouteNative, `routeChainFast,
            `routeChainFastNative, `groupRouteChainFast, `groupRouteChainNative
    {
      var g := globalMiddleware;
      && routeChainFastNative == (if g != [] && Native(g) then WrapExact(routeHandlerFast, g) else map[])
      && routeChainFast == (if g != [] && !Native(g) then WrapExact(routeHandlerFast, g) else map[])
      && groupRouteChainFast == WrapExact(groupRouteHandlers, g)
      && groupRouteChainNative == (if Native(g) then WrapExact(groupRouteNative, g) else map[])
    }

    ghost predicate PatternsReady()
      reads `globalMiddleware, `groupDynamicHandlers, `groupDynamicNative, `groupDynamicChainFast,
            `groupDynamicChainNative
    {
      var g := globalMiddleware;
      && groupDynamicChainFast == WrapPatterns(groupDynamicHandlers, g)
      && groupDynamicChainNative == (if Native(g) then WrapPatterns(groupDynamicNative, g) else map[])
    }

    constructor ()
      ensures Valid() && routes == [] && globalMiddleware == []
    {
      globalMiddleware, routesByKey, routes := [], {}, [];
      routeHandlerFast, groupRouteHandlers, groupRouteNative := map[], map[], map[];
      directDynamicRoutes, groupDynamicHandlers, groupDynamicNative := map[], map[], map[];
      routeChainFast, routeChainFastNative, groupRouteChainFast, groupRouteChainNative := map[], map[], map[], map[];
      groupDynamicChainFast, groupDynamicChainNative := map[], map[];
    }

    method Use(slots: seq<Slot>)
      modifies this`globalMiddleware
      ensures globalMiddleware == old(globalMiddleware) + slots
    {
      globalMiddleware := globalMiddleware + slots;
    }

    /** addRoute on the application; the standard multiplexer panics when a method and pattern are
        registered twice. */
    method AddRoute(verb: Bytes, pattern: Bytes, handler: nat, slots: seq<Slot>)
      requires Valid() && Key(verb, pattern) !in routesByKey
      modifies this
      ensures Valid() && routes == old(routes) + [Registered(Key(verb, pattern), slots, handler, false)]
      ensures globalMiddleware == old(globalMiddleware)
    {
      var key := Key(verb, pattern);
      ghost var r := Registered(key, slots, handler, false);
      if |slots| == 0 {
        if OPEN in pattern {
          var parts := Compile(pattern);
          directDynamicRoutes := directDynamicRoutes[verb :=
            Under(directDynamicRoutes, verb) + [Dynamic(pattern, parts, Route(handler))]];
        } else {
          routeHandlerFast := routeHandlerFast[key := Route(handler)];
        }
      }
      routesByKey := routesByKey + {key};
      RegisterOne(routes, r, Plain);
      RegisterOne(routes, r, Grouped);
      RegisterOne(routes, r, GroupedNative);
      Append(r);
    }

    /** What addRoute on a group does to the application's tables. */
    method AddGroupRoute(verb: Bytes, fullPattern: Bytes, handler: nat, combined: seq<Slot>)
      requires Valid() && Key(verb, fullPattern) !in routesByKey
      modifies this
      ensures Valid() && routes == old(routes) + [Registered(Key(verb, fullPattern), combined, handler, true)]
      ensures globalMiddleware == old(globalMiddleware)
    {
      var nativeHandler := Some(Route(handler));
      if |combined| > 0 {
        nativeHandler := BuildNativeChain(Route(handler), combined);
      }
      var httpHandler := Route(handler);
      if |combined| > 0 {
        httpHandler := BuildChain(httpHandler, combined);
      }
      EnterGroupRoute(Registered(Key(verb, fullPattern), combined, handler, true), httpHandler, nativeHandler);
    }

    method EnterGroupRoute(r: Registered, httpHandler: Handler, nativeHandler: Option<Handler>)
      requires Valid() && r.key !in routesByKey && r.grouped
      requires httpHandler == EntryOf(r).handler
      requires nativeHandler == if Native(r.slots) then Some(httpHandler) else None
      modifies `routes, `routesByKey, `groupRouteHandlers, `groupRouteNative, `groupDynamicHandlers, `groupDynamicNative
      ensures Valid() && routes == old(routes) + [r]
    {
      RegisterOne(routes, r, Plain);
      RegisterOne(routes, r, Grouped);
      RegisterOne(routes, r, GroupedNative);
      var verb := r.key.verb;
      routesByKey := routesByKey + {r.key};
      if OPEN !in r.key.path {
        groupRouteHandlers := groupRouteHandlers[r.key := httpHandler];
        if nativeHandler.Some? {
          groupRouteNative := groupRouteNative[r.key := nativeHandler.value];
        }
      } else {
        var parts := Compile(r.key.path);
        var entry := Dynamic(r.key.path, parts, httpHandler);
        groupDynamicHandlers := groupDynamicHandlers[verb := Under(groupDynamicHandlers, verb) + [entry]];
        if nativeHandler.Some? {
          groupDynamicNative := groupDynamicNative[verb :=
            Under(groupDynamicNative, verb) + [entry.(handler := nativeHandler.value)]];
        }
      }
      Append(r);
    }

    ghost method Append(r: Registered)
      requires routesByKey == (set i | 0 <= i < |routes| :: routes[i].key) + {r.key}
      requires forall i :: 0 <= i < |routes| ==> routes[i].key != r.key
      requires forall i, j :: 0 <= i < j < |routes| ==> routes[i].key != routes[j].key
      requires routeHandlerFast == ExactOf(routes + [r], Plain)
      requires directDynamicRoutes == PatternsOf(routes + [r], Plain)
      requires groupRouteHandlers == ExactOf(routes + [r], Grouped)
      requires groupRouteNative == ExactOf(routes + [r], GroupedNative)
      requires groupDynamicHandlers == PatternsOf(routes + [r], Grouped)
      requires groupDynamicNative == PatternsOf(routes + [r], GroupedNative)
      modifies this`routes
      ensures Valid() && routes == old(routes) + [r]
    {
      routes := routes + [r];
    }

    /** buildRouteChainFast: runs once, when the chains are still empty. */
    method BuildRouteChainFast()
      requires routeChainFast == routeChainFastNative == groupRouteChainFast == groupRouteChainNative == map[]
      requires groupDynamicChainFast == groupDynamicChainNative == map[]
      modifies `routeChainFast, `routeChainFastNative, `groupRouteChainFast, `groupRouteChainNative,
               `groupDynamicChainFast, `groupDynamicChainNative
      ensures ExactReady() && PatternsReady()
    {
      var globalNative := AllNative(globalMiddleware);
      BuildExact(globalNative);
      BuildPatterns(globalNative);
    }

    method BuildPatterns(globalNative: bool)
      requires globalNative <==> Native(globalMiddleware)
      requires groupDynamicChainFast == groupDynamicChainNative == map[]
      modifies `groupDynamicChainFast, `groupDynamicChainNative
      ensures PatternsReady()
    {
      groupDynamicChainFast := ChainPatterns(groupDynamicHandlers, globalMiddleware);
      if globalNative {
        groupDynamicChainNative := ChainPatterns(groupDynamicNative, globalMiddleware);
      }
    }

    method BuildExact(globalNative: bool)
      requires globalNative <==> Native(globalMiddleware)
      requires routeChainFast == routeChainFastNative == groupRouteChainFast == groupRouteChainNative == map[]
      modifies `routeChainFast, `routeChainFastNative, `groupRouteChainFast, `groupRouteChainNative
      ensures ExactReady()
    {
      if |globalMiddleware| > 0 {
        if globalNative {
          routeChainFastNative := NativeTable(routeHandlerFast, globalMiddleware);
        } else {
          routeChainFast := ChainTable(routeHandlerFast, globalMiddleware);
        }
      }
      groupRouteChainFast := ChainTable(groupRouteHandlers, globalMiddleware);
      if globalNative {
        groupRouteChainNative := NativeTable(groupRouteNative, globalMiddleware);
      }
    }
  }

  /** Every handler of a table behind the standard chain. */
  method ChainTable(t: Exact, slots: seq<Slot>) returns (out: Exact)
    ensures out == WrapExact(t, slots)
  {
    out := map[];
    var todo := t.Keys;
    while todo != {}
      invariant todo <= t.Keys && out == WrapExact(t - todo, slots)
      decreases |todo|
    {
      var k :| k in todo;
      var h := BuildChain(t[k], slots);
      out := out[k := h];
      todo := todo - {k};
    }
    assert t - {} == t;
  }

  /** Every handler of a table behind the native chain, which the caller knows to exist. */
  method NativeTable(t: Exact, slots: seq<Slot>) returns (out: Exact)
    requires Native(slots)
    ensures out == WrapExact(t, slots)
  {
    out := map[];
    var todo := t.Keys;
    while todo != {}
      invariant todo <= t.Keys && out == WrapExact(t - todo, slots)
      decreases |todo|
    {
      var k :| k in todo;
      var h := BuildNativeChain(t[k], slots);
      out := out[k := h.value];
      todo := todo - {k};
    }
    assert t - {} == t;
  }

  method ChainPatterns(t: Patterns, slots: seq<Slot>) returns (out: Patterns)
    ensures out == WrapPatterns(t, slots)
  {
    out := map[];
    var todo := t.Keys;
    while todo != {}
      invariant todo <= t.Keys && out == WrapPatterns(t - todo, slots)
      decreases |todo|
    {
      var verb :| verb in todo;
      var entries := ChainEntries(t[verb], slots);
      out := out[verb := entries];
      todo := todo - {verb};
    }
    assert t - {} == t;
  }

  method ChainEntries(entries: seq<Dynamic>, slots: seq<Slot>) returns (out: seq<Dynamic>)
    ensures out == WrapEntries(entries, slots)
  {
    out := [];
    for i := 0 to |entries|
      invariant out == WrapEntries(entries[..i], slots)
    {
      var h := BuildChain(entries[i].handler, slots);
      out := out + [entries[i].(handler := h)];
    }
    assert entries[..|entries|] == entries;
  }

  // ---- groups ----

  /** A group of routes; `app` is shared by all groups. */
  class RouteGroup {
    const prefix: Bytes
    const app: App
    var middleware: seq<Slot>

    constructor (app: App, prefix: Bytes, middleware: seq<Slot>)
      ensures this.app == app && this.prefix == prefix && this.middleware == middleware
    {
      this.app, this.prefix, this.middleware := app, prefix, middleware;
    }

    method Use(slots: seq<Slot>)
      modifies this
      ensures middleware == old(middleware) + slots
    {
      middleware := middleware + slots;
    }

    method AddRoute(verb: Bytes, pattern: Bytes, handler: nat, slots: seq<Slot>)
      requires app.Valid() && Key(verb, prefix + pattern) !in app.routesByKey
      modifies app
      ensures app.Valid() && app.globalMiddleware == old(app.globalMiddleware)
      ensures app.routes == old(app.routes)
                            + [Registered(Key(verb, prefix + pattern), middleware + slots, handler, true)]
    {
      var combined := [];
      if |middleware| > 0 {
        combined := combined + middleware;
      }
      if |slots| > 0 {
        combined := combined + slots;
      }
      assert combined == middleware + slots;
      app.AddGroupRoute(verb, prefix + pattern, handler, combined);
    }
  }

  /** What a group's callback does. */
  datatype Declaration =
    | Uses(slots: seq<Slot>)
    | Adds(verb: Bytes, pattern: Bytes, handler: nat, slots: seq<Slot>)
    | Nests(prefix: Bytes, body: seq<Declaration>)

  /** The middleware in force after the first n declarations of a group. */
  function InForce(inherited: seq<Slot>, body: seq<Declaration>, n: nat): seq<Slot>
    requires n <= |body|
  {
    if n == 0 then inherited
    else InForce(inherited, body, n - 1) + (if body[n - 1].Uses? then body[n - 1].slots else [])
  }

  /** The routes of a group: a nested group starts from what is in force where it stands, and what
      its parent adds later does not reach it. */
  function Declares(prefix: Bytes, inherited: seq<Slot>, body: seq<Declaration>, n: nat): seq<Registered>
    requires n <= |body|
    decreases body, n
  {
    if n == 0 then []
    else
      Declares(prefix, inherited, body, n - 1) + DeclaredBy(prefix, InForce(inherited, body, n - 1), body[n - 1])
  }

  function DeclaredBy(prefix: Bytes, slots: seq<Slot>, d: Declaration): seq<Registered>
    decreases d, 0
  {
    match d
    case Uses(_) => []
    case Adds(verb, pattern, handler, own) => [Registered(Key(verb, prefix + pattern), slots + own, handler, true)]
    case Nests(more, inner) => Declares(prefix + more, slots, inner, |inner|)
  }

  ghost predicate AllNew(known: seq<Registered>, more: seq<Registered>) {
    forall i, j :: 0 <= i < j < |known + more| ==> (known + more)[i].key != (known + more)[j].key
  }

  lemma NewAmongOld(known: seq<Registered>, all: seq<Registered>, done: seq<Registered>, more: seq<Registered>)
    requires AllNew(known, all) && done + more <= all
    ensures AllNew(known + done, more)
    ensures forall i :: 0 <= i < |known + done| && more != [] ==> (known + done)[i].key != more[0].key
  {
    var now := known + done + more;
    forall i, j | 0 <= i < j < |now|
      ensures now[i].key != now[j].key
    {
      assert now[i] == (known + all)[i] && now[j] == (known + all)[j];
    }
    assert more != [] ==> now[|known + done|] == more[0];
    assert forall i :: 0 <= i < |known + done| ==> now[i] == (known + done)[i];
  }

  lemma Reassociate(a: seq<Registered>, b: seq<Registered>, c: seq<Registered>)
    ensures a + b + c == a + (b + c)
  {
  }

  /** Runs a group's callback, with the nested Group calls in it. */
  method Declare(g: RouteGroup, body: seq<Declaration>)
    requires g.app.Valid() && AllNew(g.app.routes, Declares(g.prefix, g.middleware, body, |body|))
    modifies g, g.app
    ensures g.app.Valid() && g.app.globalMiddleware == old(g.app.globalMiddleware)
    ensures g.app.routes == old(g.app.routes) + Declares(g.prefix, old(g.middleware), body, |body|)
    decreases body, 1
  {
    ghost var (known, inherited) := (g.app.routes, g.middleware);
    assert known + [] == known;
    for n := 0 to |body|
      invariant g.app.Valid() && g.app.globalMiddleware == old(g.app.globalMiddleware)
      invariant g.middleware == InForce(inherited, body, n)
      invariant g.app.routes == known + Declares(g.prefix, inherited, body, n)
    {
      ghost var (done, more) := (Declares(g.prefix, inherited, body, n), DeclaredBy(g.prefix, g.middleware, body[n]));
      DeclaresPrefix(g.prefix, inherited, body, n + 1);
      assert Declares(g.prefix, inherited, body, n + 1) == done + more;
      NewAmongOld(known, Declares(g.prefix, inherited, body, |body|), done, more);
      DeclareOne(g, body[n]);
      Reassociate(known, done, more);
    }
  }

  method DeclareOne(g: RouteGroup, d: Declaration)
    requires g.app.Valid() && AllNew(g.app.routes, DeclaredBy(g.prefix, g.middleware, d))
    modifies g, g.app
    ensures g.app.Valid() && g.app.globalMiddleware == old(g.app.globalMiddleware)
    ensures g.app.routes == old(g.app.routes) + DeclaredBy(g.prefix, old(g.middleware), d)
    ensures g.middleware == old(g.middleware) + (if d.Uses? then d.slots else [])
    decreases d, 0
  {
    match d {
      case Uses(slots) =>
        g.Use(slots);
      case Adds(verb, pattern, handler, slots) =>
        ghost var r := Registered(Key(verb, g.prefix + pattern), g.middleware + slots, handler, true);
        NewAmongOld(g.app.routes, [r], [], [r]);
        assert g.app.routes + [] == g.app.routes;
        g.AddRoute(verb, pattern, handler, slots);
      case Nests(prefix, inner) =>
        var sub := new RouteGroup(g.app, g.prefix + prefix, g.middleware);
        Declare(sub, inner);
    }
  }

  lemma {:induction false} DeclaresPrefix(prefix: Bytes, inherited: seq<Slot>, body: seq<Declaration>, n: nat)
    requires n <= |body|
    ensures Declares(prefix, inherited, body, n) <= Declares(prefix, inherited, body, |body|)
    decreases |body| - n
  {
    if n < |body| {
      DeclaresPrefix(prefix, inherited, body, n + 1);
    }
  }
}
