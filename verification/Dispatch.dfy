/** The orders in which the dispatch tables are asked, and that they all mean the same: find the
    route that matches and run it behind its middleware (dispatch.go:184-231, 402-510). */
module Dispatch {
  import opened Prelude
  import opened DirectPattern
  import opened PatternMatching
  import opened Middleware
  import opened RouteTables

  /** What RoutePattern is set to and what runs. */
  datatype Picked = Picked(routePattern: Bytes, handler: Handler)

  /** The same, with the parameters left in the context. */
  datatype Choice = Choice(routePattern: Bytes, handler: Handler, params: seq<Param>)

  function Outcome(r: Option<Picked>, params: seq<Param>): Option<Choice> {
    if r.None? then None else Some(Choice(r.value.routePattern, r.value.handler, params))
  }

  /** What runs and under which pattern, wherever the parameters are kept. */
  function PickOf(c: Option<Choice>): Option<Picked> {
    if c.None? then None else Some(Picked(c.value.routePattern, c.value.handler))
  }

  function Or(a: Option<Choice>, b: Option<Choice>): Option<Choice> {
    if a.Some? then a else b
  }

  function Behind(slots: seq<Slot>, a: Option<Choice>): Option<Choice> {
    if a.None? then None else Some(a.value.(handler := Chain(slots, a.value.handler)))
  }

  // ---- asking one table ----

  function Hit(t: Exact, verb: Bytes, path: Bytes): Option<Choice> {
    if Key(verb, path) in t then Some(Choice(path, t[Key(verb, path)], [])) else None
  }

  /** The first entry, in registration order, whose pattern matches. */
  function FirstMatch(entries: seq<Dynamic>, path: Bytes): Option<Choice> {
    if entries == [] then None
    else
      var (front, e) := (entries[..|entries| - 1], entries[|entries| - 1]);
      Or(FirstMatch(front, path), Try(e, path))
  }

  function Try(e: Dynamic, path: Bytes): Option<Choice> {
    var params := Capture(e.parts, DropSlash(path));
    if params.None? then None else Some(Choice(e.pattern, e.handler, params.value))
  }

  /** The program panics on a pattern with more than 16 parameters. */
  ghost predicate Bounded(t: Patterns) {
    forall verb, i :: verb in t && 0 <= i < |t[verb]| ==> Named(t[verb][i].parts) <= SLOTS
  }

  lemma {:induction false} CaptureIsBounded(parts: seq<Part>, path: Bytes)
    requires Capture(parts, path).Some?
    ensures |Capture(parts, path).value| <= Named(parts)
  {
    if parts != [] {
      NamedFromFront(parts);
      if !parts[0].catchAll {
        CaptureIsBounded(parts[1..], Beyond(path));
      }
    }
  }

  method Scan(t: Patterns, verb: Bytes, path: Bytes, c: Context) returns (r: Option<Picked>)
    requires Bounded(t) && c.Valid() && c.Params() == []
    modifies c, c.names, c.values
    ensures c.Valid() && Outcome(r, c.Params()) == FirstMatch(Under(t, verb), path)
    ensures r.None? ==> c.Params() == []
  {
    var entries := Under(t, verb);
    for i := 0 to |entries|
      invariant c.Valid() && c.Params() == [] && FirstMatch(entries[..i], path) == None
    {
      assert entries[..i + 1][..i] == entries[..i];
      var matched := MatchEntry(entries[i], path, c);
      if matched {
        FirstStays(entries, i + 1, path);
        return Some(Picked(entries[i].pattern, entries[i].handler));
      }
    }
    assert entries[..|entries|] == entries;
    return None;
  }

  method MatchEntry(e: Dynamic, path: Bytes, c: Context) returns (matched: bool)
    requires Named(e.parts) <= SLOTS && c.Valid() && c.Params() == []
    modifies c, c.names, c.values
    ensures c.Valid() && Outcome(if matched then Some(Picked(e.pattern, e.handler)) else None, c.Params()) == Try(e, path)
    ensures !matched ==> c.Params() == []
  {
    matched := Match(e.parts, path, c);
    if matched {
      CaptureIsBounded(e.parts, DropSlash(path));
      assert [] + Capture(e.parts, DropSlash(path)).value == Capture(e.parts, DropSlash(path)).value;
    }
  }

  lemma {:induction false} FirstStays(entries: seq<Dynamic>, n: nat, path: Bytes)
    requires n <= |entries| && FirstMatch(entries[..n], path).Some?
    ensures FirstMatch(entries, path) == FirstMatch(entries[..n], path)
  {
    if n < |entries| {
      var front := entries[..|entries| - 1];
      assert front[..n] == entries[..n];
      FirstStays(front, n, path);
    } else {
      assert entries[..n] == entries;
    }
  }

  // ---- the dispatch orders ----

  /** The standard multiplexer is an oracle: it answers with a registered route, or with none.  The
      parameters of its answer stay with the request. */
  function MuxChoice(mux: Option<Registered>): Option<Choice> {
    if mux.None? then None
    else Some(Choice(mux.value.key.path, Chain(mux.value.slots, Route(mux.value.handler)), []))
  }

  function Exactly(routes: seq<Registered>, kind: Kind, verb: Bytes, path: Bytes): Option<Choice> {
    Hit(ExactOf(routes, kind), verb, path)
  }

  function Dynamically(routes: seq<Registered>, kind: Kind, verb: Bytes, path: Bytes): Option<Choice> {
    FirstMatch(Under(PatternsOf(routes, kind), verb), path)
  }

  /** serveDirect, which runs only without global middleware. */
  function DirectChoice(routes: seq<Registered>, verb: Bytes, path: Bytes, mux: Option<Registered>): Option<Choice> {
    Or(Exactly(routes, Plain, verb, path),
       Or(Exactly(routes, GroupedNative, verb, path),
          Or(Dynamically(routes, GroupedNative, verb, path),
             Or(Dynamically(routes, Plain, verb, path), MuxChoice(mux)))))
  }

  /** routingMux.ServeHTTP. */
  function InnerChoice(routes: seq<Registered>, verb: Bytes, path: Bytes, mux: Option<Registered>): Option<Choice> {
    Or(Exactly(routes, Plain, verb, path), Or(Dynamically(routes, Plain, verb, path), MuxChoice(mux)))
  }

  /** The native tables, which are filled only when all global middleware is native. */
  function NativeChoice(routes: seq<Registered>, g: seq<Slot>, verb: Bytes, path: Bytes): Option<Choice> {
    if !Native(g) then None
    else
      Or(if g != [] then Exactly(routes, Plain, verb, path) else None,
         Or(Exactly(routes, GroupedNative, verb, path), Dynamically(routes, GroupedNative, verb, path)))
  }

  function StdlibChoice(routes: seq<Registered>, g: seq<Slot>, verb: Bytes, path: Bytes): Option<Choice> {
    Or(if g != [] && !Native(g) then Exactly(routes, Plain, verb, path) else None,
       Or(Exactly(routes, Grouped, verb, path), Dynamically(routes, Grouped, verb, path)))
  }

  function ChainedChoice(routes: seq<Registered>, g: seq<Slot>, verb: Bytes, path: Bytes, mux: Option<Registered>)
    : Option<Choice>
  {
    Behind(g, Or(NativeChoice(routes, g, verb, path),
                 Or(StdlibChoice(routes, g, verb, path), InnerChoice(routes, verb, path, mux))))
  }

  /** App.ServeHTTP; `hooked` says that some request hook is registered. */
  function ServeChoice(routes: seq<Registered>, g: seq<Slot>, hooked: bool, verb: Bytes, path: Bytes,
                       mux: Option<Registered>): Option<Choice>
  {
    if g == [] && !hooked && DirectChoice(routes, verb, path, mux).Some? then DirectChoice(routes, verb, path, mux)
    else ChainedChoice(routes, g, verb, path, mux)
  }

  // ---- wrapped tables ----

  lemma HitWrapped(t: Exact, slots: seq<Slot>, verb: Bytes, path: Bytes)
    ensures Hit(WrapExact(t, slots), verb, path) == Behind(slots, Hit(t, verb, path))
  {
  }

  lemma {:induction false} FirstMatchWrapped(entries: seq<Dynamic>, slots: seq<Slot>, path: Bytes)
    ensures FirstMatch(WrapEntries(entries, slots), path) == Behind(slots, FirstMatch(entries, path))
  {
    if entries != [] {
      var n := |entries| - 1;
      FirstMatchWrapped(entries[..n], slots, path);
      assert WrapEntries(entries, slots)[..n] == WrapEntries(entries[..n], slots);
    }
  }

  lemma ScanWrapped(t: Patterns, slots: seq<Slot>, verb: Bytes, path: Bytes)
    ensures FirstMatch(Under(WrapPatterns(t, slots), verb), path) == Behind(slots, FirstMatch(Under(t, verb), path))
    ensures Bounded(t) ==> Bounded(WrapPatterns(t, slots))
  {
    if verb in t {
      FirstMatchWrapped(t[verb], slots, path);
    }
  }

  // ---- one match, one meaning ----

  predicate Matches(r: Registered, verb: Bytes, path: Bytes) {
    && r.key.verb == verb
    && if IsDynamic(r) then Capture(PatternParts(r.key.path), DropSlash(path)).Some? else r.key.path == path
  }

  /** No route but the i-th matches. */
  ghost predicate AtMost(routes: seq<Registered>, i: nat, verb: Bytes, path: Bytes) {
    forall j :: 0 <= j < |routes| && j != i ==> !Matches(routes[j], verb, path)
  }

  /** The simple meaning of a registered route. */
  function Meaning(r: Registered, path: Bytes): Choice {
    Choice(r.key.path, Chain(r.slots, Route(r.handler)),
           if !IsDynamic(r) then [] else
           var params := Capture(PatternParts(r.key.path), DropSlash(path)); if params.None? then [] else params.value)
  }

  function Found(routes: seq<Registered>, i: nat, verb: Bytes, path: Bytes, here: bool): Option<Choice> {
    if i < |routes| && Matches(routes[i], verb, path) && here then Some(Meaning(routes[i], path)) else None
  }

  predicate Holds(routes: seq<Registered>, i: nat, kind: Kind, dynamic: bool) {
    i < |routes| && Is(kind, routes[i]) && IsDynamic(routes[i]) == dynamic
  }

  lemma {:induction false} ExactlyTheOne(routes: seq<Registered>, i: nat, kind: Kind, verb: Bytes, path: Bytes)
    requires AtMost(routes, i, verb, path)
    ensures Exactly(routes, kind, verb, path) == Found(routes, i, verb, path, Holds(routes, i, kind, false))
  {
    if routes != [] {
      var n := |routes| - 1;
      ExactlyTheOne(routes[..n], i, kind, verb, path);
      assert n != i ==> !Matches(routes[n], verb, path);
    }
  }

  lemma DynamicallyOneMore(front: seq<Registered>, r: Registered, kind: Kind, verb: Bytes, path: Bytes)
    ensures Dynamically(front + [r], kind, verb, path)
         == if Is(kind, r) && IsDynamic(r) && r.key.verb == verb then
              Or(Dynamically(front, kind, verb, path), Try(EntryOf(r), path))
            else Dynamically(front, kind, verb, path)
  {
    RegisterOne(front, r, kind);
    var list := Under(PatternsOf(front, kind), verb);
    assert (list + [EntryOf(r)])[..|list|] == list;
  }

  lemma {:induction false} DynamicallyTheOne(routes: seq<Registered>, i: nat, kind: Kind, verb: Bytes, path: Bytes)
    requires AtMost(routes, i, verb, path)
    ensures Dynamically(routes, kind, verb, path) == Found(routes, i, verb, path, Holds(routes, i, kind, true))
  {
    if routes != [] {
      var n := |routes| - 1;
      DynamicallyTheOne(routes[..n], i, kind, verb, path);
      DynamicallyOneMore(routes[..n], routes[n], kind, verb, path);
      assert routes[..n] + [routes[n]] == routes;
      assert n != i ==> !Matches(routes[n], verb, path);
    }
  }

  predicate InDirectTables(r: Registered) {
    Is(Plain, r) || Is(GroupedNative, r)
  }

  /** serveDirect picks the one matching route that its tables hold. */
  lemma DirectPicksTheOne(routes: seq<Registered>, i: nat, verb: Bytes, path: Bytes, mux: Option<Registered>)
    requires AtMost(routes, i, verb, path) && i < |routes| && Matches(routes[i], verb, path)
    ensures DirectChoice(routes, verb, path, mux)
         == if InDirectTables(routes[i]) then Some(Meaning(routes[i], path)) else MuxChoice(mux)
  {
    ExactlyTheOne(routes, i, Plain, verb, path);
    ExactlyTheOne(routes, i, GroupedNative, verb, path);
    DynamicallyTheOne(routes, i, GroupedNative, verb, path);
    DynamicallyTheOne(routes, i, Plain, verb, path);
  }

  predicate InTables(r: Registered) {
    Is(Plain, r) || r.grouped
  }

  /** So does the chained order, whether the native tables are filled or not; what it picks runs
      behind the global middleware. */
  lemma ChainedPicksTheOne(routes: seq<Registered>, g: seq<Slot>, i: nat, verb: Bytes, path: Bytes,
                           mux: Option<Registered>)
    requires AtMost(routes, i, verb, path) && i < |routes| && Matches(routes[i], verb, path)
    ensures ChainedChoice(routes, g, verb, path, mux)
         == Behind(g, if InTables(routes[i]) then Some(Meaning(routes[i], path)) else MuxChoice(mux))
  {
    ExactlyTheOne(routes, i, Plain, verb, path);
    ExactlyTheOne(routes, i, Grouped, verb, path);
    ExactlyTheOne(routes, i, GroupedNative, verb, path);
    DynamicallyTheOne(routes, i, Plain, verb, path);
    DynamicallyTheOne(routes, i, Grouped, verb, path);
    DynamicallyTheOne(routes, i, GroupedNative, verb, path);
  }

  /** Whichever way a request takes through App.ServeHTTP, the one route that matches it answers,
      under its own pattern, with its own parameters, behind global, group and route middleware in
      that order.  A route that only the multiplexer knows (it has middleware of its own and no
      group), or that serveDirect leaves to the multiplexer, is up to the multiplexer. */
  lemma ServesTheOne(routes: seq<Registered>, g: seq<Slot>, hooked: bool, i: nat, verb: Bytes, path: Bytes,
                     mux: Option<Registered>)
    requires AtMost(routes, i, verb, path) && i < |routes| && Matches(routes[i], verb, path)
    ensures var r := routes[i]; var served := ServeChoice(routes, g, hooked, verb, path, mux);
            var direct := g == [] && !hooked;
            if InDirectTables(r) || (InTables(r) && (!direct || mux.None?)) then
              && served == Some(Meaning(r, path).(handler := Chain(g + r.slots, Route(r.handler))))
              && Trace(served.value.handler) == Entries(g + r.slots) + [Runs(r.handler)]
            else served == Behind(g, MuxChoice(mux))
  {
    var r := routes[i];
    DirectPicksTheOne(routes, i, verb, path, mux);
    ChainedPicksTheOne(routes, g, i, verb, path, mux);
    ChainConcat(g, r.slots, Route(r.handler));
    ChainTrace(g + r.slots, Route(r.handler));
    if g == [] {
      assert g + r.slots == r.slots;
    }
  }

  /** With a multiplexer that names a matching route whenever there is one, that route serves on every
      way: only where its parameters are kept may differ. */
  lemma ServesTheOneByMux(routes: seq<Registered>, g: seq<Slot>, hooked: bool, i: nat, verb: Bytes, path: Bytes,
                          mux: Option<Registered>)
    requires AtMost(routes, i, verb, path) && i < |routes| && Matches(routes[i], verb, path)
    requires mux.Some? && mux.value in routes && Matches(mux.value, verb, path)
    ensures var r := routes[i]; var served := ServeChoice(routes, g, hooked, verb, path, mux);
            && PickOf(served) == Some(Picked(r.key.path, Chain(g + r.slots, Route(r.handler))))
            && Trace(served.value.handler) == Entries(g + r.slots) + [Runs(r.handler)]
  {
    var r := routes[i];
    var j :| 0 <= j < |routes| && routes[j] == mux.value;
    assert j == i;
    DirectPicksTheOne(routes, i, verb, path, mux);
    ChainedPicksTheOne(routes, g, i, verb, path, mux);
    ChainConcat(g, r.slots, Route(r.handler));
    ChainTrace(g + r.slots, Route(r.handler));
    if g == [] {
      assert g + r.slots == r.slots;
    }
  }

  // ---- the dispatchers ----

  /** An application whose chains are built and whose patterns have at most 16 parameters. */
  ghost predicate Ready(app: App)
    reads app
  {
    && app.Valid() && app.ExactReady() && app.PatternsReady()
    && Bounded(app.directDynamicRoutes) && Bounded(app.groupDynamicHandlers) && Bounded(app.groupDynamicNative)
  }

  lemma ChainedSplits(routes: seq<Registered>, g: seq<Slot>, verb: Bytes, path: Bytes, mux: Option<Registered>)
    ensures ChainedChoice(routes, g, verb, path, mux)
         == Or(Behind(g, NativeChoice(routes, g, verb, path)),
               Or(Behind(g, StdlibChoice(routes, g, verb, path)), Behind(g, InnerChoice(routes, verb, path, mux))))
  {
  }

  /** serveDirect. */
  method ServeDirect(app: App, verb: Bytes, path: Bytes, mux: Option<Registered>,
                     c: Context) returns (r: Option<Picked>)
    requires Ready(app) && app.globalMiddleware == [] && c.Valid() && c.Params() == []
    modifies c, c.names, c.values
    ensures c.Valid() && (r.None? ==> c.Params() == [])
    ensures Outcome(r, c.Params()) == DirectChoice(app.routes, verb, path, mux)
  {
    var key := Key(verb, path);
    HitWrapped(app.groupRouteNative, [], verb, path);
    ScanWrapped(app.groupDynamicNative, [], verb, path);
    if key in app.routeHandlerFast {
      return Some(Picked(path, app.routeHandlerFast[key]));
    }
    if key in app.groupRouteChainNative {
      return Some(Picked(path, app.groupRouteChainNative[key]));
    }
    r := Scan(app.groupDynamicChainNative, verb, path, c);
    if r.Some? {
      return;
    }
    r := Scan(app.directDynamicRoutes, verb, path, c);
    if r.Some? {
      return;
    }
    if mux.None? {
      return None;
    }
    return Some(Picked(mux.value.key.path, Chain(mux.value.slots, Route(mux.value.handler))));
  }

  /** routingMux.ServeHTTP, behind all of the global middleware. */
  method ServeInner(app: App, verb: Bytes, path: Bytes, mux: Option<Registered>, c: Context) returns (r: Option<Picked>)
    requires Ready(app) && c.Valid() && c.Params() == []
    modifies c, c.names, c.values
    ensures c.Valid() && (r.None? ==> c.Params() == [])
    ensures Outcome(r, c.Params()) == Behind(app.globalMiddleware, InnerChoice(app.routes, verb, path, mux))
  {
    var key := Key(verb, path);
    if key in app.routeHandlerFast {
      r := Some(Picked(path, app.routeHandlerFast[key]));
    } else {
      r := Scan(app.directDynamicRoutes, verb, path, c);
      if r.None? && mux.Some? {
        r := Some(Picked(mux.value.key.path, Chain(mux.value.slots, Route(mux.value.handler))));
      }
    }
    if r.Some? {
      var h := BuildChain(r.value.handler, app.globalMiddleware);
      r := Some(r.value.(handler := h));
    }
  }

  /** App.ServeHTTP, after hooks that let the request pass. */
  method ServeHTTP(app: App, hooked: bool, verb: Bytes, path: Bytes, mux: Option<Registered>, c: Context)
    returns (r: Option<Picked>)
    requires Ready(app) && c.Valid() && c.Params() == []
    modifies c, c.names, c.values
    ensures c.Valid() && (r.None? ==> c.Params() == [])
    ensures Outcome(r, c.Params()) == ServeChoice(app.routes, app.globalMiddleware, hooked, verb, path, mux)
  {
    if |app.globalMiddleware| == 0 && !hooked {
      r := ServeDirect(app, verb, path, mux, c);
      if r.Some? {
        return;
      }
    }
    r := ServeChained(app, verb, path, mux, c);
  }

  /** With a context from the pool: whatever it was left with is reset first. */
  method ServePooled(app: App, hooked: bool, verb: Bytes, path: Bytes, mux: Option<Registered>, c: Context)
    returns (r: Option<Picked>)
    requires Ready(app) && c.Valid()
    modifies c, c.names, c.values
    ensures c.Valid() && (r.None? ==> c.Params() == [])
    ensures Outcome(r, c.Params()) == ServeChoice(app.routes, app.globalMiddleware, hooked, verb, path, mux)
  {
    c.Reset();
    r := ServeHTTP(app, hooked, verb, path, mux, c);
  }

  method ServeChained(app: App, verb: Bytes, path: Bytes, mux: Option<Registered>,
                      c: Context) returns (r: Option<Picked>)
    requires Ready(app) && c.Valid() && c.Params() == []
    modifies c, c.names, c.values
    ensures c.Valid() && (r.None? ==> c.Params() == [])
    ensures Outcome(r, c.Params()) == ChainedChoice(app.routes, app.globalMiddleware, verb, path, mux)
  {
    ChainedSplits(app.routes, app.globalMiddleware, verb, path, mux);
    r := ServeNative(app, verb, path, c);
    if r.Some? {
      return;
    }
    r := ServeStdlib(app, verb, path, c);
    if r.Some? {
      return;
    }
    r := ServeInner(app, verb, path, mux, c);
  }

  method ServeNative(app: App, verb: Bytes, path: Bytes, c: Context) returns (r: Option<Picked>)
    requires Ready(app) && c.Valid() && c.Params() == []
    modifies c, c.names, c.values
    ensures c.Valid() && (r.None? ==> c.Params() == [])
    ensures Outcome(r, c.Params())
         == Behind(app.globalMiddleware, NativeChoice(app.routes, app.globalMiddleware, verb, path))
  {
    ghost var g := app.globalMiddleware;
    var key := Key(verb, path);
    HitWrapped(app.routeHandlerFast, g, verb, path);
    HitWrapped(app.groupRouteNative, g, verb, path);
    ScanWrapped(app.groupDynamicNative, g, verb, path);
    if key in app.routeChainFastNative {
      return Some(Picked(path, app.routeChainFastNative[key]));
    }
    if key in app.groupRouteChainNative {
      return Some(Picked(path, app.groupRouteChainNative[key]));
    }
    r := Scan(app.groupDynamicChainNative, verb, path, c);
  }

  method ServeStdlib(app: App, verb: Bytes, path: Bytes, c: Context) returns (r: Option<Picked>)
    requires Ready(app) && c.Valid() && c.Params() == []
    modifies c, c.names, c.values
    ensures c.Valid() && (r.None? ==> c.Params() == [])
    ensures Outcome(r, c.Params())
         == Behind(app.globalMiddleware, StdlibChoice(app.routes, app.globalMiddleware, verb, path))
  {
    ghost var g := app.globalMiddleware;
    var key := Key(verb, path);
    HitWrapped(app.routeHandlerFast, g, verb, path);
    HitWrapped(app.groupRouteHandlers, g, verb, path);
    ScanWrapped(app.groupDynamicHandlers, g, verb, path);
    if key in app.routeChainFast {
      return Some(Picked(path, app.routeChainFast[key]));
    }
    if key in app.groupRouteChainFast {
      return Some(Picked(path, app.groupRouteChainFast[key]));
    }
    r := Scan(app.groupDynamicChainFast, verb, path, c);
  }

  // ---- overlapping patterns ----

  /** Without the assumption the orders differ: a request that two patterns match is served by the
      application's route on the direct way and by the group's route when a hook is registered. */
  lemma OverlapDependsOnHooks(verb: Bytes, x: Bytes, y: Bytes, path: Bytes, slot: Slot)
    requires OPEN in x && OPEN in y && x != y && !slot.native
    requires Capture(PatternParts(x), DropSlash(path)).Some? && Capture(PatternParts(y), DropSlash(path)).Some?
    ensures var routes := [Registered(Key(verb, x), [], 0, false), Registered(Key(verb, y), [slot], 1, true)];
            && ServeChoice(routes, [], false, verb, path, None) == Some(Meaning(routes[0], path))
            && ServeChoice(routes, [], true, verb, path, None) == Some(Meaning(routes[1], path))
  {
    var (a, b) := (Registered(Key(verb, x), [], 0, false), Registered(Key(verb, y), [slot], 1, true));
    assert !Native(b.slots) by {
      assert !b.slots[0].native;
    }
    RegisterBoth(a, b, Plain, verb, path);
    RegisterBoth(a, b, Grouped, verb, path);
    RegisterBoth(a, b, GroupedNative, verb, path);
  }

  lemma RegisterBoth(a: Registered, b: Registered, kind: Kind, verb: Bytes, path: Bytes)
    requires IsDynamic(a) && IsDynamic(b) && a.key.verb == b.key.verb == verb
    ensures Exactly([a, b], kind, verb, path) == None
    ensures Dynamically([a, b], kind, verb, path)
         == Or(if Is(kind, a) then Try(EntryOf(a), path) else None, if Is(kind, b) then Try(EntryOf(b), path) else None)
  {
    assert [] + [a] == [a] && [a] + [b] == [a, b];
    RegisterOne([], a, kind);
    RegisterOne([a], b, kind);
    DynamicallyOneMore([], a, kind, verb, path);
    DynamicallyOneMore([a], b, kind, verb, path);
  }
}
