/** Requests that several patterns match: exactly when the registration of a hook changes what
    serves them (dispatch.go:350-530). */
module DispatchOverlap {
  import opened Prelude
  import opened ByteStrings
  import opened CanonicalRequest
  import opened DirectPattern
  import opened Middleware
  import opened RouteTables
  import opened Dispatch

  /** The standard multiplexer panics when a method and pattern are registered twice. */
  ghost predicate DistinctKeys(routes: seq<Registered>) {
    forall i, j :: 0 <= i < j < |routes| ==> routes[i].key != routes[j].key
  }

  /** Some route of the kind, static or dynamic, matches the request. */
  ghost predicate SomeRoute(routes: seq<Registered>, kind: Kind, dynamic: bool, verb: Bytes, path: Bytes) {
    exists i: nat {:trigger Dispatch.Holds(routes, i, kind, dynamic)} ::
      Dispatch.Holds(routes, i, kind, dynamic) && Matches(routes[i], verb, path)
  }

  // ---- a table answers exactly when it has a matching route ----

  lemma {:induction false} ExactSource(routes: seq<Registered>, kind: Kind, verb: Bytes, path: Bytes) returns (i: nat)
    requires Exactly(routes, kind, verb, path).Some?
    ensures Dispatch.Holds(routes, i, kind, false) && routes[i].key == Key(verb, path)
    ensures Exactly(routes, kind, verb, path) == Some(Meaning(routes[i], path))
  {
    var n := |routes| - 1;
    if Dispatch.Holds(routes, n, kind, false) && routes[n].key == Key(verb, path) {
      i := n;
    } else {
      i := ExactSource(routes[..n], kind, verb, path);
    }
  }

  lemma DynamicallyLast(routes: seq<Registered>, r: Registered, kind: Kind, verb: Bytes, path: Bytes)
    requires routes != [] && r == routes[|routes| - 1]
    ensures Dynamically(routes, kind, verb, path)
         == if Is(kind, r) && IsDynamic(r) && r.key.verb == verb then
              Or(Dynamically(routes[..|routes| - 1], kind, verb, path), Try(EntryOf(r), path))
            else Dynamically(routes[..|routes| - 1], kind, verb, path)
  {
    assert routes == routes[..|routes| - 1] + [r];
    DynamicallyOneMore(routes[..|routes| - 1], r, kind, verb, path);
  }

  lemma TryMatches(r: Registered, verb: Bytes, path: Bytes)
    requires IsDynamic(r) && r.key.verb == verb
    ensures Try(EntryOf(r), path) == if Matches(r, verb, path) then Some(Meaning(r, path)) else None
  {
  }

  /** The first matching route of the kind answers for a table of patterns. */
  ghost predicate IsFirst(routes: seq<Registered>, i: nat, kind: Kind, verb: Bytes, path: Bytes) {
    && Dispatch.Holds(routes, i, kind, true) && Matches(routes[i], verb, path)
    && forall j: nat :: j < i && Dispatch.Holds(routes, j, kind, true) ==> !Matches(routes[j], verb, path)
  }

  lemma {:induction false} DynamicSource(routes: seq<Registered>, kind: Kind, verb: Bytes, path: Bytes) returns (i: nat)
    requires Dynamically(routes, kind, verb, path).Some?
    ensures IsFirst(routes, i, kind, verb, path)
    ensures Dynamically(routes, kind, verb, path) == Some(Meaning(routes[i], path))
  {
    var n := |routes| - 1;
    var r := routes[n];
    DynamicallyLast(routes, r, kind, verb, path);
    if Dynamically(routes[..n], kind, verb, path).Some? {
      i := DynamicSource(routes[..n], kind, verb, path);
      FirstOfMore(routes, n, i, kind, verb, path);
    } else {
      TryMatches(r, verb, path);
      i := n;
      forall j: nat | j < n && Dispatch.Holds(routes, j, kind, true)
        ensures !Matches(routes[j], verb, path)
      {
        NotYetHit(routes, n, j, kind, verb, path);
      }
    }
  }

  lemma FirstOfMore(routes: seq<Registered>, n: nat, i: nat, kind: Kind, verb: Bytes, path: Bytes)
    requires n <= |routes| && IsFirst(routes[..n], i, kind, verb, path)
    ensures IsFirst(routes, i, kind, verb, path) && routes[..n][i] == routes[i]
  {
    forall j: nat | j < i && Dispatch.Holds(routes, j, kind, true)
      ensures !Matches(routes[j], verb, path)
    {
      assert Dispatch.Holds(routes[..n], j, kind, true);
    }
  }

  lemma NotYetHit(routes: seq<Registered>, n: nat, j: nat, kind: Kind, verb: Bytes, path: Bytes)
    requires n <= |routes| && j < n && Dispatch.Holds(routes, j, kind, true)
    requires Dynamically(routes[..n], kind, verb, path).None?
    ensures !Matches(routes[j], verb, path)
  {
    assert Dispatch.Holds(routes[..n], j, kind, true) && routes[..n][j] == routes[j];
    if Matches(routes[j], verb, path) {
      DynamicHit(routes[..n], j, kind, verb, path);
    }
  }

  lemma {:induction false} ExactHit(routes: seq<Registered>, i: nat, kind: Kind, verb: Bytes, path: Bytes)
    requires Dispatch.Holds(routes, i, kind, false) && Matches(routes[i], verb, path)
    ensures Exactly(routes, kind, verb, path).Some?
  {
    if i < |routes| - 1 {
      ExactHit(routes[..|routes| - 1], i, kind, verb, path);
    }
  }

  lemma {:induction false} DynamicHit(routes: seq<Registered>, i: nat, kind: Kind, verb: Bytes, path: Bytes)
    requires Dispatch.Holds(routes, i, kind, true) && Matches(routes[i], verb, path)
    ensures Dynamically(routes, kind, verb, path).Some?
  {
    var n := |routes| - 1;
    if i < n {
      DynamicHit(routes[..n], i, kind, verb, path);
      EarlierHit(routes, kind, verb, path);
    } else {
      LastHit(routes, routes[i], kind, verb, path);
    }
  }

  lemma EarlierHit(routes: seq<Registered>, kind: Kind, verb: Bytes, path: Bytes)
    requires routes != [] && Dynamically(routes[..|routes| - 1], kind, verb, path).Some?
    ensures Dynamically(routes, kind, verb, path).Some?
  {
    DynamicallyLast(routes, routes[|routes| - 1], kind, verb, path);
  }

  lemma LastHit(routes: seq<Registered>, r: Registered, kind: Kind, verb: Bytes, path: Bytes)
    requires routes != [] && r == routes[|routes| - 1]
    requires Is(kind, r) && IsDynamic(r) && Matches(r, verb, path)
    ensures Dynamically(routes, kind, verb, path).Some?
  {
    DynamicallyLast(routes, r, kind, verb, path);
    TryMatches(r, verb, path);
  }

  lemma ExactIffRoute(routes: seq<Registered>, kind: Kind, verb: Bytes, path: Bytes)
    ensures Exactly(routes, kind, verb, path).Some? <==> SomeRoute(routes, kind, false, verb, path)
  {
    if Exactly(routes, kind, verb, path).Some? {
      var i := ExactSource(routes, kind, verb, path);
      assert Dispatch.Holds(routes, i, kind, false) && Matches(routes[i], verb, path);
    }
    if SomeRoute(routes, kind, false, verb, path) {
      var i: nat :| Dispatch.Holds(routes, i, kind, false) && Matches(routes[i], verb, path);
      ExactHit(routes, i, kind, verb, path);
    }
  }

  lemma DynamicIffRoute(routes: seq<Registered>, kind: Kind, verb: Bytes, path: Bytes)
    ensures Dynamically(routes, kind, verb, path).Some? <==> SomeRoute(routes, kind, true, verb, path)
  {
    if Dynamically(routes, kind, verb, path).Some? {
      var i := DynamicSource(routes, kind, verb, path);
      assert Dispatch.Holds(routes, i, kind, true) && Matches(routes[i], verb, path);
    }
    if SomeRoute(routes, kind, true, verb, path) {
      var i: nat :| Dispatch.Holds(routes, i, kind, true) && Matches(routes[i], verb, path);
      DynamicHit(routes, i, kind, verb, path);
    }
  }

  lemma NativeIsGrouped(routes: seq<Registered>, dynamic: bool, verb: Bytes, path: Bytes)
    requires SomeRoute(routes, GroupedNative, dynamic, verb, path)
    ensures SomeRoute(routes, Grouped, dynamic, verb, path)
  {
    var i: nat :| Dispatch.Holds(routes, i, GroupedNative, dynamic) && Matches(routes[i], verb, path);
    assert Dispatch.Holds(routes, i, Grouped, dynamic);
  }

  // ---- what the tables answer is told apart by its pattern ----

  /** No path is registered both on the application and in a group. */
  lemma ExactExcludes(routes: seq<Registered>, verb: Bytes, path: Bytes)
    requires DistinctKeys(routes) && SomeRoute(routes, Plain, false, verb, path)
    ensures !SomeRoute(routes, Grouped, false, verb, path)
  {
    var i: nat :| Dispatch.Holds(routes, i, Plain, false) && Matches(routes[i], verb, path);
    forall j: nat | Dispatch.Holds(routes, j, Grouped, false)
      ensures !Matches(routes[j], verb, path)
    {
      assert i != j;
      assert routes[i].key != routes[j].key;
    }
  }

  lemma DynamicsDiffer(routes: seq<Registered>, verb: Bytes, path: Bytes)
    requires DistinctKeys(routes)
    requires Dynamically(routes, Plain, verb, path).Some? && Dynamically(routes, Grouped, verb, path).Some?
    ensures Dynamically(routes, Plain, verb, path).value.routePattern
         != Dynamically(routes, Grouped, verb, path).value.routePattern
  {
    var i := DynamicSource(routes, Plain, verb, path);
    var j := DynamicSource(routes, Grouped, verb, path);
    assert i != j;
    assert routes[i].key != routes[j].key;
  }

  lemma StaticAndDynamicDiffer(routes: seq<Registered>, kind: Kind, other: Kind, verb: Bytes, path: Bytes)
    requires Exactly(routes, kind, verb, path).Some? && Dynamically(routes, other, verb, path).Some?
    ensures Exactly(routes, kind, verb, path).value.routePattern
         != Dynamically(routes, other, verb, path).value.routePattern
  {
    var i := ExactSource(routes, kind, verb, path);
    var j := DynamicSource(routes, other, verb, path);
    assert OPEN !in path && OPEN in routes[j].key.path;
  }

  // ---- the exact condition ----

  function GroupAnswer(routes: seq<Registered>, verb: Bytes, path: Bytes): Option<Choice> {
    Or(Exactly(routes, Grouped, verb, path), Dynamically(routes, Grouped, verb, path))
  }

  /** The j-th route is what the group tables find: the static one, or else the first that matches. */
  ghost predicate GroupFinds(routes: seq<Registered>, j: nat, verb: Bytes, path: Bytes) {
    || (Dispatch.Holds(routes, j, Grouped, false) && Matches(routes[j], verb, path))
    || (!SomeRoute(routes, Grouped, false, verb, path) && IsFirst(routes, j, Grouped, verb, path))
  }

  lemma GroupFindsIff(routes: seq<Registered>, verb: Bytes, path: Bytes)
    requires DistinctKeys(routes)
    ensures GroupAnswer(routes, verb, path).Some? <==> exists j: nat :: GroupFinds(routes, j, verb, path)
    ensures forall j: nat :: GroupFinds(routes, j, verb, path) ==>
              GroupAnswer(routes, verb, path) == Some(Meaning(routes[j], path))
  {
    if GroupAnswer(routes, verb, path).Some? {
      var i := GroupSource(routes, verb, path);
    }
    forall j: nat | GroupFinds(routes, j, verb, path)
      ensures GroupAnswer(routes, verb, path) == Some(Meaning(routes[j], path))
    {
      GroupAnswers(routes, j, verb, path);
      var i := GroupSource(routes, verb, path);
      GroupFindsOnce(routes, i, j, verb, path);
    }
  }

  lemma GroupSource(routes: seq<Registered>, verb: Bytes, path: Bytes) returns (i: nat)
    requires GroupAnswer(routes, verb, path).Some?
    ensures GroupFinds(routes, i, verb, path) && GroupAnswer(routes, verb, path) == Some(Meaning(routes[i], path))
  {
    ExactIffRoute(routes, Grouped, verb, path);
    if Exactly(routes, Grouped, verb, path).Some? {
      i := ExactSource(routes, Grouped, verb, path);
    } else {
      i := DynamicSource(routes, Grouped, verb, path);
    }
  }

  lemma GroupAnswers(routes: seq<Registered>, j: nat, verb: Bytes, path: Bytes)
    requires GroupFinds(routes, j, verb, path)
    ensures GroupAnswer(routes, verb, path).Some?
  {
    if Dispatch.Holds(routes, j, Grouped, false) {
      ExactHit(routes, j, Grouped, verb, path);
    } else {
      DynamicHit(routes, j, Grouped, verb, path);
    }
  }

  lemma GroupFindsOnce(routes: seq<Registered>, i: nat, j: nat, verb: Bytes, path: Bytes)
    requires DistinctKeys(routes) && GroupFinds(routes, i, verb, path) && GroupFinds(routes, j, verb, path)
    ensures i == j
  {
    if Dispatch.Holds(routes, i, Grouped, false) {
      assert SomeRoute(routes, Grouped, false, verb, path);
      assert routes[i].key == routes[j].key;
    }
  }

  /** Nothing shows which of two routes serves: same pattern, middleware and handler. */
  predicate SameService(a: Registered, b: Registered) {
    a.key.path == b.key.path && a.slots == b.slots && a.handler == b.handler
  }

  /** A static application route under a dynamic group route. */
  ghost predicate StaticUnderGroup(routes: seq<Registered>, verb: Bytes, path: Bytes) {
    SomeRoute(routes, Plain, false, verb, path) && SomeRoute(routes, Grouped, true, verb, path)
  }

  /** A dynamic application route beside group routes none of which is native. */
  ghost predicate DynamicBesideGroup(routes: seq<Registered>, verb: Bytes, path: Bytes) {
    && !SomeRoute(routes, Plain, false, verb, path)
    && !SomeRoute(routes, GroupedNative, false, verb, path) && !SomeRoute(routes, GroupedNative, true, verb, path)
    && SomeRoute(routes, Plain, true, verb, path)
    && (SomeRoute(routes, Grouped, false, verb, path) || SomeRoute(routes, Grouped, true, verb, path))
  }

  /** serveDirect has nothing but the multiplexer, which names a route. */
  ghost predicate OnlyMux(routes: seq<Registered>, verb: Bytes, path: Bytes, mux: Option<Registered>) {
    && !SomeRoute(routes, Plain, false, verb, path) && !SomeRoute(routes, Plain, true, verb, path)
    && !SomeRoute(routes, GroupedNative, false, verb, path) && !SomeRoute(routes, GroupedNative, true, verb, path)
    && mux.Some?
  }

  /** ... and that is another one than the group tables find. */
  ghost predicate MuxBesideGroup(routes: seq<Registered>, verb: Bytes, path: Bytes, mux: Option<Registered>) {
    && OnlyMux(routes, verb, path, mux)
    && exists j: nat :: GroupFinds(routes, j, verb, path) && !SameService(routes[j], mux.value)
  }

  /** Without global middleware, the same route serves with and without a hook. */
  predicate HookKeepsRoute(routes: seq<Registered>, verb: Bytes, path: Bytes, mux: Option<Registered>) {
    var without := ServeChoice(routes, [], false, verb, path, mux);
    var hooked := ServeChoice(routes, [], true, verb, path, mux);
    PickOf(without) == PickOf(hooked)
  }

  /** Without global middleware, registering a hook leaves the route that serves a request, its
      pattern and its middleware as they are if and only if none of the three overlaps is there. */
  lemma HooksChangeNothingIff(routes: seq<Registered>, verb: Bytes, path: Bytes, mux: Option<Registered>)
    requires DistinctKeys(routes)
    ensures HookKeepsRoute(routes, verb, path, mux)
       <==> && !StaticUnderGroup(routes, verb, path)
            && !DynamicBesideGroup(routes, verb, path)
            && !MuxBesideGroup(routes, verb, path, mux)
  {
    TablesAreRoutes(routes, verb, path);
    if SomeRoute(routes, Plain, false, verb, path) {
      ExactExcludes(routes, verb, path);
      WithStatic(routes, verb, path, mux);
    } else if SomeRoute(routes, GroupedNative, false, verb, path) || SomeRoute(routes, GroupedNative, true, verb, path) {
    } else {
      WithoutNative(routes, verb, path, mux);
      MuxPickIff(routes, verb, path, mux);
    }
  }

  /** The picks of multiplexer and group tables agree exactly when they name the same service. */
  lemma MuxPickIff(routes: seq<Registered>, verb: Bytes, path: Bytes, mux: Option<Registered>)
    requires DistinctKeys(routes)
    ensures mux.Some? && GroupAnswer(routes, verb, path).Some? ==>
              (PickOf(GroupAnswer(routes, verb, path)) != PickOf(MuxChoice(mux))
               <==> exists j: nat :: GroupFinds(routes, j, verb, path) && !SameService(routes[j], mux.value))
    ensures GroupAnswer(routes, verb, path).None? ==> forall j: nat :: !GroupFinds(routes, j, verb, path)
  {
    GroupFindsIff(routes, verb, path);
    if mux.Some? && GroupAnswer(routes, verb, path).Some? {
      var j := GroupSource(routes, verb, path);
      ServiceShows(routes[j], mux.value, path);
      forall k: nat | GroupFinds(routes, k, verb, path)
        ensures k == j
      {
        GroupFindsOnce(routes, j, k, verb, path);
      }
    }
  }

  lemma ServiceShows(r: Registered, m: Registered, path: Bytes)
    ensures PickOf(Some(Meaning(r, path))) == PickOf(MuxChoice(Some(m))) <==> SameService(r, m)
  {
    if Chain(r.slots, Route(r.handler)) == Chain(m.slots, Route(m.handler)) {
      ChainInjective(r.slots, r.handler, m.slots, m.handler);
    }
  }

  /** For a multiplexer that names a route registered for the method, the third overlap is that it
      names another route than the group tables find. */
  lemma RegisteredMuxBesideGroup(routes: seq<Registered>, verb: Bytes, path: Bytes, mux: Option<Registered>)
    requires DistinctKeys(routes) && (mux.Some? ==> mux.value in routes && mux.value.key.verb == verb)
    ensures MuxBesideGroup(routes, verb, path, mux)
       <==> && OnlyMux(routes, verb, path, mux)
            && exists j: nat :: GroupFinds(routes, j, verb, path) && routes[j] != mux.value
  {
    if mux.Some? {
      var m :| 0 <= m < |routes| && routes[m] == mux.value;
      forall j: nat | GroupFinds(routes, j, verb, path)
        ensures SameService(routes[j], mux.value) <==> routes[j] == mux.value
      {
        assert j != m ==> routes[j].key != routes[m].key;
      }
    }
  }

  /** Where the same route serves, its parameters are kept in another place exactly when the
      multiplexer finds it without a hook and a group table, with parameters, when there is one. */
  lemma ParametersMoveIff(routes: seq<Registered>, verb: Bytes, path: Bytes, mux: Option<Registered>)
    requires DistinctKeys(routes)
    requires HookKeepsRoute(routes, verb, path, mux)
    ensures ServeChoice(routes, [], false, verb, path, mux) != ServeChoice(routes, [], true, verb, path, mux)
       <==> && OnlyMux(routes, verb, path, mux)
            && exists j: nat :: GroupFinds(routes, j, verb, path) && Meaning(routes[j], path).params != []
  {
    HooksChangeNothingIff(routes, verb, path, mux);
    TablesAreRoutes(routes, verb, path);
    GroupFindsIff(routes, verb, path);
    if OnlyMux(routes, verb, path, mux) && GroupAnswer(routes, verb, path).Some? {
      var j := GroupSource(routes, verb, path);
    }
  }

  lemma TablesAreRoutes(routes: seq<Registered>, verb: Bytes, path: Bytes)
    ensures forall kind :: Exactly(routes, kind, verb, path).Some? <==> SomeRoute(routes, kind, false, verb, path)
    ensures forall kind :: Dynamically(routes, kind, verb, path).Some? <==> SomeRoute(routes, kind, true, verb, path)
    ensures SomeRoute(routes, GroupedNative, false, verb, path) ==> SomeRoute(routes, Grouped, false, verb, path)
    ensures SomeRoute(routes, GroupedNative, true, verb, path) ==> SomeRoute(routes, Grouped, true, verb, path)
  {
    forall kind: Kind
      ensures Exactly(routes, kind, verb, path).Some? <==> SomeRoute(routes, kind, false, verb, path)
      ensures Dynamically(routes, kind, verb, path).Some? <==> SomeRoute(routes, kind, true, verb, path)
    {
      ExactIffRoute(routes, kind, verb, path);
      DynamicIffRoute(routes, kind, verb, path);
    }
    if SomeRoute(routes, GroupedNative, false, verb, path) {
      NativeIsGrouped(routes, false, verb, path);
    }
    if SomeRoute(routes, GroupedNative, true, verb, path) {
      NativeIsGrouped(routes, true, verb, path);
    }
  }

  lemma WithStatic(routes: seq<Registered>, verb: Bytes, path: Bytes, mux: Option<Registered>)
    requires Exactly(routes, Plain, verb, path).Some?
    requires Exactly(routes, Grouped, verb, path).None? && Exactly(routes, GroupedNative, verb, path).None?
    requires Dynamically(routes, GroupedNative, verb, path).Some? ==> Dynamically(routes, Grouped, verb, path).Some?
    ensures HookKeepsRoute(routes, verb, path, mux)
       <==> Dynamically(routes, Grouped, verb, path).None?
  {
    if Dynamically(routes, GroupedNative, verb, path).Some? {
      StaticAndDynamicDiffer(routes, Plain, GroupedNative, verb, path);
    } else if Dynamically(routes, Grouped, verb, path).Some? {
      StaticAndDynamicDiffer(routes, Plain, Grouped, verb, path);
    }
  }

  lemma WithoutNative(routes: seq<Registered>, verb: Bytes, path: Bytes, mux: Option<Registered>)
    requires DistinctKeys(routes) && Exactly(routes, Plain, verb, path).None?
    requires Exactly(routes, GroupedNative, verb, path).None? && Dynamically(routes, GroupedNative, verb, path).None?
    ensures HookKeepsRoute(routes, verb, path, mux)
       <==> if Dynamically(routes, Plain, verb, path).Some? then GroupAnswer(routes, verb, path).None?
            else || mux.None? || GroupAnswer(routes, verb, path).None?
                 || PickOf(GroupAnswer(routes, verb, path)) == PickOf(MuxChoice(mux))
  {
    if Dynamically(routes, Plain, verb, path).Some? {
      if Exactly(routes, Grouped, verb, path).Some? {
        StaticAndDynamicDiffer(routes, Grouped, Plain, verb, path);
      } else if Dynamically(routes, Grouped, verb, path).Some? {
        DynamicsDiffer(routes, verb, path);
      }
    }
  }

  // ---- the commonest of them ----

  /** A static route of the application under a dynamic one of a group, whatever the group's
      middleware: without hooks the first serves, with one the second. */
  lemma StaticLosesToGroup(verb: Bytes, path: Bytes, pattern: Bytes, slots: seq<Slot>, mux: Option<Registered>)
    requires OPEN !in path && OPEN in pattern && Capture(PatternParts(pattern), DropSlash(path)).Some?
    ensures var routes := [Registered(Key(verb, path), [], 0, false), Registered(Key(verb, pattern), slots, 1, true)];
            && DistinctKeys(routes)
            && ServeChoice(routes, [], false, verb, path, mux) == Some(Meaning(routes[0], path))
            && ServeChoice(routes, [], true, verb, path, mux) == Some(Meaning(routes[1], path))
  {
    var a := Registered(Key(verb, path), [], 0, false);
    var b := Registered(Key(verb, pattern), slots, 1, true);
    assert !Is(Plain, b) && !Is(Grouped, a) && !Is(GroupedNative, a) && Is(Plain, a) && Is(Grouped, b);
    forall kind: Kind
      ensures Exactly([a, b], kind, verb, path) == if Is(kind, a) then Some(Meaning(a, path)) else None
      ensures Dynamically([a, b], kind, verb, path) == if Is(kind, b) then Some(Meaning(b, path)) else None
    {
      RegisterStatic(a, b, kind, path);
      RegisterDynamic(a, b, kind, path);
    }
    StaticServed([a, b], verb, path, mux, Meaning(a, path), Meaning(b, path));
  }

  /** The same for a static application route with middleware of its own, which only the multiplexer
      knows. */
  lemma MuxLosesToGroup(verb: Bytes, path: Bytes, pattern: Bytes, own: seq<Slot>, slots: seq<Slot>)
    requires OPEN !in path && OPEN in pattern && Capture(PatternParts(pattern), DropSlash(path)).Some?
    requires own != [] && !Native(slots)
    ensures var routes := [Registered(Key(verb, path), own, 0, false), Registered(Key(verb, pattern), slots, 1, true)];
            && DistinctKeys(routes)
            && ServeChoice(routes, [], false, verb, path, Some(routes[0])) == Some(Meaning(routes[0], path))
            && ServeChoice(routes, [], true, verb, path, Some(routes[0])) == Some(Meaning(routes[1], path))
  {
    var a := Registered(Key(verb, path), own, 0, false);
    var b := Registered(Key(verb, pattern), slots, 1, true);
    assert forall kind: Kind :: !Is(kind, a);
    forall kind: Kind
      ensures Exactly([a, b], kind, verb, path) == None
      ensures Dynamically([a, b], kind, verb, path) == if Is(kind, b) then Some(Meaning(b, path)) else None
    {
      RegisterStatic(a, b, kind, path);
      RegisterDynamic(a, b, kind, path);
    }
    MuxServed([a, b], verb, path, Some(a), Meaning(b, path));
  }

  lemma MuxServed(routes: seq<Registered>, verb: Bytes, path: Bytes, mux: Option<Registered>, grouped: Choice)
    requires mux.Some? && forall kind: Kind :: Exactly(routes, kind, verb, path) == None
    requires Dynamically(routes, Plain, verb, path) == Dynamically(routes, GroupedNative, verb, path) == None
    requires Dynamically(routes, Grouped, verb, path) == Some(grouped)
    ensures ServeChoice(routes, [], false, verb, path, mux) == MuxChoice(mux)
    ensures ServeChoice(routes, [], true, verb, path, mux) == Some(grouped)
  {
  }

  lemma StaticServed(routes: seq<Registered>, verb: Bytes, path: Bytes, mux: Option<Registered>,
                     direct: Choice, grouped: Choice)
    requires Exactly(routes, Plain, verb, path) == Some(direct)
    requires Exactly(routes, Grouped, verb, path) == Exactly(routes, GroupedNative, verb, path) == None
    requires Dynamically(routes, Grouped, verb, path) == Some(grouped)
    requires Dynamically(routes, GroupedNative, verb, path) in {None, Some(grouped)}
    ensures ServeChoice(routes, [], false, verb, path, mux) == Some(direct)
    ensures ServeChoice(routes, [], true, verb, path, mux) == Some(grouped)
  {
  }

  lemma RegisterStatic(a: Registered, b: Registered, kind: Kind, path: Bytes)
    requires !IsDynamic(a) && IsDynamic(b) && a.key.path == path
    ensures Exactly([a, b], kind, a.key.verb, path) == if Is(kind, a) then Some(Meaning(a, path)) else None
  {
    assert [] + [a] == [a] && [a] + [b] == [a, b];
    RegisterOne([], a, kind);
    RegisterOne([a], b, kind);
  }

  lemma RegisterDynamic(a: Registered, b: Registered, kind: Kind, path: Bytes)
    requires !IsDynamic(a) && IsDynamic(b) && a.key.verb == b.key.verb && Matches(b, b.key.verb, path)
    ensures Dynamically([a, b], kind, a.key.verb, path) == if Is(kind, b) then Some(Meaning(b, path)) else None
  {
    assert [] + [a] == [a] && [a] + [b] == [a, b];
    DynamicallyOneMore([], a, kind, a.key.verb, path);
    DynamicallyOneMore([a], b, kind, a.key.verb, path);
  }

  lemma Trims(trimmed: Bytes)
    requires trimmed != [] && trimmed[0] != SLASH && trimmed[|trimmed| - 1] != SLASH
    ensures TrimRight(TrimLeft([SLASH] + trimmed)) == trimmed
  {
    assert ([SLASH] + trimmed)[1..] == trimmed;
    assert TrimLeft(trimmed) == trimmed && TrimRight(trimmed) == trimmed;
    assert TrimLeft([SLASH] + trimmed) == TrimLeft(trimmed);
  }

  lemma BothParts(a: Bytes, b: Bytes)
    ensures Parts([a, b]) == [PartOf(a), PartOf(b)]
  {
    assert [a, b][..1] == [a] && [a][..0] == [];
    assert Parts([a]) == Parts([]) + [PartOf(a)] == [PartOf(a)];
  }

  lemma NamePart(name: Bytes, b: Bytes)
    requires 0 < |name| < 3 && b == [OPEN] + name + [CLOSE]
    ensures PartOf(b) == Part([], name, false)
  {
    assert b[1..|b| - 1] == name;
  }

  /** The parts of "/a/{name}". */
  lemma TwoParts(a: Bytes, name: Bytes, b: Bytes)
    requires SLASH !in a && SLASH !in name && a != [] && a[0] != OPEN && 0 < |name| < 3
    requires b == [OPEN] + name + [CLOSE]
    ensures PatternParts([SLASH] + (a + [SLASH] + b)) == [Part(a, [], false), Part([], name, false)]
  {
    var trimmed := a + [SLASH] + b;
    assert trimmed[0] == a[0] && trimmed[|trimmed| - 1] == b[|b| - 1] == CLOSE;
    Trims(trimmed);
    TwoSegments(a, b);
    BothParts(a, b);
    NamePart(name, b);
  }

  lemma TwoSegments(a: Bytes, b: Bytes)
    requires SLASH !in a && SLASH !in b
    ensures Split(a + [SLASH] + b, SLASH) == [a, b]
    ensures Segment(a + [SLASH] + b) == a && Beyond(a + [SLASH] + b) == b
    ensures Segment(b) == b && Beyond(b) == []
  {
    var s := a + [SLASH] + b;
    assert s == a + ([SLASH] + b) && b + [] == b;
    FrontOf(a, [SLASH] + b, SLASH);
    FrontOf(b, [], SLASH);
    assert s[..|a|] == a && s[|a| + 1..] == b;
  }

  lemma CaptureSecond(a: Bytes, name: Bytes, b: Bytes)
    requires SLASH !in a && SLASH !in b && b != [] && name != [] && PERCENT !in b
    ensures Capture([Part(a, [], false), Part([], name, false)], a + [SLASH] + b) == Some([Param(name, b)])
  {
    TwoSegments(a, b);
    var (first, second) := (Part(a, [], false), Part([], name, false));
    assert [first, second][1..] == [second] && [second][1..] == [];
    assert Capture([], []) == Some([]) && DecodePathValue(b) == b;
    assert [Param(name, b)] + [] == [Param(name, b)];
    assert Capture([second], b).Some?;
    assert Capture([first, second], a + [SLASH] + b) == Capture([second], b);
  }

  /** "/users/me" on the application and "/users/{id}" in a group without middleware. */
  lemma UsersMe(verb: Bytes, mux: Option<Registered>) returns (me: Bytes, id: Bytes)
    ensures me == [47, 117, 115, 101, 114, 115, 47, 109, 101]
    ensures id == [47, 117, 115, 101, 114, 115, 47, 123, 105, 100, 125]
    ensures var routes := [Registered(Key(verb, me), [], 0, false), Registered(Key(verb, id), [], 1, true)];
            && ServeChoice(routes, [], false, verb, me, mux) == Some(Meaning(routes[0], me))
            && ServeChoice(routes, [], true, verb, me, mux) == Some(Meaning(routes[1], me))
  {
    me, id := UsersMatch();
    StaticLosesToGroup(verb, me, id, [], mux);
  }

  lemma UsersMatch() returns (me: Bytes, id: Bytes)
    ensures me == [47, 117, 115, 101, 114, 115, 47, 109, 101]
    ensures id == [47, 117, 115, 101, 114, 115, 47, 123, 105, 100, 125]
    ensures OPEN !in me && OPEN in id
    ensures Capture(PatternParts(id), DropSlash(me)).Some?
  {
    var users, name, value, named := Spelled();
    me, id := [SLASH] + (users + [SLASH] + value), [SLASH] + (users + [SLASH] + named);
    SegmentUnderName(users, name, value, named);
  }

  lemma Spelled() returns (users: Bytes, name: Bytes, value: Bytes, named: Bytes)
    ensures SLASH !in users && SLASH !in name && users != [] && users[0] != OPEN && |name| == 2
    ensures SLASH !in value && value != [] && PERCENT !in value && named == [OPEN] + name + [CLOSE]
    ensures var me := [SLASH] + (users + [SLASH] + value);
            me == [47, 117, 115, 101, 114, 115, 47, 109, 101] && OPEN !in me
    ensures var id := [SLASH] + (users + [SLASH] + named);
            id == [47, 117, 115, 101, 114, 115, 47, 123, 105, 100, 125] && id[7] == OPEN
  {
    users, name, value := [117, 115, 101, 114, 115], [105, 100], [109, 101];
    named := [OPEN] + name + [CLOSE];
  }

  lemma SegmentUnderName(a: Bytes, name: Bytes, b: Bytes, named: Bytes)
    requires SLASH !in a && SLASH !in name && a != [] && a[0] != OPEN && 0 < |name| < 3
    requires SLASH !in b && b != [] && PERCENT !in b && named == [OPEN] + name + [CLOSE]
    ensures Capture(PatternParts([SLASH] + (a + [SLASH] + named)), DropSlash([SLASH] + (a + [SLASH] + b)))
         == Some([Param(name, b)])
  {
    TwoParts(a, name, named);
    CaptureSecond(a, name, b);
    Leading(a + [SLASH] + b);
  }

  lemma Leading(path: Bytes)
    ensures DropSlash([SLASH] + path) == path
  {
    assert ([SLASH] + path)[1..] == path;
  }
}
