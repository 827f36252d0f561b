/** When the schema recursion ends: exactly when no cycle of types is walked inline.  Only a
    reference to a named struct interrupts the walk; embedding one does not. */
module SchemaTermination {
  import opened Prelude
  import opened SchemaBuilder
  import opened SchemaProperties

  /** A call of schemaFor on a type, or of collectFields on a struct. */
  datatype Node = Node(t: nat, fields: bool)

  /** The calls that a call makes, whatever is registered already. */
  predicate Inline(g: Graph, a: Node, b: Node) {
    && a.t < |g|
    && if a.fields then
         exists i :: 0 <= i < |FieldsOf(g[a.t])| && Visits(g, FieldsOf(g[a.t])[i], b)
       else
         match g[a.t]
         case Pointer(e) => b == Node(e, false)
         case List(e) => e < |g| && g[e] != Basic(Uint8) && b == Node(e, false)
         case Map(k, e) => k < |g| && g[k] == Basic(Text) && b == Node(e, false)
         case Struct(name, _, _) => name == [] && b == Node(a.t, true)
         case _ => false
  }

  predicate Visits(g: Graph, f: Field, b: Node) {
    f.visible && f.typ < |g| && b == Node(f.typ, Flattened(g, f))
  }

  /** No chain of inline calls from the node is as long as k. */
  ghost predicate Bounded(g: Graph, a: Node, k: nat)
    decreases k
  {
    k > 0 && forall b {:trigger Inline(g, a, b)} :: Inline(g, a, b) ==> Bounded(g, b, k - 1)
  }

  lemma {:induction false} BoundedMore(g: Graph, a: Node, k: nat, k': nat)
    requires Bounded(g, a, k) && k <= k'
    ensures Bounded(g, a, k')
    decreases k
  {
    forall b | Inline(g, a, b)
      ensures Bounded(g, b, k' - 1)
    {
      BoundedMore(g, b, k - 1, k' - 1);
    }
  }

  // ---- a build that ends has bounded chains ----

  lemma {:induction false} SchemaIsBounded(g: Graph, s: State, t: nat, nullable: bool, fuel: nat)
    requires Closed(g) && t < |g| && SchemaFor(g, s, t, nullable, fuel).Some?
    ensures Bounded(g, Node(t, false), fuel)
    decreases fuel, 0
  {
    assert InGraph(g, g[t]);
    match g[t] {
      case Pointer(e) => SchemaIsBounded(g, s, e, true, fuel - 1);
      case List(e) =>
        if g[e] != Basic(Uint8) {
          SchemaIsBounded(g, s, e, false, fuel - 1);
        }
      case Map(k, e) =>
        if g[k] == Basic(Text) {
          SchemaIsBounded(g, s, e, false, fuel - 1);
        }
      case Struct(name, _, _) =>
        if name == [] {
          StructIsBounded(g, s, t, BARE, fuel - 1);
          assert FieldsOf(g[t])[0..] == FieldsOf(g[t]);
        }
      case _ =>
    }
  }

  ghost predicate BoundedFrom(g: Graph, t: nat, i: nat, k: nat)
    requires t < |g|
  {
    forall j, b :: i <= j < |FieldsOf(g[t])| && Visits(g, FieldsOf(g[t])[j], b) ==> Bounded(g, b, k)
  }

  lemma BoundedFromStart(g: Graph, t: nat, k: nat)
    requires t < |g| && BoundedFrom(g, t, 0, k)
    ensures Bounded(g, Node(t, true), k + 1)
  {
  }

  lemma BoundedStep(g: Graph, t: nat, i: nat, fuel: nat)
    requires t < |g| && i < |FieldsOf(g[t])| && fuel >= 2 && BoundedFrom(g, t, i + 1, fuel - 2)
    requires var f := FieldsOf(g[t])[i];
             f.visible && f.typ < |g| ==> Bounded(g, Node(f.typ, Flattened(g, f)), fuel - 1)
    ensures BoundedFrom(g, t, i, fuel - 1)
  {
    forall j, b | i <= j < |FieldsOf(g[t])| && Visits(g, FieldsOf(g[t])[j], b)
      ensures Bounded(g, b, fuel - 1)
    {
      if j > i {
        BoundedMore(g, b, fuel - 2, fuel - 1);
      }
    }
  }

  lemma {:induction false} FieldsAreBounded(g: Graph, s: State, t: nat, i: nat, body: Body, fuel: nat)
    requires Closed(g) && t < |g| && CollectFields(g, s, t, i, body, fuel).Some?
    ensures BoundedFrom(g, t, i, fuel - 1)
    decreases fuel, 0
  {
    if i < |FieldsOf(g[t])| {
      assert InGraph(g, g[t]);
      var f := FieldsOf(g[t])[i];
      if !f.visible {
        HiddenIsBounded(g, s, t, i, body, fuel - 1);
      } else if Flattened(g, f) {
        FlattenedIsBounded(g, s, f, t, i, body, fuel - 1, CollectFields(g, s, f.typ, 0, body, fuel - 1).value);
      } else {
        FieldIsBounded(g, s, f, t, i, body, fuel - 1, SchemaFor(g, s, f.typ, false, fuel - 1).value);
      }
    }
  }

  /** All the fields of a struct. */
  lemma {:induction false} StructIsBounded(g: Graph, s: State, t: nat, body: Body, fuel: nat)
    requires Closed(g) && t < |g| && CollectFields(g, s, t, 0, body, fuel).Some?
    ensures Bounded(g, Node(t, true), fuel)
    decreases fuel, 1
  {
    FieldsAreBounded(g, s, t, 0, body, fuel);
    BoundedFromStart(g, t, fuel - 1);
  }

  lemma {:induction false} HiddenIsBounded(g: Graph, s: State, t: nat, i: nat, body: Body, fuel: nat)
    requires Closed(g) && t < |g| && i < |FieldsOf(g[t])| && !FieldsOf(g[t])[i].visible
    requires CollectFields(g, s, t, i + 1, body, fuel).Some?
    ensures BoundedFrom(g, t, i, fuel)
    decreases fuel, 2
  {
    FieldsAreBounded(g, s, t, i + 1, body, fuel);
    BoundedStep(g, t, i, fuel + 1);
  }

  lemma {:induction false} FlattenedIsBounded(g: Graph, s: State, f: Field, t: nat, i: nat, body: Body, fuel: nat,
                                              r: Walked)
    requires Closed(g) && t < |g| && i < |FieldsOf(g[t])| && f == FieldsOf(g[t])[i] && f.typ < |g| && Flattened(g, f)
    requires CollectFields(g, s, f.typ, 0, body, fuel) == Some(r)
    requires CollectFields(g, r.state, t, i + 1, r.body, fuel).Some?
    ensures BoundedFrom(g, t, i, fuel)
    decreases fuel, 2
  {
    StructIsBounded(g, s, f.typ, body, fuel);
    FieldsAreBounded(g, r.state, t, i + 1, r.body, fuel);
    BoundedStep(g, t, i, fuel + 1);
  }

  lemma {:induction false} FieldIsBounded(g: Graph, s: State, f: Field, t: nat, i: nat, body: Body, fuel: nat, r: Built)
    requires Closed(g) && t < |g| && i < |FieldsOf(g[t])| && f == FieldsOf(g[t])[i] && f.typ < |g| && !Flattened(g, f)
    requires SchemaFor(g, s, f.typ, false, fuel) == Some(r)
    requires CollectFields(g, r.state, t, i + 1, WithField(g, f, body, r.schema), fuel).Some?
    ensures BoundedFrom(g, t, i, fuel)
    decreases fuel, 2
  {
    SchemaIsBounded(g, s, f.typ, false, fuel);
    FieldsAreBounded(g, r.state, t, i + 1, WithField(g, f, body, r.schema), fuel);
    BoundedStep(g, t, i, fuel + 1);
  }

  // ---- bounded chains make every build end ----

  lemma {:induction false} MoreFuel(g: Graph, s: State, t: nat, nullable: bool, fuel: nat, fuel': nat)
    requires Closed(g) && t < |g| && fuel <= fuel' && SchemaFor(g, s, t, nullable, fuel).Some?
    ensures SchemaFor(g, s, t, nullable, fuel') == SchemaFor(g, s, t, nullable, fuel)
    decreases fuel, 0
  {
    assert InGraph(g, g[t]);
    match g[t] {
      case Pointer(e) => MoreFuel(g, s, e, true, fuel - 1, fuel' - 1);
      case List(e) =>
        if g[e] != Basic(Uint8) {
          MoreFuel(g, s, e, false, fuel - 1, fuel' - 1);
        }
      case Map(k, e) =>
        if g[k] == Basic(Text) {
          MoreFuel(g, s, e, false, fuel - 1, fuel' - 1);
        }
      case Struct(name, _, _) =>
        if name == [] {
          MoreFuelFields(g, s, t, 0, BARE, fuel - 1, fuel' - 1);
        } else if t !in s.types {
          MoreFuelFields(g, Register(g, s, t), t, 0, BARE, fuel - 1, fuel' - 1);
        }
      case _ =>
    }
  }

  lemma {:induction false} MoreFuelFields(g: Graph, s: State, t: nat, i: nat, body: Body, fuel: nat, fuel': nat)
    requires Closed(g) && t < |g| && fuel <= fuel' && CollectFields(g, s, t, i, body, fuel).Some?
    ensures CollectFields(g, s, t, i, body, fuel') == CollectFields(g, s, t, i, body, fuel)
    decreases fuel, 0
  {
    if i < |FieldsOf(g[t])| {
      assert InGraph(g, g[t]);
      var f := FieldsOf(g[t])[i];
      if !f.visible {
        MoreFuelFields(g, s, t, i + 1, body, fuel - 1, fuel' - 1);
      } else if Flattened(g, f) {
        var r := CollectFields(g, s, f.typ, 0, body, fuel - 1).value;
        MoreFuelBoth(g, s, f.typ, t, i + 1, body, fuel - 1, fuel' - 1, r);
      } else {
        var r := SchemaFor(g, s, f.typ, false, fuel - 1).value;
        MoreFuel(g, s, f.typ, false, fuel - 1, fuel' - 1);
        MoreFuelFields(g, r.state, t, i + 1, WithField(g, f, body, r.schema), fuel - 1, fuel' - 1);
      }
    }
  }

  lemma {:induction false} MoreFuelBoth(g: Graph, s: State, u: nat, t: nat, i: nat, body: Body, fuel: nat, fuel': nat,
                                        r: Walked)
    requires Closed(g) && t < |g| && u < |g| && fuel <= fuel' && CollectFields(g, s, u, 0, body, fuel) == Some(r)
    requires CollectFields(g, r.state, t, i, r.body, fuel).Some?
    ensures CollectFields(g, s, u, 0, body, fuel') == Some(r)
    ensures CollectFields(g, r.state, t, i, r.body, fuel') == CollectFields(g, r.state, t, i, r.body, fuel)
    decreases fuel, 1
  {
    MoreFuelFields(g, s, u, 0, body, fuel, fuel');
    MoreFuelFields(g, r.state, t, i, r.body, fuel, fuel');
  }

  ghost predicate AllBounded(g: Graph, k: nat) {
    forall a: Node :: a.t < |g| ==> Bounded(g, a, k)
  }

  function Below(n: nat): (r: set<nat>)
    ensures |r| == n && forall c: nat :: c in r <==> c < n
  {
    if n == 0 then {} else Below(n - 1) + {n - 1}
  }

  ghost function Unregistered(g: Graph, s: State): set<nat> {
    Below(|g|) - s.types.Keys
  }

  lemma FewerUnregistered(g: Graph, s: State, s': State)
    requires s.types.Keys <= s'.types.Keys
    ensures |Unregistered(g, s')| <= |Unregistered(g, s)|
    ensures (exists t :: t < |g| && t in s'.types && t !in s.types) ==> |Unregistered(g, s')| < |Unregistered(g, s)|
  {
    var (u, u') := (Unregistered(g, s), Unregistered(g, s'));
    SubsetSize(u', u);
    if t :| t < |g| && t in s'.types && t !in s.types {
      assert t in u && t !in u';
      SubsetSize(u', u - {t});
    }
  }

  ghost predicate Ready(g: Graph, k: nat) {
    Closed(g) && AllBounded(g, k)
  }

  /** The type that a pointer, list or dictionary walks on to. */
  function Elem(g: Graph, t: nat): Option<nat>
    requires Closed(g) && t < |g|
  {
    assert InGraph(g, g[t]);
    match g[t]
    case Pointer(e) => Some(e)
    case List(e) => if g[e] == Basic(Uint8) then None else Some(e)
    case Map(key, e) => if g[key] == Basic(Text) then Some(e) else None
    case _ => None
  }

  lemma ElemIsInline(g: Graph, t: nat, e: nat)
    requires Closed(g) && t < |g| && Elem(g, t) == Some(e)
    ensures e < |g| && Inline(g, Node(t, false), Node(e, false))
  {
    assert InGraph(g, g[t]);
  }

  lemma ElemStep(g: Graph, s: State, t: nat, nullable: bool, e: nat, n: nat, fuel: nat)
    requires Closed(g) && t < |g| && e < |g| && Elem(g, t) == Some(e) && fuel == n + 1
    requires SchemaFor(g, s, e, g[t].Pointer?, n).Some?
    ensures SchemaFor(g, s, t, nullable, fuel).Some?
  {
    assert InGraph(g, g[t]);
  }

  lemma LeafStep(g: Graph, s: State, t: nat, nullable: bool, fuel: nat)
    requires Closed(g) && t < |g| && fuel > 0 && Elem(g, t) == None
    requires g[t].Struct? ==> g[t].name != [] && t in s.types
    ensures SchemaFor(g, s, t, nullable, fuel).Some?
  {
    assert InGraph(g, g[t]);
  }

  lemma StructStep(g: Graph, s: State, t: nat, nullable: bool, n: nat, fuel: nat)
    requires Closed(g) && t < |g| && g[t].Struct? && fuel == n + 1 && (g[t].name != [] ==> t !in s.types)
    requires CollectFields(g, if g[t].name == [] then s else Register(g, s, t), t, 0, BARE, n).Some?
    ensures SchemaFor(g, s, t, nullable, fuel).Some?
  {
    assert InGraph(g, g[t]);
  }

  lemma {:induction false} SchemaEnds(g: Graph, k: nat, s: State, t: nat, nullable: bool, left: nat) returns (fuel: nat)
    requires Ready(g, k) && t < |g| && Bounded(g, Node(t, false), left)
    ensures SchemaFor(g, s, t, nullable, fuel).Some?
    decreases |Unregistered(g, s)|, left, 0, 1
  {
    if Elem(g, t).Some? {
      var e := Elem(g, t).value;
      ElemIsInline(g, t, e);
      var n := SchemaEnds(g, k, s, e, g[t].Pointer?, left - 1);
      fuel := n + 1;
      ElemStep(g, s, t, nullable, e, n, fuel);
    } else if g[t].Struct? && (g[t].name == [] || t !in s.types) {
      fuel := StructEnds(g, k, s, t, nullable, left);
    } else {
      fuel := 1;
      LeafStep(g, s, t, nullable, fuel);
    }
  }

  lemma {:induction false} StructEnds(g: Graph, k: nat, s: State, t: nat, nullable: bool, left: nat) returns (fuel: nat)
    requires Ready(g, k) && t < |g| && g[t].Struct? && (g[t].name != [] ==> t !in s.types)
    requires Bounded(g, Node(t, false), left)
    ensures SchemaFor(g, s, t, nullable, fuel).Some?
    decreases |Unregistered(g, s)|, left, 0, 0
  {
    var n;
    if g[t].name == [] {
      assert Inline(g, Node(t, false), Node(t, true));
      n := FieldsEnd(g, k, s, t, 0, BARE, left - 1);
    } else {
      FewerUnregistered(g, s, Register(g, s, t));
      n := FieldsEnd(g, k, Register(g, s, t), t, 0, BARE, k);
    }
    fuel := n + 1;
    StructStep(g, s, t, nullable, n, fuel);
  }

  lemma {:induction false} FieldsEnd(g: Graph, k: nat, s: State, t: nat, i: nat, body: Body, left: nat)
    returns (fuel: nat)
    requires Ready(g, k) && t < |g| && i <= |FieldsOf(g[t])| && Bounded(g, Node(t, true), left)
    ensures CollectFields(g, s, t, i, body, fuel).Some?
    decreases |Unregistered(g, s)|, left, |FieldsOf(g[t])| - i, 1
  {
    if i == |FieldsOf(g[t])| {
      return 1;
    }
    assert InGraph(g, g[t]);
    var f := FieldsOf(g[t])[i];
    if !f.visible {
      var n := FieldsEnd(g, k, s, t, i + 1, body, left);
      return n + 1;
    }
    if Flattened(g, f) {
      fuel := FlattenedEnds(g, k, s, t, i, body, left);
    } else {
      fuel := FieldEnds(g, k, s, t, i, body, left);
    }
  }

  lemma {:induction false} FlattenedEnds(g: Graph, k: nat, s: State, t: nat, i: nat, body: Body,
                                         left: nat) returns (fuel: nat)
    requires Ready(g, k) && t < |g| && i < |FieldsOf(g[t])| && Bounded(g, Node(t, true), left)
    requires FieldsOf(g[t])[i].visible && FieldsOf(g[t])[i].typ < |g| && Flattened(g, FieldsOf(g[t])[i])
    ensures CollectFields(g, s, t, i, body, fuel).Some?
    decreases |Unregistered(g, s)|, left, |FieldsOf(g[t])| - i, 0
  {
    VisitIsBounded(g, t, i, left);
    var u := FieldsOf(g[t])[i].typ;
    var n := FieldsEnd(g, k, s, u, 0, body, left - 1);
    var r := AfterFlattened(g, s, u, body, n);
    var m := FieldsEnd(g, k, r.state, t, i + 1, r.body, left);
    fuel := n + m + 1;
    JoinFlattened(g, s, t, i, body, n, r, m, fuel);
  }

  lemma {:induction false} FieldEnds(g: Graph, k: nat, s: State, t: nat, i: nat, body: Body,
                                     left: nat) returns (fuel: nat)
    requires Ready(g, k) && t < |g| && i < |FieldsOf(g[t])| && Bounded(g, Node(t, true), left)
    requires FieldsOf(g[t])[i].visible && FieldsOf(g[t])[i].typ < |g| && !Flattened(g, FieldsOf(g[t])[i])
    ensures CollectFields(g, s, t, i, body, fuel).Some?
    decreases |Unregistered(g, s)|, left, |FieldsOf(g[t])| - i, 0
  {
    VisitIsBounded(g, t, i, left);
    var f := FieldsOf(g[t])[i];
    var n := SchemaEnds(g, k, s, f.typ, false, left - 1);
    var r := AfterField(g, s, f.typ, n);
    var m := FieldsEnd(g, k, r.state, t, i + 1, WithField(g, f, body, r.schema), left);
    fuel := n + m + 1;
    JoinField(g, s, t, i, body, n, r, m, fuel);
  }

  lemma JoinFlattened(g: Graph, s: State, t: nat, i: nat, body: Body, n: nat, r: Walked, m: nat,
                      fuel: nat)
    requires n < fuel && m < fuel
    requires Closed(g) && t < |g| && i < |FieldsOf(g[t])| && FieldsOf(g[t])[i].visible
    requires FieldsOf(g[t])[i].typ < |g| && Flattened(g, FieldsOf(g[t])[i])
    requires CollectFields(g, s, FieldsOf(g[t])[i].typ, 0, body, n) == Some(r)
    requires CollectFields(g, r.state, t, i + 1, r.body, m).Some?
    ensures CollectFields(g, s, t, i, body, fuel).Some?
  {
    MoreFuelFields(g, s, FieldsOf(g[t])[i].typ, 0, body, n, fuel - 1);
    MoreFuelFields(g, r.state, t, i + 1, r.body, m, fuel - 1);
  }

  lemma JoinField(g: Graph, s: State, t: nat, i: nat, body: Body, n: nat, r: Built, m: nat, fuel: nat)
    requires n < fuel && m < fuel
    requires Closed(g) && t < |g| && i < |FieldsOf(g[t])| && FieldsOf(g[t])[i].visible
    requires FieldsOf(g[t])[i].typ < |g| && !Flattened(g, FieldsOf(g[t])[i])
    requires SchemaFor(g, s, FieldsOf(g[t])[i].typ, false, n) == Some(r)
    requires CollectFields(g, r.state, t, i + 1, WithField(g, FieldsOf(g[t])[i], body, r.schema), m).Some?
    ensures CollectFields(g, s, t, i, body, fuel).Some?
  {
    MoreFuel(g, s, FieldsOf(g[t])[i].typ, false, n, fuel - 1);
    MoreFuelFields(g, r.state, t, i + 1, WithField(g, FieldsOf(g[t])[i], body, r.schema), m, fuel - 1);
  }

  lemma VisitIsBounded(g: Graph, t: nat, i: nat, left: nat)
    requires Closed(g) && t < |g| && i < |FieldsOf(g[t])| && FieldsOf(g[t])[i].visible
    requires Bounded(g, Node(t, true), left)
    ensures left > 0 && FieldsOf(g[t])[i].typ < |g|
    ensures Bounded(g, Node(FieldsOf(g[t])[i].typ, Flattened(g, FieldsOf(g[t])[i])), left - 1)
  {
    assert InGraph(g, g[t]);
    var f := FieldsOf(g[t])[i];
    var b := Node(f.typ, Flattened(g, f));
    assert Visits(g, f, b);
    assert Inline(g, Node(t, true), b);
  }

  lemma AfterFlattened(g: Graph, s: State, t: nat, body: Body, fuel: nat) returns (r: Walked)
    requires Closed(g) && t < |g| && CollectFields(g, s, t, 0, body, fuel).Some?
    ensures CollectFields(g, s, t, 0, body, fuel) == Some(r)
    ensures |Unregistered(g, r.state)| <= |Unregistered(g, s)|
  {
    r := CollectFields(g, s, t, 0, body, fuel).value;
    FieldsKeepTypes(g, s, t, 0, body, fuel);
    FewerUnregistered(g, s, r.state);
  }

  lemma AfterField(g: Graph, s: State, t: nat, fuel: nat) returns (r: Built)
    requires Closed(g) && t < |g| && SchemaFor(g, s, t, false, fuel).Some?
    ensures SchemaFor(g, s, t, false, fuel) == Some(r)
    ensures |Unregistered(g, r.state)| <= |Unregistered(g, s)|
  {
    r := SchemaFor(g, s, t, false, fuel).value;
    SchemaKeepsTypes(g, s, t, false, fuel);
    FewerUnregistered(g, s, r.state);
  }

  lemma {:induction false} SchemaKeepsTypes(g: Graph, s: State, t: nat, nullable: bool, fuel: nat)
    requires Closed(g) && t < |g| && SchemaFor(g, s, t, nullable, fuel).Some?
    ensures s.types.Keys <= SchemaFor(g, s, t, nullable, fuel).value.state.types.Keys
    decreases fuel, 0
  {
    assert InGraph(g, g[t]);
    match g[t] {
      case Pointer(e) => SchemaKeepsTypes(g, s, e, true, fuel - 1);
      case List(e) =>
        if g[e] != Basic(Uint8) {
          SchemaKeepsTypes(g, s, e, false, fuel - 1);
        }
      case Map(k, e) =>
        if g[k] == Basic(Text) {
          SchemaKeepsTypes(g, s, e, false, fuel - 1);
        }
      case Struct(name, _, _) =>
        if name == [] {
          FieldsKeepTypes(g, s, t, 0, BARE, fuel - 1);
        } else if t !in s.types {
          FieldsKeepTypes(g, Register(g, s, t), t, 0, BARE, fuel - 1);
        }
      case _ =>
    }
  }

  lemma {:induction false} FieldsKeepTypes(g: Graph, s: State, t: nat, i: nat, body: Body, fuel: nat)
    requires Closed(g) && t < |g| && CollectFields(g, s, t, i, body, fuel).Some?
    ensures s.types.Keys <= CollectFields(g, s, t, i, body, fuel).value.state.types.Keys
    decreases fuel, 0
  {
    if i < |FieldsOf(g[t])| {
      assert InGraph(g, g[t]);
      var f := FieldsOf(g[t])[i];
      if !f.visible {
        FieldsKeepTypes(g, s, t, i + 1, body, fuel - 1);
      } else if Flattened(g, f) {
        FlattenedKeepsTypes(g, s, f.typ, t, i + 1, body, fuel - 1, CollectFields(g, s, f.typ, 0, body, fuel - 1).value);
      } else {
        FieldKeepsTypes(g, s, f, t, i + 1, body, fuel - 1, SchemaFor(g, s, f.typ, false, fuel - 1).value);
      }
    }
  }

  lemma {:induction false} FlattenedKeepsTypes(g: Graph, s: State, u: nat, t: nat, i: nat, body: Body, fuel: nat,
                                               r: Walked)
    requires Closed(g) && t < |g| && u < |g| && CollectFields(g, s, u, 0, body, fuel) == Some(r)
    requires CollectFields(g, r.state, t, i, r.body, fuel).Some?
    ensures s.types.Keys <= CollectFields(g, r.state, t, i, r.body, fuel).value.state.types.Keys
    decreases fuel, 1
  {
    FieldsKeepTypes(g, s, u, 0, body, fuel);
    FieldsKeepTypes(g, r.state, t, i, r.body, fuel);
  }

  lemma {:induction false} FieldKeepsTypes(g: Graph, s: State, f: Field, t: nat, i: nat, body: Body, fuel: nat,
                                           r: Built)
    requires Closed(g) && t < |g| && f.typ < |g| && SchemaFor(g, s, f.typ, false, fuel) == Some(r)
    requires CollectFields(g, r.state, t, i, WithField(g, f, body, r.schema), fuel).Some?
    ensures s.types.Keys <= CollectFields(g, r.state, t, i, WithField(g, f, body, r.schema), fuel).value.state.types.Keys
    decreases fuel, 1
  {
    SchemaKeepsTypes(g, s, f.typ, false, fuel);
    FieldsKeepTypes(g, r.state, t, i, WithField(g, f, body, r.schema), fuel);
  }

  // ---- cycles ----

  ghost predicate Chain(g: Graph, p: seq<Node>) {
    forall i :: 0 <= i < |p| - 1 ==> Inline(g, p[i], p[i + 1])
  }

  ghost predicate Cycle(g: Graph, p: seq<Node>) {
    |p| >= 2 && Chain(g, p) && p[0] == p[|p| - 1]
  }

  ghost predicate NoInlineCycle(g: Graph) {
    forall p :: !Cycle(g, p)
  }

  lemma {:induction false} CycleIsUnbounded(g: Graph, p: seq<Node>, i: nat, k: nat)
    requires Cycle(g, p) && i < |p| - 1
    ensures !Bounded(g, p[i], k)
    decreases k
  {
    if k > 0 {
      CycleIsUnbounded(g, p, if i + 1 == |p| - 1 then 0 else i + 1, k - 1);
      assert Inline(g, p[i], p[i + 1]);
    }
  }

  lemma {:induction false} LongChain(g: Graph, a: Node, k: nat) returns (p: seq<Node>)
    requires Closed(g) && a.t < |g| && !Bounded(g, a, k)
    ensures |p| == k + 1 && p[0] == a && Chain(g, p) && forall i :: 0 <= i < |p| ==> p[i].t < |g|
    decreases k
  {
    p := [a];
    if k > 0 {
      var b :| Inline(g, a, b) && !Bounded(g, b, k - 1);
      assert InGraph(g, g[a.t]);
      var rest := LongChain(g, b, k - 1);
      p := [a] + rest;
      assert forall i :: 0 < i < |p| ==> p[i] == rest[i - 1];
    }
  }

  function Code(a: Node): nat {
    2 * a.t + (if a.fields then 1 else 0)
  }

  lemma Pigeonhole(p: seq<Node>, n: nat)
    requires |p| > n && forall i :: 0 <= i < |p| ==> Code(p[i]) < n
    ensures exists i, j :: 0 <= i < j < |p| && p[i] == p[j]
  {
    if forall i, j :: 0 <= i < j < |p| ==> p[i] != p[j] {
      DistinctCodes(p);
      SubsetSize(set k | 0 <= k < |p| :: Code(p[k]), Below(n));
    }
  }

  lemma {:induction false} DistinctCodes(p: seq<Node>)
    requires forall i, j :: 0 <= i < j < |p| ==> p[i] != p[j]
    ensures |(set k | 0 <= k < |p| :: Code(p[k]))| == |p|
  {
    if p != [] {
      var n := |p| - 1;
      DistinctCodes(p[..n]);
      var front := set k | 0 <= k < n :: Code(p[..n][k]);
      assert (set k | 0 <= k < |p| :: Code(p[k])) == front + {Code(p[n])};
      assert Code(p[n]) !in front;
    }
  }

  // ---- exactly when building ends ----

  ghost predicate Ends(g: Graph, t: nat)
    requires Closed(g) && t < |g|
  {
    exists fuel: nat :: SchemaFor(g, EMPTY, t, false, fuel).Some?
  }

  ghost predicate AllEnd(g: Graph)
    requires Closed(g)
  {
    forall t: nat :: t < |g| ==> Ends(g, t)
  }

  /** A type that can be built is left by every inline chain, and so are its fields. */
  lemma EndedIsBounded(g: Graph, a: Node) returns (k: nat)
    requires Closed(g) && a.t < |g| && Ends(g, a.t)
    ensures Bounded(g, a, k)
  {
    var fuel: nat :| SchemaFor(g, EMPTY, a.t, false, fuel).Some?;
    k := fuel;
    if !a.fields {
      SchemaIsBounded(g, EMPTY, a.t, false, fuel);
    } else if g[a.t].Struct? {
      var s := if g[a.t].name == [] then EMPTY else Register(g, EMPTY, a.t);
      StructIsBounded(g, s, a.t, BARE, fuel - 1);
      BoundedMore(g, a, fuel - 1, fuel);
    } else {
      assert FieldsOf(g[a.t]) == [];
    }
  }

  lemma NoCycleIsBounded(g: Graph)
    requires Closed(g) && NoInlineCycle(g)
    ensures AllBounded(g, 2 * |g| + 1)
  {
    forall a: Node | a.t < |g|
      ensures Bounded(g, a, 2 * |g| + 1)
    {
      if !Bounded(g, a, 2 * |g| + 1) {
        var p := LongChain(g, a, 2 * |g| + 1);
        Pigeonhole(p, 2 * |g|);
        var i, j :| 0 <= i < j < |p| && p[i] == p[j];
        var loop := p[i..j + 1];
        forall n | 0 <= n < |loop| - 1
          ensures Inline(g, loop[n], loop[n + 1])
        {
          assert Inline(g, p[i + n], p[i + n + 1]);
        }
        assert Cycle(g, loop);
      }
    }
  }

  /** Schemas can be built for all types of a graph if and only if no cycle is walked inline. */
  lemma EndsIffNoInlineCycle(g: Graph)
    requires Closed(g)
    ensures AllEnd(g) <==> NoInlineCycle(g)
  {
    if AllEnd(g) {
      forall p: seq<Node>
        ensures !Cycle(g, p)
      {
        if Cycle(g, p) {
          assert Inline(g, p[0], p[1]);
          var k := EndedIsBounded(g, p[0]);
          CycleIsUnbounded(g, p, 0, k);
        }
      }
    }
    if NoInlineCycle(g) {
      NoCycleIsBounded(g);
      forall t: nat | t < |g|
        ensures Ends(g, t)
      {
        var fuel := SchemaEnds(g, 2 * |g| + 1, EMPTY, t, false, 2 * |g| + 1);
      }
    }
  }

  lemma {:induction false} BuildMoreFuel(g: Graph, roots: seq<nat>, fuel: nat, fuel': nat)
    requires Closed(g) && (forall i :: 0 <= i < |roots| ==> roots[i] < |g|) && fuel <= fuel'
    requires Build(g, roots, fuel).Some?
    ensures Build(g, roots, fuel') == Build(g, roots, fuel)
  {
    if roots != [] {
      var n := |roots| - 1;
      BuildMoreFuel(g, roots[..n], fuel, fuel');
      MoreFuel(g, Build(g, roots[..n], fuel).value.state, roots[n], false, fuel, fuel');
    }
  }

  /** Then whole documents can be built too, from any roots in any order. */
  lemma {:induction false} DocumentEnds(g: Graph, roots: seq<nat>) returns (fuel: nat)
    requires Closed(g) && NoInlineCycle(g) && forall i :: 0 <= i < |roots| ==> roots[i] < |g|
    ensures Build(g, roots, fuel).Some?
  {
    fuel := 0;
    if roots != [] {
      var n := |roots| - 1;
      var before := DocumentEnds(g, roots[..n]);
      var s := Build(g, roots[..n], before).value.state;
      NoCycleIsBounded(g);
      var more := SchemaEnds(g, 2 * |g| + 1, s, roots[n], false, 2 * |g| + 1);
      fuel := before + more;
      BuildMoreFuel(g, roots[..n], before, fuel);
      MoreFuel(g, s, roots[n], false, more, fuel);
    }
  }

  // ---- a named struct on the cycle is not enough ----

  /** type E struct { X []struct{ E } } */
  function Embedding(name: Bytes, field: Bytes): Graph {
    [Struct(name, [], [Field(field, [], true, false, false, false, 1)]),
     List(2),
     Struct([], [], [Field(name, [], true, true, false, false, 0)])]
  }

  /** Every reference from one type to another, embeddings included. */
  predicate Refers(g: Graph, t: nat, u: nat)
    requires t < |g|
  {
    match g[t]
    case Pointer(e) => e == u
    case List(e) => e == u
    case Map(key, e) => e == u
    case Struct(_, _, fields) => exists i :: 0 <= i < |fields| && fields[i].typ == u
    case _ => false
  }

  /** Its only cycle of references goes through the named struct, and yet building never ends:
      flattening an embedded struct does not look whether it is registered. */
  lemma EmbeddingNeverEnds(name: Bytes, field: Bytes)
    requires name != []
    ensures var g := Embedding(name, field);
            && Closed(g) && g[0].Struct? && g[0].name != []
            && (forall t, u :: 0 <= t < 3 && 0 <= u && Refers(g, t, u) <==> 0 <= t < 3 && u == (t + 1) % 3)
            && !Ends(g, 0) && !Ends(g, 1) && !Ends(g, 2)
  {
    var g := Embedding(name, field);
    var p := [Node(0, true), Node(1, false), Node(2, false), Node(2, true), Node(0, true)];
    assert Visits(g, FieldsOf(g[0])[0], Node(1, false));
    assert Visits(g, FieldsOf(g[2])[0], Node(0, true));
    assert Cycle(g, p);
    var starts := [p[0], p[1], p[2]];
    forall t: nat | t < 3
      ensures !Ends(g, t)
    {
      if Ends(g, t) {
        var k := EndedIsBounded(g, starts[t]);
        CycleIsUnbounded(g, p, t, k);
      }
    }
  }
}
