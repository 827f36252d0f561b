/** What holds of every build: references, names, completed components, and what a schema means. */
module SchemaProperties {
  import opened Prelude
  import opened SchemaBuilder

  // ---- the maps ----

  /** Types and names correspond one to one, and every component belongs to a type. */
  predicate Consistent(s: State) {
    && (forall t :: t in s.types ==> s.types[t] in s.used && s.used[s.types[t]] == t && s.types[t] in s.components)
    && (forall n :: n in s.components ==> n in s.used && s.used[n] in s.types && s.types[s.used[n]] == n)
    && (forall n :: n in s.used ==> n in s.components)
  }

  /** What a nested call leaves alone, and what it adds: completed components only. */
  predicate Extends(s: State, s': State) {
    && (forall t :: t in s.types ==> t in s'.types && s'.types[t] == s.types[t])
    && (forall n :: n in s.components ==> n in s'.components && s'.components[n] == s.components[n])
    && (forall n :: n in s'.components && n !in s.components ==> s'.components[n].Some?)
  }

  lemma RegisterIsConsistent(g: Graph, s: State, t: nat)
    requires Consistent(s) && t < |g| && g[t].Struct? && t !in s.types
    ensures Consistent(Register(g, s, t)) && NameFor(g, s.used, t) !in s.components
  {
  }

  lemma CompleteExtends(g: Graph, s: State, t: nat, s': State, body: Body)
    requires Consistent(s) && t < |g| && g[t].Struct? && t !in s.types
    requires Consistent(s') && Extends(Register(g, s, t), s')
    ensures var done := Complete(s', NameFor(g, s.used, t), body); Consistent(done) && Extends(s, done)
  {
    RegisterIsConsistent(g, s, t);
    var n := NameFor(g, s.used, t);
    RegisterAdds(g, s, t, Register(g, s, t));
    CompletesAdded(s, Register(g, s, t), s', n, body);
    CompleteIsConsistent(s', n, body);
  }

  /** Registering changes nothing but to add one component. */
  lemma RegisterAdds(g: Graph, s: State, t: nat, r: State)
    requires Consistent(s) && t < |g| && g[t].Struct? && t !in s.types && r == Register(g, s, t)
    ensures AddsOne(s, r, NameFor(g, s.used, t))
  {
    RegisterIsConsistent(g, s, t);
  }

  predicate AddsOne(s: State, r: State, n: Bytes) {
    && n !in s.components && r.components.Keys == s.components.Keys + {n}
    && (forall m :: m in s.components ==> r.components[m] == s.components[m])
    && (forall t :: t in s.types ==> t in r.types && r.types[t] == s.types[t])
  }

  lemma CompletesAdded(s: State, r: State, s': State, n: Bytes, body: Body)
    requires AddsOne(s, r, n) && Extends(r, s')
    ensures n in s'.components && Extends(s, Complete(s', n, body))
  {
    assert n in r.components;
  }

  lemma CompleteIsConsistent(s: State, n: Bytes, body: Body)
    requires Consistent(s) && n in s.components
    ensures Consistent(Complete(s, n, body))
  {
    assert Complete(s, n, body).components.Keys == s.components.Keys;
  }

  lemma {:induction false} SchemaExtends(g: Graph, s: State, t: nat, nullable: bool, fuel: nat, b: Built)
    requires Closed(g) && t < |g| && Consistent(s) && SchemaFor(g, s, t, nullable, fuel) == Some(b)
    ensures Consistent(b.state) && Extends(s, b.state)
    decreases fuel, 0
  {
    assert InGraph(g, g[t]);
    match g[t] {
      case Pointer(e) => SchemaExtends(g, s, e, true, fuel - 1, b);
      case List(e) =>
        if g[e] != Basic(Uint8) {
          SchemaExtends(g, s, e, false, fuel - 1, SchemaFor(g, s, e, false, fuel - 1).value);
        }
      case Map(k, e) =>
        if g[k] == Basic(Text) {
          SchemaExtends(g, s, e, false, fuel - 1, SchemaFor(g, s, e, false, fuel - 1).value);
        }
      case Struct(name, _, _) =>
        if name == [] {
          FieldsExtend(g, s, t, 0, BARE, fuel - 1, CollectFields(g, s, t, 0, BARE, fuel - 1).value);
        } else if t !in s.types {
          var s1 := Register(g, s, t);
          var w := CollectFields(g, s1, t, 0, BARE, fuel - 1).value;
          RegisterIsConsistent(g, s, t);
          FieldsExtend(g, s1, t, 0, BARE, fuel - 1, w);
          CompleteExtends(g, s, t, w.state, w.body);
        }
      case _ =>
    }
  }

  lemma ExtendsTransitive(a: State, b: State, c: State)
    requires Extends(a, b) && Extends(b, c)
    ensures Extends(a, c)
  {
  }

  lemma {:induction false} FieldsExtend(g: Graph, s: State, t: nat, i: nat, before: Body, fuel: nat, w: Walked)
    requires Closed(g) && t < |g| && Consistent(s) && CollectFields(g, s, t, i, before, fuel) == Some(w)
    ensures Consistent(w.state) && Extends(s, w.state)
    decreases fuel, 0
  {
    if i < |FieldsOf(g[t])| {
      assert InGraph(g, g[t]);
      var f := FieldsOf(g[t])[i];
      if !f.visible {
        FieldsExtend(g, s, t, i + 1, before, fuel - 1, w);
      } else if Flattened(g, f) {
        FlattenedExtends(g, s, f.typ, t, i + 1, before, fuel - 1, CollectFields(g, s, f.typ, 0, before, fuel - 1).value, w);
      } else {
        FieldExtends(g, s, f, t, i + 1, before, fuel - 1, SchemaFor(g, s, f.typ, false, fuel - 1).value, w);
      }
    }
  }

  lemma {:induction false} FlattenedExtends(g: Graph, s: State, u: nat, t: nat, i: nat, before: Body, fuel: nat,
                                            r: Walked, w: Walked)
    requires Closed(g) && t < |g| && u < |g| && Consistent(s)
    requires CollectFields(g, s, u, 0, before, fuel) == Some(r)
    requires CollectFields(g, r.state, t, i, r.body, fuel) == Some(w)
    ensures Consistent(w.state) && Extends(s, w.state)
    decreases fuel, 1
  {
    FieldsExtend(g, s, u, 0, before, fuel, r);
    FieldsExtend(g, r.state, t, i, r.body, fuel, w);
    ExtendsTransitive(s, r.state, w.state);
  }

  lemma {:induction false} FieldExtends(g: Graph, s: State, f: Field, t: nat, i: nat, before: Body, fuel: nat,
                                        r: Built, w: Walked)
    requires Closed(g) && t < |g| && f.typ < |g| && Consistent(s)
    requires SchemaFor(g, s, f.typ, false, fuel) == Some(r)
    requires CollectFields(g, r.state, t, i, WithField(g, f, before, r.schema), fuel) == Some(w)
    ensures Consistent(w.state) && Extends(s, w.state)
    decreases fuel, 1
  {
    SchemaExtends(g, s, f.typ, false, fuel, r);
    FieldsExtend(g, r.state, t, i, WithField(g, f, before, r.schema), fuel, w);
    ExtendsTransitive(s, r.state, w.state);
  }

  // ---- the meaning of a schema ----

  /** A schema says what the type is, given the final names: no state, no order of visits. */
  ghost function Denote(g: Graph, names: map<nat, Bytes>, t: nat, nullable: bool, fuel: nat): Option<Schema>
    requires Closed(g) && t < |g|
    decreases fuel
  {
    if fuel == 0 then None
    else
      assert InGraph(g, g[t]);
      match g[t]
      case Basic(basis) => Some(BasicSchema(basis, nullable))
      case Time => Some(Plain("string", "date-time", nullable))
      case Pointer(e) => Denote(g, names, e, true, fuel - 1)
      case List(e) =>
        if g[e] == Basic(Uint8) then Some(Plain("string", "byte", nullable))
        else
          var r := Denote(g, names, e, false, fuel - 1);
          if r.None? then None else Some(Array(r.value, nullable))
      case Map(k, e) =>
        if g[k] != Basic(Text) then Some(Plain("object", "", nullable))
        else
          var r := Denote(g, names, e, false, fuel - 1);
          if r.None? then None else Some(Dictionary(r.value, nullable))
      case Struct(name, _, _) =>
        if name != [] then if t in names then Some(Ref(names[t], nullable)) else None
        else
          var r := DenoteFields(g, names, t, 0, BARE, fuel - 1);
          if r.None? then None else Some(ObjectOf(r.value, nullable))
  }

  /** The properties of a struct: its own fields and those of the structs embedded in it, a later
      one of the same name winning. */
  ghost function DenoteFields(g: Graph, names: map<nat, Bytes>, t: nat, i: nat, before: Body, fuel: nat)
    : Option<Body>
    requires Closed(g) && t < |g|
    decreases fuel
  {
    if fuel == 0 then None
    else if i >= |FieldsOf(g[t])| then Some(Tidy(before))
    else
      assert InGraph(g, g[t]);
      var f := FieldsOf(g[t])[i];
      if !f.visible then DenoteFields(g, names, t, i + 1, before, fuel - 1)
      else if Flattened(g, f) then
        var r := DenoteFields(g, names, f.typ, 0, before, fuel - 1);
        if r.None? then None else DenoteFields(g, names, t, i + 1, r.value, fuel - 1)
      else
        var r := Denote(g, names, f.typ, false, fuel - 1);
        if r.None? then None
        else DenoteFields(g, names, t, i + 1, WithField(g, f, before, r.value), fuel - 1)
  }

  /** A completed component is what its type denotes. */
  ghost predicate IsMeant(g: Graph, names: map<nat, Bytes>, t: nat, c: Option<Schema>)
    requires Closed(g)
  {
    && c.Some? && t < |g| && g[t].Struct?
    && exists fuel: nat, body :: DenoteFields(g, names, t, 0, BARE, fuel) == Some(body)
                                    && c.value == ObjectOf(body, false)
  }

  ghost predicate Agrees(s: State, names: map<nat, Bytes>) {
    forall t :: t in s.types ==> t in names && names[t] == s.types[t]
  }

  /** Components added between two states are what their types denote. */
  ghost predicate AddsMeant(g: Graph, names: map<nat, Bytes>, s: State, s': State)
    requires Closed(g) && Consistent(s')
  {
    forall n {:trigger Added(s, s', n)} :: Added(s, s', n) ==> IsMeant(g, names, s'.used[n], s'.components[n])
  }

  predicate Added(s: State, s': State, n: Bytes) {
    n in s'.components && n !in s.components
  }

  lemma {:induction false} SchemaIsMeant(g: Graph, s: State, t: nat, nullable: bool, fuel: nat, names: map<nat, Bytes>,
                                         b: Built)
    requires Closed(g) && t < |g| && Consistent(s) && SchemaFor(g, s, t, nullable, fuel) == Some(b)
    requires Agrees(b.state, names)
    ensures Denote(g, names, t, nullable, fuel) == Some(b.schema) && Consistent(b.state) && AddsMeant(g, names, s, b.state)
    decreases fuel, 2
  {
    assert InGraph(g, g[t]);
    match g[t] {
      case Pointer(e) => SchemaIsMeant(g, s, e, true, fuel - 1, names, b);
      case List(e) =>
        if g[e] != Basic(Uint8) {
          SchemaIsMeant(g, s, e, false, fuel - 1, names, SchemaFor(g, s, e, false, fuel - 1).value);
        }
      case Map(k, e) =>
        if g[k] == Basic(Text) {
          SchemaIsMeant(g, s, e, false, fuel - 1, names, SchemaFor(g, s, e, false, fuel - 1).value);
        }
      case Struct(name, _, _) =>
        if name == [] {
          FieldsAreMeant(g, s, t, 0, BARE, fuel - 1, names, CollectFields(g, s, t, 0, BARE, fuel - 1).value);
        } else if t !in s.types {
          ComponentIsMeant(g, s, t, fuel - 1, names, CollectFields(g, Register(g, s, t), t, 0, BARE, fuel - 1).value);
        }
      case _ =>
    }
  }

  lemma {:induction false} ComponentIsMeant(g: Graph, s: State, t: nat, fuel: nat, names: map<nat, Bytes>, w: Walked)
    requires Closed(g) && t < |g| && g[t].Struct? && g[t].name != [] && Consistent(s) && t !in s.types
    requires CollectFields(g, Register(g, s, t), t, 0, BARE, fuel) == Some(w) && Agrees(w.state, names)
    ensures var n := NameFor(g, s.used, t); var done := Complete(w.state, n, w.body);
            Consistent(done) && AddsMeant(g, names, s, done) && t in names && names[t] == n
    decreases fuel, 1
  {
    RegisterIsConsistent(g, s, t);
    FieldsExtend(g, Register(g, s, t), t, 0, BARE, fuel, w);
    FieldsAreMeant(g, Register(g, s, t), t, 0, BARE, fuel, names, w);
    CompleteIsMeant(g, names, s, t, w.state, w.body, fuel);
    assert t in Register(g, s, t).types;
  }

  lemma CompleteIsMeant(g: Graph, names: map<nat, Bytes>, s: State, t: nat, s': State, body: Body,
                        fuel: nat)
    requires Closed(g) && t < |g| && g[t].Struct? && Consistent(s) && t !in s.types
    requires Consistent(s') && Extends(Register(g, s, t), s') && AddsMeant(g, names, Register(g, s, t), s')
    requires DenoteFields(g, names, t, 0, BARE, fuel) == Some(body)
    ensures var done := Complete(s', NameFor(g, s.used, t), body);
            Consistent(done) && AddsMeant(g, names, s, done)
  {
    CompleteExtends(g, s, t, s', body);
    var n := NameFor(g, s.used, t);
    var done := Complete(s', n, body);
    assert t in Register(g, s, t).types && s'.types[t] == n && done.used[n] == t;
    assert IsMeant(g, names, t, done.components[n]);
    forall m | Added(s, done, m)
      ensures IsMeant(g, names, done.used[m], done.components[m])
    {
      assert m != n ==> Added(Register(g, s, t), s', m);
    }
  }

  lemma {:induction false} FieldsAreMeant(g: Graph, s: State, t: nat, i: nat, before: Body, fuel: nat,
                                          names: map<nat, Bytes>, w: Walked)
    requires Closed(g) && t < |g| && Consistent(s) && CollectFields(g, s, t, i, before, fuel) == Some(w)
    requires Agrees(w.state, names)
    ensures DenoteFields(g, names, t, i, before, fuel) == Some(w.body)
    ensures Consistent(w.state) && AddsMeant(g, names, s, w.state)
    decreases fuel, 0
  {
    if i < |FieldsOf(g[t])| {
      assert InGraph(g, g[t]);
      var f := FieldsOf(g[t])[i];
      if !f.visible {
        FieldsAreMeant(g, s, t, i + 1, before, fuel - 1, names, w);
      } else if Flattened(g, f) {
        FlattenedIsMeant(g, s, f.typ, t, i + 1, before, fuel - 1, names,
                         CollectFields(g, s, f.typ, 0, before, fuel - 1).value, w);
      } else {
        FieldIsMeant(g, s, f, t, i + 1, before, fuel - 1, names, SchemaFor(g, s, f.typ, false, fuel - 1).value, w);
      }
    }
  }

  /** An embedded struct `u`, and then the fields of `t` from the i-th on. */
  lemma {:induction false} FlattenedIsMeant(g: Graph, s: State, u: nat, t: nat, i: nat, before: Body,
                                            fuel: nat, names: map<nat, Bytes>, r: Walked, w: Walked)
    requires Closed(g) && u < |g| && t < |g| && Consistent(s) && Agrees(w.state, names)
    requires CollectFields(g, s, u, 0, before, fuel) == Some(r)
    requires CollectFields(g, r.state, t, i, r.body, fuel) == Some(w)
    ensures DenoteFields(g, names, u, 0, before, fuel) == Some(r.body)
    ensures DenoteFields(g, names, t, i, r.body, fuel) == Some(w.body)
    ensures Consistent(w.state) && AddsMeant(g, names, s, w.state)
    decreases fuel, 1
  {
    FieldsExtend(g, s, u, 0, before, fuel, r);
    FieldsExtend(g, r.state, t, i, r.body, fuel, w);
    FieldsAreMeant(g, s, u, 0, before, fuel, names, r);
    FieldsAreMeant(g, r.state, t, i, r.body, fuel, names, w);
    AddedInTwoSteps(g, names, s, r.state, w.state);
  }

  /** A field of its own, and then the fields of `t` from the i-th on. */
  lemma {:induction false} FieldIsMeant(g: Graph, s: State, f: Field, t: nat, i: nat, before: Body,
                                        fuel: nat, names: map<nat, Bytes>, r: Built, w: Walked)
    requires Closed(g) && f.typ < |g| && t < |g| && Consistent(s) && Agrees(w.state, names)
    requires SchemaFor(g, s, f.typ, false, fuel) == Some(r)
    requires CollectFields(g, r.state, t, i, WithField(g, f, before, r.schema), fuel) == Some(w)
    ensures Denote(g, names, f.typ, false, fuel) == Some(r.schema)
    ensures DenoteFields(g, names, t, i, WithField(g, f, before, r.schema), fuel) == Some(w.body)
    ensures Consistent(w.state) && AddsMeant(g, names, s, w.state)
    decreases fuel, 3
  {
    var after := WithField(g, f, before, r.schema);
    SchemaExtends(g, s, f.typ, false, fuel, r);
    FieldsExtend(g, r.state, t, i, after, fuel, w);
    SchemaIsMeant(g, s, f.typ, false, fuel, names, r);
    FieldsAreMeant(g, r.state, t, i, after, fuel, names, w);
    AddedInTwoSteps(g, names, s, r.state, w.state);
  }

  lemma AddedInTwoSteps(g: Graph, names: map<nat, Bytes>, a: State, b: State, c: State)
    requires Closed(g) && Consistent(b) && Consistent(c) && Extends(b, c)
    requires AddsMeant(g, names, a, b) && AddsMeant(g, names, b, c)
    ensures AddsMeant(g, names, a, c)
  {
    forall n | Added(a, c, n)
      ensures IsMeant(g, names, c.used[n], c.components[n])
    {
      assert Added(b, c, n) || Added(a, b, n);
      if n in b.components {
        assert c.types[b.used[n]] == n;
      }
    }
  }

  // ---- references ----

  /** Every reference in the schema names a completed component. */
  ghost predicate Resolves(x: Schema, s: State) {
    match x
    case Plain(_, _, _) => true
    case Ref(n, _) => n in s.components && s.components[n].Some?
    case Array(items, _) => Resolves(items, s)
    case Dictionary(values, _) => Resolves(values, s)
    case Object(properties, _, _) => forall k :: k in properties ==> Resolves(properties[k], s)
  }

  ghost predicate AllCompleted(s: State) {
    Consistent(s) && forall n :: n in s.components ==> s.components[n].Some?
  }

  lemma {:induction false} DenotedResolves(g: Graph, s: State, t: nat, nullable: bool, fuel: nat)
    requires Closed(g) && t < |g| && AllCompleted(s) && Denote(g, s.types, t, nullable, fuel).Some?
    ensures Resolves(Denote(g, s.types, t, nullable, fuel).value, s)
    decreases fuel, 0
  {
    assert InGraph(g, g[t]);
    match g[t] {
      case Pointer(e) => DenotedResolves(g, s, e, true, fuel - 1);
      case List(e) =>
        if g[e] != Basic(Uint8) {
          DenotedResolves(g, s, e, false, fuel - 1);
        }
      case Map(k, e) =>
        if g[k] == Basic(Text) {
          DenotedResolves(g, s, e, false, fuel - 1);
        }
      case Struct(name, _, _) =>
        if name == [] {
          DenotedFieldsResolve(g, s, t, 0, BARE, fuel - 1);
        }
      case _ =>
    }
  }

  ghost predicate BodyResolves(body: Body, s: State) {
    forall k :: k in body.properties ==> Resolves(body.properties[k], s)
  }

  lemma {:induction false} DenotedFieldsResolve(g: Graph, s: State, t: nat, i: nat, before: Body, fuel: nat)
    requires Closed(g) && t < |g| && AllCompleted(s) && DenoteFields(g, s.types, t, i, before, fuel).Some?
    requires BodyResolves(before, s)
    ensures BodyResolves(DenoteFields(g, s.types, t, i, before, fuel).value, s)
    decreases fuel, 0
  {
    if i < |FieldsOf(g[t])| {
      assert InGraph(g, g[t]);
      var f := FieldsOf(g[t])[i];
      if !f.visible {
        DenotedFieldsResolve(g, s, t, i + 1, before, fuel - 1);
      } else if Flattened(g, f) {
        DenotedFieldsResolve(g, s, f.typ, 0, before, fuel - 1);
        DenotedFieldsResolve(g, s, t, i + 1, DenoteFields(g, s.types, f.typ, 0, before, fuel - 1).value, fuel - 1);
      } else {
        DenotedFieldResolves(g, s, f, t, i + 1, before, fuel - 1, Denote(g, s.types, f.typ, false, fuel - 1).value);
      }
    }
  }

  lemma {:induction false} DenotedFieldResolves(g: Graph, s: State, f: Field, t: nat, i: nat, before: Body, fuel: nat,
                                                x: Schema)
    requires Closed(g) && t < |g| && f.typ < |g| && AllCompleted(s) && Denote(g, s.types, f.typ, false, fuel) == Some(x)
    requires DenoteFields(g, s.types, t, i, WithField(g, f, before, x), fuel).Some? && BodyResolves(before, s)
    ensures BodyResolves(DenoteFields(g, s.types, t, i, WithField(g, f, before, x), fuel).value, s)
    decreases fuel, 1
  {
    DenotedResolves(g, s, f.typ, false, fuel);
    DenotedFieldsResolve(g, s, t, i, WithField(g, f, before, x), fuel);
  }

  // ---- a whole document ----

  datatype Document = Document(state: State, schemas: seq<Schema>)

  /** schemaFor on one root type after another, as the routes mention them. */
  ghost function Build(g: Graph, roots: seq<nat>, fuel: nat): Option<Document>
    requires Closed(g) && forall i :: 0 <= i < |roots| ==> roots[i] < |g|
  {
    if roots == [] then Some(Document(EMPTY, []))
    else
      var front := Build(g, roots[..|roots| - 1], fuel);
      if front.None? then None
      else
        var r := SchemaFor(g, front.value.state, roots[|roots| - 1], false, fuel);
        if r.None? then None else Some(Document(r.value.state, front.value.schemas + [r.value.schema]))
  }

  ghost predicate SchemaMeant(g: Graph, names: map<nat, Bytes>, t: nat, x: Schema)
    requires Closed(g) && t < |g|
  {
    exists fuel: nat :: Denote(g, names, t, false, fuel) == Some(x)
  }

  lemma {:induction false} BuildIsMeant(g: Graph, roots: seq<nat>, fuel: nat, names: map<nat, Bytes>)
    requires Closed(g) && forall i :: 0 <= i < |roots| ==> roots[i] < |g|
    requires Build(g, roots, fuel).Some? && Agrees(Build(g, roots, fuel).value.state, names)
    ensures var d := Build(g, roots, fuel).value;
            && AllCompleted(d.state) && AddsMeant(g, names, EMPTY, d.state) && |d.schemas| == |roots|
            && forall i :: 0 <= i < |roots| ==> SchemaMeant(g, names, roots[i], d.schemas[i])
  {
    if roots != [] {
      var n := |roots| - 1;
      var front := Build(g, roots[..n], fuel).value;
      BuildIsCompleted(g, roots[..n], fuel);
      var r := SchemaFor(g, front.state, roots[n], false, fuel).value;
      SchemaExtends(g, front.state, roots[n], false, fuel, r);
      BuildIsMeant(g, roots[..n], fuel, names);
      SchemaIsMeant(g, front.state, roots[n], false, fuel, names, r);
      AddedInTwoSteps(g, names, EMPTY, front.state, r.state);
      assert SchemaMeant(g, names, roots[n], r.schema);
    }
  }

  lemma {:induction false} BuildIsCompleted(g: Graph, roots: seq<nat>, fuel: nat)
    requires Closed(g) && forall i :: 0 <= i < |roots| ==> roots[i] < |g|
    requires Build(g, roots, fuel).Some?
    ensures AllCompleted(Build(g, roots, fuel).value.state)
  {
    if roots != [] {
      var n := |roots| - 1;
      BuildIsCompleted(g, roots[..n], fuel);
      var s := Build(g, roots[..n], fuel).value.state;
      SchemaExtends(g, s, roots[n], false, fuel, SchemaFor(g, s, roots[n], false, fuel).value);
    }
  }

  /** A finished document: every component is completed and is what its type denotes, distinct types
      have distinct components, and every reference in a schema or a component resolves. */
  lemma DocumentIsSound(g: Graph, roots: seq<nat>, fuel: nat)
    requires Closed(g) && forall i :: 0 <= i < |roots| ==> roots[i] < |g|
    requires Build(g, roots, fuel).Some?
    ensures var d := Build(g, roots, fuel).value; var s := d.state;
            && |d.schemas| == |roots|
            && (forall i :: 0 <= i < |roots| ==> SchemaMeant(g, s.types, roots[i], d.schemas[i]) && Resolves(d.schemas[i], s))
            && (forall n :: n in s.components ==>
                  n in s.used && IsMeant(g, s.types, s.used[n], s.components[n]) && Resolves(s.components[n].value, s))
            && (forall t, t' :: t in s.types && t' in s.types && t != t' ==> s.types[t] != s.types[t'])
  {
    var d := Build(g, roots, fuel).value;
    var s := d.state;
    BuildIsMeant(g, roots, fuel, s.types);
    forall i | 0 <= i < |roots|
      ensures Resolves(d.schemas[i], s)
    {
      assert SchemaMeant(g, s.types, roots[i], d.schemas[i]);
      var f: nat :| Denote(g, s.types, roots[i], false, f) == Some(d.schemas[i]);
      DenotedResolves(g, s, roots[i], false, f);
    }
    forall n | n in s.components
      ensures IsMeant(g, s.types, s.used[n], s.components[n]) && Resolves(s.components[n].value, s)
    {
      var t := s.used[n];
      assert Added(EMPTY, s, n);
      assert IsMeant(g, s.types, t, s.components[n]);
      var f: nat, body :| DenoteFields(g, s.types, t, 0, BARE, f) == Some(body)
                             && s.components[n].value == ObjectOf(body, false);
      DenotedFieldsResolve(g, s, t, 0, BARE, f);
    }
  }

  /** Later roots change no component. */
  lemma {:induction false} ComponentsAreFinal(g: Graph, roots: seq<nat>, n: nat, fuel: nat)
    requires Closed(g) && (forall i :: 0 <= i < |roots| ==> roots[i] < |g|) && n <= |roots|
    requires Build(g, roots, fuel).Some?
    ensures Build(g, roots[..n], fuel).Some?
    ensures Extends(Build(g, roots[..n], fuel).value.state, Build(g, roots, fuel).value.state)
    decreases |roots|
  {
    if n == |roots| {
      assert roots[..n] == roots;
    } else {
      var front := roots[..|roots| - 1];
      assert front[..n] == roots[..n];
      ComponentsAreFinal(g, front, n, fuel);
      BuildIsCompleted(g, front, fuel);
      var (s, last) := (Build(g, front, fuel).value.state, roots[|roots| - 1]);
      SchemaExtends(g, s, last, false, fuel, SchemaFor(g, s, last, false, fuel).value);
      ExtendsTransitive(Build(g, roots[..n], fuel).value.state, s, Build(g, roots, fuel).value.state);
    }
  }
}
