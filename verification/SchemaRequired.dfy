/** The required names of an object schema (plugins/openapi/schema.go:326-365, 593-599): exactly those
    of the fields that are needed, in order, and when one of them is listed twice. */
module SchemaRequired {
  import opened Prelude
  import opened ByteStrings
  import opened SchemaBuilder
  import opened SchemaProperties

  /** The property names of the needed fields from the i-th on, those of embedded structs included. */
  function NeededNames(g: Graph, t: nat, i: nat, fuel: nat): seq<Bytes>
    requires Closed(g) && t < |g|
    decreases fuel, 0
  {
    if fuel == 0 || i >= |FieldsOf(g[t])| then []
    else
      assert InGraph(g, g[t]);
      var f := FieldsOf(g[t])[i];
      NamesOf(g, f, fuel - 1) + NeededNames(g, t, i + 1, fuel - 1)
  }

  function NamesOf(g: Graph, f: Field, fuel: nat): seq<Bytes>
    requires Closed(g) && f.typ < |g|
    decreases fuel, 1
  {
    if !f.visible then []
    else if Flattened(g, f) then NeededNames(g, f.typ, 0, fuel)
    else if Needed(g, f) then [PropertyName(f)]
    else []
  }

  /** The names of all properties. */
  function VisibleNames(g: Graph, t: nat, i: nat, fuel: nat): set<Bytes>
    requires Closed(g) && t < |g|
    decreases fuel
  {
    if fuel == 0 || i >= |FieldsOf(g[t])| then {}
    else
      assert InGraph(g, g[t]);
      var f := FieldsOf(g[t])[i];
      var rest := VisibleNames(g, t, i + 1, fuel - 1);
      if !f.visible then rest
      else if Flattened(g, f) then VisibleNames(g, f.typ, 0, fuel - 1) + rest
      else {PropertyName(f)} + rest
  }

  lemma {:induction false} NeededAreVisible(g: Graph, t: nat, i: nat, fuel: nat)
    requires Closed(g) && t < |g|
    ensures forall n :: n in NeededNames(g, t, i, fuel) ==> n in VisibleNames(g, t, i, fuel)
    decreases fuel
  {
    if fuel > 0 && i < |FieldsOf(g[t])| {
      assert InGraph(g, g[t]);
      NeededAreVisible(g, t, i + 1, fuel - 1);
      NeededAreVisible(g, FieldsOf(g[t])[i].typ, 0, fuel - 1);
    }
  }

  /** What a body holds more than an earlier one: sorted, and exactly these names. */
  ghost predicate Gains(before: Body, after: Body, needed: seq<Bytes>, visible: set<Bytes>) {
    && Sorted(after.required) && multiset(after.required) == multiset(before.required) + multiset(needed)
    && after.properties.Keys == before.properties.Keys + visible
  }

  lemma GainsBoth(a: Body, b: Body, c: Body, n: seq<Bytes>, v: set<Bytes>, m: seq<Bytes>, u: set<Bytes>)
    requires Gains(a, b, n, v) && Gains(b, c, m, u)
    ensures Gains(a, c, n + m, v + u)
  {
  }

  lemma GainsField(g: Graph, f: Field, a: Body, x: Schema, c: Body, m: seq<Bytes>, u: set<Bytes>)
    requires f.typ < |g| && Gains(WithField(g, f, a, x), c, m, u)
    ensures Gains(a, c, (if Needed(g, f) then [PropertyName(f)] else []) + m, {PropertyName(f)} + u)
  {
    if Needed(g, f) {
      assert multiset(a.required + [PropertyName(f)]) == multiset(a.required) + multiset{PropertyName(f)};
    } else {
      assert [] + m == m;
    }
  }

  lemma GainsNothing(a: Body)
    ensures Gains(a, Tidy(a), [], {})
  {
  }

  lemma {:induction false} FieldsGain(g: Graph, names: map<nat, Bytes>, t: nat, i: nat, before: Body, fuel: nat,
                                      after: Body)
    requires Closed(g) && t < |g| && DenoteFields(g, names, t, i, before, fuel) == Some(after)
    ensures Gains(before, after, NeededNames(g, t, i, fuel), VisibleNames(g, t, i, fuel))
    decreases fuel, 0
  {
    if i < |FieldsOf(g[t])| {
      assert InGraph(g, g[t]);
      var f := FieldsOf(g[t])[i];
      if !f.visible {
        HiddenGains(g, names, f, t, i, before, fuel - 1, after);
      } else if Flattened(g, f) {
        FlattenedGains(g, names, f, t, i, before, fuel - 1, DenoteFields(g, names, f.typ, 0, before, fuel - 1).value, after);
      } else {
        FieldGains(g, names, f, t, i, before, fuel - 1, Denote(g, names, f.typ, false, fuel - 1).value, after);
      }
    } else {
      GainsNothing(before);
    }
  }

  ghost predicate IsField(g: Graph, t: nat, i: nat, f: Field) {
    Closed(g) && t < |g| && i < |FieldsOf(g[t])| && f == FieldsOf(g[t])[i] && f.typ < |g|
  }

  lemma {:induction false} HiddenGains(g: Graph, names: map<nat, Bytes>, f: Field, t: nat, i: nat, before: Body,
                                       fuel: nat,
                                       after: Body)
    requires IsField(g, t, i, f) && !f.visible && DenoteFields(g, names, t, i + 1, before, fuel) == Some(after)
    ensures Gains(before, after, NeededNames(g, t, i, fuel + 1), VisibleNames(g, t, i, fuel + 1))
    decreases fuel, 1
  {
    FieldsGain(g, names, t, i + 1, before, fuel, after);
    assert [] + NeededNames(g, t, i + 1, fuel) == NeededNames(g, t, i + 1, fuel);
  }

  lemma {:induction false} FlattenedGains(g: Graph, names: map<nat, Bytes>, f: Field, t: nat, i: nat, before: Body,
                                          fuel: nat,
                                          between: Body, after: Body)
    requires IsField(g, t, i, f) && f.visible && Flattened(g, f)
    requires DenoteFields(g, names, f.typ, 0, before, fuel) == Some(between)
    requires DenoteFields(g, names, t, i + 1, between, fuel) == Some(after)
    ensures Gains(before, after, NeededNames(g, t, i, fuel + 1), VisibleNames(g, t, i, fuel + 1))
    decreases fuel, 1
  {
    FieldsGain(g, names, f.typ, 0, before, fuel, between);
    FieldsGain(g, names, t, i + 1, between, fuel, after);
    GainsBoth(before, between, after, NeededNames(g, f.typ, 0, fuel), VisibleNames(g, f.typ, 0, fuel),
              NeededNames(g, t, i + 1, fuel), VisibleNames(g, t, i + 1, fuel));
  }

  lemma {:induction false} FieldGains(g: Graph, names: map<nat, Bytes>, f: Field, t: nat, i: nat, before: Body,
                                      fuel: nat,
                                      x: Schema, after: Body)
    requires IsField(g, t, i, f) && f.visible && !Flattened(g, f)
    requires DenoteFields(g, names, t, i + 1, WithField(g, f, before, x), fuel) == Some(after)
    ensures Gains(before, after, NeededNames(g, t, i, fuel + 1), VisibleNames(g, t, i, fuel + 1))
    decreases fuel, 1
  {
    FieldsGain(g, names, t, i + 1, WithField(g, f, before, x), fuel, after);
    GainsField(g, f, before, x, after, NeededNames(g, t, i + 1, fuel), VisibleNames(g, t, i + 1, fuel));
  }

  /** The object schema of a struct lists the needed names in order, and has a property for each
      visible name and no other. */
  lemma RequiredIsExact(g: Graph, names: map<nat, Bytes>, t: nat, fuel: nat, body: Body)
    requires Closed(g) && t < |g| && DenoteFields(g, names, t, 0, BARE, fuel) == Some(body)
    ensures body.required == Sort(NeededNames(g, t, 0, fuel))
    ensures body.properties.Keys == VisibleNames(g, t, 0, fuel)
    ensures forall n :: n in body.required ==> n in body.properties
  {
    FieldsGain(g, names, t, 0, BARE, fuel, body);
    SortedUnique(body.required, Sort(NeededNames(g, t, 0, fuel)));
    NeededAreVisible(g, t, 0, fuel);
    forall n | n in body.required
      ensures n in body.properties
    {
      assert n in multiset(body.required);
      assert n in multiset(NeededNames(g, t, 0, fuel));
    }
  }

  /** JSON Schema (section 6.5.3 of the 2020-12 validation vocabulary) wants the list to have no name
      twice.  It has none exactly when no two needed fields, one of them in an embedded struct for
      instance, go by one name. */
  lemma RequiredUniqueIff(g: Graph, names: map<nat, Bytes>, t: nat, fuel: nat, body: Body)
    requires Closed(g) && t < |g| && DenoteFields(g, names, t, 0, BARE, fuel) == Some(body)
    ensures Distinct(body.required) <==> Distinct(NeededNames(g, t, 0, fuel))
  {
    RequiredIsExact(g, names, t, fuel, body);
    SortedDistinct(NeededNames(g, t, 0, fuel));
  }

  lemma SortedDistinct(names: seq<Bytes>)
    ensures Distinct(Sort(names)) <==> Distinct(names)
  {
    if Distinct(names) {
      SameMultisetDistinct(names, Sort(names));
    }
    if Distinct(Sort(names)) {
      SameMultisetDistinct(Sort(names), names);
    }
  }

  lemma SameMultisetDistinct(a: seq<Bytes>, b: seq<Bytes>)
    requires Distinct(a) && multiset(a) == multiset(b)
    ensures Distinct(b)
  {
    forall k
      ensures multiset(b)[k] <= 1
    {
      DistinctMeansOnce(a, k);
    }
    OnceMeansDistinct(b);
  }

  /** So it is for every component of a finished document. */
  lemma ComponentsListNeeded(g: Graph, roots: seq<nat>, fuel: nat, n: Bytes)
    requires Closed(g) && forall i :: 0 <= i < |roots| ==> roots[i] < |g|
    requires Build(g, roots, fuel).Some? && n in Build(g, roots, fuel).value.state.components
    ensures var s := Build(g, roots, fuel).value.state;
            && n in s.used && s.used[n] < |g| && s.components[n].Some? && s.components[n].value.Object?
            && exists f :: ListsNeeded(g, s.used[n], f, s.components[n].value)
  {
    DocumentIsSound(g, roots, fuel);
    var s := Build(g, roots, fuel).value.state;
    var t := s.used[n];
    var f: nat, body :| DenoteFields(g, s.types, t, 0, BARE, f) == Some(body) && s.components[n].value == ObjectOf(body, false);
    RequiredIsExact(g, s.types, t, f, body);
    RequiredUniqueIff(g, s.types, t, f, body);
    assert ListsNeeded(g, t, f, s.components[n].value);
  }

  /** The walk over the fields is given enough calls to see all of them. */
  ghost predicate ListsNeeded(g: Graph, t: nat, fuel: nat, x: Schema)
    requires Closed(g) && t < |g| && x.Object?
  {
    && (exists names, body :: DenoteFields(g, names, t, 0, BARE, fuel) == Some(body))
    && x.required == Sort(NeededNames(g, t, 0, fuel)) && x.properties.Keys == VisibleNames(g, t, 0, fuel)
    && (Distinct(x.required) <==> Distinct(NeededNames(g, t, 0, fuel)))
  }

  /** type Outer struct { Inner; ID int64 } with type Inner struct { ID int64 }. */
  function Shadowing(outer: Bytes, inner: Bytes, id: Bytes): Graph {
    [Struct(outer, [], [Field(inner, [], true, true, false, false, 1), Field(id, [], true, false, false, false, 2)]),
     Struct(inner, [], [Field(id, [], true, false, false, false, 2)]),
     Basic(Int64)]
  }

  lemma TakesField(g: Graph, names: map<nat, Bytes>, t: nat, i: nat, before: Body, n: nat, f: Field, x: Schema)
    requires Closed(g) && t < |g| && i < |FieldsOf(g[t])| && f == FieldsOf(g[t])[i] && f.typ < |g|
    requires f.visible && !Flattened(g, f) && Denote(g, names, f.typ, false, n) == Some(x)
    ensures DenoteFields(g, names, t, i, before, n + 1) == DenoteFields(g, names, t, i + 1, WithField(g, f, before, x), n)
  {
  }

  lemma TakesEmbedded(g: Graph, names: map<nat, Bytes>, t: nat, i: nat, before: Body, n: nat, f: Field, between: Body)
    requires Closed(g) && t < |g| && i < |FieldsOf(g[t])| && f == FieldsOf(g[t])[i] && f.typ < |g|
    requires f.visible && Flattened(g, f) && DenoteFields(g, names, f.typ, 0, before, n) == Some(between)
    ensures DenoteFields(g, names, t, i, before, n + 1) == DenoteFields(g, names, t, i + 1, between, n)
  {
  }

  /** A field that shadows one of an embedded struct is one property, but is listed twice. */
  lemma ShadowedIsListedTwice(outer: Bytes, inner: Bytes, id: Bytes, names: map<nat, Bytes>, fuel: nat)
    returns (body: Body)
    requires fuel >= 3
    ensures Closed(Shadowing(outer, inner, id))
    ensures DenoteFields(Shadowing(outer, inner, id), names, 0, 0, BARE, fuel + 1) == Some(body)
    ensures body.required == [id, id] && body.properties.Keys == {id}
  {
    var g := Shadowing(outer, inner, id);
    ShadowingIsClosed(outer, inner, id, g);
    body := Shadow(g, names, g[0].fields[0], g[0].fields[1], BasicSchema(Int64, false), fuel - 1);
  }

  lemma ShadowingIsClosed(outer: Bytes, inner: Bytes, id: Bytes, g: Graph)
    requires g == Shadowing(outer, inner, id)
    ensures Closed(g)
  {
  }

  /** A struct of an embedded field and another one; the embedded struct has a field like the other. */
  lemma Shadow(g: Graph, names: map<nat, Bytes>, e: Field, f: Field, x: Schema, n: nat) returns (body: Body)
    requires Closed(g) && |g| > 2 && FieldsOf(g[0]) == [e, f] && FieldsOf(g[1]) == [f] && e.typ == 1 && f.typ == 2
    requires e.visible && f.visible && Flattened(g, e) && !Flattened(g, f) && Needed(g, f) && n >= 2
    requires g[2] == Basic(Int64) && x == BasicSchema(Int64, false)
    ensures DenoteFields(g, names, 0, 0, BARE, n + 2) == Some(body)
    ensures body.required == [PropertyName(f), PropertyName(f)] && body.properties.Keys == {PropertyName(f)}
  {
    var one := Tidy(WithField(g, f, BARE, x));
    body := Tidy(WithField(g, f, one, x));
    TakesField(g, names, 1, 0, BARE, n, f, x);
    assert DenoteFields(g, names, 1, 0, BARE, n + 1) == Some(one);
    TakesEmbedded(g, names, 0, 0, BARE, n + 1, e, one);
    TakesField(g, names, 0, 1, one, n, f, x);
    assert DenoteFields(g, names, 0, 2, WithField(g, f, one, x), n) == Some(body);
    ListedTwice(PropertyName(f), one.required);
  }

  lemma ListedTwice(x: Bytes, one: seq<Bytes>)
    requires one == Sort([] + [x])
    ensures Sort(one + [x]) == [x, x]
  {
    assert [] + [x] == [x];
    SortOne(x);
    assert [x] + [x] == [x, x];
    SortTwo(x);
  }

  lemma SortOne(x: Bytes)
    ensures Sort([x]) == [x]
  {
    SortedUnique([x], Sort([x]));
  }

  lemma SortTwo(x: Bytes)
    ensures Sort([x, x]) == [x, x]
  {
    LeqReflexive(x);
    SortedUnique([x, x], Sort([x, x]));
  }
}
