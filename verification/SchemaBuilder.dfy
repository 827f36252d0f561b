/** Building OpenAPI schemas from a graph of Go types, which may be cyclic
    (plugins/openapi/schema.go:137-365). */
module SchemaBuilder {
  import opened Prelude
  import opened ByteStrings

  // ---- types ----

  datatype Basis = Boolean | Int32 | Uint8 | Int64 | Float32 | Float64 | Text | Interface | Other

  /** A type refers to others by their place in the graph.  A struct without a name is anonymous;
      `prefix` is its sanitized package path. */
  datatype Type =
    | Basic(basis: Basis)
    | Time
    | Pointer(elem: nat)
    | List(elem: nat)
    | Map(key: nat, elem: nat)
    | Struct(name: Bytes, prefix: Bytes, fields: seq<Field>)

  /** `omitEmpty` and `required` are what the json and the validate tag say. */
  datatype Field = Field(goName: Bytes, tagName: Bytes, visible: bool, embedded: bool, omitEmpty: bool, required: bool,
                         typ: nat)

  type Graph = seq<Type>

  predicate InGraph(g: Graph, t: Type) {
    match t
    case Pointer(e) => e < |g|
    case List(e) => e < |g|
    case Map(k, e) => k < |g| && e < |g|
    case Struct(_, _, fields) => forall i :: 0 <= i < |fields| ==> fields[i].typ < |g|
    case _ => true
  }

  predicate Closed(g: Graph) {
    forall t :: 0 <= t < |g| ==> InGraph(g, g[t])
  }

  /** The fields that reflection shows; time.Time exports none. */
  function FieldsOf(t: Type): seq<Field> {
    if t.Struct? then t.fields else []
  }

  /** A visible embedded struct without a name in its tag is flattened into its parent. */
  predicate Flattened(g: Graph, f: Field)
    requires f.typ < |g|
  {
    f.embedded && f.tagName == [] && (g[f.typ].Struct? || g[f.typ].Time?)
  }

  function PropertyName(f: Field): Bytes {
    if f.tagName == [] then f.goName else f.tagName
  }

  /** An explicit rule wins; otherwise a field is required unless it may be omitted or is a pointer. */
  predicate Needed(g: Graph, f: Field)
    requires f.typ < |g|
  {
    f.required || (!f.omitEmpty && !g[f.typ].Pointer?)
  }

  // ---- schemas ----

  datatype Schema =
    | Plain(typ: string, format: string, nullable: bool)
    | Ref(name: Bytes, nullable: bool)
    | Array(items: Schema, nullable: bool)
    | Dictionary(values: Schema, nullable: bool)
    | Object(properties: map<Bytes, Schema>, required: seq<Bytes>, nullable: bool)

  /** The part of an object schema that collectFields fills in. */
  datatype Body = Body(properties: map<Bytes, Schema>, required: seq<Bytes>)

  const BARE: Body := Body(map[], [])

  function ObjectOf(body: Body, nullable: bool): Schema {
    Object(body.properties, body.required, nullable)
  }

  /** One more field; a later property of a name replaces an earlier one, a required name is listed
      again. */
  function WithField(g: Graph, f: Field, body: Body, schema: Schema): Body
    requires f.typ < |g|
  {
    Body(body.properties[PropertyName(f) := schema],
         if Needed(g, f) then body.required + [PropertyName(f)] else body.required)
  }

  /** The required names in order. */
  function Tidy(body: Body): Body {
    body.(required := Sort(body.required))
  }

  function BasicSchema(basis: Basis, nullable: bool): Schema {
    match basis
    case Boolean => Plain("boolean", "", nullable)
    case Int32 => Plain("integer", "int32", nullable)
    case Uint8 => Plain("integer", "int32", nullable)
    case Int64 => Plain("integer", "int64", nullable)
    case Float32 => Plain("number", "float", nullable)
    case Float64 => Plain("number", "double", nullable)
    case Text => Plain("string", "", nullable)
    case Interface => Plain("", "", nullable)
    case Other => Plain("", "", false)
  }

  // ---- names ----

  const UNDERSCORE: byte := 95

  /** The first candidate is bare of a number, the others end in theirs. */
  function Candidate(qualified: Bytes, c: nat): Bytes {
    if c <= 1 then qualified else qualified + [UNDERSCORE] + FormatInt(c)
  }

  lemma CandidatesDiffer(qualified: Bytes, c: nat, c': nat)
    requires 1 <= c < c'
    ensures Candidate(qualified, c) != Candidate(qualified, c')
  {
    var (a, b) := (Candidate(qualified, c), Candidate(qualified, c'));
    ParseFormat(c');
    if c == 1 {
      assert |a| < |b|;
    } else {
      ParseFormat(c);
      assert a[|qualified| + 1..] == FormatInt(c) && b[|qualified| + 1..] == FormatInt(c');
    }
  }

  type Used = map<Bytes, nat>

  predicate Free(used: Used, name: Bytes, t: nat) {
    name !in used || used[name] == t
  }

  /** Names in `left` are those that later candidates may still run into. */
  ghost predicate Covers(used: Used, left: set<Bytes>, qualified: Bytes, c: nat) {
    forall c' :: c' >= c && Candidate(qualified, c') in used ==> Candidate(qualified, c') in left
  }

  lemma CoversNext(used: Used, left: set<Bytes>, qualified: Bytes, c: nat)
    requires c >= 1 && Covers(used, left, qualified, c)
    ensures Covers(used, left - {Candidate(qualified, c)}, qualified, c + 1)
  {
    forall c' | c' >= c + 1 && Candidate(qualified, c') in used
      ensures Candidate(qualified, c') in left - {Candidate(qualified, c)}
    {
      CandidatesDiffer(qualified, c, c');
    }
  }

  /** The first free candidate.  Only finitely many names are used, so there is one. */
  ghost function FirstFree(used: Used, left: set<Bytes>, qualified: Bytes, t: nat, c: nat): (name: Bytes)
    requires c >= 1 && Covers(used, left, qualified, c)
    ensures Free(used, name, t)
    decreases |left|
  {
    var name := Candidate(qualified, c);
    if Free(used, name, t) then name
    else
      CoversNext(used, left, qualified, c);
      assert name in left;
      FirstFree(used, left - {name}, qualified, t, c + 1)
  }

  ghost function NameFor(g: Graph, used: Used, t: nat): (name: Bytes)
    requires t < |g| && g[t].Struct?
    ensures Free(used, name, t)
  {
    if Free(used, g[t].name, t) then g[t].name
    else FirstFree(used, used.Keys, g[t].prefix + [UNDERSCORE] + g[t].name, t, 1)
  }

  // ---- the recursion ----

  /** The builder's maps.  A component that is being built is None. */
  datatype State = State(types: map<nat, Bytes>, components: map<Bytes, Option<Schema>>, used: Used)

  datatype Built = Built(state: State, schema: Schema)

  datatype Walked = Walked(state: State, body: Body)

  ghost function Register(g: Graph, s: State, t: nat): State
    requires t < |g| && g[t].Struct?
  {
    var name := NameFor(g, s.used, t);
    State(s.types[t := name], s.components[name := None], s.used[name := t])
  }

  ghost function Complete(s: State, name: Bytes, body: Body): State {
    s.(components := s.components[name := Some(ObjectOf(body, false))])
  }

  /** schemaFor with the given number of nested calls to spend; None when they do not suffice. */
  ghost function SchemaFor(g: Graph, s: State, t: nat, nullable: bool, fuel: nat): Option<Built>
    requires Closed(g) && t < |g|
    decreases fuel
  {
    if fuel == 0 then None
    else
      assert InGraph(g, g[t]);
      match g[t]
      case Basic(basis) => Some(Built(s, BasicSchema(basis, nullable)))
      case Time => Some(Built(s, Plain("string", "date-time", nullable)))
      case Pointer(e) => SchemaFor(g, s, e, true, fuel - 1)
      case List(e) =>
        if g[e] == Basic(Uint8) then Some(Built(s, Plain("string", "byte", nullable)))
        else
          var r := SchemaFor(g, s, e, false, fuel - 1);
          if r.None? then None else Some(Built(r.value.state, Array(r.value.schema, nullable)))
      case Map(k, e) =>
        if g[k] != Basic(Text) then Some(Built(s, Plain("object", "", nullable)))
        else
          var r := SchemaFor(g, s, e, false, fuel - 1);
          if r.None? then None else Some(Built(r.value.state, Dictionary(r.value.schema, nullable)))
      case Struct(name, _, _) =>
        if name == [] then
          var r := CollectFields(g, s, t, 0, BARE, fuel - 1);
          if r.None? then None else Some(Built(r.value.state, ObjectOf(r.value.body, nullable)))
        else if t in s.types then Some(Built(s, Ref(s.types[t], nullable)))
        else
          var (s', n) := (Register(g, s, t), NameFor(g, s.used, t));
          var r := CollectFields(g, s', t, 0, BARE, fuel - 1);
          if r.None? then None else Some(Built(Complete(r.value.state, n, r.value.body), Ref(n, nullable)))
  }

  /** collectFields from the i-th field on, adding to the body. */
  ghost function CollectFields(g: Graph, s: State, t: nat, i: nat, body: Body, fuel: nat)
    : Option<Walked>
    requires Closed(g) && t < |g|
    decreases fuel
  {
    if fuel == 0 then None
    else if i >= |FieldsOf(g[t])| then Some(Walked(s, Tidy(body)))
    else
      assert InGraph(g, g[t]);
      var f := FieldsOf(g[t])[i];
      if !f.visible then CollectFields(g, s, t, i + 1, body, fuel - 1)
      else if Flattened(g, f) then
        var r := CollectFields(g, s, f.typ, 0, body, fuel - 1);
        if r.None? then None else CollectFields(g, r.value.state, t, i + 1, r.value.body, fuel - 1)
      else
        var r := SchemaFor(g, s, f.typ, false, fuel - 1);
        if r.None? then None
        else CollectFields(g, r.value.state, t, i + 1, WithField(g, f, body, r.value.schema), fuel - 1)
  }

  const EMPTY: State := State(map[], map[], map[])

  // ---- the builder ----

  class Builder {
    const g: Graph
    var types: map<nat, Bytes>
    var components: map<Bytes, Option<Schema>>
    var nameUsed: Used

    constructor (g: Graph)
      ensures this.g == g && View() == EMPTY
    {
      this.g := g;
      types, components, nameUsed := map[], map[], map[];
    }

    ghost function View(): State
      reads this
    {
      State(types, components, nameUsed)
    }

    /** assignName.  The search for a free candidate ends because the names in use are finitely
        many. */
    method AssignName(t: nat) returns (name: Bytes)
      requires t < |g| && g[t].Struct? && g[t].name != []
      modifies this`nameUsed
      ensures name == NameFor(g, old(nameUsed), t) && nameUsed == old(nameUsed)[name := t]
    {
      var bare := g[t].name;
      if bare !in nameUsed || nameUsed[bare] == t {
        nameUsed := nameUsed[bare := t];
        return bare;
      }
      var qualified := g[t].prefix + [UNDERSCORE] + bare;
      var c := 1;
      ghost var left := nameUsed.Keys;
      while true
        invariant c >= 1 && nameUsed == old(nameUsed) && Covers(nameUsed, left, qualified, c)
        invariant FirstFree(nameUsed, left, qualified, t, c) == NameFor(g, nameUsed, t)
        decreases |left|
      {
        var candidate := qualified;
        if c > 1 {
          candidate := qualified + [UNDERSCORE] + FormatInt(c);
        }
        if candidate !in nameUsed || nameUsed[candidate] == t {
          nameUsed := nameUsed[candidate := t];
          return candidate;
        }
        CoversNext(nameUsed, left, qualified, c);
        assert candidate in left;
        left := left - {candidate};
        c := c + 1;
      }
    }

    /** schemaFor, on a type for which it returns. */
    method BuildSchema(t0: nat, ghost fuel0: nat) returns (schema: Schema)
      requires Closed(g) && t0 < |g| && SchemaFor(g, View(), t0, false, fuel0).Some?
      modifies this
      ensures SchemaFor(g, old(View()), t0, false, fuel0) == Some(Built(View(), schema))
      decreases fuel0, 1
    {
      var t: nat, nullable := t0, false;
      ghost var fuel: nat := fuel0;
      while g[t].Pointer?
        invariant t < |g| && fuel <= fuel0 && View() == old(View())
        invariant SchemaFor(g, View(), t, nullable, fuel) == SchemaFor(g, View(), t0, false, fuel0)
        decreases fuel
      {
        assert InGraph(g, g[t]);
        nullable := true;
        t, fuel := g[t].elem, fuel - 1;
      }
      assert InGraph(g, g[t]);
      match g[t] {
        case Basic(basis) =>
          schema := BasicSchema(basis, nullable);
        case Time =>
          schema := Plain("string", "date-time", nullable);
        case List(e) =>
          if g[e] == Basic(Uint8) {
            return Plain("string", "byte", nullable);
          }
          var items := BuildSchema(e, fuel - 1);
          schema := Array(items, nullable);
        case Map(k, e) =>
          if g[k] != Basic(Text) {
            return Plain("object", "", nullable);
          }
          var values := BuildSchema(e, fuel - 1);
          schema := Dictionary(values, nullable);
        case Struct(name, _, _) =>
          if name == [] {
            var body := WalkFields(t, BARE, fuel - 1);
            return ObjectOf(body, nullable);
          }
          var ref := ComponentRef(t, nullable, fuel);
          schema := Ref(ref, nullable);
      }
    }

    /** componentRef: the component is staked out before its fields are walked. */
    method ComponentRef(t: nat, ghost nullable: bool, ghost fuel: nat) returns (name: Bytes)
      requires Closed(g) && t < |g| && g[t].Struct? && g[t].name != []
      requires SchemaFor(g, View(), t, nullable, fuel).Some?
      modifies this
      ensures SchemaFor(g, old(View()), t, nullable, fuel) == Some(Built(View(), Ref(name, nullable)))
      decreases fuel, 0
    {
      if t in types {
        return types[t];
      }
      name := AssignName(t);
      types := types[t := name];
      components := components[name := None];
      assert View() == Register(g, old(View()), t);
      var body := WalkFields(t, BARE, fuel - 1);
      components := components[name := Some(ObjectOf(body, false))];
    }

    /** collectFields. */
    method WalkFields(t: nat, body0: Body, ghost fuel0: nat) returns (body: Body)
      requires Closed(g) && t < |g| && CollectFields(g, View(), t, 0, body0, fuel0).Some?
      modifies this
      ensures CollectFields(g, old(View()), t, 0, body0, fuel0) == Some(Walked(View(), body))
      decreases fuel0, 0
    {
      body := body0;
      ghost var fuel: nat := fuel0;
      var fields := FieldsOf(g[t]);
      assert InGraph(g, g[t]);
      for i := 0 to |fields|
        invariant fuel <= fuel0
        invariant CollectFields(g, View(), t, i, body, fuel) == CollectFields(g, old(View()), t, 0, body0, fuel0)
      {
        var f := fields[i];
        if f.visible {
          if f.embedded && f.tagName == [] && (g[f.typ].Struct? || g[f.typ].Time?) {
            body := WalkFields(f.typ, body, fuel - 1);
          } else {
            var name := if f.tagName == [] then f.goName else f.tagName;
            var schema := BuildSchema(f.typ, fuel - 1);
            var required := body.required;
            if f.required || (!f.omitEmpty && !g[f.typ].Pointer?) {
              required := required + [name];
            }
            body := Body(body.properties[name := schema], required);
          }
        }
        fuel := fuel - 1;
      }
      if |body.required| > 0 {
        var names := new Bytes[|body.required|](i requires 0 <= i < |body.required| => body.required[i]);
        assert names[..] == body.required;
        SortStrings(names);
        body := body.(required := names[..]);
      }
    }
  }

  // ---- sorting in place ----

  /** In order but for the j-th, which is not after those that follow it. */
  predicate SortedBut(s: seq<Bytes>, j: int) {
    forall p, q :: 0 <= p < q < |s| && q != j ==> Leq(s[p], s[q])
  }

  function Swap(s: seq<Bytes>, j: int): seq<Bytes>
    requires 0 < j < |s|
  {
    s[j - 1 := s[j]][j := s[j - 1]]
  }

  lemma SwapStep(s: seq<Bytes>, j: int)
    requires 0 < j < |s| && SortedBut(s, j) && !Leq(s[j - 1], s[j])
    ensures SortedBut(Swap(s, j), j - 1) && multiset(Swap(s, j)) == multiset(s)
  {
    LeqTotal(s[j - 1], s[j]);
  }

  lemma InPlace(s: seq<Bytes>, j: int)
    requires 0 <= j < |s| && SortedBut(s, j) && (j > 0 ==> Leq(s[j - 1], s[j]))
    ensures Sorted(s)
  {
    forall p, q | 0 <= p < q < |s|
      ensures Leq(s[p], s[q])
    {
      if q == j && p < j - 1 {
        LeqTransitive(s[p], s[j - 1], s[j]);
      }
    }
  }

  /** sortStrings: insertion sort. */
  method SortStrings(s: array<Bytes>)
    modifies s
    ensures s[..] == Sort(old(s[..]))
  {
    var i := 1;
    while i < s.Length
      invariant 1 <= i && (i <= s.Length || s.Length == 0)
      invariant Sorted(s[..if i <= s.Length then i else 0]) && multiset(s[..]) == multiset(old(s[..]))
    {
      InsertAt(s, i);
      i := i + 1;
    }
    assert s[..if i <= s.Length then i else 0] == s[..];
    SortedUnique(s[..], Sort(old(s[..])));
  }

  /** The inner loop of sortStrings. */
  method InsertAt(s: array<Bytes>, i: nat)
    requires 0 < i < s.Length && Sorted(s[..i])
    modifies s
    ensures Sorted(s[..i + 1]) && multiset(s[..]) == multiset(old(s[..]))
  {
    var j := i;
    while j > 0 && !Leq(s[j - 1], s[j])
      invariant 0 <= j <= i && SortedBut(s[..i + 1], j) && multiset(s[..]) == multiset(old(s[..]))
    {
      SwapStep(s[..i + 1], j);
      ghost var was := s[..];
      s[j - 1], s[j] := s[j], s[j - 1];
      assert s[..] == Swap(was, j) && s[..i + 1] == Swap(was[..i + 1], j);
      j := j - 1;
    }
    InPlace(s[..i + 1], j);
  }
}
