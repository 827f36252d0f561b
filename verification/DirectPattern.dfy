/** Compiling and matching route patterns, and the parameters that a match leaves in the context
    (dispatch.go:575-678, context.go:325-374). */
module DirectPattern {
  import opened Prelude
  import opened ByteStrings
  import opened CanonicalRequest

  const SLASH: byte := 47
  const DOT: byte := 46
  const OPEN: byte := 123
  const CLOSE: byte := 125
  const ELLIPSIS: Bytes := [DOT, DOT, DOT]
  const SLOTS: nat := 16

  datatype Part = Part(literal: Bytes, name: Bytes, catchAll: bool)

  datatype Param = Param(name: Bytes, value: Bytes)

  // ---- segments ----

  function DropSlash(path: Bytes): Bytes {
    if path != [] && path[0] == SLASH then path[1..] else path
  }

  function WithoutEmptyEnd(segs: seq<Bytes>): seq<Bytes>
    requires segs != []
  {
    if segs[|segs| - 1] == [] then segs[..|segs| - 1] else segs
  }

  lemma WithoutEmptyEndCons(seg: Bytes, segs: seq<Bytes>)
    requires segs != []
    ensures WithoutEmptyEnd([seg] + segs) == [seg] + WithoutEmptyEnd(segs)
  {
    var all := [seg] + segs;
    assert all[|all| - 1] == segs[|segs| - 1];
    assert all[..|all| - 1] == [seg] + segs[..|segs| - 1];
  }

  /** The segments of a path: one leading slash is dropped and one trailing empty segment ignored. */
  function Segments(path: Bytes): seq<Bytes> {
    WithoutEmptyEnd(Split(DropSlash(path), SLASH))
  }

  /** What match consumes in one turn: the text before the first slash, and what follows it. */
  function Segment(path: Bytes): Bytes {
    path[..Front(path, SLASH)]
  }

  function Beyond(path: Bytes): Bytes {
    var n := Front(path, SLASH);
    if n == |path| then [] else path[n + 1..]
  }

  function Pieces(path: Bytes): seq<Bytes>
    decreases |path|
  {
    if path == [] then [] else [Segment(path)] + Pieces(Beyond(path))
  }

  lemma {:induction false} PiecesAreSegments(path: Bytes)
    ensures Pieces(path) == WithoutEmptyEnd(Split(path, SLASH))
    decreases |path|
  {
    var n := Front(path, SLASH);
    if n == |path| {
      LastPiece(path);
    } else {
      var rest := path[n + 1..];
      PiecesAreSegments(rest);
      OnePiece(path, n, rest);
    }
  }

  lemma OnePiece(path: Bytes, n: nat, rest: Bytes)
    requires n == Front(path, SLASH) < |path| && rest == path[n + 1..]
    requires Pieces(rest) == WithoutEmptyEnd(Split(rest, SLASH))
    ensures Pieces(path) == WithoutEmptyEnd(Split(path, SLASH))
  {
    WithoutEmptyEndCons(path[..n], Split(rest, SLASH));
  }

  lemma LastPiece(path: Bytes)
    requires Front(path, SLASH) == |path|
    ensures Pieces(path) == WithoutEmptyEnd([path])
  {
    assert path[..|path|] == path && Pieces([]) == [];
    assert [path][..0] == [] && [path] + [] == [path];
  }

  // ---- compiling ----

  function TrimLeft(s: Bytes): (r: Bytes)
    ensures |r| <= |s|
  {
    if s != [] && s[0] == SLASH then TrimLeft(s[1..]) else s
  }

  function TrimRight(s: Bytes): (r: Bytes)
    ensures |r| <= |s| && (r != [] ==> r[|r| - 1] != SLASH)
  {
    if s != [] && s[|s| - 1] == SLASH then TrimRight(s[..|s| - 1]) else s
  }

  function PartOf(seg: Bytes): Part {
    var n := |seg|;
    if n >= 2 && seg[0] == OPEN && seg[n - 1] == CLOSE then
      var name := seg[1..n - 1];
      var m := |name|;
      if m >= 3 && name[m - 3..] == ELLIPSIS then Part([], name[..m - 3], true) else Part([], name, false)
    else Part(seg, [], false)
  }

  function Parts(segments: seq<Bytes>): seq<Part> {
    if segments == [] then [] else Parts(segments[..|segments| - 1]) + [PartOf(segments[|segments| - 1])]
  }

  function PatternParts(pattern: Bytes): seq<Part> {
    var trimmed := TrimRight(TrimLeft(pattern));
    if trimmed == [] then [] else Parts(Split(trimmed, SLASH))
  }

  /** compileDirectPattern. */
  method Compile(pattern: Bytes) returns (parts: seq<Part>)
    ensures parts == PatternParts(pattern)
  {
    var trimmed := TrimRight(TrimLeft(pattern));
    parts := [];
    if trimmed == [] {
      return;
    }
    parts := CompileSegments(Split(trimmed, SLASH));
  }

  /** The loop of compileDirectPattern. */
  method CompileSegments(segments: seq<Bytes>) returns (parts: seq<Part>)
    ensures parts == Parts(segments)
  {
    parts := [];
    for i := 0 to |segments|
      invariant parts == Parts(segments[..i])
    {
      var seg := segments[i];
      assert segments[..i + 1][..i] == segments[..i];
      if |seg| >= 2 && seg[0] == OPEN && seg[|seg| - 1] == CLOSE {
        var name := seg[1..|seg| - 1];
        var part := Part([], [], false);
        if |name| >= 3 && name[|name| - 3..] == ELLIPSIS {
          part := part.(catchAll := true);
          name := name[..|name| - 3];
        }
        part := part.(name := name);
        parts := parts + [part];
        continue;
      }
      parts := parts + [Part(seg, [], false)];
    }
    assert segments[..|segments|] == segments;
  }

  // ---- unescaping ----

  /** url.PathUnescape: None for an incomplete or malformed escape. */
  function PathUnescape(s: Bytes): (r: Option<Bytes>)
    ensures r.Some? ==> |r.value| <= |s| && (PERCENT in s ==> |r.value| < |s|) && (PERCENT !in s ==> r.value == s)
  {
    if s == [] then Some([])
    else if s[0] != PERCENT then
      var rest := PathUnescape(s[1..]);
      if rest.None? then None else Some([s[0]] + rest.value)
    else if |s| < 3 || HexValue(s[1]).None? || HexValue(s[2]).None? then None
    else
      var rest := PathUnescape(s[3..]);
      if rest.None? then None
      else Some([(HexValue(s[1]).value * 16 + HexValue(s[2]).value) as byte] + rest.value)
  }

  /** decodePathValue. */
  function DecodePathValue(seg: Bytes): (v: Bytes)
    ensures v == seg <==> PERCENT !in seg || PathUnescape(seg).None?
  {
    if PERCENT !in seg || PathUnescape(seg).None? then seg else PathUnescape(seg).value
  }

  // ---- matching ----

  /** The parameters that a pattern takes from a path without its leading slash; None when it does
      not match. */
  function Capture(parts: seq<Part>, path: Bytes): Option<seq<Param>> {
    if parts == [] then
      if path == [] then Some([]) else None
    else
      var part := parts[0];
      if part.catchAll then Some(if part.name != [] then [Param(part.name, DecodePathValue(path))] else [])
      else if path == [] || (part.name == [] && part.literal != Segment(path)) then None
      else
        var rest := Capture(parts[1..], Beyond(path));
        if rest.None? then None
        else if part.name != [] then Some([Param(part.name, DecodePathValue(Segment(path)))] + rest.value)
        else rest
  }

  function Named(parts: seq<Part>): nat {
    if parts == [] then 0
    else (if parts[|parts| - 1].name != [] then 1 else 0) + Named(parts[..|parts| - 1])
  }

  function Find(ps: seq<Param>, name: Bytes, absent: Bytes): Bytes {
    if ps == [] then absent
    else if ps[0].name == name then ps[0].value
    else Find(ps[1..], name, absent)
  }

  ghost function Zip(names: seq<Bytes>, values: seq<Bytes>): (ps: seq<Param>)
    requires |names| == |values|
    ensures |ps| == |names| && forall i :: 0 <= i < |ps| ==> ps[i] == Param(names[i], values[i])
  {
    seq(|names|, i requires 0 <= i < |names| => Param(names[i], values[i]))
  }

  /** The parameter buffer of a request context and the path values of its request. */
  class Context {
    const names: array<Bytes>
    const values: array<Bytes>
    var count: nat
    var applied: bool
    var pathValues: map<Bytes, Bytes>

    ghost predicate Valid()
      reads this`count
    {
      names.Length == values.Length == SLOTS && names != values && count <= SLOTS
    }

    constructor ()
      ensures Valid() && Params() == [] && pathValues == map[] && fresh(names) && fresh(values)
    {
      names, values := new Bytes[SLOTS], new Bytes[SLOTS];
      count, applied, pathValues := 0, false, map[];
    }

    ghost function Params(): (ps: seq<Param>)
      requires Valid()
      reads this`count, names, values
      ensures |ps| == count
    {
      Zip(names[..count], values[..count])
    }

    /** reset, as far as parameters go. */
    method Reset()
      requires Valid()
      modifies this`count, this`applied
      ensures Valid() && Params() == []
    {
      count, applied := 0, false;
    }

    /** Param: the first stored parameter of that name, or else the request's own path value. */
    method Lookup(name: Bytes) returns (value: Bytes)
      requires Valid()
      ensures value == Find(Params(), name, if name in pathValues then pathValues[name] else [])
    {
      ghost var absent := if name in pathValues then pathValues[name] else [];
      for i := 0 to count
        invariant Find(Params(), name, absent) == Find(Params()[i..], name, absent)
      {
        assert Params()[i..][0] == Param(names[i], values[i]) && Params()[i..][1..] == Params()[i + 1..];
        if names[i] == name {
          return values[i];
        }
      }
      value := if name in pathValues then pathValues[name] else [];
    }

    /** setDirectPathParam: a parameter that finds the buffer full goes to the request, after all
        that are in the buffer. */
    method SetDirectPathParam(name: Bytes, value: Bytes)
      requires Valid()
      modifies this, names, values
      ensures Valid()
      ensures old(count) < SLOTS ==> Params() == old(Params()) + [Param(name, value)] && pathValues == old(pathValues)
      ensures old(count) == SLOTS ==> Params() == old(Params()) && name in pathValues && pathValues[name] == value
    {
      if count < SLOTS {
        names[count], values[count] := name, value;
        count := count + 1;
        assert forall i :: 0 <= i < count - 1 ==> Params()[i] == old(Params())[i];
        return;
      }
      MaterializePathParams();
      pathValues := pathValues[name := value];
    }

    method MaterializePathParams()
      requires Valid()
      modifies this`applied, this`pathValues
      ensures Valid() && Params() == old(Params())
      ensures pathValues == if old(applied) then old(pathValues) else WithParams(old(pathValues), old(Params()))
    {
      if applied || count == 0 {
        return;
      }
      ghost var ps := Params();
      for i := 0 to count
        invariant pathValues == WithParams(old(pathValues), ps[..i])
      {
        assert ps[..i + 1][..i] == ps[..i] && ps[..i + 1][i] == Param(names[i], values[i]);
        pathValues := pathValues[names[i] := values[i]];
      }
      assert ps[..count] == ps;
      applied := true;
    }
  }

  /** Later parameters of a name replace earlier ones. */
  function WithParams(m: map<Bytes, Bytes>, ps: seq<Param>): map<Bytes, Bytes> {
    if ps == [] then m
    else
      var last := ps[|ps| - 1];
      WithParams(m, ps[..|ps| - 1])[last.name := last.value]
  }

  // ---- the matcher ----

  function Behind(got: seq<Param>, more: Option<seq<Param>>): Option<seq<Param>> {
    if more.None? then None else Some(got + more.value)
  }

  lemma {:induction false} NamedGrows(parts: seq<Part>, n: nat)
    requires n <= |parts|
    ensures Named(parts[..n]) <= Named(parts)
    decreases |parts|
  {
    if n < |parts| {
      var front := parts[..|parts| - 1];
      assert front[..n] == parts[..n];
      NamedGrows(front, n);
    } else {
      assert parts[..n] == parts;
    }
  }

  lemma NamedTurn(parts: seq<Part>, i: nat)
    requires i < |parts|
    ensures Named(parts[..i]) + (if parts[i].name != [] then 1 else 0) == Named(parts[..i + 1]) <= Named(parts)
  {
    NamedGrows(parts, i + 1);
    assert parts[..i + 1][..i] == parts[..i];
  }

  /** What a part that is not a catch-all contributes when it accepts a segment. */
  function Taken(part: Part, seg: Bytes): seq<Param> {
    if part.name != [] then [Param(part.name, DecodePathValue(seg))] else []
  }

  predicate Takes(part: Part, path: Bytes) {
    path != [] && (part.name != [] || part.literal == Segment(path))
  }

  /** The turns of the loop that end it: a catch-all, a part that does not take the path, no part. */
  lemma CaptureEnds(parts: seq<Part>, path: Bytes, got: seq<Param>)
    ensures var all := Behind(got, Capture(parts, path));
            && (parts == [] ==> all == if path == [] then Some(got) else None)
            && (parts != [] && parts[0].catchAll ==> all == Some(got + Taken(parts[0], path)))
            && (parts != [] && !parts[0].catchAll && !Takes(parts[0], path) ==> all == None)
  {
    assert got + [] == got;
  }

  /** A part that takes a segment leaves the rest of the path to the parts after it. */
  lemma CaptureSplits(parts: seq<Part>, path: Bytes)
    requires parts != [] && !parts[0].catchAll && Takes(parts[0], path)
    ensures Capture(parts, path) == Behind(Taken(parts[0], Segment(path)), Capture(parts[1..], Beyond(path)))
  {
    var rest := Capture(parts[1..], Beyond(path));
    if rest.Some? {
      assert [] + rest.value == rest.value;
    }
  }

  lemma BehindBoth(got: seq<Param>, taken: seq<Param>, more: Option<seq<Param>>)
    ensures Behind(got, Behind(taken, more)) == Behind(got + taken, more)
  {
    if more.Some? {
      assert got + (taken + more.value) == got + taken + more.value;
    }
  }

  /** One turn of the loop that goes on. */
  lemma CaptureTurn(parts: seq<Part>, path: Bytes, got: seq<Param>)
    requires parts != [] && !parts[0].catchAll && Takes(parts[0], path)
    ensures Behind(got, Capture(parts, path))
         == Behind(got + Taken(parts[0], Segment(path)), Capture(parts[1..], Beyond(path)))
  {
    CaptureSplits(parts, path);
    BehindBoth(got, Taken(parts[0], Segment(path)), Capture(parts[1..], Beyond(path)));
  }

  /** Copies the gathered parameters to the context, if there is one. */
  method Commit(names: array<Bytes>, values: array<Bytes>, n: nat, c: Context?, ghost got: seq<Param>)
    requires n == |got| && Holds(names, values, got)
    requires c != null ==> c.Valid() && {c.names, c.values} !! {names, values}
    modifies if c == null then {} else {c, c.names, c.values}
    ensures c != null ==> c.Valid()
    ensures c != null && old(c.count) + n <= SLOTS ==>
              c.Params() == old(c.Params()) + got && c.pathValues == old(c.pathValues)
  {
    if c != null {
      for j := 0 to n
        invariant c.Valid()
        invariant Holds(names, values, got)
        invariant old(c.count) + n <= SLOTS ==>
                    c.Params() == old(c.Params()) + got[..j] && c.pathValues == old(c.pathValues)
      {
        c.SetDirectPathParam(names[j], values[j]);
        assert got[..j + 1] == got[..j] + [got[j]];
      }
      assert got[..n] == got;
    }
  }

  ghost predicate Holds(names: array<Bytes>, values: array<Bytes>, got: seq<Param>)
    reads names, values
  {
    && |got| <= SLOTS == names.Length == values.Length && names != values
    && forall j :: 0 <= j < |got| ==> names[j] == got[j].name && values[j] == got[j].value
  }

  method Note(names: array<Bytes>, values: array<Bytes>, n: nat, part: Part, seg: Bytes, ghost got: seq<Param>)
    returns (n': nat)
    requires Holds(names, values, got) && n == |got| && (part.name != [] ==> n < SLOTS)
    modifies names, values
    ensures Holds(names, values, got + Taken(part, seg)) && n' == |got + Taken(part, seg)|
  {
    n' := n;
    if part.name != [] {
      names[n], values[n] := part.name, DecodePathValue(seg);
      n' := n + 1;
    }
  }

  method Cut(path: Bytes) returns (seg: Bytes, rest: Bytes)
    ensures seg == Segment(path) && rest == Beyond(path)
  {
    seg, rest := path, [];
    var idx := Front(path, SLASH);
    if idx < |path| {
      seg, rest := path[..idx], path[idx + 1..];
    }
  }

  /** The loop of match: parameters are gathered in local arrays.  They have room for 16, beyond
      which the program panics. */
  method Gather(parts: seq<Part>, path0: Bytes, names: array<Bytes>, values: array<Bytes>)
    returns (ok: bool, n: nat, ghost got: seq<Param>)
    requires Named(parts) <= SLOTS == names.Length == values.Length && names != values
    modifies names, values
    ensures Capture(parts, path0) == if ok then Some(got) else None
    ensures Holds(names, values, got) && n == |got|
  {
    var path := path0;
    n, got := 0, [];
    ghost var all := Capture(parts, path);
    assert parts[0..] == parts;
    assert Behind(got, all) == all by {
      assert all.Some? ==> [] + all.value == all.value;
    }
    for i := 0 to |parts|
      invariant n == |got| <= Named(parts[..i]) && Holds(names, values, got)
      invariant all == Behind(got, Capture(parts[i..], path))
      invariant i == |parts| ==> i == 0
    {
      var part := parts[i];
      NamedTurn(parts, i);
      assert parts[i..][0] == part && parts[i..][1..] == parts[i + 1..];
      CaptureEnds(parts[i..], path, got);
      if part.catchAll {
        n := Note(names, values, n, part, path, got);
        return true, n, got + Taken(part, path);
      }
      if |path| == 0 {
        return false, n, got;
      }
      var seg, rest := Cut(path);
      if part.name == [] && part.literal != seg {
        return false, n, got;
      }
      CaptureTurn(parts[i..], path, got);
      n := Note(names, values, n, part, seg, got);
      got := got + Taken(part, seg);
      path := rest;
      if i == |parts| - 1 {
        CaptureEnds(parts[i + 1..], path, got);
        return |path| == 0, n, got;
      }
    }
    CaptureEnds(parts[|parts|..], path, got);
    ok := |path| == 0;
  }

  /** match: the parameters reach the context only when the whole path matches. */
  method Match(parts: seq<Part>, path0: Bytes, c: Context?) returns (ok: bool)
    requires Named(parts) <= SLOTS
    requires c != null ==> c.Valid()
    modifies if c == null then {} else {c, c.names, c.values}
    ensures ok <==> Capture(parts, DropSlash(path0)).Some?
    ensures c != null ==> c.Valid()
    ensures !ok && c != null ==> c.Params() == old(c.Params()) && c.pathValues == old(c.pathValues)
    ensures ok && c != null && old(c.count) + |Capture(parts, DropSlash(path0)).value| <= SLOTS ==>
              && c.Params() == old(c.Params()) + Capture(parts, DropSlash(path0)).value
              && c.pathValues == old(c.pathValues)
  {
    var path := path0;
    if |path| > 0 && path[0] == SLASH {
      path := path[1..];
    }
    var names, values := new Bytes[SLOTS], new Bytes[SLOTS];
    var n;
    ghost var got;
    ok, n, got := Gather(parts, path, names, values);
    if ok {
      Commit(names, values, n, c, got);
    }
  }
}
