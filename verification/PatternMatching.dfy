/** What a compiled pattern accepts, and what it takes from a path (dispatch.go:585-664). */
module PatternMatching {
  import opened Prelude
  import opened ByteStrings
  import opened CanonicalRequest
  import opened DirectPattern

  // ---- acceptance ----

  function CatchAllAt(parts: seq<Part>): (c: nat)
    ensures c <= |parts| && (c < |parts| ==> parts[c].catchAll)
    ensures forall i :: 0 <= i < c ==> !parts[i].catchAll
  {
    if parts == [] || parts[0].catchAll then 0 else 1 + CatchAllAt(parts[1..])
  }

  predicate PartFits(part: Part, seg: Bytes) {
    part.name != [] || part.literal == seg
  }

  /** A pattern fits a segment list of its own length, or, with a catch-all, any list that goes at
      least as far as the catch-all. */
  ghost predicate Fits(parts: seq<Part>, segs: seq<Bytes>) {
    var c := CatchAllAt(parts);
    && (if c == |parts| then |segs| == c else |segs| >= c)
    && forall i :: 0 <= i < c ==> PartFits(parts[i], segs[i])
  }

  lemma {:induction false} CapturesIffFits(parts: seq<Part>, path: Bytes)
    ensures Capture(parts, path).Some? <==> Fits(parts, Pieces(path))
  {
    if parts != [] && !parts[0].catchAll && path != [] {
      var segs := Pieces(path);
      CapturesIffFits(parts[1..], Beyond(path));
      assert segs[1..] == Pieces(Beyond(path));
      FitsRest(parts, segs);
    }
  }

  lemma FitsRest(parts: seq<Part>, segs: seq<Bytes>)
    requires parts != [] && !parts[0].catchAll && segs != []
    ensures Fits(parts, segs) <==> PartFits(parts[0], segs[0]) && Fits(parts[1..], segs[1..])
  {
    if PartFits(parts[0], segs[0]) && Fits(parts[1..], segs[1..]) {
      forall i | 0 <= i < CatchAllAt(parts)
        ensures PartFits(parts[i], segs[i])
      {
        if i > 0 {
          assert PartFits(parts[1..][i - 1], segs[1..][i - 1]);
        }
      }
    }
    if Fits(parts, segs) {
      forall i | 0 <= i < CatchAllAt(parts[1..])
        ensures PartFits(parts[1..][i], segs[1..][i])
      {
        assert PartFits(parts[i + 1], segs[i + 1]);
      }
    }
  }

  /** A compiled pattern accepts exactly the paths whose segments fit it. */
  lemma MatchesIffSegmentsFit(parts: seq<Part>, path: Bytes)
    ensures Capture(parts, DropSlash(path)).Some? <==> Fits(parts, Segments(path))
  {
    CapturesIffFits(parts, DropSlash(path));
    PiecesAreSegments(DropSlash(path));
  }

  // ---- parameters ----

  lemma {:induction false} NamedFromFront(parts: seq<Part>)
    requires parts != []
    ensures Named(parts) == (if parts[0].name != [] then 1 else 0) + Named(parts[1..])
  {
    var n := |parts| - 1;
    if n > 0 {
      NamedFromFront(parts[..n]);
      assert parts[..n][1..] == parts[1..][..n - 1];
    } else {
      assert parts[1..] == [] && parts[..0] == [];
    }
  }

  /** The parameter of the i-th part is its name with the decoded i-th segment. */
  lemma {:induction false} CapturedSegment(parts: seq<Part>, path: Bytes, i: nat)
    requires Capture(parts, path).Some? && i < CatchAllAt(parts) && parts[i].name != []
    ensures i < |Pieces(path)| && Named(parts[..i]) < |Capture(parts, path).value|
    ensures Capture(parts, path).value[Named(parts[..i])] == Param(parts[i].name, DecodePathValue(Pieces(path)[i]))
  {
    var rest := Capture(parts[1..], Beyond(path)).value;
    if i > 0 {
      CapturedSegment(parts[1..], Beyond(path), i - 1);
      NamedFromFront(parts[..i]);
      assert parts[..i][1..] == parts[1..][..i - 1];
      assert Pieces(path)[i] == Pieces(Beyond(path))[i - 1];
    } else {
      assert parts[..0] == [];
    }
  }

  /** What is left of a path after n segments. */
  function Remainder(path: Bytes, n: nat): Bytes
    decreases n
  {
    if n == 0 then path else Remainder(Beyond(path), n - 1)
  }

  lemma {:induction false} RemainderPieces(path: Bytes, n: nat)
    requires n <= |Pieces(path)|
    ensures Pieces(Remainder(path, n)) == Pieces(path)[n..]
    decreases n
  {
    if n > 0 {
      RemainderPieces(Beyond(path), n - 1);
      assert Pieces(path)[1..] == Pieces(Beyond(path));
    }
  }

  /** There is one parameter for each named part; a named catch-all comes last and takes the rest
      of the path. */
  lemma {:induction false} CapturedRest(parts: seq<Part>, path: Bytes)
    requires Capture(parts, path).Some?
    ensures var c := CatchAllAt(parts); var got := Capture(parts, path).value;
            if c < |parts| && parts[c].name != [] then
              && |got| == Named(parts[..c]) + 1
              && got[|got| - 1] == Param(parts[c].name, DecodePathValue(Remainder(path, c)))
            else |got| == Named(parts[..c])
  {
    if parts != [] && !parts[0].catchAll {
      CapturedRest(parts[1..], Beyond(path));
      var c := CatchAllAt(parts);
      NamedFromFront(parts[..c]);
      assert parts[..c][1..] == parts[1..][..c - 1];
    } else {
      assert parts[..CatchAllAt(parts)] == [];
    }
  }

  // ---- rendering ----

  /** The path that puts the given texts in the places of the named parts. */
  function Render(parts: seq<Part>, texts: seq<Bytes>): Bytes
    requires |texts| == |parts|
  {
    if parts == [] then []
    else if parts[0].catchAll then [SLASH] + texts[0]
    else [SLASH] + Text(parts[0], texts[0]) + Render(parts[1..], texts[1..])
  }

  function Text(part: Part, text: Bytes): Bytes {
    if part.name != [] then text else part.literal
  }

  /** The named parts with the values they are to have. */
  function Given(parts: seq<Part>, values: seq<Bytes>): seq<Param>
    requires |values| == |parts|
  {
    if parts == [] then []
    else
      var here := if parts[0].name != [] then [Param(parts[0].name, values[0])] else [];
      if parts[0].catchAll then here else here + Given(parts[1..], values[1..])
  }

  function Decoded(texts: seq<Bytes>): (r: seq<Bytes>)
    ensures |r| == |texts| && forall i :: 0 <= i < |texts| ==> r[i] == DecodePathValue(texts[i])
  {
    seq(|texts|, i requires 0 <= i < |texts| => DecodePathValue(texts[i]))
  }

  /** Literals have no slash, and the last part is not an empty literal.  Compiling yields nothing
      else, unless the pattern ends with a nameless "{}". */
  ghost predicate Renderable(parts: seq<Part>) {
    && (forall i :: 0 <= i < |parts| ==> SLASH !in parts[i].literal)
    && (parts != [] ==> var last := parts[|parts| - 1]; last.catchAll || last.name != [] || last.literal != [])
  }

  ghost predicate Fillable(parts: seq<Part>, texts: seq<Bytes>)
    requires |texts| == |parts|
  {
    forall i :: 0 <= i < |parts| && parts[i].name != [] && !parts[i].catchAll ==> texts[i] != [] && SLASH !in texts[i]
  }

  lemma FirstSegment(text: Bytes, more: Bytes)
    requires SLASH !in text && (more == [] || more[0] == SLASH)
    ensures var path := DropSlash([SLASH] + text + more);
            path == text + more && Segment(path) == text && Beyond(path) == DropSlash(more)
  {
    FrontOf(text, more, SLASH);
    assert ([SLASH] + text + more)[1..] == text + more;
    assert (text + more)[..|text|] == text;
    assert more != [] ==> (text + more)[|text| + 1..] == more[1..];
  }

  lemma RenderBegins(parts: seq<Part>, texts: seq<Bytes>)
    requires |texts| == |parts|
    ensures parts == [] <==> Render(parts, texts) == []
    ensures parts != [] ==> Render(parts, texts)[0] == SLASH
  {
  }

  lemma {:induction false} RenderedIsCaptured(parts: seq<Part>, texts: seq<Bytes>)
    requires |texts| == |parts| && Renderable(parts) && Fillable(parts, texts)
    ensures Capture(parts, DropSlash(Render(parts, texts))) == Some(Given(parts, Decoded(texts)))
  {
    if parts != [] {
      var path := DropSlash(Render(parts, texts));
      if parts[0].catchAll {
        assert path == texts[0];
      } else {
        RenderedPart(parts, texts);
        RenderedIsCaptured(parts[1..], texts[1..]);
        assert Decoded(texts)[1..] == Decoded(texts[1..]);
        var rest := Given(parts[1..], Decoded(texts[1..]));
        assert [] + rest == rest;
      }
    }
  }

  /** The first part of a rendered path takes its own text and leaves the others' rendering. */
  lemma RenderedPart(parts: seq<Part>, texts: seq<Bytes>)
    requires |texts| == |parts| && Renderable(parts) && Fillable(parts, texts)
    requires parts != [] && !parts[0].catchAll
    ensures var path := DropSlash(Render(parts, texts));
            && path != [] && Segment(path) == Text(parts[0], texts[0])
            && Beyond(path) == DropSlash(Render(parts[1..], texts[1..]))
  {
    var text := Text(parts[0], texts[0]);
    var more := Render(parts[1..], texts[1..]);
    RenderBegins(parts[1..], texts[1..]);
    assert Render(parts, texts) == [SLASH] + text + more;
    FirstSegment(text, more);
  }

  /** The value of a part is used: the part is named and no catch-all stands before it. */
  predicate Used(parts: seq<Part>, i: int) {
    0 <= i < |parts| && i <= CatchAllAt(parts) && parts[i].name != []
  }

  predicate Plain(value: Bytes) {
    PERCENT !in value || PathUnescape(value).None?
  }

  lemma {:induction false} GivenAgree(parts: seq<Part>, values: seq<Bytes>, values': seq<Bytes>)
    requires |values| == |parts| == |values'|
    ensures Given(parts, values) == Given(parts, values') <==> forall i :: Used(parts, i) ==> values[i] == values'[i]
  {
    if parts != [] {
      GivenAgree(parts[1..], values[1..], values'[1..]);
      var same := parts[0].name != [] ==> values[0] == values'[0];
      if parts[0].catchAll {
        assert forall i :: Used(parts, i) ==> i == 0;
        assert Used(parts, 0) <==> parts[0].name != [];
      } else {
        assert forall i :: i >= 0 ==> (Used(parts[1..], i) <==> Used(parts, i + 1));
        GivenUnfolds(parts, values, values');
        if same && forall i :: Used(parts[1..], i) ==> values[1..][i] == values'[1..][i] {
          forall i | Used(parts, i)
            ensures values[i] == values'[i]
          {
            if i > 0 {
              assert Used(parts[1..], i - 1);
            }
          }
        }
        if forall i :: Used(parts, i) ==> values[i] == values'[i] {
          assert parts[0].name != [] ==> Used(parts, 0);
        }
      }
    }
  }

  lemma GivenUnfolds(parts: seq<Part>, values: seq<Bytes>, values': seq<Bytes>)
    requires |values| == |parts| == |values'| && parts != [] && !parts[0].catchAll
    ensures Given(parts, values) == Given(parts, values')
       <==> (parts[0].name != [] ==> values[0] == values'[0])
            && Given(parts[1..], values[1..]) == Given(parts[1..], values'[1..])
  {
    var (rest, rest') := (Given(parts[1..], values[1..]), Given(parts[1..], values'[1..]));
    if parts[0].name != [] {
      var (p, p') := (Param(parts[0].name, values[0]), Param(parts[0].name, values'[0]));
      assert ([p] + rest)[1..] == rest && ([p'] + rest')[1..] == rest';
      assert ([p] + rest)[0] == p && ([p'] + rest')[0] == p';
    } else {
      assert [] + rest == rest && [] + rest' == rest';
    }
  }

  /** Rendering and then matching gives the values back exactly when none of them reads as an
      escaped text: the router unescapes what it takes from a path that is already unescaped. */
  lemma RenderThenMatch(parts: seq<Part>, values: seq<Bytes>)
    requires |values| == |parts| && Renderable(parts) && Fillable(parts, values)
    ensures Capture(parts, DropSlash(Render(parts, values))).Some?
    ensures Capture(parts, DropSlash(Render(parts, values))) == Some(Given(parts, values))
       <==> forall i :: Used(parts, i) ==> Plain(values[i])
  {
    RenderedIsCaptured(parts, values);
    GivenAgree(parts, Decoded(values), values);
    assert forall i :: 0 <= i < |values| ==> (Decoded(values)[i] == values[i] <==> Plain(values[i]));
  }

  lemma {:induction false} PartsAt(segments: seq<Bytes>, i: nat)
    requires i < |segments|
    ensures |Parts(segments)| == |segments| && Parts(segments)[i] == PartOf(segments[i])
  {
    var n := |segments| - 1;
    if n > 0 {
      PartsAt(segments[..n], if i < n then i else 0);
    }
  }

  lemma {:induction false} LastOfSplit(s: Bytes)
    requires s != [] && s[|s| - 1] != SLASH
    ensures Split(s, SLASH)[|Split(s, SLASH)| - 1] != []
    decreases |s|
  {
    FrontSplits(s, SLASH);
    var n := Front(s, SLASH);
    if n < |s| {
      LastOfSplit(s[n + 1..]);
    }
  }

  /** Every pattern that does not end with a nameless part compiles to one that can be rendered. */
  lemma CompiledIsRenderable(pattern: Bytes)
    requires var parts := PatternParts(pattern);
             parts != [] ==> parts[|parts| - 1] != Part([], [], false)
    ensures Renderable(PatternParts(pattern))
  {
    var trimmed := TrimRight(TrimLeft(pattern));
    if trimmed != [] {
      var segments := Split(trimmed, SLASH);
      PartsAt(segments, 0);
      forall i | 0 <= i < |segments|
        ensures SLASH !in Parts(segments)[i].literal
      {
        PartsAt(segments, i);
        assert segments[i] in segments;
      }
    }
  }
}
