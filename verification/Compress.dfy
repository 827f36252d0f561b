/** The threshold-compressing writers (plugins/compress/compress.go:90-314); gzip and deflate differ
    only in the name of the encoding and in the codec, which is a parameter. */
module Compress {
  import opened Prelude
  import opened CaptureWriter

  const CONTENT_TYPE := "Content-Type"
  const CONTENT_ENCODING := "Content-Encoding"
  const CONTENT_LENGTH := "Content-Length"
  const VARY := "Vary"

  /** The encoder of a whole body, and the types that are not to be compressed, if any. */
  datatype Config = Config(encoding: string, encode: Bytes -> Bytes, minSize: nat, excluded: Option<string -> bool>)

  /** Header.Get. */
  function First(h: Header, name: string): string {
    if name in h && h[name] != [] then h[name][0] else ""
  }

  /** The headers that announce a compressed body. */
  function Announced(h: Header, encoding: string): Header {
    var marked := h[CONTENT_ENCODING := [encoding]];
    marked[VARY := Values(marked, VARY) + ["Accept-Encoding"]] - {CONTENT_LENGTH}
  }

  // ---- what a sequence of calls means ----

  /** The last status chosen; only the one in force when the headers go out counts. */
  function LastStatus(ops: seq<Op>): int {
    if ops == [] then 200
    else
      var last := ops[|ops| - 1];
      if last.WriteHeader? then last.code else LastStatus(ops[..|ops| - 1])
  }

  function HeadersAt(base: Header, ops: seq<Op>): Header {
    base + Headers(ops)
  }

  /** The writer buffers until a call decides that the body is compressed, or passed on as it is. */
  datatype Mode = Buffering | Compressing(at: nat) | Passing(at: nat)

  /** The content type that was looked at: the one in force at the first write that found one. */
  function TypeSeen(base: Header, ops: seq<Op>): string {
    if ops == [] then ""
    else
      var (front, last) := (ops[..|ops| - 1], ops[|ops| - 1]);
      if TypeSeen(base, front) != "" then TypeSeen(base, front)
      else if last.Write? then First(HeadersAt(base, front), CONTENT_TYPE)
      else ""
  }

  function ModeOf(c: Config, base: Header, ops: seq<Op>): (m: Mode)
    ensures !m.Buffering? ==> m.at < |ops|
  {
    if ops == [] then Buffering
    else
      var (front, last) := (ops[..|ops| - 1], ops[|ops| - 1]);
      var m := ModeOf(c, base, front);
      if !m.Buffering? || !last.Write? then m else Decided(c, base, ops)
  }

  /** The decision at the last call, a write while the writer still buffers. */
  function Decided(c: Config, base: Header, ops: seq<Op>): Mode
    requires ops != []
  {
    if c.excluded.Some? && TypeSeen(base, ops) != "" && c.excluded.value(TypeSeen(base, ops)) then Passing(|ops| - 1)
    else if |Written(ops)| >= c.minSize then Compressing(|ops| - 1)
    else Buffering
  }

  /** What the client receives in the end.  Bytes that were buffered before the body turned out to
      be excluded come last. */
  function Received(c: Config, base: Header, ops: seq<Op>): Reply {
    match ModeOf(c, base, ops)
    case Buffering => Reply(LastStatus(ops), HeadersAt(base, ops), Written(ops))
    case Compressing(at) =>
      Reply(LastStatus(ops[..at]), Announced(HeadersAt(base, ops[..at]), c.encoding), c.encode(Written(ops)))
    case Passing(at) =>
      Reply(LastStatus(ops[..at]), HeadersAt(base, ops[..at]), Written(ops[at..]) + Written(ops[..at]))
  }

  lemma {:induction false} WrittenSplit(ops: seq<Op>, n: nat)
    requires n <= |ops|
    ensures Written(ops) == Written(ops[..n]) + Written(ops[n..])
  {
    if n == |ops| {
      assert ops[..n] == ops && ops[n..] == [];
      assert Written(ops) + [] == Written(ops);
    } else {
      var front := ops[..|ops| - 1];
      WrittenSplit(front, n);
      assert front[..n] == ops[..n] && front[n..] == ops[n..][..|ops| - n - 1];
    }
  }

  // ---- the writer ----

  /** The fields of the writer and of the writer below it. */
  datatype View = View(committed: Option<(int, Header)>, body: Bytes, header: Header, buf: Bytes, plain: Bytes,
                       statusCode: int, headerSent: bool, compressed: bool, passthrough: bool,
                       ctChecked: bool, ctExcluded: bool)

  /** The fields as functions of the calls so far. */
  ghost predicate Describes(c: Config, base: Header, ops: seq<Op>, v: View) {
    var m := ModeOf(c, base, ops);
    && v.headerSent == !m.Buffering? && v.compressed == m.Compressing? && v.passthrough == m.Passing?
    && match m
       case Buffering =>
         && v.committed == None && v.body == [] && v.header == HeadersAt(base, ops)
         && v.buf == Written(ops) && v.plain == [] && v.statusCode == LastStatus(ops)
         && !v.ctExcluded && v.ctChecked == (c.excluded.Some? && TypeSeen(base, ops) != "")
       case Compressing(at) =>
         && v.committed == Some((LastStatus(ops[..at]), Announced(HeadersAt(base, ops[..at]), c.encoding)))
         && v.body == [] && v.plain == Written(ops)
       case Passing(at) =>
         && v.committed == Some((LastStatus(ops[..at]), HeadersAt(base, ops[..at])))
         && v.body == Written(ops[at..]) && v.buf == Written(ops[..at])
  }

  /** How the meaning grows with one call. */
  lemma OneMore(ops: seq<Op>, op: Op)
    ensures var more := ops + [op];
            && Written(more) == Written(ops) + (if op.Write? then op.p else [])
            && LastStatus(more) == (if op.WriteHeader? then op.code else LastStatus(ops))
            && Headers(more) == (if op.SetHeader? then Headers(ops)[op.name := op.values] else Headers(ops))
  {
    OneMoreCall(ops, op);
    assert (ops + [op])[..|ops|] == ops;
  }

  lemma ModeOneMore(c: Config, base: Header, ops: seq<Op>, op: Op)
    ensures var (m, more) := (ModeOf(c, base, ops), ops + [op]);
            && (op.Write? || TypeSeen(base, more) == TypeSeen(base, ops))
            && (op.Write? && TypeSeen(base, ops) != "" ==> TypeSeen(base, more) == TypeSeen(base, ops))
            && (op.Write? && TypeSeen(base, ops) == "" ==> TypeSeen(base, more) == First(HeadersAt(base, ops), CONTENT_TYPE))
            && (!m.Buffering? || !op.Write? ==> ModeOf(c, base, more) == m)
            && (m.Buffering? && op.Write? ==> ModeOf(c, base, more) == Decided(c, base, more))
  {
    assert (ops + [op])[..|ops|] == ops;
  }

  lemma OneMoreAfter(ops: seq<Op>, op: Op, at: nat)
    requires at <= |ops|
    ensures (ops + [op])[..at] == ops[..at]
    ensures Written((ops + [op])[at..]) == Written(ops[at..]) + (if op.Write? then op.p else [])
  {
    assert (ops + [op])[at..] == ops[at..] + [op];
    OneMore(ops[at..], op);
  }

  /** A call after the decision. */
  lemma DescribesDecided(c: Config, base: Header, ops: seq<Op>, v: View, op: Op, v': View)
    requires Describes(c, base, ops, v) && v.headerSent
    requires var p := if op.Write? then op.p else [];
             v' == v.(header := v'.header, plain := if v.compressed then v.plain + p else v.plain,
                      body := if v.compressed then v.body else v.body + p)
    ensures Describes(c, base, ops + [op], v')
  {
    ModeOneMore(c, base, ops, op);
    OneMore(ops, op);
    OneMoreAfter(ops, op, ModeOf(c, base, ops).at);
  }

  lemma DescribesLater(c: Config, base: Header, ops: seq<Op>, v: View, op: Op, header: Header)
    requires Describes(c, base, ops, v) && v.headerSent && !op.Write?
    ensures Describes(c, base, ops + [op], v.(header := header))
  {
    assert forall x: Bytes :: x + [] == x;
    DescribesDecided(c, base, ops, v, op, v.(header := header));
  }

  lemma DescribesSetHeader(c: Config, base: Header, ops: seq<Op>, v: View, name: string, values: seq<string>)
    requires Describes(c, base, ops, v)
    ensures Describes(c, base, ops + [Op.SetHeader(name, values)], v.(header := v.header[name := values]))
  {
    var op := Op.SetHeader(name, values);
    if v.headerSent {
      DescribesLater(c, base, ops, v, op, v.header[name := values]);
    } else {
      ModeOneMore(c, base, ops, op);
      OneMore(ops, op);
      assert base + Headers(ops)[name := values] == (base + Headers(ops))[name := values];
    }
  }

  lemma DescribesWriteHeader(c: Config, base: Header, ops: seq<Op>, v: View, code: int)
    requires Describes(c, base, ops, v)
    ensures Describes(c, base, ops + [Op.WriteHeader(code)], if v.headerSent then v else v.(statusCode := code))
  {
    var op := Op.WriteHeader(code);
    if v.headerSent {
      DescribesLater(c, base, ops, v, op, v.header);
    } else {
      ModeOneMore(c, base, ops, op);
      OneMore(ops, op);
    }
  }

  /** The write that goes on buffering, and the two that decide. */
  function AfterWrite(c: Config, v: View, p: Bytes): View {
    var seen := if v.ctChecked || c.excluded.None? then "" else First(v.header, CONTENT_TYPE);
    if (seen != "" && c.excluded.value(seen)) || v.ctExcluded then
      v.(committed := Some((v.statusCode, v.header)), body := v.body + p, headerSent := true, passthrough := true,
         ctChecked := true, ctExcluded := true)
    else
      var checked := v.ctChecked || seen != "";
      if |v.buf + p| >= c.minSize then
        var header := Announced(v.header, c.encoding);
        v.(committed := Some((v.statusCode, header)), header := header, plain := v.plain + (v.buf + p), buf := [],
           headerSent := true, compressed := true, ctChecked := checked)
      else v.(buf := v.buf + p, ctChecked := checked)
  }

  lemma DescribesWrite(c: Config, base: Header, ops: seq<Op>, v: View, p: Bytes)
    requires Describes(c, base, ops, v) && !v.headerSent
    ensures Describes(c, base, ops + [Op.Write(p)], AfterWrite(c, v, p))
  {
    var op := Op.Write(p);
    ModeOneMore(c, base, ops, op);
    OneMore(ops, op);
    OneMoreAfter(ops, op, |ops|);
    assert ops[..|ops|] == ops && ops[|ops|..] == [] && [] + p == p && [] + (v.buf + p) == v.buf + p;
    if c.excluded.Some? && TypeSeen(base, ops) != "" {
      BufferedTypeIsAllowed(c, base, ops);
    }
  }

  /** A type seen while the writer still buffers is not an excluded one. */
  lemma {:induction false} BufferedTypeIsAllowed(c: Config, base: Header, ops: seq<Op>)
    requires ModeOf(c, base, ops).Buffering? && c.excluded.Some? && TypeSeen(base, ops) != ""
    ensures !c.excluded.value(TypeSeen(base, ops))
  {
    var (front, last) := (ops[..|ops| - 1], ops[|ops| - 1]);
    if !last.Write? {
      BufferedTypeIsAllowed(c, base, front);
    }
  }

  class Writer {
    const c: Config
    const w: ResponseWriter
    var buf: Bytes
    var plain: Bytes      // what the compressor has been given
    var statusCode: int
    var headerSent: bool
    var compressed: bool
    var passthrough: bool
    var ctChecked: bool
    var ctExcluded: bool
    ghost const base: Header
    ghost var ops: seq<Op>

    ghost function Fields(): View
      reads this, w
    {
      View(w.committed, w.body, w.header, buf, plain, statusCode, headerSent, compressed, passthrough, ctChecked, ctExcluded)
    }

    ghost predicate Valid()
      reads this, w
    {
      Describes(c, base, ops, Fields())
    }

    /** Acquired from the pool: all fields reset. */
    constructor (c: Config, w: ResponseWriter)
      requires w.committed == None && w.body == []
      ensures Valid() && ops == [] && this.c == c && this.w == w && base == w.header
    {
      this.c, this.w, base := c, w, w.header;
      buf, plain, statusCode, ops := [], [], 200, [];
      headerSent, compressed, passthrough, ctChecked, ctExcluded := false, false, false, false, false;
      new;
      assert base + map[] == base;
    }

    /** Header().Set: the headers are those of the writer below. */
    method SetHeader(name: string, values: seq<string>)
      requires Valid()
      modifies this`ops, w`header
      ensures Valid() && ops == old(ops) + [Op.SetHeader(name, values)]
    {
      ghost var v := Fields();
      DescribesSetHeader(c, base, ops, v, name, values);
      w.header := w.header[name := values];
      ops := ops + [Op.SetHeader(name, values)];
      assert Fields() == v.(header := v.header[name := values]);
    }

    method WriteHeader(code: int)
      requires Valid()
      modifies this`ops, this`statusCode
      ensures Valid() && ops == old(ops) + [Op.WriteHeader(code)]
    {
      ghost var v := Fields();
      DescribesWriteHeader(c, base, ops, v, code);
      if !headerSent {
        statusCode := code;
      }
      ops := ops + [Op.WriteHeader(code)];
      assert Fields() == if v.headerSent then v else v.(statusCode := code);
    }

    method Write(b: Bytes) returns (n: nat)
      requires Valid()
      modifies this, w
      ensures Valid() && ops == old(ops) + [Op.Write(b)] && n == |b|
    {
      ghost var (v, op) := (Fields(), Op.Write(b));
      n := |b|;
      if compressed {
        plain := plain + b;
        ops := ops + [op];
        DescribesDecided(c, base, old(ops), v, op, Fields());
        return;
      }
      if passthrough {
        w.Write(b);
        ops := ops + [op];
        DescribesDecided(c, base, old(ops), v, op, Fields());
        return;
      }
      WriteUndecided(b);
      ops := ops + [op];
      DescribesWrite(c, base, old(ops), v, b);
    }

    method WriteUndecided(b: Bytes)
      requires !headerSent && !compressed && !passthrough && w.committed == None && !ctExcluded
      requires ctChecked ==> c.excluded.Some?
      modifies this`buf, this`plain, this`headerSent, this`compressed, this`passthrough, this`ctChecked,
               this`ctExcluded, w
      ensures Fields() == AfterWrite(c, old(Fields()), b)
    {
      if c.excluded.Some? {
        var excluded, known := IsContentTypeExcluded();
        if known && excluded {
          passthrough := true;
          headerSent := true;
          w.WriteHeader(statusCode);
          w.Write(b);
          return;
        }
      }
      buf := buf + b;
      if |buf| >= c.minSize {
        compressed := true;
        w.header := Announced(w.header, c.encoding);
        headerSent := true;
        w.WriteHeader(statusCode);
        plain := plain + buf;
        buf := [];
      }
    }

    method IsContentTypeExcluded() returns (excluded: bool, known: bool)
      requires c.excluded.Some?
      modifies this`ctChecked, this`ctExcluded
      ensures old(ctChecked) ==> excluded == ctExcluded == old(ctExcluded) && known && ctChecked
      ensures !old(ctChecked) ==>
                var ct := First(w.header, CONTENT_TYPE);
                && ctChecked == known == (ct != "")
                && ctExcluded == (if known then c.excluded.value(ct) else old(ctExcluded))
                && (known ==> excluded == ctExcluded)
    {
      if ctChecked {
        return ctExcluded, true;
      }
      var ct := First(w.header, CONTENT_TYPE);
      if ct == "" {
        return false, false;
      }
      ctChecked := true;
      ctExcluded := c.excluded.value(ct);
      return ctExcluded, true;
    }

    /** finish. */
    method Finish()
      requires Valid()
      modifies this, w
      ensures w.committed.Some?
      ensures Reply(w.committed.value.0, w.committed.value.1, w.body) == Received(c, base, old(ops))
    {
      if compressed {
        w.body := w.body + c.encode(plain);
      }
      if !compressed {
        if !headerSent && !passthrough {
          headerSent := true;
          w.WriteHeader(statusCode);
        }
        if |buf| > 0 {
          w.Write(buf);
        }
      }
    }
  }

  // ---- what the client makes of it ----

  predicate SkipsType(c: Config, base: Header, ops: seq<Op>) {
    c.excluded.Some? && TypeSeen(base, ops) != "" && c.excluded.value(TypeSeen(base, ops))
  }

  /** The n-th call is a write that sees an excluded type, or one that leaves the body at the threshold. */
  predicate SkippedAt(c: Config, base: Header, ops: seq<Op>, n: int) {
    0 <= n < |ops| && ops[n].Write? && SkipsType(c, base, ops[..n + 1])
  }

  predicate FullAt(c: Config, ops: seq<Op>, n: int) {
    0 <= n < |ops| && ops[n].Write? && |Written(ops[..n + 1])| >= c.minSize
  }

  /** With the n-th call the body has reached the threshold, and no write so far saw an excluded type. */
  ghost predicate Reaches(c: Config, base: Header, ops: seq<Op>, n: int) {
    FullAt(c, ops, n) && forall k :: k <= n ==> !SkippedAt(c, base, ops, k)
  }

  lemma SameBefore(c: Config, base: Header, ops: seq<Op>, n: int)
    requires ops != [] && n < |ops| - 1
    ensures SkippedAt(c, base, ops, n) == SkippedAt(c, base, ops[..|ops| - 1], n)
    ensures FullAt(c, ops, n) == FullAt(c, ops[..|ops| - 1], n)
  {
    if n >= 0 {
      assert ops[..|ops| - 1][..n + 1] == ops[..n + 1];
    }
  }

  /** The mode in terms of the calls themselves. */
  ghost predicate IsMode(c: Config, base: Header, ops: seq<Op>, m: Mode) {
    match m
    case Buffering => forall k :: !SkippedAt(c, base, ops, k) && !FullAt(c, ops, k)
    case Compressing(at) => Reaches(c, base, ops, at) && forall k :: k < at ==> !FullAt(c, ops, k)
    case Passing(at) =>
      SkippedAt(c, base, ops, at) && forall k :: k < at ==> !SkippedAt(c, base, ops, k) && !FullAt(c, ops, k)
  }

  lemma DecidedIsMode(c: Config, base: Header, ops: seq<Op>)
    requires ops != [] && ops[|ops| - 1].Write?
    requires forall k :: k < |ops| - 1 ==> !SkippedAt(c, base, ops, k) && !FullAt(c, ops, k)
    ensures IsMode(c, base, ops, Decided(c, base, ops))
  {
    assert ops[..|ops| - 1 + 1] == ops;
  }

  lemma {:induction false} ModeIsMode(c: Config, base: Header, ops: seq<Op>)
    ensures IsMode(c, base, ops, ModeOf(c, base, ops))
  {
    if ops != [] {
      var (last, front) := (|ops| - 1, ops[..|ops| - 1]);
      ModeIsMode(c, base, front);
      forall k | k < last
        ensures SkippedAt(c, base, ops, k) == SkippedAt(c, base, front, k) && FullAt(c, ops, k) == FullAt(c, front, k)
      {
        SameBefore(c, base, ops, k);
      }
      if ModeOf(c, base, front).Buffering? && ops[last].Write? {
        DecidedIsMode(c, base, ops);
      }
    }
  }

  /** The body is compressed exactly when a body that is not excluded reaches the threshold. */
  lemma CompressedIffReached(c: Config, base: Header, ops: seq<Op>)
    ensures ModeOf(c, base, ops).Compressing? <==> exists n :: Reaches(c, base, ops, n)
  {
    ModeIsMode(c, base, ops);
    var m := ModeOf(c, base, ops);
    if n :| Reaches(c, base, ops, n) {
      assert m.Passing? ==> m.at <= n || n < m.at;
    }
  }

  /** The k-th call is the first to see an excluded type, and no write before it reached the threshold. */
  ghost predicate PassesAt(c: Config, base: Header, ops: seq<Op>, k: int) {
    SkippedAt(c, base, ops, k) && forall j :: j < k ==> !SkippedAt(c, base, ops, j) && !FullAt(c, ops, j)
  }

  lemma PassingIff(c: Config, base: Header, ops: seq<Op>, k: int)
    ensures PassesAt(c, base, ops, k) <==> ModeOf(c, base, ops).Passing? && ModeOf(c, base, ops).at == k
  {
    ModeIsMode(c, base, ops);
    var m := ModeOf(c, base, ops);
    if PassesAt(c, base, ops, k) {
      assert !m.Buffering? ==> k < m.at || m.at < k || k == m.at;
    }
  }

  lemma OtherNames()
    ensures VARY != CONTENT_ENCODING && CONTENT_LENGTH != CONTENT_ENCODING
  {
    assert |VARY| != |CONTENT_ENCODING| && |CONTENT_LENGTH| != |CONTENT_ENCODING|;
  }

  /** What the client gets, in terms of the calls.  A body that reaches the threshold decodes to the
      written bytes and is marked with the writer's encoding and no other, even if the handler had
      encoded it and said so itself; any other body goes out under the handler's own headers. */
  lemma BodyArrives(c: Config, base: Header, ops: seq<Op>, decode: Bytes -> Bytes)
    requires forall b :: decode(c.encode(b)) == b
    ensures var r := Received(c, base, ops);
            && (forall n :: Reaches(c, base, ops, n) ==>
                  && Values(r.header, CONTENT_ENCODING) == [c.encoding] && CONTENT_LENGTH !in r.header
                  && decode(r.body) == Written(ops))
            && (forall k :: PassesAt(c, base, ops, k) ==>
                  && r.header == HeadersAt(base, ops[..k])
                  && r.body == Written(ops[k..]) + Written(ops[..k]))
            && ((forall n :: !Reaches(c, base, ops, n)) && (forall k :: !PassesAt(c, base, ops, k)) ==>
                  r.header == HeadersAt(base, ops) && r.body == Written(ops))
  {
    CompressedIffReached(c, base, ops);
    forall k
      ensures PassesAt(c, base, ops, k) <==> ModeOf(c, base, ops).Passing? && ModeOf(c, base, ops).at == k
    {
      PassingIff(c, base, ops, k);
    }
    OtherNames();
    assert ModeOf(c, base, ops).Passing? ==> PassesAt(c, base, ops, ModeOf(c, base, ops).at);
  }

  lemma {:induction false} HeadersComeFromCalls(ops: seq<Op>, name: string)
    requires forall i :: 0 <= i < |ops| ==> !(ops[i].SetHeader? && ops[i].name == name)
    ensures name !in Headers(ops)
  {
    if ops != [] {
      HeadersComeFromCalls(ops[..|ops| - 1], name);
    }
  }

  /** No call and no earlier handler marks the response as encoded. */
  ghost predicate Unmarked(base: Header, ops: seq<Op>) {
    CONTENT_ENCODING !in base && forall i :: 0 <= i < |ops| ==> !(ops[i].SetHeader? && ops[i].name == CONTENT_ENCODING)
  }

  /** Then the mark tells the client which bodies are encoded. */
  lemma MarkedIffReached(c: Config, base: Header, ops: seq<Op>)
    requires Unmarked(base, ops)
    ensures CONTENT_ENCODING in Received(c, base, ops).header <==> exists n :: Reaches(c, base, ops, n)
  {
    CompressedIffReached(c, base, ops);
    var m := ModeOf(c, base, ops);
    var n := if m.Buffering? then |ops| else m.at;
    assert forall i :: 0 <= i < n ==> ops[..n][i] == ops[i];
    HeadersComeFromCalls(ops[..n], CONTENT_ENCODING);
    assert ops[..|ops|] == ops;
    OtherNames();
  }

  /** The body as the client sees it once the writer's encoding is undone. */
  ghost function ClientBody(c: Config, base: Header, ops: seq<Op>, decode: Bytes -> Bytes): Bytes {
    var r := Received(c, base, ops);
    if exists n :: Reaches(c, base, ops, n) then decode(r.body) else r.body
  }

  /** It holds the written bytes in order if and only if the bytes buffered before the first call
      that saw an excluded type, and those written from then on, may change places. */
  lemma InOrderIffCommute(c: Config, base: Header, ops: seq<Op>, decode: Bytes -> Bytes)
    requires forall b :: decode(c.encode(b)) == b
    ensures ClientBody(c, base, ops, decode) == Written(ops)
       <==> forall k :: PassesAt(c, base, ops, k) ==>
              Written(ops[..k]) + Written(ops[k..]) == Written(ops[k..]) + Written(ops[..k])
  {
    BodyArrives(c, base, ops, decode);
    CompressedIffReached(c, base, ops);
    forall k
      ensures PassesAt(c, base, ops, k) <==> ModeOf(c, base, ops).Passing? && ModeOf(c, base, ops).at == k
    {
      PassingIff(c, base, ops, k);
    }
    if ModeOf(c, base, ops).Passing? {
      var k := ModeOf(c, base, ops).at;
      assert PassesAt(c, base, ops, k);
      WrittenSplit(ops, k);
    }
  }

  // ---- texts that may change places ----

  function Power(w: Bytes, n: nat): Bytes {
    if n == 0 then [] else w + Power(w, n - 1)
  }

  lemma {:induction false} PowerSum(w: Bytes, i: nat, j: nat)
    ensures Power(w, i) + Power(w, j) == Power(w, i + j)
  {
    if i == 0 {
      assert [] + Power(w, j) == Power(w, j);
    } else {
      PowerSum(w, i - 1, j);
      assert w + Power(w, i - 1) + Power(w, j) == w + (Power(w, i - 1) + Power(w, j));
    }
  }

  /** Two texts may change places exactly when they repeat one and the same text. */
  lemma CommuteIffPowers(u: Bytes, v: Bytes)
    ensures u + v == v + u <==> exists w, i: nat, j: nat :: u == Power(w, i) && v == Power(w, j)
  {
    if u + v == v + u {
      var w, i, j := CommonRoot(u, v);
    }
    if w, i: nat, j: nat :| u == Power(w, i) && v == Power(w, j) {
      PowerSum(w, i, j);
      PowerSum(w, j, i);
    }
  }

  lemma {:induction false} CommonRoot(u: Bytes, v: Bytes) returns (w: Bytes, i: nat, j: nat)
    requires u + v == v + u
    ensures u == Power(w, i) && v == Power(w, j)
    decreases |u| + |v|, |u|
  {
    if u == [] {
      w, i, j := v, 0, 1;
      assert Power(v, 1) == v + [] == v;
    } else if |u| > |v| {
      w, j, i := CommonRoot(v, u);
    } else {
      var rest := v[|u|..];
      assert (u + v)[..|u|] == u && (v + u)[..|u|] == v[..|u|];
      assert v == u + rest;
      assert (u + v)[|u|..] == v && (v + u)[|u|..] == rest + u;
      w, i, j := CommonRoot(u, rest);
      PowerSum(w, i, j);
      j := i + j;
    }
  }

  /** The exception is real: bytes buffered before the type is set to an excluded one are sent after
      those that follow. */
  lemma LateTypeReorders(c: Config, p: Bytes, q: Bytes, ct: string)
    requires c.excluded.Some? && ct != "" && c.excluded.value(ct)
    requires p != [] && |p| < c.minSize && q != [] && p[0] != q[0]
    ensures var ops := [Op.Write(p), Op.SetHeader(CONTENT_TYPE, [ct]), Op.Write(q)];
            Written(ops) == p + q && Received(c, map[], ops).body == q + p != p + q
  {
    var (a, b, d) := (Op.Write(p), Op.SetHeader(CONTENT_TYPE, [ct]), Op.Write(q));
    var ops := [a, b, d];
    assert [] + [a] == [a] && [a] + [b] == [a, b] && [a, b] + [d] == ops;
    OneMore([], a);
    OneMore([a], b);
    OneMore([a, b], d);
    ModeOneMore(c, map[], [], a);
    ModeOneMore(c, map[], [a], b);
    ModeOneMore(c, map[], [a, b], d);
    assert ModeOf(c, map[], ops) == Passing(2);
    assert ops[2..] == [] + [d] && ops[..2] == [a, b];
    OneMore([], d);
    assert [] + p == p && [] + q == q && p + [] == p;
    assert (q + p)[0] != (p + q)[0];
  }
}
