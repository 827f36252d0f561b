/** The response-capturing writer of the idempotency plugin (plugins/idempotency/writer.go). */
module CaptureWriter {
  import opened Prelude

  /** The writer below the capture, and what its client has been sent.  The first WriteHeader
      commits the status line and the headers; a Write before it commits status 200. */
  class ResponseWriter {
    var header: Header
    var committed: Option<(int, Header)>
    var body: Bytes

    constructor (header: Header)
      ensures this.header == header && committed == None && body == []
    {
      this.header, committed, body := header, None, [];
    }

    method WriteHeader(code: int)
      modifies this`committed
      ensures committed == if old(committed).None? then Some((code, header)) else old(committed)
    {
      if committed == None {
        committed := Some((code, header));
      }
    }

    method Write(p: Bytes)
      modifies this`committed, this`body
      ensures committed == if old(committed).None? then Some((200, header)) else old(committed)
      ensures body == old(body) + p
    {
      if committed == None {
        WriteHeader(200);
      }
      body := body + p;
    }
  }

  /** What a handler does with the writer it is given. */
  datatype Op = SetHeader(name: string, values: seq<string>) | WriteHeader(code: int) | Write(p: Bytes)

  /** What a client receives. */
  datatype Reply = Reply(status: int, header: Header, body: Bytes)

  /** The stored form of a response; the payload hash is all zeros when unset. */
  datatype Response = Response(status: int, header: Header, body: Bytes, payloadHash: Bytes)

  const SIZE_MARKER: (string, seq<string>) := ("Idempotency-Cached", ["false; reason=size"])

  const ZERO_HASH: Bytes := [0, 0, 0, 0, 0, 0, 0, 0, 0, 0, 0, 0, 0, 0, 0, 0,
                             0, 0, 0, 0, 0, 0, 0, 0, 0, 0, 0, 0, 0, 0, 0, 0]

  // ---- what a sequence of writer calls means ----

  function Written(ops: seq<Op>): Bytes {
    if ops == [] then []
    else
      var last := ops[|ops| - 1];
      Written(ops[..|ops| - 1]) + if last.Write? then last.p else []
  }

  /** The first status the handler chose (0 when it chose none). */
  function Chosen(ops: seq<Op>): int {
    if ops == [] then 0
    else
      var last := ops[|ops| - 1];
      var before := Chosen(ops[..|ops| - 1]);
      if before == 0 && last.WriteHeader? then last.code else before
  }

  function Headers(ops: seq<Op>): Header {
    if ops == [] then map[]
    else
      var last := ops[|ops| - 1];
      var before := Headers(ops[..|ops| - 1]);
      if last.SetHeader? then before[last.name := last.values] else before
  }

  function StatusOf(ops: seq<Op>): int {
    if Chosen(ops) == 0 then 200 else Chosen(ops)
  }

  /** The response is too large to be kept: a cap is set and the body outgrows it. */
  predicate Oversized(ops: seq<Op>, cap: int) {
    cap > 0 && |Written(ops)| > cap
  }

  /** How many calls are made before the one that outgrows the cap (all of them when none does). */
  function Kept(ops: seq<Op>, cap: int): (n: nat)
    ensures n <= |ops|
    ensures !Oversized(ops[..n], cap)
    ensures n < |ops| <==> Oversized(ops, cap)
    ensures n < |ops| ==> ops[n].Write? && Oversized(ops[..n + 1], cap)
  {
    if ops == [] then 0
    else
      var before := ops[..|ops| - 1];
      var n := Kept(before, cap);
      assert before[..n] == ops[..n];
      if n < |before| then
        assert before[..n + 1] == ops[..n + 1];
        n
      else if Oversized(ops, cap) then
        assert ops[..n + 1] == ops;
        n
      else
        assert ops[..|ops|] == ops;
        |ops|
  }

  /** What the client of a handler receives through the capture, for a client connection whose
      headers were already `base`. */
  function ClientSees(ops: seq<Op>, cap: int, base: Header): Reply {
    var n := Kept(ops, cap);
    var header := AddAll(base, Headers(ops[..n]));
    Reply(StatusOf(ops[..n]),
          if n < |ops| then header[SIZE_MARKER.0 := SIZE_MARKER.1] else header,
          Written(ops))
  }

  // ---- header policy ----

  const HARD_STRIPPED: set<string> := {
    "Set-Cookie", "Authorization", "Www-Authenticate", "X-Request-Id", "Connection", "Keep-Alive",
    "Proxy-Authenticate", "Proxy-Authorization", "Te", "Trailer", "Transfer-Encoding", "Upgrade"}

  /** Whether a header may be stored and replayed; without an allowlist only the blocklist applies. */
  predicate Replayable(allow: Option<set<string>>, name: string) {
    name !in HARD_STRIPPED && (allow.Some? ==> name in allow.value)
  }

  function Filter(allow: Option<set<string>>, h: Header): Header {
    map name | name in h && Replayable(allow, name) :: h[name]
  }

  /** The stored form of a response that fitted under the cap. */
  function SnapshotOf(ops: seq<Op>, allow: Option<set<string>>): Response {
    Response(StatusOf(ops), Filter(allow, Headers(ops)), Written(ops), ZERO_HASH)
  }

  // ---- the writer ----

  /** captureWriter: buffers until the body outgrows `cap`, then passes everything through. */
  class Capture {
    const w: ResponseWriter
    const cap: int
    const base: Header
    var written: int
    var body: Bytes
    var headers: Header
    var statusCode: int
    var overflowed: bool
    var headerSent: bool
    var committed: bool
    ghost var history: seq<Op>

    ghost predicate Valid()
      reads this, w
    {
      var n := Kept(history, cap);
      && overflowed == Oversized(history, cap)
      && headerSent == (overflowed || committed)
      && !(overflowed && committed)
      && statusCode == Chosen(history[..n])
      && headers == Headers(history[..n])
      && (!overflowed ==> body == Written(history) && written == |body|)
      && (overflowed ==> body == [])
      && (if headerSent
          then w.committed == Some((ClientSees(history, cap, base).status, ClientSees(history, cap, base).header))
               && w.body == Written(history)
          else w.header == base && w.committed == None && w.body == [])
    }

    /** acquireCaptureWriter. */
    constructor (w: ResponseWriter, cap: int)
      requires w.committed == None && w.body == []
      ensures Valid() && this.w == w && this.cap == cap && base == w.header
      ensures history == [] && !committed
    {
      this.w, this.cap, base := w, cap, w.header;
      written, body, headers, statusCode := 0, [], map[], 0;
      overflowed, headerSent, committed, history := false, false, false, [];
    }

    /** Header().Set before the flush. */
    method SetHeader(name: string, values: seq<string>)
      requires Valid() && !committed
      modifies this, w`header
      ensures Valid() && !committed && history == old(history) + [Op.SetHeader(name, values)]
    {
      ghost var before := history;
      history := history + [Op.SetHeader(name, values)];
      LastOp(before, Op.SetHeader(name, values), cap);
      if headerSent {
        w.header := w.header[name := values];
      } else {
        headers := headers[name := values];
      }
    }

    method WriteHeader(code: int)
      requires Valid() && !committed
      modifies this
      ensures Valid() && !committed && history == old(history) + [Op.WriteHeader(code)]
    {
      ghost var before := history;
      history := history + [Op.WriteHeader(code)];
      LastOp(before, Op.WriteHeader(code), cap);
      if headerSent {
        return;
      }
      if statusCode == 0 {
        statusCode := code;
      }
    }

    method Write(p: Bytes)
      requires Valid() && !committed
      modifies this, w
      ensures Valid() && !committed && history == old(history) + [Op.Write(p)]
      ensures cap > 0 ==> |body| <= cap
    {
      if overflowed {
        WriteThrough(p);
        return;
      }
      if cap > 0 && written + |p| > cap {
        WriteOverflowing(p);
        return;
      }
      ghost var before := history;
      history := history + [Op.Write(p)];
      LastOp(before, Op.Write(p), cap);
      body := body + p;
      written := written + |p|;
    }

    method WriteThrough(p: Bytes)
      requires Valid() && !committed && overflowed
      modifies this`history, w
      ensures Valid() && history == old(history) + [Op.Write(p)]
    {
      ghost var before := history;
      history := history + [Op.Write(p)];
      LastOp(before, Op.Write(p), cap);
      w.Write(p);
    }

    method WriteOverflowing(p: Bytes)
      requires Valid() && !committed && !overflowed && cap > 0 && written + |p| > cap
      modifies this`history, this`overflowed, this`headerSent, this`body, w
      ensures Valid() && history == old(history) + [Op.Write(p)] && body == []
    {
      ghost var before := history;
      history := history + [Op.Write(p)];
      LastOp(before, Op.Write(p), cap);
      FlushOverflow();
      w.Write(p);
    }

    /** Leaves buffering: status line, explanatory header and buffered prefix go to the client. */
    method FlushOverflow()
      requires !overflowed && !headerSent && w.committed == None && w.body == []
      modifies this`overflowed, this`headerSent, this`body, w
      ensures overflowed && headerSent && body == []
      ensures w.committed == Some((if statusCode == 0 then 200 else statusCode,
                                   AddAll(old(w.header), headers)[SIZE_MARKER.0 := SIZE_MARKER.1]))
      ensures w.body == old(body)
    {
      overflowed := true;
      w.header := AddAll(w.header, headers)[SIZE_MARKER.0 := SIZE_MARKER.1];
      w.WriteHeader(if statusCode == 0 then 200 else statusCode);
      headerSent := true;
      if |body| > 0 {
        w.Write(body);
        body := [];
      }
    }

    /** Commits a buffered response; a second call, or a call after an overflow, does nothing. */
    method FlushUnderCap()
      requires Valid()
      modifies this`committed, this`headerSent, w
      ensures Valid() && headerSent && history == old(history)
      ensures w.committed == Some((ClientSees(history, cap, base).status, ClientSees(history, cap, base).header))
      ensures w.body == ClientSees(history, cap, base).body
      ensures old(headerSent) ==> unchanged(w) && committed == old(committed)
    {
      if overflowed || committed {
        return;
      }
      committed := true;
      assert history[..|history|] == history;
      w.header := AddAll(w.header, headers);
      w.WriteHeader(if statusCode == 0 then 200 else statusCode);
      headerSent := true;
      if |body| > 0 {
        w.Write(body);
      }
    }

    /** The stored form, or nothing once the body outgrew the cap. */
    method Snapshot(allow: Option<set<string>>) returns (r: Option<Response>)
      requires Valid()
      ensures r == if Oversized(history, cap) then None else Some(SnapshotOf(history, allow))
    {
      if overflowed {
        return None;
      }
      assert history[..|history|] == history;
      var hdrs: Header := map[];
      var names := headers.Keys;
      while names != {}
        invariant names <= headers.Keys
        invariant hdrs == map name | name in headers.Keys - names && Replayable(allow, name) :: headers[name]
        decreases |names|
      {
        var name :| name in names;
        names := names - {name};
        if name in HARD_STRIPPED {
          continue;
        }
        if allow.Some? && name !in allow.value {
          continue;
        }
        hdrs := hdrs[name := headers[name]];
      }
      assert hdrs == Filter(allow, headers);
      return Some(Response(if statusCode == 0 then 200 else statusCode, hdrs, body, ZERO_HASH));
    }
  }

  /** How one more call changes the meaning of a call sequence. */
  lemma OneMoreCall(ops: seq<Op>, op: Op)
    ensures Written(ops + [op]) == Written(ops) + if op.Write? then op.p else []
    ensures Chosen(ops + [op]) == if Chosen(ops) == 0 && op.WriteHeader? then op.code else Chosen(ops)
    ensures Headers(ops + [op]) == if op.SetHeader? then Headers(ops)[op.name := op.values] else Headers(ops)
  {
    assert (ops + [op])[..|ops|] == ops;
  }

  lemma LastOp(ops: seq<Op>, op: Op, cap: int)
    ensures Written(ops + [op]) == Written(ops) + if op.Write? then op.p else []
    ensures Chosen(ops + [op]) == if Chosen(ops) == 0 && op.WriteHeader? then op.code else Chosen(ops)
    ensures Headers(ops + [op]) == if op.SetHeader? then Headers(ops)[op.name := op.values] else Headers(ops)
    ensures Oversized(ops, cap) ==>
              Kept(ops + [op], cap) == Kept(ops, cap) && (ops + [op])[..Kept(ops, cap)] == ops[..Kept(ops, cap)]
    ensures !Oversized(ops, cap) ==>
              && Kept(ops, cap) == |ops| && ops[..|ops|] == ops
              && (ops + [op])[..|ops|] == ops && (ops + [op])[..|ops| + 1] == ops + [op]
              && Kept(ops + [op], cap) == if Oversized(ops + [op], cap) then |ops| else |ops| + 1
  {
    OneMoreCall(ops, op);
    var (more, n) := (ops + [op], Kept(ops, cap));
    assert more[..|ops|] == ops && ops[..|ops|] == ops && more[..|ops| + 1] == more && more[..n] == ops[..n];
    assert more[..|more| - 1] == ops;
    assert Oversized(ops, cap) ==> Oversized(more, cap);
  }

  /** The calls of a handler, in order. */
  method Perform(cw: Capture, ops: seq<Op>)
    requires cw.Valid() && !cw.committed && cw.history == []
    modifies cw, cw.w
    ensures cw.Valid() && !cw.committed && cw.history == ops
  {
    for i := 0 to |ops|
      invariant cw.Valid() && !cw.committed && cw.history == ops[..i]
    {
      assert ops[..i + 1] == ops[..i] + [ops[i]];
      match ops[i] {
        case SetHeader(name, values) => cw.SetHeader(name, values);
        case WriteHeader(code) => cw.WriteHeader(code);
        case Write(p) => cw.Write(p);
      }
    }
    assert ops[..|ops|] == ops;
  }

  /** A handler run: every call of the handler, then the final flush. */
  method Serve(w: ResponseWriter, cap: int, ops: seq<Op>) returns (cw: Capture)
    requires w.committed == None && w.body == []
    modifies w
    ensures fresh(cw) && cw.Valid() && cw.history == ops && cw.cap == cap && cw.headerSent
    ensures var seen := ClientSees(ops, cap, old(w.header));
            w.committed == Some((seen.status, seen.header)) && w.body == seen.body
  {
    cw := new Capture(w, cap);
    Perform(cw, ops);
    cw.FlushUnderCap();
  }
}
