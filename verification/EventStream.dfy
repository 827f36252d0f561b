/** Server-sent events (sse.go:59-183), read back by the parser of section 9.2.6 of the WHATWG HTML
    Living Standard. */
module EventStream {
  import opened Prelude
  import opened ByteStrings

  const LF: byte := 10
  const CR: byte := 13
  const NUL: byte := 0
  const SPACE: byte := 32
  const COLON: byte := 58

  const EVENT: Bytes := [101, 118, 101, 110, 116]
  const ID: Bytes := [105, 100]
  const RETRY: Bytes := [114, 101, 116, 114, 121]
  const DATA: Bytes := [100, 97, 116, 97]
  const MESSAGE: Bytes := [109, 101, 115, 115, 97, 103, 101]

  datatype Event = Event(name: Bytes, data: Bytes, id: Bytes, retry: int)

  predicate OneLine(s: Bytes) {
    LF !in s && CR !in s
  }

  // ---- printing ----

  /** One field as it is printed, its line end included. */
  function FieldLine(field: Bytes, value: Bytes): Bytes {
    field + [COLON, SPACE] + value + [LF]
  }

  function DataLines(lines: seq<Bytes>): Bytes {
    if lines == [] then [] else DataLines(lines[..|lines| - 1]) + FieldLine(DATA, lines[|lines| - 1])
  }

  function Head(e: Event): Bytes {
    (if e.name != [] then FieldLine(EVENT, e.name) else [])
    + (if e.id != [] then FieldLine(ID, e.id) else [])
    + (if e.retry > 0 then FieldLine(RETRY, FormatInt(e.retry)) else [])
  }

  function Print(e: Event): Bytes {
    Head(e) + DataLines(Split(e.data, LF)) + [LF]
  }

  /** formatSSEEvent; None is ErrInvalidSSEField. */
  method Format(e: Event) returns (r: Option<Bytes>)
    ensures r == if OneLine(e.name) && OneLine(e.id) then Some(Print(e)) else None
  {
    if LF in e.name || CR in e.name {
      return None;
    }
    if LF in e.id || CR in e.id {
      return None;
    }
    var buf := FormatHead(e);
    var lines := Split(e.data, LF);
    for i := 0 to |lines|
      invariant buf == Head(e) + DataLines(lines[..i])
    {
      assert lines[..i + 1][..i] == lines[..i];
      var line := FieldLine(DATA, lines[i]);
      Concat(Head(e), DataLines(lines[..i]), line);
      buf := buf + line;
    }
    assert lines[..|lines|] == lines;
    return Some(buf + [LF]);
  }

  method FormatHead(e: Event) returns (buf: Bytes)
    ensures buf == Head(e)
  {
    buf := [];
    if e.name != [] {
      buf := buf + FieldLine(EVENT, e.name);
    }
    if e.id != [] {
      buf := buf + FieldLine(ID, e.id);
    }
    if e.retry > 0 {
      buf := buf + FieldLine(RETRY, FormatInt(e.retry));
    }
  }

  function Normalized(text: Bytes): (r: Bytes)
    ensures OneLine(r) && |r| == |text|
  {
    if text == [] then []
    else (if text[0] == LF || text[0] == CR then [SPACE] else [text[0]]) + Normalized(text[1..])
  }

  function PrintComment(text: Bytes): Bytes {
    [COLON, SPACE] + Normalized(text) + [LF, LF]
  }

  /** What was written: an event or a comment. */
  datatype Item = Sent(event: Event) | Remark(text: Bytes)

  function Stream(items: seq<Item>): Bytes {
    if items == [] then []
    else
      Stream(items[..|items| - 1]) +
      match items[|items| - 1]
      case Sent(e) => Print(e)
      case Remark(text) => PrintComment(text)
  }

  datatype Failure = NoFailure | Closed | Cancelled | InvalidField

  /** The writer; `sent` is its history. */
  class Writer {
    var closed: bool
    var out: Bytes
    ghost var sent: seq<Item>

    ghost predicate Valid()
      reads this
    {
      && out == Stream(sent)
      && forall i :: 0 <= i < |sent| && sent[i].Sent? ==> OneLine(sent[i].event.name) && OneLine(sent[i].event.id)
    }

    constructor ()
      ensures Valid() && sent == [] && !closed
    {
      closed, out, sent := false, [], [];
    }

    method Send(cancelled: bool, e: Event) returns (f: Failure)
      requires Valid()
      modifies `out, `sent
      ensures Valid()
      ensures f == if closed then Closed else if cancelled then Cancelled
                   else if OneLine(e.name) && OneLine(e.id) then NoFailure else InvalidField
      ensures sent == if f.NoFailure? then old(sent) + [Sent(e)] else old(sent)
    {
      if closed {
        return Closed;
      }
      if cancelled {
        return Cancelled;
      }
      var data := Format(e);
      if data.None? {
        return InvalidField;
      }
      out := out + data.value;
      sent := sent + [Sent(e)];
      assert sent[..|sent| - 1] == old(sent);
      return NoFailure;
    }

    method Comment(cancelled: bool, text: Bytes) returns (f: Failure)
      requires Valid()
      modifies `out, `sent
      ensures Valid()
      ensures f == if closed then Closed else if cancelled then Cancelled else NoFailure
      ensures sent == if f.NoFailure? then old(sent) + [Remark(text)] else old(sent)
    {
      if closed {
        return Closed;
      }
      if cancelled {
        return Cancelled;
      }
      var buf := [COLON, SPACE];
      buf := buf + Normalized(text);
      buf := buf + [LF, LF];
      out := out + buf;
      sent := sent + [Remark(text)];
      assert sent[..|sent| - 1] == old(sent);
      return NoFailure;
    }

    method Close()
      requires Valid()
      modifies `closed
      ensures Valid() && closed
    {
      closed := true;
    }
  }

  // ---- a session ----

  /** A call on the writer. */
  datatype Call = Sends(cancelled: bool, event: Event) | Comments(cancelled: bool, text: Bytes) | Closes

  predicate HasClosed(calls: seq<Call>) {
    Closes in calls
  }

  /** What one call writes to a writer that is open. */
  function Writes(call: Call): seq<Item> {
    match call
    case Sends(cancelled, e) => if !cancelled && OneLine(e.name) && OneLine(e.id) then [Sent(e)] else []
    case Comments(cancelled, text) => if cancelled then [] else [Remark(text)]
    case Closes => []
  }

  /** What a session writes: nothing after it was closed. */
  function Session(calls: seq<Call>): seq<Item> {
    if calls == [] then []
    else
      var (front, last) := (calls[..|calls| - 1], calls[|calls| - 1]);
      Session(front) + if HasClosed(front) then [] else Writes(last)
  }

  method Play(w: Writer, call: Call)
    requires w.Valid()
    modifies w
    ensures w.Valid() && w.sent == old(w.sent) + (if old(w.closed) then [] else Writes(call))
    ensures w.closed == (old(w.closed) || call == Closes)
  {
    assert w.sent + [] == w.sent;
    match call
    case Sends(cancelled, e) =>
      var _ := w.Send(cancelled, e);
    case Comments(cancelled, text) =>
      var _ := w.Comment(cancelled, text);
    case Closes =>
      w.Close();
  }

  method RunSession(calls: seq<Call>) returns (w: Writer)
    ensures w.Valid() && w.sent == Session(calls) && w.out == Stream(Session(calls))
    ensures w.closed == HasClosed(calls)
  {
    w := new Writer();
    for i := 0 to |calls|
      invariant w.Valid() && fresh(w) && w.sent == Session(calls[..i]) && w.closed == HasClosed(calls[..i])
    {
      SessionGrows(calls, i);
      Play(w, calls[i]);
    }
    assert calls[..|calls|] == calls;
  }

  lemma SessionGrows(calls: seq<Call>, i: nat)
    requires i < |calls|
    ensures Session(calls[..i + 1])
         == Session(calls[..i]) + if HasClosed(calls[..i]) then [] else Writes(calls[i])
    ensures HasClosed(calls[..i + 1]) <==> HasClosed(calls[..i]) || calls[i] == Closes
  {
    assert calls[..i + 1] == calls[..i] + [calls[i]];
    assert calls[..i + 1][..i] == calls[..i];
  }

  // ---- parsing ----

  datatype Message = Message(typ: Bytes, data: Bytes, lastId: Bytes)

  /** The parser's buffers, the reconnection time and the messages dispatched. */
  datatype Source = Source(data: Bytes, typ: Bytes, lastId: Bytes, retry: Option<nat>, out: seq<Message>)

  const START: Source := Source([], [], [], None, [])

  function Dispatch(s: Source): Source {
    if s.data == [] then s.(typ := [])
    else
      var n := |s.data| - 1;
      var data := if s.data[n] == LF then s.data[..n] else s.data;
      s.(data := [], typ := [], out := s.out + [Message(if s.typ == [] then MESSAGE else s.typ, data, s.lastId)])
  }

  function Process(s: Source, field: Bytes, value: Bytes): Source {
    if field == EVENT then s.(typ := value)
    else if field == DATA then s.(data := s.data + value + [LF])
    else if field == ID then if NUL in value then s else s.(lastId := value)
    else if field == RETRY then if IsDigits(value) then s.(retry := Some(Value(value))) else s
    else s
  }

  function Line(s: Source, line: Bytes): Source {
    if line == [] then Dispatch(s)
    else if line[0] == COLON then s
    else
      var n := Front(line, COLON);
      if n == |line| then Process(s, line, [])
      else
        var value := line[n + 1..];
        Process(s, line[..n], if value != [] && value[0] == SPACE then value[1..] else value)
  }

  function LineEnd(s: Bytes): (n: nat)
    ensures n <= |s|
  {
    if s == [] || s[0] == LF || s[0] == CR then 0 else 1 + LineEnd(s[1..])
  }

  /** A line ends with CR LF, LF or CR; an unfinished line at the end is discarded. */
  function Feed(s: Source, stream: Bytes): Source
    decreases |stream|
  {
    var n := LineEnd(stream);
    if n == |stream| then s
    else
      var skip := if stream[n] == CR && n + 1 < |stream| && stream[n + 1] == LF then 2 else 1;
      Feed(Line(s, stream[..n]), stream[n + skip..])
  }

  // ---- reading back what was printed ----

  lemma {:induction false} LineEndOf(line: Bytes, rest: Bytes)
    requires OneLine(line)
    ensures LineEnd(line + [LF] + rest) == |line|
  {
    if line != [] {
      assert (line + [LF] + rest)[1..] == line[1..] + [LF] + rest;
      LineEndOf(line[1..], rest);
    }
  }

  /** Whatever follows, the bytes take the parser from s to t. */
  ghost predicate Reads(s: Source, bytes: Bytes, t: Source) {
    forall rest :: Feed(s, bytes + rest) == Feed(t, rest)
  }

  lemma ReadsNothing(s: Source)
    ensures Reads(s, [], s)
  {
    forall rest
      ensures Feed(s, [] + rest) == Feed(s, rest)
    {
      assert [] + rest == rest;
    }
  }

  lemma ReadsBoth(s: Source, a: Bytes, t: Source, b: Bytes, u: Source)
    requires Reads(s, a, t) && Reads(t, b, u)
    ensures Reads(s, a + b, u)
  {
    forall rest
      ensures Feed(s, a + b + rest) == Feed(u, rest)
    {
      Concat(a, b, rest);
      assert Feed(s, a + (b + rest)) == Feed(t, b + rest);
    }
  }

  lemma ReadsLine(s: Source, line: Bytes)
    requires OneLine(line)
    ensures Reads(s, line + [LF], Line(s, line))
  {
    forall rest
      ensures Feed(s, line + [LF] + rest) == Feed(Line(s, line), rest)
    {
      LineEndOf(line, rest);
      var stream := line + [LF] + rest;
      assert stream[..|line|] == line && stream[|line|] == LF && stream[|line| + 1..] == rest;
    }
  }

  lemma ReadsField(s: Source, field: Bytes, value: Bytes)
    requires field != [] && OneLine(field) && COLON !in field && OneLine(value)
    ensures Reads(s, FieldLine(field, value), Process(s, field, value))
  {
    var line := field + [COLON, SPACE] + value;
    FrontOf(field, [COLON, SPACE] + value, COLON);
    assert line == field + ([COLON, SPACE] + value);
    assert line[..|field|] == field && line[|field| + 1..] == [SPACE] + value;
    assert ([SPACE] + value)[1..] == value;
    assert Line(s, line) == Process(s, field, value);
    ReadsLine(s, line);
  }

  /** What data lines leave in the data buffer. */
  function Gathered(lines: seq<Bytes>): Bytes {
    if lines == [] then [] else Gathered(lines[..|lines| - 1]) + lines[|lines| - 1] + [LF]
  }

  lemma {:induction false} ReadsData(s: Source, lines: seq<Bytes>)
    requires forall i :: 0 <= i < |lines| ==> OneLine(lines[i])
    ensures Reads(s, DataLines(lines), s.(data := s.data + Gathered(lines)))
  {
    if lines == [] {
      assert s.data + [] == s.data;
      ReadsNothing(s);
    } else {
      var (front, last) := (lines[..|lines| - 1], lines[|lines| - 1]);
      ReadsData(s, front);
      var t := s.(data := s.data + Gathered(front));
      ReadsField(t, DATA, last);
      assert s.data + Gathered(lines) == t.data + last + [LF];
      ReadsBoth(s, DataLines(front), t, FieldLine(DATA, last), Process(t, DATA, last));
    }
  }

  lemma {:induction false} GatheredSplit(s: Bytes)
    ensures Gathered(Split(s, LF)) == s + [LF]
    decreases |s|
  {
    var n := Front(s, LF);
    FrontSplits(s, LF);
    if n == |s| {
      assert [s][..0] == [];
      assert [] + s == s;
    } else {
      var rest := s[n + 1..];
      GatheredSplit(rest);
      GatheredCons(s[..n], Split(rest, LF));
      Concat(s[..n] + [LF], rest, [LF]);
      assert s == s[..n] + [LF] + rest;
    }
  }

  lemma {:induction false} SplitLines(s: Bytes)
    requires CR !in s
    ensures forall i :: 0 <= i < |Split(s, LF)| ==> OneLine(Split(s, LF)[i])
    decreases |s|
  {
    var n := Front(s, LF);
    if n < |s| {
      SplitLines(s[n + 1..]);
    }
  }

  lemma {:induction false} GatheredCons(line: Bytes, lines: seq<Bytes>)
    ensures Gathered([line] + lines) == line + [LF] + Gathered(lines)
  {
    var all := [line] + lines;
    if lines == [] {
      assert all[..0] == [];
    } else {
      assert all[..|all| - 1] == [line] + lines[..|lines| - 1];
      GatheredCons(line, lines[..|lines| - 1]);
    }
  }

  // ---- what the reader is meant to see ----

  /** The event is seen with its name or the default type, and with the latest identifier. */
  function See(s: Source, item: Item): Source {
    match item
    case Remark(_) => s
    case Sent(e) =>
      var lastId := if e.id != [] then e.id else s.lastId;
      Source([], [], lastId, if e.retry > 0 then Some(e.retry) else s.retry,
             s.out + [Message(if e.name == [] then MESSAGE else e.name, e.data, lastId)])
  }

  function SeeAll(items: seq<Item>): Source {
    if items == [] then START else See(SeeAll(items[..|items| - 1]), items[|items| - 1])
  }

  predicate Clean(item: Item) {
    item.Sent? ==> CR !in item.event.data && NUL !in item.event.id
  }

  ghost predicate Sendable(items: seq<Item>) {
    forall i :: 0 <= i < |items| && items[i].Sent? ==> OneLine(items[i].event.name) && OneLine(items[i].event.id)
  }

  function Named(s: Source, e: Event): Source {
    if e.name != [] then s.(typ := e.name) else s
  }

  function Identified(s: Source, e: Event): Source {
    if e.id != [] then s.(lastId := e.id) else s
  }

  function Retried(s: Source, e: Event): Source {
    if e.retry > 0 then s.(retry := Some(e.retry)) else s
  }

  lemma ReadsName(s: Source, e: Event)
    requires OneLine(e.name)
    ensures Reads(s, if e.name != [] then FieldLine(EVENT, e.name) else [], Named(s, e))
  {
    if e.name != [] {
      ReadsField(s, EVENT, e.name);
    } else {
      ReadsNothing(s);
    }
  }

  lemma ReadsId(s: Source, e: Event)
    requires OneLine(e.id) && NUL !in e.id
    ensures Reads(s, if e.id != [] then FieldLine(ID, e.id) else [], Identified(s, e))
  {
    if e.id != [] {
      ReadsField(s, ID, e.id);
      assert Process(s, ID, e.id) == s.(lastId := e.id);
    } else {
      ReadsNothing(s);
    }
  }

  lemma ReadsRetry(s: Source, e: Event)
    ensures Reads(s, if e.retry > 0 then FieldLine(RETRY, FormatInt(e.retry)) else [], Retried(s, e))
  {
    if e.retry > 0 {
      DigitsValue(e.retry);
      ReadsField(s, RETRY, FormatInt(e.retry));
      assert Process(s, RETRY, FormatInt(e.retry)) == s.(retry := Some(e.retry));
    } else {
      ReadsNothing(s);
    }
  }

  lemma ReadsHead(s: Source, e: Event)
    requires OneLine(e.name) && OneLine(e.id) && NUL !in e.id
    ensures Reads(s, Head(e), Retried(Identified(Named(s, e), e), e))
  {
    var a := if e.name != [] then FieldLine(EVENT, e.name) else [];
    var b := if e.id != [] then FieldLine(ID, e.id) else [];
    var c := if e.retry > 0 then FieldLine(RETRY, FormatInt(e.retry)) else [];
    var (s1, s2) := (Named(s, e), Identified(Named(s, e), e));
    ReadsName(s, e);
    ReadsId(s1, e);
    ReadsRetry(s2, e);
    ReadsBoth(s, a, s1, b, s2);
    ReadsBoth(s, a + b, s2, c, Retried(s2, e));
  }

  lemma ReadsEvent(s: Source, e: Event)
    requires OneLine(e.name) && OneLine(e.id) && Clean(Sent(e)) && s.data == [] && s.typ == []
    ensures Reads(s, Print(e), See(s, Sent(e)))
  {
    var lines := Split(e.data, LF);
    var s1 := Retried(Identified(Named(s, e), e), e);
    ReadsHead(s, e);
    GatheredSplit(e.data);
    SplitLines(e.data);
    ReadsData(s1, lines);
    var s2 := s1.(data := e.data + [LF]);
    assert s1.data + Gathered(lines) == s2.data;
    ReadsBoth(s, Head(e), s1, DataLines(lines), s2);
    ReadsBlank(s2);
    assert s2.data[..|e.data|] == e.data;
    ReadsBoth(s, Head(e) + DataLines(lines), s2, [LF], Dispatch(s2));
  }

  lemma ReadsBlank(s: Source)
    ensures Reads(s, [LF], Dispatch(s))
  {
    ReadsLine(s, []);
    assert [] + [LF] == [LF];
  }

  lemma ReadsComment(s: Source, text: Bytes)
    requires s.data == [] && s.typ == []
    ensures Reads(s, PrintComment(text), s)
  {
    var line := [COLON, SPACE] + Normalized(text);
    ReadsLine(s, line);
    ReadsBlank(s);
    ReadsBoth(s, line + [LF], s, [LF], s);
    assert PrintComment(text) == line + [LF] + [LF];
  }

  lemma {:induction false} ReadsStream(items: seq<Item>)
    requires Sendable(items) && forall i :: 0 <= i < |items| ==> Clean(items[i])
    ensures SeeAll(items).data == [] && SeeAll(items).typ == []
    ensures Reads(START, Stream(items), SeeAll(items))
  {
    if items == [] {
      ReadsNothing(START);
    } else {
      var (front, last) := (items[..|items| - 1], items[|items| - 1]);
      ReadsStream(front);
      match last {
        case Sent(e) =>
          ReadsEvent(SeeAll(front), e);
          ReadsBoth(START, Stream(front), SeeAll(front), Print(e), SeeAll(items));
        case Remark(text) =>
          ReadsComment(SeeAll(front), text);
          ReadsBoth(START, Stream(front), SeeAll(front), PrintComment(text), SeeAll(items));
      }
    }
  }

  // ---- what a parser can never yield ----

  /** No carriage return in data, no NUL in an identifier. */
  predicate Possible(s: Source) {
    && CR !in s.data && NUL !in s.lastId
    && forall i :: 0 <= i < |s.out| ==> CR !in s.out[i].data && NUL !in s.out[i].lastId
  }

  lemma {:induction false} LineEndIsFirst(s: Bytes)
    ensures OneLine(s[..LineEnd(s)])
  {
    if s != [] && s[0] != LF && s[0] != CR {
      LineEndIsFirst(s[1..]);
      assert s[..LineEnd(s)] == [s[0]] + s[1..][..LineEnd(s[1..])];
    }
  }

  lemma DispatchStaysPossible(s: Source)
    requires Possible(s)
    ensures Possible(Dispatch(s))
  {
  }

  lemma ProcessStaysPossible(s: Source, field: Bytes, value: Bytes)
    requires Possible(s) && CR !in value
    ensures Possible(Process(s, field, value))
  {
  }

  lemma LineStaysPossible(s: Source, line: Bytes)
    requires Possible(s) && OneLine(line)
    ensures Possible(Line(s, line))
  {
    if line == [] {
      DispatchStaysPossible(s);
    } else if line[0] != COLON {
      var n := Front(line, COLON);
      if n == |line| {
        ProcessStaysPossible(s, line, []);
      } else {
        var value := line[n + 1..];
        ProcessStaysPossible(s, line[..n], if value != [] && value[0] == SPACE then value[1..] else value);
      }
    }
  }

  lemma {:induction false} FeedStaysPossible(s: Source, stream: Bytes)
    requires Possible(s)
    ensures Possible(Feed(s, stream))
    decreases |stream|
  {
    var n := LineEnd(stream);
    if n < |stream| {
      LineEndIsFirst(stream);
      LineStaysPossible(s, stream[..n]);
      var skip := if stream[n] == CR && n + 1 < |stream| && stream[n + 1] == LF then 2 else 1;
      FeedStaysPossible(Line(s, stream[..n]), stream[n + skip..]);
    }
  }

  lemma {:induction false} UncleanIsImpossible(items: seq<Item>, i: nat)
    requires i < |items| && !Clean(items[i])
    ensures exists j :: 0 <= j < |SeeAll(items).out|
              && (CR in SeeAll(items).out[j].data || NUL in SeeAll(items).out[j].lastId)
  {
    var n := |items| - 1;
    var before := SeeAll(items[..n]).out;
    if i < n {
      UncleanIsImpossible(items[..n], i);
      var j :| 0 <= j < |before| && (CR in before[j].data || NUL in before[j].lastId);
      assert SeeAll(items).out[j] == before[j];
    } else {
      assert SeeAll(items).out[|before|].data == items[n].event.data;
    }
  }

  /** Reading back what was written yields exactly the events in order (name, data, latest
      identifier, reconnection time) if and only if no data holds a carriage return and no
      identifier a NUL. */
  lemma RoundTrip(items: seq<Item>)
    requires Sendable(items)
    ensures Feed(START, Stream(items)) == SeeAll(items) <==> forall i :: 0 <= i < |items| ==> Clean(items[i])
  {
    if forall i :: 0 <= i < |items| ==> Clean(items[i]) {
      ReadsStream(items);
      assert Stream(items) + [] == Stream(items);
      assert Feed(START, Stream(items) + []) == Feed(SeeAll(items), []);
    } else {
      var i :| 0 <= i < |items| && !Clean(items[i]);
      UncleanIsImpossible(items, i);
      FeedStaysPossible(START, Stream(items));
    }
  }

  lemma {:induction false} SessionIsSendable(calls: seq<Call>)
    ensures Sendable(Session(calls))
  {
    if calls != [] {
      SessionIsSendable(calls[..|calls| - 1]);
    }
  }

  /** So it is for every session: the client reads exactly the events that were sent before the writer
      was closed, cancelled and invalid ones left out, under the same condition. */
  lemma SessionRoundTrip(calls: seq<Call>)
    ensures var items := Session(calls);
            Feed(START, Stream(items)) == SeeAll(items) <==> forall i :: 0 <= i < |items| ==> Clean(items[i])
  {
    SessionIsSendable(calls);
    RoundTrip(Session(calls));
  }
}
