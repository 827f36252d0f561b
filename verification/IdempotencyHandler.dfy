/** One request through the middleware (plugins/idempotency/idempotency.go:361-415, 511-619), with
    nobody between its steps.  Its effect is put together from the very functions that the
    protocol's steps are made of. */
module IdempotencyHandler {
  import opened Prelude
  import opened CaptureWriter
  import opened IdempotencyStore
  import opened IdempotencyProtocol
  import opened IdempotencySafety

  /** What a request and its surroundings bring: the times at which the store is called, the calls
      its handler makes, and what waiting for another holder yields. */
  datatype Call = Call(key: Key, hash: Bytes, routeTTL: Option<int>, ops: seq<Op>,
                       getAt: Time, lockAt: Time, saveAt: Time, waited: Option<Response>)

  function RequestOf(call: Call, base: Header): Request {
    Request(call.key, call.hash, call.routeTTL, base, Arrived, None, None, None, [])
  }

  function OutcomeOf(c: Config, q: Request, resp: Response): Outcome {
    if SamePayload(c, q, resp) then Replayed(resp) else Mismatch
  }

  function ConflictOutcome(c: Config, q: Request, call: Call): Outcome {
    if c.waiting && call.waited.Some? then OutcomeOf(c, q, call.waited.value) else Conflict
  }

  /** The store when the holder's run is over. */
  function AfterRun(c: Config, s: Store, save: Option<Response>, call: Call): Store
    requires WellFormed(s)
  {
    if save.None? then s else AfterSave(s, call.key, save.value, ResolveTTL(c, call.routeTTL), call.saveAt)
  }

  /** What the holder asks the store to do after its handler. */
  function SavedAndUnlocked(c: Config, s: Store, save: Option<Response>, call: Call): Store
    requires WellFormed(s)
  {
    AfterUnlock(AfterRun(c, s, save, call), call.key)
  }

  /** The store and the outcome as the protocol's steps compose them. */
  function Handled(c: Config, s: Store, q: Request, call: Call): (r: (Store, Outcome))
    requires WellFormed(s) && q.key == call.key
  {
    var s1 := AfterGet(s, call.key, call.getAt);
    var found := Found(s, call.key, call.getAt);
    if found.Some? then (s1, OutcomeOf(c, q, found.value)) else HandledMiss(c, s1, q, call)
  }

  /** The same after a look that found nothing. */
  function HandledMiss(c: Config, s: Store, q: Request, call: Call): (r: (Store, Outcome))
    requires WellFormed(s) && q.key == call.key
  {
    if !LockWins(s, call.key, call.lockAt) then (s, ConflictOutcome(c, q, call))
    else (SavedAndUnlocked(c, AfterLock(s, call.key, call.lockAt), RunOf(c, q, call.ops).save, call), Ran)
  }

  /** What the client has been sent. */
  ghost predicate Sent(w: ResponseWriter, reply: Reply)
    reads w
  {
    w.committed == Some((reply.status, reply.header)) && w.body == reply.body
  }

  ghost predicate Untouched(w: ResponseWriter)
    reads w
  {
    w.committed == None && w.body == []
  }

  /** The client has what the outcome says: a replay, what the handler wrote, or nothing yet. */
  ghost predicate Answered(c: Config, w: ResponseWriter, q: Request, ops: seq<Op>, outcome: Outcome)
    reads w
  {
    match outcome
    case Replayed(resp) => Sent(w, Replay(c, q, resp))
    case Ran => Sent(w, RunOf(c, q, ops).reply)
    case _ => Untouched(w)
  }

  /** The headers after all but `names` of the source have been visited. */
  ghost function Visited(base: Header, allow: Option<set<string>>, src: Header, names: set<string>): Header {
    AddAll(base, Filter(allow, src - names))
  }

  lemma AddOne(base: Header, more: Header, name: string, values: seq<string>)
    requires name !in more
    ensures AddAll(base, more[name := values]) == AddAll(base, more)[name := Values(AddAll(base, more), name) + values]
  {
    assert Values(base, name) + [] == Values(base, name);
    assert Values(AddAll(base, more), name) == Values(base, name);
  }

  lemma FilterOne(allow: Option<set<string>>, src: Header, names: set<string>, name: string)
    requires name in names && name in src
    ensures var before := Filter(allow, src - names);
            && name !in before
            && Filter(allow, src - (names - {name})) == if Replayable(allow, name) then before[name := src[name]] else before
  {
  }

  lemma VisitOne(base: Header, allow: Option<set<string>>, src: Header, names: set<string>, name: string)
    requires name in names && name in src
    ensures var before := Visited(base, allow, src, names);
            Visited(base, allow, src, names - {name}) ==
            if Replayable(allow, name) then before[name := Values(before, name) + src[name]] else before
  {
    FilterOne(allow, src, names, name);
    AddOne(base, Filter(allow, src - names), name, src[name]);
  }

  lemma VisitNone(base: Header, allow: Option<set<string>>, src: Header)
    ensures Visited(base, allow, src, src.Keys) == base
  {
    assert Filter(allow, src - src.Keys) == map[];
    assert forall name :: name in base ==> base[name] + [] == base[name];
  }

  /** replayHeadersTo: filtered once more on the way out. */
  method ReplayHeadersTo(allow: Option<set<string>>, w: ResponseWriter, src: Header)
    modifies w`header
    ensures w.header == AddAll(old(w.header), Filter(allow, src))
  {
    ghost var base := w.header;
    var names := src.Keys;
    VisitNone(base, allow, src);
    while names != {}
      invariant names <= src.Keys && w.header == Visited(base, allow, src, names)
      decreases |names|
    {
      var name :| name in names;
      VisitOne(base, allow, src, names, name);
      names := names - {name};
      if name in HARD_STRIPPED {
        continue;
      }
      if allow.Some? && name !in allow.value {
        continue;
      }
      w.header := w.header[name := Values(w.header, name) + src[name]];
    }
    assert src - {} == src;
  }

  /** replayNative and replayStdlib. */
  method ReplayTo(c: Config, w: ResponseWriter, resp: Response)
    requires Untouched(w)
    modifies w
    ensures forall q: Request :: q.base == old(w.header) ==> Sent(w, Replay(c, q, resp))
  {
    ReplayHeadersTo(c.allow, w, resp.header);
    w.header := w.header["Idempotency-Replayed" := ["true"]];
    var status := resp.status;
    if status == 0 {
      status := 200;
    }
    w.WriteHeader(status);
    if |resp.body| > 0 {
      w.Write(resp.body);
    }
  }

  /** The end of a request that is handed a stored response. */
  method AnswerWith(c: Config, w: ResponseWriter, call: Call, resp: Response) returns (outcome: Outcome)
    requires Untouched(w)
    modifies w
    ensures outcome == OutcomeOf(c, RequestOf(call, old(w.header)), resp)
    ensures Answered(c, w, RequestOf(call, old(w.header)), call.ops, outcome)
  {
    if c.hashing && resp.payloadHash != ZERO_HASH && resp.payloadHash != call.hash {
      return Mismatch;
    }
    ReplayTo(c, w, resp);
    return Replayed(resp);
  }

  /** handleConflictNative: wait, if configured, and answer with what the wait yields. */
  method HandleConflict(c: Config, w: ResponseWriter, call: Call) returns (outcome: Outcome)
    requires Untouched(w)
    modifies w
    ensures outcome == ConflictOutcome(c, RequestOf(call, old(w.header)), call) && !outcome.Ran?
    ensures Answered(c, w, RequestOf(call, old(w.header)), call.ops, outcome)
  {
    if c.waiting && call.waited.Some? {
      outcome := AnswerWith(c, w, call, call.waited.value);
      return;
    }
    return Conflict;
  }

  /** handleNative from the first look at the store on. */
  method Handle(c: Config, store: MemoryStore, w: ResponseWriter, call: Call) returns (outcome: Outcome)
    requires store.Valid() && Untouched(w)
    modifies store, store.all, w
    ensures store.Valid()
    ensures (store.view, outcome) == Handled(c, old(store.view), RequestOf(call, old(w.header)), call)
    ensures Answered(c, w, RequestOf(call, old(w.header)), call.ops, outcome)
  {
    var cached := store.Get(call.key, call.getAt);
    if cached.Some? {
      outcome := AnswerWith(c, w, call, cached.value);
      return;
    }
    outcome := HandleMiss(c, store, w, call);
  }

  method HandleMiss(c: Config, store: MemoryStore, w: ResponseWriter, call: Call) returns (outcome: Outcome)
    requires store.Valid() && Untouched(w)
    modifies store, store.all, w
    ensures store.Valid()
    ensures (store.view, outcome) == HandledMiss(c, old(store.view), RequestOf(call, old(w.header)), call)
    ensures Answered(c, w, RequestOf(call, old(w.header)), call.ops, outcome)
  {
    var acquired := store.Lock(call.key, call.lockAt);
    if !acquired {
      outcome := HandleConflict(c, w, call);
      return;
    }
    assert store.all == old(store.all) + store.all[|old(store.all)|..];
    RunAsHolder(c, store, w, call);
    return Ran;
  }

  method RunAsHolder(c: Config, store: MemoryStore, w: ResponseWriter, call: Call)
    requires store.Valid() && Untouched(w)
    modifies store, store.all, w
    ensures store.Valid()
    ensures Answered(c, w, RequestOf(call, old(w.header)), call.ops, Ran)
    ensures var run := RunOf(c, RequestOf(call, old(w.header)), call.ops);
            store.view == SavedAndUnlocked(c, old(store.view), run.save, call)
  {
    RunAndSave(c, store, w, call);
    assert store.all == old(store.all) + store.all[|old(store.all)|..];
    var _ := store.Unlock(call.key);
  }

  /** The holder's part: run the handler against the capturing writer, save, flush. */
  method RunAndSave(c: Config, store: MemoryStore, w: ResponseWriter, call: Call)
    requires store.Valid() && Untouched(w)
    modifies store, store.all, w
    ensures store.Valid() && old(store.all) <= store.all && fresh(store.all[|old(store.all)|..])
    ensures Answered(c, w, RequestOf(call, old(w.header)), call.ops, Ran)
    ensures store.view == AfterRun(c, old(store.view), RunOf(c, RequestOf(call, old(w.header)), call.ops).save, call)
  {
    ghost var q := RequestOf(call, w.header);
    var cw := new Capture(w, c.cap);
    Perform(cw, call.ops);
    assert call.ops[..|call.ops|] == call.ops;
    if cw.overflowed {
      return;
    }
    SaveRun(c, store, cw, call, q);
    cw.FlushUnderCap();
  }

  method SaveRun(c: Config, store: MemoryStore, cw: Capture, call: Call, ghost q: Request)
    requires store.Valid() && cw.Valid() && !cw.overflowed && cw.cap == c.cap && cw.history == call.ops
    requires q.hash == call.hash && q.routeTTL == call.routeTTL
    modifies store, store.all
    ensures store.Valid() && old(store.all) <= store.all && fresh(store.all[|old(store.all)|..])
    ensures store.view == AfterRun(c, old(store.view), RunOf(c, q, call.ops).save, call)
  {
    assert call.ops[..|call.ops|] == call.ops;
    if ShouldCacheFor(c, call.routeTTL, if cw.statusCode == 0 then 200 else cw.statusCode) {
      var snap := cw.Snapshot(c.allow);
      var resp := snap.value.(payloadHash := if c.hashing then call.hash else ZERO_HASH);
      store.Save(call.key, resp, ResolveTTL(c, call.routeTTL), call.saveAt);
    }
  }

  // ---- the same as protocol steps ----

  lemma ExecOne(c: Config, s: State, a: Action, steps: seq<Action>)
    requires Sane(s) && Enabled(s, a)
    ensures Exec(c, s, [a] + steps) == Exec(c, Do(c, s, a), steps)
  {
    assert ([a] + steps)[1..] == steps;
  }

  /** The holder's steps after its handler has returned. */
  function HolderSteps(r: Rid, run: Run): seq<Action> {
    if run.streamed then [Unlock(r)]
    else if run.save.Some? then [Action.Save(r), Flush(r), Unlock(r)]
    else [Flush(r), Unlock(r)]
  }

  /** The holder's request is over, with the store and the client as they should be. */
  ghost predicate Over(t: Option<State>, r: Rid, store: Store, reply: Reply) {
    && t.Some? && t.value.store == store
    && r in t.value.reqs && At(t.value, r) == Done(Ran) && t.value.reqs[r].sent == Some(reply)
  }

  lemma SaveFlushUnlock(c: Config, s: State, r: Rid)
    requires Sane(s) && r in s.reqs && At(s, r).Saving? && CanSave(s.reqs[r])
    ensures var q := s.reqs[r];
            var saved := AfterSave(s.store, q.key, q.run.value.save.value, ResolveTTL(c, q.routeTTL), s.now);
            Over(Exec(c, s, [Action.Save(r), Flush(r), Unlock(r)]), r, AfterUnlock(saved, q.key), q.run.value.reply)
  {
    var s2 := DoSave(c, s, r);
    ExecOne(c, s, Action.Save(r), [Flush(r), Unlock(r)]);
    FlushUnlock(c, s2, r);
  }

  lemma FlushUnlock(c: Config, s: State, r: Rid)
    requires Sane(s) && r in s.reqs && At(s, r).Flushing? && s.reqs[r].run.Some?
    ensures var q := s.reqs[r];
            Over(Exec(c, s, [Flush(r), Unlock(r)]), r, AfterUnlock(s.store, q.key), q.run.value.reply)
  {
    ExecOne(c, s, Flush(r), [Unlock(r)]);
    ExecOne(c, DoFlush(c, s, r), Unlock(r), []);
  }

  lemma HolderStepsRun(c: Config, s: State, r: Rid, call: Call)
    requires Sane(s) && r in s.reqs && At(s, r).Running? && s.now == call.saveAt
    requires s.reqs[r].key == call.key && s.reqs[r].routeTTL == call.routeTTL
    ensures var run := RunOf(c, s.reqs[r], call.ops);
            Over(Exec(c, DoFinish(c, s, r, call.ops), HolderSteps(r, run)), r,
                 SavedAndUnlocked(c, s.store, run.save, call), run.reply)
  {
    var run := RunOf(c, s.reqs[r], call.ops);
    var s1 := DoFinish(c, s, r, call.ops);
    if run.streamed {
      ExecOne(c, s1, Unlock(r), []);
    } else if run.save.Some? {
      SaveFlushUnlock(c, s1, r);
    } else {
      FlushUnlock(c, s1, r);
    }
  }

  /** The request as the look at the store leaves it. */
  function Looked(c: Config, s: Store, q: Request, at: Time): Request
    requires WellFormed(s)
  {
    match Found(s, q.key, at)
    case None => q.(phase := Missed)
    case Some(resp) => Answer(c, q, resp)
  }

  lemma UpToGet(c: Config, s: State, r: Rid, call: Call, base: Header) returns (steps: seq<Action>, t: State)
    requires Sane(s) && r !in s.reqs && (call.routeTTL.Some? ==> call.routeTTL.value >= 0) && s.now <= call.getAt
    ensures Exec(c, s, steps) == Some(t) && Sane(t) && t.now == call.getAt
    ensures t.store == AfterGet(s.store, call.key, call.getAt)
    ensures r in t.reqs && t.reqs[r] == Looked(c, s.store, RequestOf(call, base), call.getAt)
  {
    var arrive := Arrive(r, call.key, call.hash, call.routeTTL, base);
    var s1 := Do(c, s, arrive);
    Onwards(c, s, [], s, arrive);
    var tick := Tick(call.getAt - s.now);
    var s2 := Do(c, s1, tick);
    Onwards(c, s, [] + [arrive], s1, tick);
    steps, t := [] + [arrive] + [tick] + [Get(r)], DoGet(c, s2, r);
    Onwards(c, s, [] + [arrive] + [tick], s2, Get(r));
  }

  lemma UpToLock(c: Config, s: State, r: Rid, call: Call) returns (steps: seq<Action>, t: State)
    requires Sane(s) && s.now == call.getAt <= call.lockAt
    requires r in s.reqs && At(s, r).Missed? && s.reqs[r].key == call.key
    ensures Exec(c, s, steps) == Some(t) && Sane(t) && t.now == call.lockAt
    ensures t.store == AfterLock(s.store, call.key, call.lockAt)
    ensures r in t.reqs && t.reqs[r] == s.reqs[r].(phase :=
              if LockWins(s.store, call.key, call.lockAt) then Running(|s.store.heap|)
              else if c.waiting then Contended else Done(Conflict))
  {
    var tick := Tick(call.lockAt - s.now);
    var s1 := Do(c, s, tick);
    Onwards(c, s, [], s, tick);
    Onwards(c, s, [] + [tick], s1, Lock(r));
    steps, t := [] + [tick] + [Lock(r)], DoLock(c, s1, r);
  }

  lemma AfterLocked(c: Config, s: State, r: Rid, call: Call, q: Request) returns (steps: seq<Action>)
    requires Sane(s) && s.now == call.lockAt <= call.saveAt
    requires r in s.reqs && At(s, r).Running? && s.reqs[r] == q.(phase := At(s, r))
    requires q.key == call.key && q.routeTTL == call.routeTTL
    ensures var run := RunOf(c, q, call.ops);
            Over(Exec(c, s, steps), r, SavedAndUnlocked(c, s.store, run.save, call), run.reply)
  {
    var tick := Tick(call.saveAt - s.now);
    var s1 := Do(c, s, tick);
    Onwards(c, s, [], s, tick);
    Onwards(c, s, [] + [tick], s1, Finish(r, call.ops));
    SameRun(c, q, s.reqs[r], call.ops);
    HolderStepsRun(c, s1, r, call);
    var rest := HolderSteps(r, RunOf(c, q, call.ops));
    steps := [] + [tick] + [Finish(r, call.ops)] + rest;
    ExecThen(c, s, [] + [tick] + [Finish(r, call.ops)], rest);
  }

  /** Whether the request comes to wait for another. */
  predicate Waits(c: Config, s: Store, call: Call)
    requires WellFormed(s)
  {
    && c.waiting && Found(s, call.key, call.getAt).None?
    && !LockWins(AfterGet(s, call.key, call.getAt), call.key, call.lockAt)
  }

  /** The request is over, or about to wait. */
  ghost predicate IsHandled(c: Config, t: Option<State>, r: Rid, store: Store, outcome: Outcome, reply: Reply,
                            waits: bool)
  {
    && t.Some? && t.value.store == store && r in t.value.reqs
    && if waits then At(t.value, r).Contended?
       else At(t.value, r) == Done(outcome) && (outcome.Ran? ==> t.value.reqs[r].sent == Some(reply))
  }

  /** Handling a request is a run of the protocol, with ticks of the clock between its store calls:
      same store, same outcome, same reply, up to where it comes to wait for another request. */
  lemma HandledIsProtocol(c: Config, s: State, r: Rid, call: Call, base: Header)
    requires Sane(s) && r !in s.reqs && (call.routeTTL.Some? ==> call.routeTTL.value >= 0)
    requires s.now <= call.getAt <= call.lockAt <= call.saveAt
    ensures var q := RequestOf(call, base); var (store, outcome) := Handled(c, s.store, q, call);
            exists steps ::
              IsHandled(c, Exec(c, s, steps), r, store, outcome, RunOf(c, q, call.ops).reply, Waits(c, s.store, call))
  {
    var q := RequestOf(call, base);
    var (store, outcome) := Handled(c, s.store, q, call);
    var steps, t := UpToGet(c, s, r, call, base);
    if Found(s.store, call.key, call.getAt).None? {
      var locked, u := UpToLock(c, t, r, call);
      ExecThen(c, s, steps, locked);
      steps := steps + locked;
      if LockWins(t.store, call.key, call.lockAt) {
        var rest := AfterLocked(c, u, r, call, q);
        ExecThen(c, s, steps, rest);
        steps := steps + rest;
      }
    }
    assert IsHandled(c, Exec(c, s, steps), r, store, outcome, RunOf(c, q, call.ops).reply, Waits(c, s.store, call));
  }

  /** And whatever a look of the waiter at its entry then reports, other than to sleep on, ends the
      request as HandleConflict does when waiting yields that. */
  lemma WaitIsProtocol(c: Config, q: Request, e: nat, cancelled: bool, found: WaitResult, call: Call)
    requires c.waiting && !found.Sleep?
    ensures var waited := if found.Got? then found.resp else None;
            AfterCheck(c, q, e, cancelled, found).phase == Done(ConflictOutcome(c, q, call.(waited := waited)))
  {
  }
}
