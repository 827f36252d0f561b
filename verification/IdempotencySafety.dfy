/** What the idempotency protocol guarantees over whole runs. */
module IdempotencySafety {
  import opened Prelude
  import opened CaptureWriter
  import opened IdempotencyStore
  import opened IdempotencyProtocol

  /** A run, as its successive states and the steps between them. */
  ghost predicate IsRun(c: Config, ss: seq<State>, steps: seq<Action>) {
    && |ss| == |steps| + 1
    && ss[0] == INIT
    && forall i :: 0 <= i < |steps| ==>
         Sane(ss[i]) && Enabled(ss[i], steps[i]) && ss[i + 1] == Do(c, ss[i], steps[i])
  }

  ghost predicate EvictsNoHeldEntry(c: Config, ss: seq<State>, steps: seq<Action>)
    requires IsRun(c, ss, steps)
  {
    forall i :: 0 <= i < |steps| ==> !EvictsHeld(ss[i], steps[i])
  }

  // ---- the invariant characterises the runs that evict no held entry ----

  lemma GoodRunnerStep(c: Config, s: State, a: Action)
    requires c.ttl > 0 && Inv(c, s) && Enabled(s, a)
    requires a.Finish? || a.Panic? || a.Save? || a.Flush? || a.Unlock? || a.Report?
    ensures Inv(c, Do(c, s, a))
  {
    match a
    case Finish(r, ops) =>
      assert ReqOk(c, s, r);
      KeepsWithRun(c, s, r, ops, RunOf(c, s.reqs[r], ops));
    case Panic(r) => KeepsPanic(c, s, r);
    case Save(r) => KeepsSave(c, s, r);
    case Flush(r) => KeepsFlush(c, s, r);
    case Unlock(r) => KeepsUnlock(c, s, r);
    case Report(r, text) => KeepsReport(c, s, r, text);
  }

  lemma GoodWaiterStep(c: Config, s: State, a: Action)
    requires Inv(c, s) && Enabled(s, a) && (a.BeginWait? || a.Wake? || a.Cancel? || a.Stray?)
    ensures Inv(c, Do(c, s, a))
  {
    match a
    case BeginWait(r) => KeepsBeginWait(c, s, r);
    case Wake(r) => KeepsWake(c, s, r);
    case Cancel(r) => KeepsCancel(c, s, r);
    case Stray(e) => KeepsStray(c, s, e);
  }

  lemma GoodStep(c: Config, s: State, a: Action)
    requires c.ttl > 0 && Inv(c, s) && Enabled(s, a) && !EvictsHeld(s, a)
    ensures Inv(c, Do(c, s, a))
  {
    match a
    case Arrive(r, key, hash, routeTTL, base) =>
      KeepsArrive(c, s, r, Request(key, hash, routeTTL, base, Arrived, None, None, None, []));
    case Get(r) => KeepsGet(c, s, r);
    case Lock(r) => KeepsLock(c, s, r);
    case Finish(_, _) | Panic(_) | Save(_) | Flush(_) | Unlock(_) | Report(_, _) => GoodRunnerStep(c, s, a);
    case BeginWait(_) | Wake(_) | Cancel(_) | Stray(_) => GoodWaiterStep(c, s, a);
    case Sweep => KeepsSweep(c, s);
    case Tick(d) => KeepsTick(c, s, d);
  }

  /** Evicting a held entry breaks the invariant: its holder is left without it. */
  lemma BadStep(c: Config, s: State, a: Action)
    requires Inv(c, s) && Enabled(s, a) && EvictsHeld(s, a)
    ensures !Inv(c, Do(c, s, a))
  {
    var e := s.store.entries[s.reqs[a.r].key];
    var s' := Do(c, s, a);
    assert EntryOk(c, s, e) && KeyOk(s, s.reqs[a.r].key);
    assert s'.store.heap[e] == s.store.heap[e];
    if Sane(s') {
      assert !EntryOk(c, s', e);
    }
  }

  /** Over every run: the invariant holds throughout exactly when no held entry is ever evicted. */
  lemma {:induction false} InvariantIffNoHeldEviction(c: Config, ss: seq<State>, steps: seq<Action>)
    requires c.ttl > 0 && IsRun(c, ss, steps)
    ensures (forall i :: 0 <= i < |ss| ==> Inv(c, ss[i])) <==> EvictsNoHeldEntry(c, ss, steps)
  {
    if EvictsNoHeldEntry(c, ss, steps) {
      for n := 0 to |steps|
        invariant forall i :: 0 <= i <= n ==> Inv(c, ss[i])
      {
        GoodStep(c, ss[n], steps[n]);
      }
    } else {
      var i :| 0 <= i < |steps| && EvictsHeld(ss[i], steps[i]);
      if Inv(c, ss[i]) {
        BadStep(c, ss[i], steps[i]);
        assert !Inv(c, ss[i + 1]);
      }
    }
  }

  /** Every saved entry is released before it expires. */
  ghost predicate SavedInTime(s: State)
    requires Sane(s)
  {
    forall e: nat :: e < |s.store.heap| && s.store.heap[e].holder ==> !Expired(s.store.heap[e], s.now)
  }

  /** A TTL that outlasts the time between Save and Unlock rules the eviction out. */
  lemma InTimeMeansNoEviction(c: Config, ss: seq<State>, steps: seq<Action>)
    requires IsRun(c, ss, steps)
    requires forall i :: 0 <= i < |steps| ==> SavedInTime(ss[i])
    ensures EvictsNoHeldEntry(c, ss, steps)
  {
    forall i | 0 <= i < |steps| ensures !EvictsHeld(ss[i], steps[i]) {
      assert SavedInTime(ss[i]);
    }
  }

  // ---- at most one handler, and none while a saved response is alive ----

  lemma OneHolderPerKey(c: Config, s: State, r1: Rid, r2: Rid)
    requires Inv(c, s) && r1 in s.reqs && r2 in s.reqs
    requires InCriticalSection(At(s, r1)) && InCriticalSection(At(s, r2)) && s.reqs[r1].key == s.reqs[r2].key
    ensures r1 == r2
  {
    assert ReqOk(c, s, r1) && ReqOk(c, s, r2);
    assert EntryOk(c, s, At(s, r1).e) && EntryOk(c, s, At(s, r2).e);
  }

  lemma AtMostOneHandler(c: Config, ss: seq<State>, steps: seq<Action>, i: nat, r1: Rid, r2: Rid)
    requires c.ttl > 0 && IsRun(c, ss, steps) && EvictsNoHeldEntry(c, ss, steps)
    requires i < |ss| && r1 in ss[i].reqs && r2 in ss[i].reqs && ss[i].reqs[r1].key == ss[i].reqs[r2].key
    requires At(ss[i], r1).Running? && At(ss[i], r2).Running?
    ensures r1 == r2
  {
    InvariantIffNoHeldEviction(c, ss, steps);
    OneHolderPerKey(c, ss[i], r1, r2);
  }

  /** The log names every handler start: a request begins to run exactly in the steps that log it. */
  lemma StartsAreLogged(c: Config, s: State, a: Action, r: Rid)
    requires Sane(s) && Enabled(s, a) && r in s.reqs && !At(s, r).Running?
    ensures r in Do(c, s, a).reqs
    ensures At(Do(c, s, a), r).Running? <==>
            s.log < Do(c, s, a).log && Do(c, s, a).log[|s.log|] == Started(r, s.reqs[r].key, s.now)
  {
  }

  /** Once a response is saved, no handler starts for its key before the response has expired. */
  lemma NoStartBeforeExpiry(c: Config, ss: seq<State>, steps: seq<Action>, n: nat, i: nat, j: nat)
    requires c.ttl > 0 && IsRun(c, ss, steps) && EvictsNoHeldEntry(c, ss, steps)
    requires n < |ss| && i < j < |ss[n].log| && ss[n].log[i].SavedUntil? && ss[n].log[j].Started?
    requires ss[n].log[i].key == ss[n].log[j].key
    ensures ss[n].log[i].expiry < ss[n].log[j].time
  {
    InvariantIffNoHeldEviction(c, ss, steps);
    assert Inv(c, ss[n]);
  }

  lemma StepExtendsLog(c: Config, s: State, a: Action)
    requires Sane(s) && Enabled(s, a)
    ensures s.log <= Do(c, s, a).log
  {
  }

  lemma {:induction false} LogGrows(c: Config, ss: seq<State>, steps: seq<Action>, i: nat, j: nat)
    requires IsRun(c, ss, steps) && i <= j < |ss|
    ensures ss[i].log <= ss[j].log
    decreases j - i
  {
    if i < j {
      LogGrows(c, ss, steps, i, j - 1);
      StepExtendsLog(c, ss[j - 1], steps[j - 1]);
    }
  }

  lemma SaveIsLogged(c: Config, s: State, r: Rid)
    requires Inv(c, s) && c.ttl > 0 && Enabled(s, Save(r))
    ensures DoSave(c, s, r).log == s.log + [SavedUntil(s.reqs[r].key, s.now + ResolveTTL(c, s.reqs[r].routeTTL))]
  {
    assert ReqOk(c, s, r);
  }

  /** In terms of the steps: when one saves a response and a later one starts a handler of the same
      key, the response has expired by then. */
  lemma NoHandlerBeforeExpiry(c: Config, ss: seq<State>, steps: seq<Action>, i: nat, j: nat, r: Rid)
    requires c.ttl > 0 && IsRun(c, ss, steps) && EvictsNoHeldEntry(c, ss, steps)
    requires i < j < |steps| && steps[i].Save? && r in ss[j].reqs && r in ss[j + 1].reqs
    requires !At(ss[j], r).Running? && At(ss[j + 1], r).Running?
    requires ss[j].reqs[r].key == ss[i].reqs[steps[i].r].key
    ensures ss[i].now + ResolveTTL(c, ss[i].reqs[steps[i].r].routeTTL) < ss[j].now
  {
    InvariantIffNoHeldEviction(c, ss, steps);
    SaveIsLogged(c, ss[i], steps[i].r);
    LogGrows(c, ss, steps, i + 1, j);
    StartsAreLogged(c, ss[j], steps[j], r);
    var (saved, started) := (|ss[i].log|, |ss[j].log|);
    assert ss[j + 1].log[saved] == ss[i + 1].log[saved];
    NoStartBeforeExpiry(c, ss, steps, j + 1, saved, started);
  }

  // ---- no lost wake-up ----

  /** A sleeper always has a holder left that will wake it. */
  lemma SleeperHasHolder(c: Config, s: State, r: Rid)
    requires Inv(c, s) && r in s.reqs && At(s, r).Parked?
    ensures var e := At(s, r).e;
            && e < |s.store.heap| && s.store.heap[e].holder && !s.store.heap[e].released
            && Lookup(s.store, s.reqs[r].key) == Some(s.store.heap[e])
            && var h := s.owner[e];
               h in s.reqs && InCriticalSection(At(s, h)) && At(s, h).e == e && s.reqs[h].key == s.reqs[r].key
  {
    assert ReqOk(c, s, r);
    assert EntryOk(c, s, At(s, r).e);
  }

  /** The holder's Unlock wakes every sleeper on its entry. */
  lemma UnlockWakes(c: Config, s: State, h: Rid, r: Rid)
    requires Inv(c, s) && h in s.reqs && At(s, h).Unlocking?
    requires r in s.reqs && At(s, r).Parked? && At(s, r).e == At(s, h).e
    ensures At(DoUnlock(s, h), r) == Woken(At(s, r).e, At(s, r).cancelled)
  {
    assert ReqOk(c, s, h);
    assert EntryOk(c, s, At(s, h).e);
  }

  /** A waiter that wakes after its holder finished gets exactly what the holder saved: the
      response, or nothing if nothing was saved; a cancellation no longer matters by then. */
  lemma WakeGivesHoldersResponse(c: Config, s: State, r: Rid)
    requires Inv(c, s) && r in s.reqs && At(s, r).Woken?
    requires EntryFor(s, At(s, r).e, s.reqs[r].key) && At(s, s.owner[At(s, r).e]) == Done(Ran)
    ensures var saved := SaveOf(s.reqs[s.owner[At(s, r).e]]);
            At(DoWake(c, s, r), r) ==
            if saved.None? then Done(Conflict)
            else if SamePayload(c, s.reqs[r], saved.value) then Done(Replayed(saved.value))
            else Done(Mismatch)
  {
    assert EntryOk(c, s, At(s, r).e);
  }

  /** No wake-up is lost, in any run: a sleeper's entry is always held by a request that is still
      to unlock it. */
  lemma EverySleeperHasHolder(c: Config, ss: seq<State>, steps: seq<Action>, i: nat, r: Rid)
    requires c.ttl > 0 && IsRun(c, ss, steps) && EvictsNoHeldEntry(c, ss, steps)
    requires i < |ss| && r in ss[i].reqs && At(ss[i], r).Parked?
    ensures var (s, e) := (ss[i], At(ss[i], r).e);
            && e < |s.owner| == |s.store.heap| && s.store.heap[e].holder && !s.store.heap[e].released
            && var h := s.owner[e]; h in s.reqs && InCriticalSection(At(s, h)) && At(s, h).e == e
  {
    InvariantIffNoHeldEviction(c, ss, steps);
    SleeperHasHolder(c, ss[i], r);
  }

  /** That request's Unlock makes the sleeper runnable. */
  lemma EveryUnlockWakes(c: Config, ss: seq<State>, steps: seq<Action>, i: nat, r: Rid)
    requires c.ttl > 0 && IsRun(c, ss, steps) && EvictsNoHeldEntry(c, ss, steps)
    requires i < |steps| && steps[i].Unlock? && r in ss[i].reqs && At(ss[i], r).Parked?
    requires At(ss[i], steps[i].r).e == At(ss[i], r).e
    ensures r in ss[i + 1].reqs && At(ss[i + 1], r) == Woken(At(ss[i], r).e, At(ss[i], r).cancelled)
  {
    InvariantIffNoHeldEviction(c, ss, steps);
    UnlockWakes(c, ss[i], steps[i].r, r);
  }

  /** And when it runs it ends with exactly what the holder saved, or with a conflict when the
      holder saved nothing. */
  lemma EveryWakeGivesHoldersResponse(c: Config, ss: seq<State>, steps: seq<Action>, i: nat, r: Rid)
    requires c.ttl > 0 && IsRun(c, ss, steps) && EvictsNoHeldEntry(c, ss, steps)
    requires i < |steps| && steps[i] == Wake(r) && At(ss[i], r).e < |ss[i].owner|
    requires ss[i].owner[At(ss[i], r).e] in ss[i].reqs && At(ss[i], ss[i].owner[At(ss[i], r).e]) == Done(Ran)
    ensures var saved := SaveOf(ss[i].reqs[ss[i].owner[At(ss[i], r).e]]);
            r in ss[i + 1].reqs && At(ss[i + 1], r) ==
            if saved.None? then Done(Conflict)
            else if SamePayload(c, ss[i].reqs[r], saved.value) then Done(Replayed(saved.value))
            else Done(Mismatch)
  {
    InvariantIffNoHeldEviction(c, ss, steps);
    assert ReqOk(c, ss[i], r);
    WakeGivesHoldersResponse(c, ss[i], r);
  }

  // ---- replays are faithful ----

  /** What is recorded of a handler run is what its writer calls amount to. */
  ghost predicate RunsRecorded(c: Config, s: State) {
    forall r :: r in s.reqs && s.reqs[r].run.Some? ==>
      s.reqs[r].ops.Some? && s.reqs[r].run.value == RunOf(c, s.reqs[r], s.reqs[r].ops.value)
  }

  ghost predicate SameCircumstances(q: Request, q': Request) {
    q'.key == q.key && q'.hash == q.hash && q'.routeTTL == q.routeTTL && q'.base == q.base
  }

  /** A step that records no run: circumstances, calls and run stay as they are. */
  ghost predicate KeepsRecord(q: Request, q': Request) {
    SameCircumstances(q, q') && q'.ops == q.ops && q'.run == q.run
  }

  lemma StoreStepRecord(c: Config, s: State, a: Action, r: Rid)
    requires Sane(s) && Enabled(s, a) && r in s.reqs && (a.Get? || a.Lock? || a.Save? || a.Unlock?)
    ensures r in Do(c, s, a).reqs && KeepsRecord(s.reqs[r], Do(c, s, a).reqs[r])
  {
  }

  lemma WaiterStepRecord(c: Config, s: State, a: Action, r: Rid)
    requires Sane(s) && Enabled(s, a) && r in s.reqs && (a.BeginWait? || a.Wake? || a.Cancel? || a.Stray?)
    ensures r in Do(c, s, a).reqs && KeepsRecord(s.reqs[r], Do(c, s, a).reqs[r])
  {
  }

  lemma FinishRecord(c: Config, s: State, ops: seq<Op>, r: Rid, h: Rid)
    requires h in s.reqs && At(s, h).Running? && r in s.reqs
    ensures var q' := DoFinish(c, s, h, ops).reqs[r];
            if h == r then
              SameCircumstances(s.reqs[r], q') && q'.ops == Some(ops) && q'.run == Some(RunOf(c, s.reqs[r], ops))
            else KeepsRecord(s.reqs[r], q')
  {
  }

  /** A request's circumstances never change, and only Finish records its run. */
  lemma StepRecord(c: Config, s: State, a: Action, r: Rid)
    requires Sane(s) && Enabled(s, a) && r in Do(c, s, a).reqs
    ensures var q' := Do(c, s, a).reqs[r];
            if r !in s.reqs then q'.run.None?
            else if a.Finish? && a.r == r then
              SameCircumstances(s.reqs[r], q') && q'.ops == Some(a.ops) && q'.run == Some(RunOf(c, s.reqs[r], a.ops))
            else KeepsRecord(s.reqs[r], q')
  {
    if r in s.reqs {
      match a
      case Get(_) | Lock(_) | Save(_) | Unlock(_) => StoreStepRecord(c, s, a, r);
      case BeginWait(_) | Wake(_) | Cancel(_) | Stray(_) => WaiterStepRecord(c, s, a, r);
      case Finish(h, ops) => FinishRecord(c, s, ops, r, h);
      case _ =>
    }
  }

  lemma StepRecords(c: Config, s: State, a: Action)
    requires Sane(s) && Enabled(s, a) && RunsRecorded(c, s)
    ensures RunsRecorded(c, Do(c, s, a))
  {
    var s' := Do(c, s, a);
    forall r | r in s'.reqs && s'.reqs[r].run.Some?
      ensures s'.reqs[r].ops.Some? && s'.reqs[r].run.value == RunOf(c, s'.reqs[r], s'.reqs[r].ops.value)
    {
      StepRecord(c, s, a, r);
      SameRun(c, s.reqs[r], s'.reqs[r], s'.reqs[r].ops.value);
    }
  }

  lemma SameRun(c: Config, q: Request, q': Request, ops: seq<Op>)
    requires SameCircumstances(q, q')
    ensures RunOf(c, q, ops) == RunOf(c, q', ops)
  {
  }

  lemma {:induction false} RunsAreRecorded(c: Config, ss: seq<State>, steps: seq<Action>)
    requires IsRun(c, ss, steps)
    ensures forall i :: 0 <= i < |ss| ==> RunsRecorded(c, ss[i])
  {
    for n := 0 to |steps|
      invariant forall i :: 0 <= i <= n ==> RunsRecorded(c, ss[i])
    {
      StepRecords(c, ss[n], steps[n]);
    }
  }

  /** The replay of a stored response to request `q` against what the client of `origin` was sent. */
  ghost predicate Faithful(c: Config, q: Request, origin: Request, ops: seq<Op>, resp: Response) {
    var replay := Replay(c, q, resp);
    var original := ClientSees(ops, c.cap, origin.base);
       // same status and body, and the same values of every replayable header
    && replay.status == original.status
    && replay.body == original.body
    && (forall name :: Replayable(c.allow, name) && name != "Idempotency-Replayed" ==>
          && Values(replay.header, name) == Values(q.base, name) + Values(Headers(ops), name)
          && Values(original.header, name) == Values(origin.base, name) + Values(Headers(ops), name))
    && (forall name :: !Replayable(c.allow, name) && name != "Idempotency-Replayed" ==>
          Values(replay.header, name) == Values(q.base, name))
       // and with hashing on, the same payload (an all-zero digest counts as unset)
    && (c.hashing && origin.hash != ZERO_HASH ==> origin.hash == q.hash)
  }

  /** Request `r` was handed the response of `o`, a finished request with the same key, whose own
      client was sent the same, and after it what the error handler wrote. */
  ghost predicate ReplaysRunOf(c: Config, s: State, r: Rid, o: Rid)
    requires r in s.reqs && At(s, r).Done? && At(s, r).outcome.Replayed?
  {
    && o in s.reqs && s.reqs[o].ops.Some? && s.reqs[o].key == s.reqs[r].key
    && var origin := s.reqs[o];
       var ops := origin.ops.value;
    && !Oversized(ops, c.cap)
    && (origin.phase == Done(Ran) ==> origin.sent == Some(Extended(ClientSees(ops, c.cap, origin.base), origin.errorBody)))
    && Faithful(c, s.reqs[r], origin, ops, At(s, r).outcome.resp)
  }

  /** The client of the saver was sent what is replayed, status and body, if and only if no error
      report was added for it: what an error handler writes outside the middleware is not saved. */
  lemma ReplayIsWhatWasSentIff(c: Config, s: State, r: Rid, o: Rid)
    requires r in s.reqs && At(s, r).Done? && At(s, r).outcome.Replayed?
    requires ReplaysRunOf(c, s, r, o) && At(s, o) == Done(Ran)
    ensures s.reqs[o].sent.Some?
    ensures var (replay, sent) := (Replay(c, s.reqs[r], At(s, r).outcome.resp), s.reqs[o].sent.value);
            replay.status == sent.status && (replay.body == sent.body <==> s.reqs[o].errorBody == [])
  {
    var body := ClientSees(s.reqs[o].ops.value, c.cap, s.reqs[o].base).body;
    assert |body + s.reqs[o].errorBody| == |body| + |s.reqs[o].errorBody|;
    assert s.reqs[o].errorBody == [] ==> body + s.reqs[o].errorBody == body;
  }

  /** And one report is enough: after it the two differ. */
  lemma ReportIsNotReplayed(c: Config, s: State, r: Rid, o: Rid, text: Bytes)
    requires Inv(c, s) && r in s.reqs && At(s, r).Done? && At(s, r).outcome.Replayed?
    requires ReplaysRunOf(c, s, r, o) && At(s, o) == Done(Ran) && text != []
    ensures Enabled(s, Report(o, text))
    ensures var t := Do(c, s, Report(o, text));
            && t.reqs[r] == s.reqs[r] && t.reqs[o].sent.Some?
            && Replay(c, t.reqs[r], At(t, r).outcome.resp).body != t.reqs[o].sent.value.body
  {
    var body := ClientSees(s.reqs[o].ops.value, c.cap, s.reqs[o].base).body;
    assert |body + s.reqs[o].errorBody + text| > |body|;
  }

  /** Every replayed response is the one that the saver's handler made for its own client. */
  lemma ReplaysAreFaithful(c: Config, ss: seq<State>, steps: seq<Action>, i: nat, r: Rid)
    requires c.ttl > 0 && IsRun(c, ss, steps) && EvictsNoHeldEntry(c, ss, steps)
    requires i < |ss| && r in ss[i].reqs && At(ss[i], r).Done? && At(ss[i], r).outcome.Replayed?
    ensures exists o :: ReplaysRunOf(c, ss[i], r, o)
  {
    InvariantIffNoHeldEviction(c, ss, steps);
    RunsAreRecorded(c, ss, steps);
    assert Inv(c, ss[i]) && RunsRecorded(c, ss[i]);
    var o := SaverOf(c, ss[i], r);
    ReplayOf(c, ss[i], r, o);
  }

  /** The request whose run saved the response that `r` was handed. */
  lemma SaverOf(c: Config, s: State, r: Rid) returns (o: Rid)
    requires Inv(c, s) && r in s.reqs && At(s, r).Done? && At(s, r).outcome.Replayed?
    ensures SamePayload(c, s.reqs[r], At(s, r).outcome.resp)
    ensures o in s.reqs && s.reqs[o].key == s.reqs[r].key
    ensures SaveOf(s.reqs[o]) == Some(At(s, r).outcome.resp)
    ensures At(s, o) == Done(Ran) ==> s.reqs[o].sent == Some(Extended(s.reqs[o].run.value.reply, s.reqs[o].errorBody))
  {
    assert ReqOk(c, s, r);
    var e: nat :| EntryFor(s, e, s.reqs[r].key) && s.store.heap[e].resp == Some(At(s, r).outcome.resp);
    o := s.owner[e];
    assert EntryOk(c, s, e) && ReqOk(c, s, o);
  }

  /** What a run that saves something has sent and saved. */
  lemma SavedRun(c: Config, q: Request, ops: seq<Op>)
    requires RunOf(c, q, ops).save.Some?
    ensures !Oversized(ops, c.cap)
    ensures ClientSees(ops, c.cap, q.base) == Reply(StatusOf(ops), AddAll(q.base, Headers(ops)), Written(ops))
    ensures RunOf(c, q, ops).save.value
         == SnapshotOf(ops, c.allow).(payloadHash := if c.hashing then q.hash else ZERO_HASH)
  {
    assert Kept(ops, c.cap) == |ops| && ops[..|ops|] == ops;
  }

  lemma ReplayOf(c: Config, s: State, r: Rid, o: Rid)
    requires r in s.reqs && At(s, r).Done? && At(s, r).outcome.Replayed?
    requires SamePayload(c, s.reqs[r], At(s, r).outcome.resp)
    requires o in s.reqs && s.reqs[o].key == s.reqs[r].key && RunsRecorded(c, s)
    requires SaveOf(s.reqs[o]) == Some(At(s, r).outcome.resp)
    requires At(s, o) == Done(Ran) ==> s.reqs[o].sent == Some(Extended(s.reqs[o].run.value.reply, s.reqs[o].errorBody))
    ensures ReplaysRunOf(c, s, r, o)
  {
    SavedRun(c, s.reqs[o], s.reqs[o].ops.value);
    ReplayIsFaithful(c, s.reqs[r], s.reqs[o], s.reqs[o].ops.value, At(s, r).outcome.resp);
  }

  lemma AddedValues(base: Header, more: Header, name: string)
    ensures Values(AddAll(base, more), name) == Values(base, name) + Values(more, name)
  {
  }

  /** A stored header is filtered again when it is replayed. */
  lemma ReplayedValues(allow: Option<set<string>>, base: Header, h: Header, name: string)
    requires name != "Idempotency-Replayed"
    ensures Values(AddAll(base, Filter(allow, Filter(allow, h)))["Idempotency-Replayed" := ["true"]], name)
         == Values(base, name) + if Replayable(allow, name) then Values(h, name) else []
  {
    FilterTwice(allow, h);
    AddedValues(base, Filter(allow, h), name);
  }

  lemma ReplayIsFaithful(c: Config, q: Request, origin: Request, ops: seq<Op>, resp: Response)
    requires RunOf(c, origin, ops).save == Some(resp) && SamePayload(c, q, resp)
    ensures Faithful(c, q, origin, ops, resp)
  {
    SavedRun(c, origin, ops);
    forall name | name != "Idempotency-Replayed"
      ensures Values(Replay(c, q, resp).header, name)
           == Values(q.base, name) + if Replayable(c.allow, name) then Values(Headers(ops), name) else []
      ensures Values(ClientSees(ops, c.cap, origin.base).header, name)
           == Values(origin.base, name) + Values(Headers(ops), name)
    {
      ReplayedValues(c.allow, q.base, Headers(ops), name);
      AddedValues(origin.base, Headers(ops), name);
    }
  }

  lemma FilterTwice(allow: Option<set<string>>, h: Header)
    ensures Filter(allow, Filter(allow, h)) == Filter(allow, h)
  {
  }

  // ---- without the assumption ----

  /** The state that a list of steps leads to, if each of them is possible in turn. */
  ghost function Exec(c: Config, s: State, steps: seq<Action>): Option<State>
    decreases |steps|
  {
    if steps == [] then Some(s)
    else if Sane(s) && Enabled(s, steps[0]) then Exec(c, Do(c, s, steps[0]), steps[1..])
    else None
  }

  lemma {:induction false} ExecThen(c: Config, s: State, first: seq<Action>, rest: seq<Action>)
    requires Exec(c, s, first).Some?
    ensures Exec(c, s, first + rest) == Exec(c, Exec(c, s, first).value, rest)
    decreases |first|
  {
    if first == [] {
      assert first + rest == rest;
    } else {
      ExecThen(c, Do(c, s, first[0]), first[1..], rest);
      assert (first + rest)[1..] == first[1..] + rest;
    }
  }

  lemma Onwards(c: Config, s: State, steps: seq<Action>, t: State, a: Action)
    requires Exec(c, s, steps) == Some(t) && Sane(t) && Enabled(t, a)
    ensures Exec(c, s, steps + [a]) == Some(Do(c, t, a))
  {
    ExecThen(c, s, steps, [a]);
    assert [a][1..] == [];
    assert Exec(c, t, [a]) == Exec(c, Do(c, t, a), []);
  }

  function Attempt(r: Rid, key: Key): seq<Action> {
    [Arrive(r, key, [], None, map[]), Get(r), Lock(r)]
  }

  /** A new request starts its handler at once when nothing unexpired is stored under its key. */
  lemma AttemptStarts(c: Config, s: State, r: Rid, key: Key)
    requires Sane(s) && r !in s.reqs && LockWins(s.store, key, s.now)
    ensures var t := Exec(c, s, Attempt(r, key));
            && t.Some? && Sane(t.value)
            && r in t.value.reqs && t.value.reqs[r].key == key && At(t.value, r).Running?
            && (forall r' :: r' in s.reqs ==> r' in t.value.reqs && t.value.reqs[r'] == s.reqs[r'])
            && (forall r' :: r' in t.value.reqs ==> r' in s.reqs || r' == r)
            && Lookup(t.value.store, key) == Some(Entry(None, None, true, false))
  {
    var s1 := Do(c, s, Arrive(r, key, [], None, map[]));
    var s2 := Do(c, s1, Get(r));
    var s3 := Do(c, s2, Lock(r));
    assert Attempt(r, key)[1..] == [Get(r), Lock(r)] && [Get(r), Lock(r)][1..] == [Lock(r)];
    assert Exec(c, s2, [Lock(r)]) == Exec(c, s3, []);
  }

  /** Unlock looks only at the key, so it drops an entry that somebody else has just created. */
  lemma UnlockDropsStranger(c: Config, s: State, h: Rid)
    requires Sane(s) && h in s.reqs && At(s, h).Unlocking?
    requires Lookup(s.store, s.reqs[h].key) == Some(Entry(None, None, true, false))
    ensures var t := Exec(c, s, [Unlock(h)]);
            && t == Some(Do(c, s, Unlock(h))) && Sane(t.value)
            && s.reqs[h].key !in t.value.store.entries
            && t.value.reqs.Keys == s.reqs.Keys
            && forall r :: r in s.reqs && At(s, r).Running? ==> t.value.reqs[r] == s.reqs[r]
  {
    var t := Do(c, s, Unlock(h));
    assert Exec(c, s, [Unlock(h)]) == Exec(c, t, []);
  }

  /** Two handlers run for the same key. */
  ghost predicate BothRunning(t: Option<State>, r1: Rid, r2: Rid) {
    && t.Some? && r1 in t.value.reqs && r2 in t.value.reqs
    && t.value.reqs[r1].key == t.value.reqs[r2].key
    && At(t.value, r1).Running? && At(t.value, r2).Running?
  }

  /** Once the saved response has expired: the first new request evicts the held entry, the late
      Unlock drops the entry that this one created, and so the second one starts as well. */
  lemma StealTwice(c: Config, s: State, h: Rid, r1: Rid, r2: Rid)
    requires Sane(s) && h in s.reqs && At(s, h).Unlocking? && LockWins(s.store, s.reqs[h].key, s.now)
    requires r1 !in s.reqs && r2 !in s.reqs && r1 != r2
    ensures var key := s.reqs[h].key;
            BothRunning(Exec(c, s, Attempt(r1, key) + [Unlock(h)] + Attempt(r2, key)), r1, r2)
  {
    var key := s.reqs[h].key;
    AttemptStarts(c, s, r1, key);
    var s2 := Exec(c, s, Attempt(r1, key)).value;
    UnlockDropsStranger(c, s2, h);
    var s3 := Do(c, s2, Unlock(h));
    AttemptStarts(c, s3, r2, key);
    ExecThen(c, s, Attempt(r1, key), [Unlock(h)]);
    ExecThen(c, s, Attempt(r1, key) + [Unlock(h)], Attempt(r2, key));
  }

  /** The assumption cannot be dropped: from every good state in which a request has saved its
      response but not yet unlocked, a slow clock and two more requests lead to two handlers
      running for one key. */
  lemma LateUnlockAllowsTwoHandlers(c: Config, s: State, h: Rid, r1: Rid, r2: Rid)
    requires Inv(c, s) && h in s.reqs && At(s, h).Unlocking? && s.store.heap[At(s, h).e].resp.Some?
    requires r1 !in s.reqs && r2 !in s.reqs && r1 != r2
    ensures exists steps: seq<Action> :: BothRunning(Exec(c, s, steps), r1, r2)
  {
    var key := s.reqs[h].key;
    assert ReqOk(c, s, h) && EntryOk(c, s, At(s, h).e);
    var expiry := s.store.heap[At(s, h).e].expiry.value;
    var wait := Tick(if s.now <= expiry then expiry - s.now + 1 else 0);
    var s1 := Do(c, s, wait);
    StealTwice(c, s1, h, r1, r2);
    var rest := Attempt(r1, key) + [Unlock(h)] + Attempt(r2, key);
    assert ([wait] + rest)[1..] == rest;
    assert Exec(c, s, [wait] + rest) == Exec(c, s1, rest);
  }
}
