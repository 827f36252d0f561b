/** The idempotency middleware as a protocol (plugins/idempotency/idempotency.go): any number of
    requests share one MemoryStore, interleaved step by step with a clock and a janitor.  A step
    is one store call or one piece of request code between two of them. */
module IdempotencyProtocol {
  import opened Prelude
  import opened CaptureWriter
  import opened IdempotencyStore

  // ---- configuration and policy ----

  /** The caching predicate: CacheStatusFunc, else "cache nothing", else the list, else 2xx/3xx. */
  datatype CachePolicy = ByFunction(f: int -> bool) | Nothing | Only(statuses: set<int>) | Default

  datatype Config = Config(
    hashing: bool, waiting: bool, cap: int, allow: Option<set<string>>, ttl: int, policy: CachePolicy)

  predicate ShouldCache(p: CachePolicy, status: int) {
    match p
    case ByFunction(f) => f(status)
    case Nothing => false
    case Only(statuses) => status in statuses
    case Default => 200 <= status < 400
  }

  /** A route's own TTL wins, and zero opts the route out of caching. */
  function ResolveTTL(c: Config, routeTTL: Option<int>): int {
    if routeTTL.Some? then routeTTL.value else c.ttl
  }

  predicate ShouldCacheFor(c: Config, routeTTL: Option<int>, status: int) {
    routeTTL != Some(0) && ShouldCache(c.policy, status)
  }

  // ---- requests ----

  type Rid = nat

  datatype Outcome = Ran | Replayed(resp: Response) | Conflict | Mismatch

  /** Where a request is.  Running to Unlocking carry the entry the request locked. */
  datatype Phase =
    | Arrived
    | Missed
    | Running(e: nat)
    | Saving(e: nat)
    | Flushing(e: nat)
    | Unlocking(e: nat)
    | Contended
    | Parked(e: nat, cancelled: bool)
    | Woken(e: nat, cancelled: bool)
    | Done(outcome: Outcome)

  /** What a finished handler run amounts to: what its client gets, whether that has already been
      streamed because it outgrew the cap, and the response to save, if any. */
  datatype Run = Run(reply: Reply, streamed: bool, save: Option<Response>)

  /** `base` is the client connection's headers on arrival, `ops` the finished handler's writer
      calls and `run` what they amount to (None while it runs, or after it panicked), and `sent`
      what the client was sent, of which `errorBody` was written when the handler's error had left
      the middleware. */
  datatype Request = Request(
    key: Key, hash: Bytes, routeTTL: Option<int>, base: Header,
    phase: Phase, ops: Option<seq<Op>>, run: Option<Run>, sent: Option<Reply>, errorBody: Bytes)

  predicate InCriticalSection(p: Phase) {
    p.Running? || p.Saving? || p.Flushing? || p.Unlocking?
  }

  /** The stored response carries the body hash of the request that ran, when hashing is on. */
  function RunOf(c: Config, q: Request, ops: seq<Op>): Run {
    var streamed := Oversized(ops, c.cap);
    Run(ClientSees(ops, c.cap, q.base), streamed,
        if !streamed && ShouldCacheFor(c, q.routeTTL, StatusOf(ops))
        then Some(SnapshotOf(ops, c.allow).(payloadHash := if c.hashing then q.hash else ZERO_HASH))
        else None)
  }

  /** What an error report adds to a reply whose headers are out already. */
  function Extended(reply: Reply, more: Bytes): Reply {
    reply.(body := reply.body + more)
  }

  /** The reply of a request that is handed a stored response; its headers are filtered again. */
  function Replay(c: Config, q: Request, resp: Response): Reply {
    Reply(if resp.status == 0 then 200 else resp.status,
          AddAll(q.base, Filter(c.allow, resp.header))["Idempotency-Replayed" := ["true"]],
          resp.body)
  }

  predicate SamePayload(c: Config, q: Request, resp: Response) {
    c.hashing && resp.payloadHash != ZERO_HASH ==> resp.payloadHash == q.hash
  }

  /** The end of a request that was handed a stored response. */
  function Answer(c: Config, q: Request, resp: Response): Request {
    q.(phase := Done(if SamePayload(c, q, resp) then Replayed(resp) else Mismatch))
  }

  /** What the request's handler run asks to be saved, if anything. */
  function SaveOf(q: Request): Option<Response> {
    if q.run.Some? then q.run.value.save else None
  }

  predicate CanSave(q: Request) {
    SaveOf(q).Some?
  }

  /** What a waiter does with what it learnt about entry `e`. */
  function AfterCheck(c: Config, q: Request, e: nat, cancelled: bool, w: WaitResult): Request {
    match w
    case Sleep => q.(phase := Parked(e, cancelled))
    case Got(Some(resp)) => Answer(c, q, resp)
    case _ => q.(phase := Done(Conflict))
  }

  // ---- states and steps ----

  datatype Event = Started(r: Rid, key: Key, time: Time) | SavedUntil(key: Key, expiry: Time)

  /** `owner` gives the request that created each entry, `log` the handler starts and saves. */
  datatype State = State(now: Time, store: Store, reqs: map<Rid, Request>, owner: seq<Rid>, log: seq<Event>)

  datatype Action =
    | Arrive(r: Rid, key: Key, hash: Bytes, routeTTL: Option<int>, base: Header)
    | Get(r: Rid)
    | Lock(r: Rid)
    | Finish(r: Rid, ops: seq<Op>)
    | Panic(r: Rid)
    | Save(r: Rid)
    | Flush(r: Rid)
    | Unlock(r: Rid)
    | Report(r: Rid, text: Bytes)
    | BeginWait(r: Rid)
    | Wake(r: Rid)
    | Cancel(r: Rid)
    | Stray(e: nat)
    | Sweep
    | Tick(d: nat)

  const INIT := State(0, EMPTY, map[], [], [])

  ghost function At(s: State, r: Rid): Phase
    requires r in s.reqs
  {
    s.reqs[r].phase
  }

  /** Ids of entries are in range, so that every store call is defined. */
  ghost predicate Sane(s: State) {
    && WellFormed(s.store)
    && |s.owner| == |s.store.heap|
    && forall r :: r in s.reqs ==>
         (At(s, r).Parked? || At(s, r).Woken? ==> At(s, r).e < |s.store.heap|)
  }

  ghost predicate Enabled(s: State, a: Action) {
    match a
    case Arrive(r, _, _, routeTTL, _) => r !in s.reqs && (routeTTL.Some? ==> routeTTL.value >= 0)
    case Get(r) => r in s.reqs && At(s, r).Arrived?
    case Lock(r) => r in s.reqs && At(s, r).Missed?
    case Finish(r, _) => r in s.reqs && At(s, r).Running?
    case Panic(r) => r in s.reqs && At(s, r).Running?
    case Save(r) => r in s.reqs && At(s, r).Saving? && CanSave(s.reqs[r])
    case Flush(r) => r in s.reqs && At(s, r).Flushing? && s.reqs[r].run.Some?
    case Unlock(r) => r in s.reqs && At(s, r).Unlocking?
    case Report(r, _) => r in s.reqs && At(s, r) == Done(Ran) && s.reqs[r].sent.Some?
    case BeginWait(r) => r in s.reqs && At(s, r).Contended?
    case Wake(r) => r in s.reqs && At(s, r).Woken?
    case Cancel(r) => r in s.reqs && (At(s, r).Parked? || At(s, r).Woken?)
    case Stray(e) => e < |s.store.heap|
    case Sweep => true
    case Tick(_) => true
  }

  /** Broadcast on the condition variable of entry `e`. */
  ghost function Broadcast(reqs: map<Rid, Request>, e: nat): map<Rid, Request> {
    map r | r in reqs ::
      if reqs[r].phase.Parked? && reqs[r].phase.e == e
      then reqs[r].(phase := Woken(e, reqs[r].phase.cancelled)) else reqs[r]
  }

  ghost function Goto(s: State, r: Rid, p: Phase): State
    requires r in s.reqs
  {
    s.(reqs := s.reqs[r := s.reqs[r].(phase := p)])
  }

  ghost function DoGet(c: Config, s: State, r: Rid): State
    requires Sane(s) && r in s.reqs
  {
    var q := s.reqs[r];
    var q' := match Found(s.store, q.key, s.now)
              case None => q.(phase := Missed)
              case Some(resp) => Answer(c, q, resp);
    s.(store := AfterGet(s.store, q.key, s.now), reqs := s.reqs[r := q'])
  }

  ghost function DoLock(c: Config, s: State, r: Rid): State
    requires Sane(s) && r in s.reqs
  {
    var key := s.reqs[r].key;
    if LockWins(s.store, key, s.now) then
      var s' := Goto(s, r, Running(|s.store.heap|));
      s'.(store := AfterLock(s.store, key, s.now),
          owner := s.owner + [r],
          log := s.log + [Started(r, key, s.now)])
    else
      Goto(s, r, if c.waiting then Contended else Done(Conflict))
  }

  /** The handler returned; a response that outgrew the cap has already been sent. */
  ghost function DoFinish(c: Config, s: State, r: Rid, ops: seq<Op>): State
    requires r in s.reqs && At(s, r).Running?
  {
    var q := s.reqs[r];
    WithRun(s, r, ops, RunOf(c, q, ops))
  }

  ghost function WithRun(s: State, r: Rid, ops: seq<Op>, run: Run): State
    requires r in s.reqs && At(s, r).Running?
  {
    var q := s.reqs[r].(ops := Some(ops), run := Some(run));
    var e := q.phase.e;
    s.(reqs := s.reqs[r :=
      if run.streamed then q.(phase := Unlocking(e), sent := Some(run.reply))
      else if run.save.Some? then q.(phase := Saving(e))
      else q.(phase := Flushing(e))])
  }

  ghost function DoSave(c: Config, s: State, r: Rid): State
    requires Sane(s) && r in s.reqs && At(s, r).Saving? && CanSave(s.reqs[r])
  {
    var q := s.reqs[r];
    var ttl := ResolveTTL(c, q.routeTTL);
    var store := AfterSave(s.store, q.key, q.run.value.save.value, ttl, s.now);
    Goto(s, r, Flushing(q.phase.e)).(
      store := store,
      owner := if |store.heap| > |s.store.heap| then s.owner + [r] else s.owner,
      log := if ttl > 0 then s.log + [SavedUntil(q.key, s.now + ttl)] else s.log)
  }

  ghost function DoFlush(c: Config, s: State, r: Rid): State
    requires r in s.reqs && At(s, r).Flushing? && s.reqs[r].run.Some?
  {
    var q := s.reqs[r];
    s.(reqs := s.reqs[r := q.(phase := Unlocking(q.phase.e), sent := Some(q.run.value.reply))])
  }

  ghost function DoUnlock(s: State, r: Rid): State
    requires Sane(s) && r in s.reqs
  {
    var key := s.reqs[r].key;
    var s' := Goto(s, r, Done(Ran)).(store := AfterUnlock(s.store, key));
    if key in s.store.entries then s'.(reqs := Broadcast(s'.reqs, s.store.entries[key])) else s'
  }

  /** The error of a handler reaches the error handler outside the middleware. */
  ghost function DoReport(s: State, r: Rid, text: Bytes): State
    requires r in s.reqs && s.reqs[r].sent.Some?
  {
    var q := s.reqs[r];
    s.(reqs := s.reqs[r := q.(sent := Some(Extended(q.sent.value, text)), errorBody := q.errorBody + text)])
  }

  ghost function DoBeginWait(c: Config, s: State, r: Rid): State
    requires Sane(s) && r in s.reqs
  {
    var q := s.reqs[r];
    if q.key in s.store.entries then
      var e := s.store.entries[q.key];
      s.(reqs := s.reqs[r := AfterCheck(c, q, e, false, Check(s.store.heap[e], false))])
    else
      Goto(s, r, Done(Conflict))
  }

  ghost function DoWake(c: Config, s: State, r: Rid): State
    requires Sane(s) && r in s.reqs && At(s, r).Woken?
  {
    var q := s.reqs[r];
    var w := Check(s.store.heap[q.phase.e], q.phase.cancelled);
    s.(reqs := s.reqs[r := AfterCheck(c, q, q.phase.e, q.phase.cancelled, w)])
  }

  ghost function DoCancel(s: State, r: Rid): State
    requires r in s.reqs && (At(s, r).Parked? || At(s, r).Woken?)
  {
    var e := At(s, r).e;
    s.(reqs := Broadcast(Goto(s, r, Parked(e, true)).reqs, e))
  }

  ghost function Do(c: Config, s: State, a: Action): State
    requires Sane(s) && Enabled(s, a)
  {
    match a
    case Arrive(r, key, hash, routeTTL, base) =>
      s.(reqs := s.reqs[r := Request(key, hash, routeTTL, base, Arrived, None, None, None, [])])
    case Get(r) => DoGet(c, s, r)
    case Lock(r) => DoLock(c, s, r)
    case Finish(r, ops) => DoFinish(c, s, r, ops)
    case Panic(r) => Goto(s, r, Unlocking(At(s, r).e))
    case Save(r) => DoSave(c, s, r)
    case Flush(r) => DoFlush(c, s, r)
    case Unlock(r) => DoUnlock(s, r)
    case Report(r, text) => DoReport(s, r, text)
    case BeginWait(r) => DoBeginWait(c, s, r)
    case Wake(r) => DoWake(c, s, r)
    case Cancel(r) => DoCancel(s, r)
    case Stray(e) => s.(reqs := Broadcast(s.reqs, e))
    case Sweep => s.(store := AfterSweep(s.store, s.now))
    case Tick(d) => s.(now := s.now + d)
  }

  /** The step deletes an expired entry that its holder has not released: the guard both Lock and
      Get take without looking at `holder`. */
  ghost predicate EvictsHeld(s: State, a: Action)
    requires Sane(s) && Enabled(s, a)
  {
    && (a.Get? || a.Lock?)
    && var e := Lookup(s.store, s.reqs[a.r].key);
       e.Some? && e.value.holder && Expired(e.value, s.now)
  }

  // ---- the invariant ----

  ghost predicate EntryOk(c: Config, s: State, e: nat)
    requires Sane(s) && e < |s.store.heap|
  {
    var v := s.store.heap[e];
    && s.owner[e] in s.reqs
    && var q := s.reqs[s.owner[e]];
    && (v.holder ==>
          && InCriticalSection(q.phase) && q.phase.e == e && !v.released
          && q.key in s.store.entries && s.store.entries[q.key] == e)
    && (!v.holder ==> q.phase == Done(Ran) && v.released == v.resp.Some? && v.resp == SaveOf(q))
    && (v.resp.Some? ==>
          && (q.phase.Flushing? || q.phase.Unlocking? || q.phase == Done(Ran))
          && q.run.Some? && q.run.value.save == v.resp && v.expiry.Some?)
    && (v.resp.None? ==> v.expiry.None?)
  }

  ghost predicate KeyOk(s: State, k: Key)
    requires Sane(s) && k in s.store.entries
  {
    var e := s.store.entries[k];
    && s.owner[e] in s.reqs && s.reqs[s.owner[e]].key == k
    && (s.store.heap[e].holder || s.store.heap[e].resp.Some?)
  }

  /** Entry `e` was created by a request for `key`. */
  ghost predicate EntryFor(s: State, e: nat, key: Key)
    requires Sane(s)
  {
    e < |s.store.heap| && s.owner[e] in s.reqs && s.reqs[s.owner[e]].key == key
  }

  ghost predicate ReqOk(c: Config, s: State, r: Rid)
    requires Sane(s) && r in s.reqs
  {
    var q := s.reqs[r];
    && (q.routeTTL.Some? ==> q.routeTTL.value >= 0)
    && (InCriticalSection(q.phase) ==>
          q.phase.e < |s.store.heap| && s.owner[q.phase.e] == r && s.store.heap[q.phase.e].holder)
    && (CanSave(q) ==> !q.run.value.streamed && q.routeTTL != Some(0))
    && (!q.phase.Done? ==> q.errorBody == [])
    && match q.phase
       case Arrived => q.run.None?
       case Missed => q.run.None?
       case Running(e) => s.store.heap[e].resp.None? && q.run.None?
       case Saving(e) => s.store.heap[e].resp.None? && CanSave(q)
       case Flushing(e) => q.run.Some? && q.run.value.save == s.store.heap[e].resp
       case Unlocking(e) =>
         && s.store.heap[e].resp == SaveOf(q)
         && (q.run.Some? ==> q.sent == Some(q.run.value.reply))
       case Parked(e, _) => EntryFor(s, e, q.key) && s.store.heap[e].holder
       case Woken(e, _) => EntryFor(s, e, q.key)
       case Done(Ran) => q.run.Some? ==> q.sent == Some(Extended(q.run.value.reply, q.errorBody))
       case Done(Replayed(resp)) => SamePayload(c, q, resp) && Origin(s, q.key, resp)
       case _ => true
  }

  /** The response is the one in some entry created for the key. */
  ghost predicate Origin(s: State, key: Key, resp: Response)
    requires Sane(s)
  {
    exists e: nat :: EntryFor(s, e, key) && s.store.heap[e].resp == Some(resp)
  }

  /** A response saved until `expiry` is still in the map under its key. */
  ghost predicate StillStored(s: State, key: Key, expiry: Time)
    requires Sane(s)
  {
    key in s.store.entries && s.store.heap[s.store.entries[key]].expiry == Some(expiry)
  }

  ghost predicate LogOk(s: State)
    requires Sane(s)
  {
    && (forall i :: 0 <= i < |s.log| && s.log[i].SavedUntil? ==>
          s.log[i].expiry < s.now || StillStored(s, s.log[i].key, s.log[i].expiry))
    && (forall i, j | 0 <= i < j < |s.log| && s.log[i].SavedUntil? && s.log[j].Started? ::
          s.log[i].key == s.log[j].key ==> s.log[i].expiry < s.log[j].time)
  }

  ghost predicate EntriesOk(c: Config, s: State)
    requires Sane(s)
  {
    forall e: nat {:trigger s.owner[e]} {:trigger s.store.heap[e]} {:trigger EntryOk(c, s, e)} ::
      e < |s.store.heap| ==> EntryOk(c, s, e)
  }

  ghost predicate KeysOk(s: State)
    requires Sane(s)
  {
    forall k :: k in s.store.entries ==> KeyOk(s, k)
  }

  ghost predicate ReqsOk(c: Config, s: State)
    requires Sane(s)
  {
    forall r :: r in s.reqs ==> ReqOk(c, s, r)
  }

  ghost predicate Inv(c: Config, s: State) {
    Sane(s) && EntriesOk(c, s) && KeysOk(s) && ReqsOk(c, s) && LogOk(s)
  }

  // ---- what a step leaves alone ----

  /** No request is forgotten or changes its key, and no entry its owner. */
  ghost predicate Extends(s: State, s': State) {
    && |s.owner| <= |s'.owner|
    && (forall e: nat :: e < |s.owner| ==> s'.owner[e] == s.owner[e])
    && (forall r :: r in s.reqs ==> r in s'.reqs && s'.reqs[r].key == s.reqs[r].key)
  }

  lemma SameRequest(c: Config, s: State, s': State, r: Rid)
    requires Sane(s) && Sane(s') && Extends(s, s') && r in s.reqs && ReqOk(c, s, r)
    requires s'.reqs[r] == s.reqs[r]
    requires forall e: nat :: e < |s.store.heap| ==>
      && e < |s'.store.heap|
      && (s.owner[e] == r ==> s'.store.heap[e] == s.store.heap[e])
      && (s.store.heap[e].resp.Some? ==> s'.store.heap[e].resp == s.store.heap[e].resp)
      && (At(s, r).Parked? && At(s, r).e == e && s.store.heap[e].holder ==> s'.store.heap[e].holder)
    ensures ReqOk(c, s', r)
  {
    match s.reqs[r].phase
    case Done(Replayed(resp)) =>
      var e: nat :| EntryFor(s, e, s.reqs[r].key) && s.store.heap[e].resp == Some(resp);
      assert EntryFor(s', e, s.reqs[r].key);
    case _ =>
  }

  lemma SameEntry(c: Config, s: State, s': State, e: nat)
    requires Sane(s) && Sane(s') && e < |s.store.heap| && e < |s'.store.heap| && EntryOk(c, s, e)
    requires s'.store.heap[e] == s.store.heap[e] && s'.owner[e] == s.owner[e]
    requires s.owner[e] in s'.reqs && s'.reqs[s.owner[e]] == s.reqs[s.owner[e]]
    requires s.store.heap[e].holder ==>
      s.reqs[s.owner[e]].key in s'.store.entries && s'.store.entries[s.reqs[s.owner[e]].key] == e
    ensures EntryOk(c, s', e)
  {
  }

  /** One request moves on; the store stays as it is. */
  lemma OneRequest(c: Config, s: State, r: Rid, q: Request)
    requires Inv(c, s) && r in s.reqs && q.key == s.reqs[r].key
    requires Sane(s.(reqs := s.reqs[r := q])) && ReqOk(c, s.(reqs := s.reqs[r := q]), r)
    requires forall e: nat :: e < |s.store.heap| && s.owner[e] == r ==> EntryOk(c, s.(reqs := s.reqs[r := q]), e)
    ensures Inv(c, s.(reqs := s.reqs[r := q]))
  {
    var s' := s.(reqs := s.reqs[r := q]);
    forall r' | r' in s'.reqs && r' != r ensures ReqOk(c, s', r') { SameRequest(c, s, s', r'); }
    forall e: nat | e < |s.store.heap| && s.owner[e] != r ensures EntryOk(c, s', e) { SameEntry(c, s, s', e); }
  }

  // ---- every step that evicts no held entry keeps the invariant ----

  /** Entries that nobody holds may leave the map once they have expired. */
  lemma KeepsShrink(c: Config, s: State, entries: map<Key, nat>)
    requires Inv(c, s)
    requires forall k :: k in entries ==> k in s.store.entries && entries[k] == s.store.entries[k]
    requires forall k :: k in s.store.entries && k !in entries ==> SweepDrops(s.store, k, s.now)
    ensures Inv(c, s.(store := s.store.(entries := entries)))
  {
    var s' := s.(store := s.store.(entries := entries));
    forall r | r in s'.reqs ensures ReqOk(c, s', r) { SameRequest(c, s, s', r); }
    forall e: nat | e < |s.store.heap| ensures EntryOk(c, s', e) { SameEntry(c, s, s', e); }
  }

  lemma KeepsArrive(c: Config, s: State, r: Rid, q: Request)
    requires Inv(c, s) && r !in s.reqs && q.phase.Arrived? && q.run.None? && q.errorBody == []
    requires q.routeTTL.Some? ==> q.routeTTL.value >= 0
    ensures Inv(c, s.(reqs := s.reqs[r := q]))
  {
    var s' := s.(reqs := s.reqs[r := q]);
    forall r' | r' in s.reqs ensures ReqOk(c, s', r') { SameRequest(c, s, s', r'); }
    forall e: nat | e < |s.store.heap| ensures EntryOk(c, s', e) { SameEntry(c, s, s', e); }
  }

  lemma KeepsGet(c: Config, s: State, r: Rid)
    requires Inv(c, s) && r in s.reqs && At(s, r).Arrived? && !EvictsHeld(s, Get(r))
    ensures Inv(c, DoGet(c, s, r))
  {
    var q := s.reqs[r];
    var s1 := s.(store := AfterGet(s.store, q.key, s.now));
    KeepsShrink(c, s, s1.store.entries);
    match Found(s.store, q.key, s.now)
    case None => KeepsMiss(c, s1, r);
    case Some(resp) => KeepsHit(c, s1, r, resp);
  }

  lemma KeepsMiss(c: Config, s: State, r: Rid)
    requires Inv(c, s) && r in s.reqs && At(s, r).Arrived?
    ensures Inv(c, Goto(s, r, Missed))
  {
    OneRequest(c, s, r, s.reqs[r].(phase := Missed));
  }

  lemma KeepsHit(c: Config, s: State, r: Rid, resp: Response)
    requires Inv(c, s) && r in s.reqs && At(s, r).Arrived? && s.reqs[r].key in s.store.entries
    requires s.store.heap[s.store.entries[s.reqs[r].key]].resp == Some(resp)
    ensures Inv(c, s.(reqs := s.reqs[r := Answer(c, s.reqs[r], resp)]))
  {
    var s' := s.(reqs := s.reqs[r := Answer(c, s.reqs[r], resp)]);
    assert KeyOk(s, s.reqs[r].key) && ReqOk(c, s, r);
    assert EntryFor(s', s.store.entries[s.reqs[r].key], s.reqs[r].key);
    OneRequest(c, s, r, Answer(c, s.reqs[r], resp));
  }

  lemma KeepsLock(c: Config, s: State, r: Rid)
    requires Inv(c, s) && r in s.reqs && At(s, r).Missed? && !EvictsHeld(s, Lock(r))
    ensures Inv(c, DoLock(c, s, r))
  {
    var key := s.reqs[r].key;
    if LockWins(s.store, key, s.now) {
      var s1 := s.(store := Drop(s.store, key));
      KeepsShrink(c, s, s1.store.entries);
      KeepsClaim(c, s1, r);
      assert DoLock(c, s, r) == DoLock(c, s1, r) by { DropThenLock(c, s, s1, r); }
    } else {
      OneRequest(c, s, r, DoLock(c, s, r).reqs[r]);
    }
  }

  lemma DropThenLock(c: Config, s: State, s1: State, r: Rid)
    requires Sane(s) && r in s.reqs && LockWins(s.store, s.reqs[r].key, s.now)
    requires s1 == s.(store := Drop(s.store, s.reqs[r].key))
    ensures DoLock(c, s, r) == DoLock(c, s1, r)
  {
    var key := s.reqs[r].key;
    assert s.store.entries[key := |s.store.heap|] == s1.store.entries[key := |s.store.heap|];
  }

  /** A request claims a key under which nothing is stored. */
  ghost predicate CanClaim(c: Config, s: State, r: Rid) {
    Inv(c, s) && r in s.reqs && At(s, r).Missed? && s.reqs[r].key !in s.store.entries
  }

  lemma ClaimKeepsEntries(c: Config, s: State, r: Rid)
    requires CanClaim(c, s, r)
    ensures Sane(DoLock(c, s, r)) && EntriesOk(c, DoLock(c, s, r)) && KeysOk(DoLock(c, s, r))
  {
    var s' := DoLock(c, s, r);
    forall e: nat | e < |s.store.heap| ensures EntryOk(c, s', e) { SameEntry(c, s, s', e); }
  }

  lemma ClaimKeepsRequests(c: Config, s: State, r: Rid)
    requires CanClaim(c, s, r) && Sane(DoLock(c, s, r))
    ensures ReqsOk(c, DoLock(c, s, r))
  {
    var s' := DoLock(c, s, r);
    forall r' | r' in s'.reqs && r' != r ensures ReqOk(c, s', r') { SameRequest(c, s, s', r'); }
  }

  lemma ClaimKeepsLog(c: Config, s: State, r: Rid)
    requires CanClaim(c, s, r) && Sane(DoLock(c, s, r))
    ensures LogOk(DoLock(c, s, r))
  {
  }

  lemma KeepsClaim(c: Config, s: State, r: Rid)
    requires CanClaim(c, s, r)
    ensures Inv(c, DoLock(c, s, r))
  {
    ClaimKeepsEntries(c, s, r);
    ClaimKeepsRequests(c, s, r);
    ClaimKeepsLog(c, s, r);
  }

  lemma KeepsWithRun(c: Config, s: State, r: Rid, ops: seq<Op>, run: Run)
    requires Inv(c, s) && r in s.reqs && At(s, r).Running?
    requires run.save.Some? ==> !run.streamed && s.reqs[r].routeTTL != Some(0)
    ensures Inv(c, WithRun(s, r, ops, run))
  {
    OneRequest(c, s, r, WithRun(s, r, ops, run).reqs[r]);
  }

  lemma KeepsPanic(c: Config, s: State, r: Rid)
    requires Inv(c, s) && r in s.reqs && At(s, r).Running?
    ensures Inv(c, Goto(s, r, Unlocking(At(s, r).e)))
  {
    OneRequest(c, s, r, s.reqs[r].(phase := Unlocking(At(s, r).e)));
  }

  lemma KeepsFlush(c: Config, s: State, r: Rid)
    requires Inv(c, s) && r in s.reqs && At(s, r).Flushing? && s.reqs[r].run.Some?
    ensures Inv(c, DoFlush(c, s, r))
  {
    OneRequest(c, s, r, DoFlush(c, s, r).reqs[r]);
  }

  ghost predicate MaySave(c: Config, s: State, r: Rid) {
    Inv(c, s) && c.ttl > 0 && r in s.reqs && At(s, r).Saving? && CanSave(s.reqs[r])
  }

  /** The saver holds the entry under its key, so that Save makes no new one. */
  lemma SaveChangesOwnEntry(c: Config, s: State, r: Rid)
    requires MaySave(c, s, r)
    ensures var (e, q) := (At(s, r).e, s.reqs[r]);
            && e < |s.store.heap| && s.owner[e] == r && s.store.heap[e].holder
            && DoSave(c, s, r).owner == s.owner
            && DoSave(c, s, r).store
               == Set(s.store, e, Saved(s.store.heap[e], q.run.value.save.value, ResolveTTL(c, q.routeTTL), s.now))
            && ResolveTTL(c, q.routeTTL) > 0
  {
    assert ReqOk(c, s, r) && EntryOk(c, s, At(s, r).e);
  }

  lemma SaveKeepsEntries(c: Config, s: State, r: Rid)
    requires MaySave(c, s, r)
    ensures Sane(DoSave(c, s, r)) && EntriesOk(c, DoSave(c, s, r)) && KeysOk(DoSave(c, s, r))
  {
    SaveChangesOwnEntry(c, s, r);
    var s' := DoSave(c, s, r);
    assert EntryOk(c, s, At(s, r).e);
    forall e: nat | e < |s.store.heap| && e != At(s, r).e ensures EntryOk(c, s', e) { SameEntry(c, s, s', e); }
  }

  lemma SaveKeepsRequests(c: Config, s: State, r: Rid)
    requires MaySave(c, s, r) && Sane(DoSave(c, s, r))
    ensures ReqsOk(c, DoSave(c, s, r))
  {
    SaveChangesOwnEntry(c, s, r);
    var s' := DoSave(c, s, r);
    forall r' | r' in s'.reqs && r' != r ensures ReqOk(c, s', r') { SameRequest(c, s, s', r'); }
  }

  lemma SaveKeepsLog(c: Config, s: State, r: Rid)
    requires MaySave(c, s, r) && Sane(DoSave(c, s, r))
    ensures LogOk(DoSave(c, s, r))
  {
  }

  lemma KeepsSave(c: Config, s: State, r: Rid)
    requires Inv(c, s) && c.ttl > 0 && r in s.reqs && At(s, r).Saving? && CanSave(s.reqs[r])
    ensures Inv(c, DoSave(c, s, r))
  {
    SaveKeepsEntries(c, s, r);
    SaveKeepsRequests(c, s, r);
    SaveKeepsLog(c, s, r);
  }

  /** The holder lets go of its entry while nobody sleeps on it. */
  ghost function Release(s: State, r: Rid): State
    requires Sane(s) && r in s.reqs
  {
    Goto(s, r, Done(Ran)).(store := AfterUnlock(s.store, s.reqs[r].key))
  }

  ghost predicate CanRelease(c: Config, s: State, r: Rid) {
    && Inv(c, s) && r in s.reqs && At(s, r).Unlocking?
    && forall r' :: r' in s.reqs && At(s, r').Parked? ==> At(s, r').e != At(s, r).e
  }

  lemma ReleaseKeepsEntries(c: Config, s: State, r: Rid)
    requires CanRelease(c, s, r)
    ensures Sane(Release(s, r)) && EntriesOk(c, Release(s, r))
  {
    var s' := Release(s, r);
    var e := At(s, r).e;
    assert EntryOk(c, s, e);
    forall e': nat | e' < |s.store.heap| && e' != e ensures EntryOk(c, s', e') { SameEntry(c, s, s', e'); }
  }

  lemma ReleaseKeepsKeys(c: Config, s: State, r: Rid)
    requires CanRelease(c, s, r) && Sane(Release(s, r))
    ensures KeysOk(Release(s, r))
  {
    var s' := Release(s, r);
    assert EntryOk(c, s, At(s, r).e);
    forall k | k in s'.store.entries ensures KeyOk(s', k) { assert KeyOk(s, k); }
  }

  lemma ExtendedByNothing(reply: Reply)
    ensures Extended(reply, []) == reply
  {
    assert reply.body + [] == reply.body;
  }

  lemma ReleaseKeepsOwn(c: Config, s: State, r: Rid)
    requires CanRelease(c, s, r) && Sane(Release(s, r))
    ensures ReqOk(c, Release(s, r), r)
  {
    assert ReqOk(c, s, r);
    if s.reqs[r].run.Some? {
      ExtendedByNothing(s.reqs[r].run.value.reply);
    }
  }

  lemma ReleaseKeepsOther(c: Config, s: State, r: Rid, r': Rid)
    requires CanRelease(c, s, r) && Sane(Release(s, r)) && r' in s.reqs && r' != r
    ensures ReqOk(c, Release(s, r), r')
  {
    assert EntryOk(c, s, At(s, r).e) && ReqOk(c, s, r');
    SameRequest(c, s, Release(s, r), r');
  }

  lemma ReleaseKeepsRequests(c: Config, s: State, r: Rid)
    requires CanRelease(c, s, r) && Sane(Release(s, r))
    ensures ReqsOk(c, Release(s, r))
  {
    ReleaseKeepsOwn(c, s, r);
    forall r' | r' in s.reqs && r' != r ensures ReqOk(c, Release(s, r), r') { ReleaseKeepsOther(c, s, r, r'); }
  }

  lemma ReleaseKeepsLog(c: Config, s: State, r: Rid)
    requires CanRelease(c, s, r) && Sane(Release(s, r))
    ensures LogOk(Release(s, r))
  {
    assert EntryOk(c, s, At(s, r).e);
  }

  lemma KeepsRelease(c: Config, s: State, r: Rid)
    requires CanRelease(c, s, r)
    ensures Inv(c, Release(s, r))
  {
    ReleaseKeepsEntries(c, s, r);
    ReleaseKeepsKeys(c, s, r);
    ReleaseKeepsRequests(c, s, r);
    ReleaseKeepsLog(c, s, r);
  }

  lemma WakeThenRelease(s: State, r: Rid)
    requires Sane(s) && r in s.reqs && At(s, r).Unlocking?
    requires s.reqs[r].key in s.store.entries && s.store.entries[s.reqs[r].key] == At(s, r).e
    ensures DoUnlock(s, r) == Release(s.(reqs := Broadcast(s.reqs, At(s, r).e)), r)
  {
    assert DoUnlock(s, r).reqs == Release(s.(reqs := Broadcast(s.reqs, At(s, r).e)), r).reqs;
  }

  lemma KeepsUnlock(c: Config, s: State, r: Rid)
    requires Inv(c, s) && r in s.reqs && At(s, r).Unlocking?
    ensures Inv(c, DoUnlock(s, r))
  {
    var e := At(s, r).e;
    KeepsStray(c, s, e);
    var s1 := s.(reqs := Broadcast(s.reqs, e));
    KeepsRelease(c, s1, r);
    assert DoUnlock(s, r) == Release(s1, r) by { WakeThenRelease(s, r); }
  }

  lemma KeepsReport(c: Config, s: State, r: Rid, text: Bytes)
    requires Inv(c, s) && r in s.reqs && At(s, r) == Done(Ran) && s.reqs[r].sent.Some?
    ensures Inv(c, DoReport(s, r, text))
  {
    var q := s.reqs[r];
    if q.run.Some? {
      assert q.run.value.reply.body + q.errorBody + text == q.run.value.reply.body + (q.errorBody + text);
    }
    OneRequest(c, s, r, DoReport(s, r, text).reqs[r]);
  }

  lemma KeepsBeginWait(c: Config, s: State, r: Rid)
    requires Inv(c, s) && r in s.reqs && At(s, r).Contended?
    ensures Inv(c, DoBeginWait(c, s, r))
  {
    if s.reqs[r].key in s.store.entries {
      LooksAt(c, s, r, s.store.entries[s.reqs[r].key], false);
    } else {
      OneRequest(c, s, r, s.reqs[r].(phase := Done(Conflict)));
    }
  }

  /** One pass of the wait loop over an entry for the request's own key. */
  lemma LooksAt(c: Config, s: State, r: Rid, e: nat, cancelled: bool)
    requires Inv(c, s) && r in s.reqs && EntryFor(s, e, s.reqs[r].key)
    requires At(s, r).Contended? || At(s, r).Woken?
    ensures Inv(c, s.(reqs := s.reqs[r := AfterCheck(c, s.reqs[r], e, cancelled, Check(s.store.heap[e], cancelled))]))
  {
    var w := Check(s.store.heap[e], cancelled);
    if w.Sleep? {
      LookSleeps(c, s, r, e, cancelled);
    } else if w.Got? && w.resp.Some? {
      LookAnswers(c, s, r, e, w.resp.value);
    } else {
      LookFails(c, s, r);
    }
  }

  lemma LookFails(c: Config, s: State, r: Rid)
    requires Inv(c, s) && r in s.reqs && (At(s, r).Contended? || At(s, r).Woken?)
    ensures Inv(c, s.(reqs := s.reqs[r := s.reqs[r].(phase := Done(Conflict))]))
  {
    OneRequest(c, s, r, s.reqs[r].(phase := Done(Conflict)));
  }

  lemma LookSleeps(c: Config, s: State, r: Rid, e: nat, cancelled: bool)
    requires Inv(c, s) && r in s.reqs && EntryFor(s, e, s.reqs[r].key)
    requires (At(s, r).Contended? || At(s, r).Woken?) && Check(s.store.heap[e], cancelled).Sleep?
    ensures Inv(c, s.(reqs := s.reqs[r := s.reqs[r].(phase := Parked(e, cancelled))]))
  {
    var q := s.reqs[r].(phase := Parked(e, cancelled));
    assert EntryFor(s.(reqs := s.reqs[r := q]), e, q.key);
    assert EntryOk(c, s, e);
    OneRequest(c, s, r, q);
  }

  lemma LookAnswers(c: Config, s: State, r: Rid, e: nat, resp: Response)
    requires Inv(c, s) && r in s.reqs && EntryFor(s, e, s.reqs[r].key)
    requires (At(s, r).Contended? || At(s, r).Woken?) && s.store.heap[e].resp == Some(resp)
    ensures Inv(c, s.(reqs := s.reqs[r := Answer(c, s.reqs[r], resp)]))
  {
    AnswerIsOk(c, s, r, e, resp);
    WaiterOwnsNothing(c, s, r);
    OneRequest(c, s, r, Answer(c, s.reqs[r], resp));
  }

  /** Who waits for an entry has made none. */
  lemma WaiterOwnsNothing(c: Config, s: State, r: Rid)
    requires Inv(c, s) && r in s.reqs && (At(s, r).Contended? || At(s, r).Woken?)
    ensures forall e: nat :: e < |s.store.heap| ==> s.owner[e] != r
  {
    forall e: nat | e < |s.store.heap|
      ensures s.owner[e] != r
    {
      assert EntryOk(c, s, e);
    }
  }

  lemma AnswerIsOk(c: Config, s: State, r: Rid, e: nat, resp: Response)
    requires Sane(s) && r in s.reqs && ReqOk(c, s, r) && EntryFor(s, e, s.reqs[r].key)
    requires (At(s, r).Contended? || At(s, r).Woken?) && s.store.heap[e].resp == Some(resp)
    ensures var s' := s.(reqs := s.reqs[r := Answer(c, s.reqs[r], resp)]); Sane(s') && ReqOk(c, s', r)
  {
    var s' := s.(reqs := s.reqs[r := Answer(c, s.reqs[r], resp)]);
    assert EntryFor(s', e, s.reqs[r].key) && s'.store.heap[e].resp == Some(resp);
  }

  lemma KeepsWake(c: Config, s: State, r: Rid)
    requires Inv(c, s) && r in s.reqs && At(s, r).Woken?
    ensures Inv(c, DoWake(c, s, r))
  {
    LooksAt(c, s, r, At(s, r).e, At(s, r).cancelled);
  }

  lemma WakeThenMark(s: State, r: Rid)
    requires Sane(s) && r in s.reqs && (At(s, r).Parked? || At(s, r).Woken?)
    ensures DoCancel(s, r) == Goto(s.(reqs := Broadcast(s.reqs, At(s, r).e)), r, Woken(At(s, r).e, true))
  {
    assert DoCancel(s, r).reqs == Goto(s.(reqs := Broadcast(s.reqs, At(s, r).e)), r, Woken(At(s, r).e, true)).reqs;
  }

  lemma KeepsCancel(c: Config, s: State, r: Rid)
    requires Inv(c, s) && r in s.reqs && (At(s, r).Parked? || At(s, r).Woken?)
    ensures Inv(c, DoCancel(s, r))
  {
    var e := At(s, r).e;
    KeepsStray(c, s, e);
    KeepsMark(c, s.(reqs := Broadcast(s.reqs, e)), r);
    WakeThenMark(s, r);
  }

  /** A waiter that is awake learns that its caller has gone. */
  lemma KeepsMark(c: Config, s: State, r: Rid)
    requires Inv(c, s) && r in s.reqs && At(s, r).Woken?
    ensures Inv(c, Goto(s, r, Woken(At(s, r).e, true)))
  {
    OneRequest(c, s, r, s.reqs[r].(phase := Woken(At(s, r).e, true)));
  }

  lemma StrayKeepsRequests(c: Config, s: State, e: nat)
    requires Inv(c, s) && e < |s.store.heap| && Sane(s.(reqs := Broadcast(s.reqs, e)))
    ensures ReqsOk(c, s.(reqs := Broadcast(s.reqs, e)))
  {
    var s' := s.(reqs := Broadcast(s.reqs, e));
    forall r | r in s'.reqs ensures ReqOk(c, s', r) {
      if s'.reqs[r] == s.reqs[r] {
        SameRequest(c, s, s', r);
      } else {
        assert ReqOk(c, s, r);
      }
    }
  }

  lemma KeepsStray(c: Config, s: State, e: nat)
    requires Inv(c, s) && e < |s.store.heap|
    ensures Inv(c, s.(reqs := Broadcast(s.reqs, e)))
  {
    var s' := s.(reqs := Broadcast(s.reqs, e));
    StrayKeepsRequests(c, s, e);
    forall e': nat | e' < |s.store.heap| ensures EntryOk(c, s', e') { SameEntry(c, s, s', e'); }
  }

  lemma KeepsSweep(c: Config, s: State)
    requires Inv(c, s)
    ensures Inv(c, s.(store := AfterSweep(s.store, s.now)))
  {
    KeepsShrink(c, s, AfterSweep(s.store, s.now).entries);
  }

  lemma KeepsTick(c: Config, s: State, d: nat)
    requires Inv(c, s)
    ensures Inv(c, s.(now := s.now + d))
  {
  }
}
