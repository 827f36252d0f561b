/** Whole sequences of verifications on one nonce store (plugins/hmacauth/hmacauth.go:532-610): no
    message is accepted twice. */
module VerifyRuns {
  import opened Prelude
  import opened ByteStrings
  import opened CanonicalRequest
  import opened NonceStore
  import opened ReplayWindow
  import opened HmacAuth

  /** A message to verify (`now` is the time of the skew check, `setAt` that of the insertion), or
      the janitor. */
  datatype Event = Arrives(m: Message, now: Time, setAt: Time, cancelled: bool) | Janitor(setAt: Time)

  /** What one event reports and does to the store. */
  ghost predicate Happens(c: Config, max: nat, before: Nonces, e: Event, r: Option<Outcome>, after: Nonces) {
    match e
    case Janitor(at) => r.None? && after == LiveOnly(before, at)
    case Arrives(m, now, at, cancelled) =>
      && r.Some?
      && if cancelled || !Judge(c, now, m).Accept? then after == before && !r.value.Accept?
         else
           && (r.value.Accept? || r.value.ReplayDetected?)
           && Sets(before, max, NonceKey(m.headers.clientID, m.headers.nonce), c.window.ttl, at, r.value.Accept?, after)
  }

  ghost predicate IsHistory(c: Config, max: nat, events: seq<Event>, results: seq<Option<Outcome>>,
                            stores: seq<Nonces>)
  {
    && |results| == |events| && |stores| == |events| + 1
    && forall i :: 0 <= i < |events| ==> Happens(c, max, stores[i], events[i], results[i], stores[i + 1])
  }

  method VerifyAll(c: Config, store: MemoryNonceStore, events: seq<Event>)
    returns (results: seq<Option<Outcome>>, ghost stores: seq<Nonces>)
    modifies store
    ensures IsHistory(c, store.max, events, results, stores)
    ensures stores[0] == old(store.entries) && stores[|events|] == store.entries
  {
    results, stores := [], [store.entries];
    for i := 0 to |events|
      invariant IsHistory(c, store.max, events[..i], results, stores)
      invariant stores[0] == old(store.entries) && stores[i] == store.entries
    {
      var r := VerifyOne(c, store, events[i]);
      HistoryGrows(c, store.max, events, i, results, stores, r, store.entries);
      results, stores := results + [r], stores + [store.entries];
    }
    assert events[..|events|] == events;
  }

  method VerifyOne(c: Config, store: MemoryNonceStore, e: Event) returns (r: Option<Outcome>)
    modifies store
    ensures Happens(c, store.max, old(store.entries), e, r, store.entries)
  {
    match e
    case Janitor(at) =>
      store.JanitorSweep(at);
      r := None;
    case Arrives(m, now, at, cancelled) =>
      var outcome := Verify(c, store, cancelled, now, at, m);
      r := Some(outcome);
  }

  lemma HistoryGrows(c: Config, max: nat, events: seq<Event>, i: nat, results: seq<Option<Outcome>>,
                     stores: seq<Nonces>, r: Option<Outcome>, after: Nonces)
    requires i < |events| && IsHistory(c, max, events[..i], results, stores)
    requires Happens(c, max, stores[i], events[i], r, after)
    ensures IsHistory(c, max, events[..i + 1], results + [r], stores + [after])
  {
    forall j | 0 <= j < i + 1
      ensures Happens(c, max, (stores + [after])[j], events[..i + 1][j], (results + [r])[j], (stores + [after])[j + 1])
    {
      if j < i {
        assert Happens(c, max, stores[j], events[..i][j], results[j], stores[j + 1]);
      }
    }
  }

  // ---- the run of the store behind it ----

  function Stamp(m: Message): int {
    var ts := ParseInt(m.headers.timestamp);
    if ts.None? then 0 else ts.value
  }

  ghost function StepOf(c: Config, e: Event, r: Option<Outcome>): Step {
    match e
    case Janitor(at) => Sweep(at)
    case Arrives(m, now, at, cancelled) =>
      if cancelled || !Judge(c, now, m).Accept? then Rejected(at)
      else Insert(NonceKey(m.headers.clientID, m.headers.nonce), Stamp(m), now, at, r.Some? && r.value.Accept?)
  }

  ghost function RunOf(c: Config, events: seq<Event>, results: seq<Option<Outcome>>, stores: seq<Nonces>): (run: Run)
    requires |results| == |events|
    ensures run.stores == stores && |run.steps| == |events|
    ensures forall i :: 0 <= i < |events| ==> run.steps[i] == StepOf(c, events[i], results[i])
  {
    Run(seq(|events|, i requires 0 <= i < |events| => StepOf(c, events[i], results[i])), stores)
  }

  /** The store is asked in the order of the events, and at most `late` after the skew check. */
  ghost predicate InOrder(events: seq<Event>, late: nat) {
    && (forall i, j :: 0 <= i <= j < |events| ==> events[i].setAt <= events[j].setAt)
    && forall i :: 0 <= i < |events| && events[i].Arrives? ==>
         events[i].now <= events[i].setAt <= events[i].now + late
  }

  lemma StepHappens(c: Config, max: nat, before: Nonces, e: Event, r: Option<Outcome>, after: Nonces)
    requires Happens(c, max, before, e, r, after)
    ensures Next(c.window, max, before, StepOf(c, e, r), after)
    ensures StepOf(c, e, r).at == e.setAt
    ensures StepOf(c, e, r).Insert? ==> StepOf(c, e, r).checked == e.now && Drift(e.now, StepOf(c, e, r).ts) <= c.window.skew
    ensures r.Some? && r.value.Accept? <==> StepOf(c, e, r).Insert? && StepOf(c, e, r).isNew
  {
  }

  /** A history of verifications is a run of the replay window. */
  lemma HistoryIsRun(c: Config, max: nat, events: seq<Event>, results: seq<Option<Outcome>>, stores: seq<Nonces>,
                     late: nat)
    requires IsHistory(c, max, events, results, stores) && stores[0] == map[] && InOrder(events, late)
    ensures IsRun(RunOf(c, events, results, stores), c.window, max, late)
  {
    forall i | 0 <= i < |events|
      ensures var s := StepOf(c, events[i], results[i]);
              && Next(c.window, max, stores[i], s, stores[i + 1]) && s.at == events[i].setAt
              && (s.Insert? ==> s.checked == events[i].now && Drift(s.checked, s.ts) <= c.window.skew)
    {
      StepHappens(c, max, stores[i], events[i], results[i], stores[i + 1]);
    }
  }

  // ---- no message is accepted twice ----

  /** The same client, nonce and point in time; in particular, one and the same message. */
  predicate SameTicket(m: Message, m': Message) {
    && m.headers.clientID == m'.headers.clientID && m.headers.nonce == m'.headers.nonce
    && ParseInt(m.headers.timestamp) == ParseInt(m'.headers.timestamp)
  }

  predicate AcceptedTwice(events: seq<Event>, results: seq<Option<Outcome>>, i: int, j: int)
    requires |results| == |events|
  {
    && 0 <= i < j < |events| && events[i].Arrives? && events[j].Arrives?
    && results[i].Some? && results[i].value.Accept? && results[j].Some? && results[j].value.Accept?
    && SameTicket(events[i].m, events[j].m)
  }

  lemma NoMessageAcceptedTwice(c: Config, max: nat, events: seq<Event>, results: seq<Option<Outcome>>,
                               stores: seq<Nonces>, late: nat, i: int, j: int)
    requires IsHistory(c, max, events, results, stores) && stores[0] == map[] && InOrder(events, late)
    requires max > 0 && LongEnough(c.window, late) && NeverFull(RunOf(c, events, results, stores), max)
    ensures !AcceptedTwice(events, results, i, j)
  {
    if AcceptedTwice(events, results, i, j) {
      var run := RunOf(c, events, results, stores);
      HistoryIsRun(c, max, events, results, stores, late);
      StepHappens(c, max, stores[i], events[i], results[i], stores[i + 1]);
      StepHappens(c, max, stores[j], events[j], results[j], stores[j + 1]);
      assert Replayed(run, i, j);
      NoReplay(run, c.window, max, late, i, j);
    }
  }

  /** A history from an empty store, in order and never full of live nonces. */
  ghost predicate IsPlain(c: Config, max: nat, late: nat, events: seq<Event>, results: seq<Option<Outcome>>,
                          stores: seq<Nonces>)
  {
    && IsHistory(c, max, events, results, stores) && stores[0] == map[] && InOrder(events, late)
    && NeverFull(RunOf(c, events, results, stores), max)
  }

  ghost predicate NeverAcceptsTwice(c: Config, max: nat, late: nat) {
    forall events, results, stores, i, j :: IsPlain(c, max, late, events, results, stores) ==>
      !AcceptedTwice(events, results, i, j)
  }

  /** For a server with some client that can sign: no history accepts a message twice if and only if
      the nonce lifetime outlasts the skew on both sides and the lag of the insertion. */
  lemma ProtectionOfMessagesIsExact(c: Config, max: nat, late: nat, client: Client, key: Bytes)
    requires max > 0 && c.window.skew < MAX_SAFE_TIMESTAMP
    requires c.validator(client.id) == Some(client) && client.id != [] && HasKey(client, key)
    requires forall k, text :: |c.mac(k, text)| == MAC_SIZE
    ensures NeverAcceptsTwice(c, max, late) <==> LongEnough(c.window, late)
  {
    if LongEnough(c.window, late) {
      forall events, results, stores, i, j | IsPlain(c, max, late, events, results, stores)
        ensures !AcceptedTwice(events, results, i, j)
      {
        NoMessageAcceptedTwice(c, max, events, results, stores, late, i, j);
      }
    } else {
      var events, results, stores := AcceptedAtBothEnds(c, max, late, client, key);
      assert AcceptedTwice(events, results, 0, 1);
    }
  }

  /** A message that arrives in the first and in the last nanosecond of its skew. */
  lemma AcceptedAtBothEnds(c: Config, max: nat, late: nat, client: Client, key: Bytes)
    returns (events: seq<Event>, results: seq<Option<Outcome>>, stores: seq<Nonces>)
    requires max > 0 && c.window.skew < MAX_SAFE_TIMESTAMP && !LongEnough(c.window, late)
    requires c.validator(client.id) == Some(client) && client.id != [] && HasKey(client, key)
    requires forall k, text :: |c.mac(k, text)| == MAC_SIZE
    ensures IsPlain(c, max, late, events, results, stores) && AcceptedTwice(events, results, 0, 1)
  {
    var m := SignedMessage(c, client, key, c.window.skew + 1);
    var nonceKey := NonceKey(client.id, m.headers.nonce);
    var run := WidestReplay(c.window, late, nonceKey);
    WidestReplayIsRun(c.window, max, late, nonceKey);
    forall i | 0 <= i < |run.steps|
      ensures InsertsFresh(c, client, m, run.steps[i])
    {
      EndInSkew(c.window, late, nonceKey, i);
    }
    events, results := Arrivals(c, max, late, client, m, run);
    stores := run.stores;
  }

  lemma EndInSkew(w: Window, late: nat, key: Bytes, i: nat)
    requires i < |WidestReplay(w, late, key).steps|
    ensures var s := WidestReplay(w, late, key).steps[i];
            s.Insert? && s.isNew && s.key == key && s.ts == w.skew + 1 && Drift(s.checked, s.ts) <= w.skew
  {
    assert Unix(SECOND) == 1 && Unix((2 * w.skew + 2) * SECOND - 1) == 2 * w.skew + 1;
  }

  /** The step inserts the nonce of the message, which verifies, for the first time. */
  ghost predicate InsertsFresh(c: Config, client: Client, m: Message, s: Step) {
    && s.Insert? && s.isNew && s.key == NonceKey(m.headers.clientID, m.headers.nonce) && s.ts == Stamp(m)
    && Judge(c, s.checked, m) == Accept(client)
  }

  /** The event behind such a step. */
  function ArrivalOf(m: Message, s: Step): Event {
    Arrives(m, if s.Insert? then s.checked else s.at, s.at, false)
  }

  lemma FreshHappens(c: Config, max: nat, before: Nonces, client: Client, m: Message, s: Step, after: Nonces)
    requires InsertsFresh(c, client, m, s) && Next(c.window, max, before, s, after)
    ensures Happens(c, max, before, ArrivalOf(m, s), Some(Accept(client)), after)
    ensures StepOf(c, ArrivalOf(m, s), Some(Accept(client))) == s
  {
  }

  /** The events behind a run that always inserts the nonce of one message. */
  lemma Arrivals(c: Config, max: nat, late: nat, client: Client, m: Message, run: Run)
    returns (events: seq<Event>, results: seq<Option<Outcome>>)
    requires IsRun(run, c.window, max, late) && NeverFull(run, max)
    requires forall i :: 0 <= i < |run.steps| ==> InsertsFresh(c, client, m, run.steps[i])
    ensures IsPlain(c, max, late, events, results, run.stores)
    ensures |results| == |events| == |run.steps|
    ensures forall i :: 0 <= i < |events| ==>
              events[i] == ArrivalOf(m, run.steps[i]) && results[i] == Some(Accept(client))
  {
    var n := |run.steps|;
    events := seq(n, i requires 0 <= i < n => ArrivalOf(m, run.steps[i]));
    results := seq(n, _ => Some(Accept(client)));
    forall i | 0 <= i < n
      ensures StepOf(c, events[i], results[i]) == run.steps[i]
      ensures Happens(c, max, run.stores[i], events[i], results[i], run.stores[i + 1])
    {
      FreshHappens(c, max, run.stores[i], client, m, run.steps[i], run.stores[i + 1]);
    }
    ArrivalsInOrder(c, max, late, m, run, events);
    assert RunOf(c, events, results, run.stores).steps == run.steps;
  }

  lemma ArrivalsInOrder(c: Config, max: nat, late: nat, m: Message, run: Run, events: seq<Event>)
    requires IsRun(run, c.window, max, late) && |events| == |run.steps|
    requires forall i :: 0 <= i < |events| ==> run.steps[i].Insert? && events[i] == ArrivalOf(m, run.steps[i])
    ensures InOrder(events, late)
  {
    forall i, j | 0 <= i <= j < |events|
      ensures events[i].setAt <= events[j].setAt
    {
      assert run.steps[i].at <= run.steps[j].at;
    }
  }

  lemma SignedMessage(c: Config, client: Client, key: Bytes, ts: int) returns (m: Message)
    requires 0 < ts <= MAX_SAFE_TIMESTAMP
    requires c.validator(client.id) == Some(client) && client.id != [] && HasKey(client, key)
    requires forall k, text :: |c.mac(k, text)| == MAC_SIZE
    ensures m.headers.clientID == client.id && Stamp(m) == ts
    ensures forall now :: Drift(now, ts) <= c.window.skew ==> Judge(c, now, m) == Accept(client)
  {
    var r := Request([], [], map[], [], ts, [COLON]);
    var h := Headers(client.id, FormatInt(ts), r.nonce, LowerHex(c.mac(key, Canonical(c.sha, r))));
    assert SignedBy(c.sha, c.mac, client, r, h);
    m := Message(h, r.verb, r.path, r.query, r.body);
    ParseFormat(ts);
    forall now | Drift(now, ts) <= c.window.skew
      ensures Judge(c, now, m) == Accept(client)
    {
      SignedIsAccepted(c, client, r, h, now);
    }
  }
}
