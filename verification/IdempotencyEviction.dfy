/** What the eviction of a held entry does to the requests asleep on it: its holder's Unlock finds no
    entry under the key, or another one, and nothing but their own cancellation ends their wait
    (plugins/idempotency/store.go:139-269). */
module IdempotencyEviction {
  import opened Prelude
  import opened IdempotencyStore
  import opened IdempotencyProtocol
  import opened IdempotencySafety

  /** Request `w` waits, asleep or about to look, on an entry that no key leads to and that nobody
      has released. */
  ghost predicate Stranded(s: State, w: Rid, e: nat) {
    && Sane(s) && e < |s.store.heap| && (forall k :: k in s.store.entries ==> s.store.entries[k] != e)
    && s.store.heap[e].holder && !s.store.heap[e].released
    && w in s.reqs && (At(s, w) == Parked(e, false) || At(s, w) == Woken(e, false))
  }

  /** Evicting an entry that is held strands everyone asleep on it. */
  lemma EvictionStrands(c: Config, s: State, a: Action, w: Rid, e: nat)
    requires Inv(c, s) && Enabled(s, a) && EvictsHeld(s, a)
    requires w in s.reqs && At(s, w) == Parked(e, false) && s.store.entries[s.reqs[a.r].key] == e
    ensures Stranded(Do(c, s, a), w, e)
  {
    var key := s.reqs[a.r].key;
    assert EntryOk(c, s, e) && KeyOk(s, key);
    forall k | k in s.store.entries && k != key
      ensures s.store.entries[k] != e
    {
      assert KeyOk(s, k);
    }
    if a.Get? {
      assert s.store.entries - {key} == AfterGet(s.store, key, s.now).entries;
    }
  }

  lemma RequestStepStrands(c: Config, s: State, a: Action, w: Rid, e: nat)
    requires Stranded(s, w, e) && Enabled(s, a)
    requires a.Arrive? || a.Finish? || a.Panic? || a.Flush? || a.Report? || a.Tick?
    ensures Stranded(Do(c, s, a), w, e)
  {
  }

  lemma StoreStepStrands(c: Config, s: State, a: Action, w: Rid, e: nat)
    requires Stranded(s, w, e) && Enabled(s, a) && (a.Get? || a.Lock?)
    ensures Stranded(Do(c, s, a), w, e)
  {
  }

  lemma SaveStepStrands(c: Config, s: State, a: Action, w: Rid, e: nat)
    requires Stranded(s, w, e) && Enabled(s, a) && (a.Save? || a.Sweep?)
    ensures Stranded(Do(c, s, a), w, e)
  {
  }

  lemma UnlockStrands(c: Config, s: State, r: Rid, w: Rid, e: nat)
    requires Stranded(s, w, e) && r in s.reqs && At(s, r).Unlocking?
    ensures Stranded(DoUnlock(s, r), w, e)
  {
  }

  lemma WaiterStepStrands(c: Config, s: State, a: Action, w: Rid, e: nat)
    requires Stranded(s, w, e) && Enabled(s, a)
    requires a.BeginWait? || a.Wake? || a.Stray? || (a.Cancel? && a.r != w)
    ensures Stranded(Do(c, s, a), w, e)
  {
  }

  /** No step of anybody gets it out, short of its own cancellation. */
  lemma StaysStranded(c: Config, s: State, a: Action, w: Rid, e: nat)
    requires Stranded(s, w, e) && Enabled(s, a) && a != Cancel(w)
    ensures Stranded(Do(c, s, a), w, e)
  {
    match a
    case Get(_) | Lock(_) => StoreStepStrands(c, s, a, w, e);
    case Save(_) | Sweep => SaveStepStrands(c, s, a, w, e);
    case Unlock(r) => UnlockStrands(c, s, r, w, e);
    case BeginWait(_) | Wake(_) | Stray(_) | Cancel(_) => WaiterStepStrands(c, s, a, w, e);
    case _ => RequestStepStrands(c, s, a, w, e);
  }

  /** In every run: whoever slept on an entry that was evicted while held never ends, unless its own
      caller gives up; and the holder's Unlock does not wake it. */
  lemma {:induction false} SleepersOfEvictedNeverEnd(c: Config, ss: seq<State>, steps: seq<Action>, i: nat, j: nat,
                                                     w: Rid, e: nat)
    requires IsRun(c, ss, steps) && i < j < |ss| && Inv(c, ss[i]) && EvictsHeld(ss[i], steps[i])
    requires w in ss[i].reqs && At(ss[i], w) == Parked(e, false)
    requires ss[i].store.entries[ss[i].reqs[steps[i].r].key] == e
    requires Cancel(w) !in steps[i + 1..j]
    ensures Stranded(ss[j], w, e) && !At(ss[j], w).Done?
  {
    EvictionStrands(c, ss[i], steps[i], w, e);
    RunStrands(c, ss, steps, i + 1, j, w, e);
  }

  lemma {:induction false} RunStrands(c: Config, ss: seq<State>, steps: seq<Action>, i: nat, j: nat, w: Rid, e: nat)
    requires IsRun(c, ss, steps) && i <= j < |ss| && Stranded(ss[i], w, e) && Cancel(w) !in steps[i..j]
    ensures Stranded(ss[j], w, e)
    decreases j - i
  {
    if i < j {
      assert steps[i] in steps[i..j] && steps[i + 1..j] == steps[i..j][1..];
      StaysStranded(c, ss[i], steps[i], w, e);
      RunStrands(c, ss, steps, i + 1, j, w, e);
    }
  }

  lemma {:induction false} ExecStrands(c: Config, s: State, steps: seq<Action>, w: Rid, e: nat)
    requires Stranded(s, w, e) && Exec(c, s, steps).Some? && Cancel(w) !in steps
    ensures Stranded(Exec(c, s, steps).value, w, e)
    decreases |steps|
  {
    if steps != [] {
      StaysStranded(c, s, steps[0], w, e);
      ExecStrands(c, Do(c, s, steps[0]), steps[1..], w, e);
    }
  }

  /** It happens: from every good state in which a request has saved its response but not yet
      unlocked, a slow clock and one more request strand everyone who waits for that response, and
      when its holder has unlocked they still wait, whatever comes after. */
  lemma LateUnlockStrandsSleepers(c: Config, s: State, h: Rid, w: Rid, r: Rid) returns (steps: seq<Action>)
    requires Inv(c, s) && h in s.reqs && At(s, h).Unlocking? && s.store.heap[At(s, h).e].resp.Some?
    requires w in s.reqs && At(s, w) == Parked(At(s, h).e, false) && r !in s.reqs
    ensures var t := Exec(c, s, steps);
            && t.Some? && h in t.value.reqs && At(t.value, h) == Done(Ran) && Stranded(t.value, w, At(s, h).e)
            && forall more :: Cancel(w) !in more && Exec(c, s, steps + more).Some? ==>
                 Stranded(Exec(c, s, steps + more).value, w, At(s, h).e)
  {
    var t;
    steps, t := UpToLateUnlock(c, s, h, w, r);
    forall more | Cancel(w) !in more && Exec(c, s, steps + more).Some?
      ensures Stranded(Exec(c, s, steps + more).value, w, At(s, h).e)
    {
      ExecThen(c, s, steps, more);
      ExecStrands(c, t, more, w, At(s, h).e);
    }
  }

  lemma UpToLateUnlock(c: Config, s: State, h: Rid, w: Rid, r: Rid) returns (steps: seq<Action>, t: State)
    requires Inv(c, s) && h in s.reqs && At(s, h).Unlocking? && s.store.heap[At(s, h).e].resp.Some?
    requires w in s.reqs && At(s, w) == Parked(At(s, h).e, false) && r !in s.reqs
    ensures Exec(c, s, steps) == Some(t) && h in t.reqs && At(t, h) == Done(Ran) && Stranded(t, w, At(s, h).e)
  {
    var e := At(s, h).e;
    var tick, s1 := Late(c, s, h);
    Onwards(c, s, [], s, tick);
    var looks, s2 := EvictedByGet(c, s1, h, w, r, e);
    ExecThen(c, s, [] + [tick], looks);
    steps, t := UnlockedLate(c, s, [] + [tick] + looks, s2, h, w, e);
  }

  lemma UnlockedLate(c: Config, s: State, front: seq<Action>, s': State, h: Rid, w: Rid, e: nat)
    returns (steps: seq<Action>, t: State)
    requires Exec(c, s, front) == Some(s') && Stranded(s', w, e) && h in s'.reqs && At(s', h).Unlocking?
    ensures Exec(c, s, steps) == Some(t) && h in t.reqs && At(t, h) == Done(Ran) && Stranded(t, w, e)
  {
    UnlockStrands(c, s', h, w, e);
    Onwards(c, s, front, s', Unlock(h));
    steps, t := front + [Unlock(h)], DoUnlock(s', h);
  }

  /** A new request looks under the key and deletes the expired entry, whoever holds it. */
  lemma EvictedByGet(c: Config, s: State, h: Rid, w: Rid, r: Rid, e: nat) returns (steps: seq<Action>, t: State)
    requires Inv(c, s) && h in s.reqs && At(s, h).Unlocking? && r !in s.reqs && e < |s.store.heap|
    requires s.store.heap[e].holder && Expired(s.store.heap[e], s.now)
    requires s.reqs[h].key in s.store.entries && s.store.entries[s.reqs[h].key] == e
    requires w in s.reqs && At(s, w) == Parked(e, false)
    ensures Exec(c, s, steps) == Some(t) && Stranded(t, w, e) && h in t.reqs && At(t, h).Unlocking?
  {
    var arrive := Arrive(r, s.reqs[h].key, [], None, map[]);
    var s2 := Do(c, s, arrive);
    KeepsArrive(c, s, r, s2.reqs[r]);
    Onwards(c, s, [], s, arrive);
    EvictionStrands(c, s2, Get(r), w, e);
    Onwards(c, s, [] + [arrive], s2, Get(r));
    steps, t := [] + [arrive] + [Get(r)], DoGet(c, s2, r);
  }

  /** The clock passes the expiry of the saved response. */
  lemma Late(c: Config, s: State, h: Rid) returns (tick: Action, t: State)
    requires Inv(c, s) && h in s.reqs && At(s, h).Unlocking? && s.store.heap[At(s, h).e].resp.Some?
    ensures tick.Tick? && t == Do(c, s, tick) && Inv(c, t) && t.store == s.store && t.reqs == s.reqs
    ensures var v := t.store.heap[At(s, h).e]; v.holder && Expired(v, t.now)
    ensures s.reqs[h].key in t.store.entries && t.store.entries[s.reqs[h].key] == At(s, h).e
  {
    assert ReqOk(c, s, h) && EntryOk(c, s, At(s, h).e);
    var expiry := s.store.heap[At(s, h).e].expiry.value;
    var d := if s.now <= expiry then expiry - s.now + 1 else 0;
    tick, t := Tick(d), s.(now := s.now + d);
    KeepsTick(c, s, d);
  }
}
