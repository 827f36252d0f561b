/** Replay rejection over time: the skew check and the nonce store together, for every run of
    verifications and janitor sweeps (plugins/hmacauth/hmacauth.go:340-342, 553-607 and
    plugins/hmacauth/noncestore.go:95-177). */
module ReplayWindow {
  import opened Prelude
  import opened NonceStore

  const SECOND: int := 1_000_000_000
  const DEFAULT_SKEW_SECONDS: int := 300
  const HALF_64: int := 0x8000_0000_0000_0000

  /** Time.Unix: whole seconds, rounded down. */
  function Unix(t: Time): int {
    t / SECOND
  }

  function Drift(now: Time, ts: int): nat {
    if Unix(now) >= ts then Unix(now) - ts else ts - Unix(now)
  }

  /** Skew in seconds, nonce lifetime in nanoseconds, both after defaulting. */
  datatype Window = Window(skew: nat, ttl: int)

  /** What is left of a number in 64 bits, two's complement. */
  function Wrap64(n: int): int {
    (n + HALF_64) % (2 * HALF_64) - HALF_64
  }

  function DefaultTTL(skew: nat): int {
    2 * skew * SECOND + 60 * SECOND
  }

  /** The default lifetime is a 64-bit number of nanoseconds. */
  predicate FitsDuration(skew: nat) {
    DefaultTTL(skew) < HALF_64
  }

  /** The part of normalize that fixes the window; None is the panic on a negative setting. */
  function Normalize(skewSeconds: int, nonceTTL: int): (w: Option<Window>)
    ensures w.None? <==> skewSeconds < 0 || nonceTTL < 0
    ensures w.Some? ==> w.value.skew > 0 && (nonceTTL > 0 || FitsDuration(w.value.skew) ==> w.value.ttl > 0)
    ensures w.Some? && nonceTTL == 0 ==> (w.value.ttl == DefaultTTL(w.value.skew) <==> FitsDuration(w.value.skew))
  {
    if skewSeconds < 0 || nonceTTL < 0 then None
    else
      var skew := if skewSeconds == 0 then DEFAULT_SKEW_SECONDS else skewSeconds;
      WrapsLarge(DefaultTTL(skew));
      Some(Window(skew, if nonceTTL == 0 then Wrap64(DefaultTTL(skew)) else nonceTTL))
  }

  lemma WrapsLarge(n: nat)
    ensures Wrap64(n) == n <==> n < HALF_64
    ensures n >= HALF_64 ==> Wrap64(n) <= n - 2 * HALF_64
  {
    if n >= HALF_64 {
      var k := (n + HALF_64) / (2 * HALF_64);
      assert Wrap64(n) == n - k * (2 * HALF_64) && k >= 1;
    }
  }

  // ---- runs ----

  /** One verification that reached the nonce store (the skew check happened at `checked`, the
      insertion at `at`), one that ended before it, or one janitor sweep. */
  datatype Step =
    | Insert(key: Bytes, ts: int, checked: Time, at: Time, isNew: bool)
    | Rejected(at: Time)
    | Sweep(at: Time)

  datatype Run = Run(steps: seq<Step>, stores: seq<Nonces>)

  ghost predicate Next(w: Window, max: nat, m: Nonces, s: Step, m': Nonces) {
    match s
    case Insert(key, _, _, at, isNew) => Sets(m, max, key, w.ttl, at, isNew, m')
    case Rejected(_) => m' == m
    case Sweep(at) => m' == LiveOnly(m, at)
  }

  /** A run starts with an empty store and its clock never goes back.  Only requests that passed
      the skew check get as far as the store, and `late` bounds how long that takes them. */
  ghost predicate IsRun(r: Run, w: Window, max: nat, late: nat) {
    && |r.stores| == |r.steps| + 1 && r.stores[0] == map[]
    && (forall i :: 0 <= i < |r.steps| ==> Next(w, max, r.stores[i], r.steps[i], r.stores[i + 1]))
    && (forall i, j :: 0 <= i <= j < |r.steps| ==> r.steps[i].at <= r.steps[j].at)
    && (forall i :: 0 <= i < |r.steps| && r.steps[i].Insert? ==>
          && r.steps[i].checked <= r.steps[i].at <= r.steps[i].checked + late
          && Drift(r.steps[i].checked, r.steps[i].ts) <= w.skew)
  }

  predicate Accepted(r: Run, i: int) {
    0 <= i < |r.steps| && r.steps[i].Insert? && r.steps[i].isNew
  }

  /** No insertion finds the store full of live nonces. */
  ghost predicate NeverFull(r: Run, max: nat) {
    |r.stores| == |r.steps| + 1 &&
    forall i :: Accepted(r, i) && |r.stores[i]| >= max ==> LiveOnly(r.stores[i], r.steps[i].at) != r.stores[i]
  }

  // ---- the store is the history ----

  predicate LiveInsert(r: Run, w: Window, j: int, key: Bytes, now: Time) {
    Accepted(r, j) && r.steps[j].key == key && now < r.steps[j].at + w.ttl
  }

  /** Every stored nonce was put there by an accepted insertion. */
  ghost predicate FromHistory(r: Run, w: Window, i: nat)
    requires i < |r.stores|
  {
    forall k :: k in r.stores[i] ==> exists j ::
      j < i && Accepted(r, j) && r.steps[j].key == k && r.stores[i][k] == Nonce(r.steps[j].at + w.ttl, r.steps[j].at)
  }

  /** Every accepted insertion before step i that has not expired by the last step is stored. */
  ghost predicate Remembered(r: Run, w: Window, i: nat)
    requires i < |r.stores| && i <= |r.steps|
  {
    forall j :: j < i && Accepted(r, j) && r.steps[i - 1].at < r.steps[j].at + w.ttl ==>
      r.steps[j].key in r.stores[i] && r.steps[j].at + w.ttl <= r.stores[i][r.steps[j].key].expires
  }

  lemma {:induction false} StoredCameFromHistory(r: Run, w: Window, max: nat, late: nat, i: nat)
    requires IsRun(r, w, max, late) && i <= |r.steps|
    ensures FromHistory(r, w, i)
  {
    if i > 0 {
      StoredCameFromHistory(r, w, max, late, i - 1);
      assert Next(w, max, r.stores[i - 1], r.steps[i - 1], r.stores[i]);
      forall k | k in r.stores[i]
        ensures exists j :: j < i && Accepted(r, j) && r.steps[j].key == k
                  && r.stores[i][k] == Nonce(r.steps[j].at + w.ttl, r.steps[j].at)
      {
        if Accepted(r, i - 1) && r.steps[i - 1].key == k {
          assert r.stores[i][k] == Nonce(r.steps[i - 1].at + w.ttl, r.steps[i - 1].at);
        } else {
          assert k in r.stores[i - 1] && r.stores[i][k] == r.stores[i - 1][k];
        }
      }
    }
  }

  lemma {:induction false} LiveAreRemembered(r: Run, w: Window, max: nat, late: nat, i: nat)
    requires IsRun(r, w, max, late) && NeverFull(r, max) && max > 0 && i <= |r.steps|
    ensures Remembered(r, w, i)
  {
    if i > 0 {
      LiveAreRemembered(r, w, max, late, i - 1);
      assert Next(w, max, r.stores[i - 1], r.steps[i - 1], r.stores[i]);
      forall j | j < i && Accepted(r, j) && r.steps[i - 1].at < r.steps[j].at + w.ttl
        ensures r.steps[j].key in r.stores[i] && r.steps[j].at + w.ttl <= r.stores[i][r.steps[j].key].expires
      {
        if j < i - 1 {
          assert r.steps[i - 2].at <= r.steps[i - 1].at;
          StaysStored(w, max, r.stores[i - 1], r.steps[i - 1], r.stores[i], r.steps[j].key);
          assert r.steps[j].at <= r.steps[i - 1].at;
        }
      }
    }
  }

  /** A step that does not find the store full of live nonces keeps every nonce that is still live,
      or replaces it by one that lives longer. */
  lemma StaysStored(w: Window, max: nat, m: Nonces, s: Step, m': Nonces, k: Bytes)
    requires Next(w, max, m, s, m') && max > 0 && k in m && Live(m[k], s.at)
    requires s.Insert? && s.isNew && |m| >= max ==> LiveOnly(m, s.at) != m
    ensures k in m' && (m'[k] == m[k] || (s.Insert? && s.key == k && m'[k].expires == s.at + w.ttl))
  {
  }

  /** The store answers exactly as if it kept the whole history: a nonce is new if and only if no
      earlier acceptance of the same nonce is still within its lifetime. */
  lemma StoreIsHistory(r: Run, w: Window, max: nat, late: nat, i: nat)
    requires IsRun(r, w, max, late) && NeverFull(r, max) && max > 0
    requires i < |r.steps| && r.steps[i].Insert?
    ensures r.steps[i].isNew <==> !exists j :: j < i && LiveInsert(r, w, j, r.steps[i].key, r.steps[i].at)
  {
    StoredCameFromHistory(r, w, max, late, i);
    LiveAreRemembered(r, w, max, late, i);
    assert Next(w, max, r.stores[i], r.steps[i], r.stores[i + 1]);
    var key, at := r.steps[i].key, r.steps[i].at;
    if !r.steps[i].isNew {
      var j :| j < i && Accepted(r, j) && r.steps[j].key == key
               && r.stores[i][key] == Nonce(r.steps[j].at + w.ttl, r.steps[j].at);
      assert LiveInsert(r, w, j, key, at);
    } else {
      assert i > 0 ==> r.steps[i - 1].at <= at;
    }
  }

  // ---- no replay ----

  predicate Replayed(r: Run, i: int, j: int) {
    && i < j && Accepted(r, i) && Accepted(r, j)
    && r.steps[i].key == r.steps[j].key && r.steps[i].ts == r.steps[j].ts
  }

  /** The lifetime that outlasts every timestamp within the skew. */
  predicate LongEnough(w: Window, late: nat) {
    (2 * w.skew + 1) * SECOND + late <= w.ttl
  }

  lemma SecondInsertIsLive(w: Window, late: nat, ts: int, c1: Time, at1: Time, c2: Time, at2: Time)
    requires LongEnough(w, late) && Drift(c1, ts) <= w.skew && Drift(c2, ts) <= w.skew
    requires c1 <= at1 && at2 <= c2 + late
    ensures at2 < at1 + w.ttl
  {
    assert (ts - w.skew) * SECOND <= c1;
    assert c2 < (ts + w.skew + 1) * SECOND;
  }

  lemma NoReplay(r: Run, w: Window, max: nat, late: nat, i: int, j: int)
    requires LongEnough(w, late) && IsRun(r, w, max, late) && NeverFull(r, max) && max > 0
    ensures !Replayed(r, i, j)
  {
    if Replayed(r, i, j) {
      var a, b := r.steps[i], r.steps[j];
      SecondInsertIsLive(w, late, a.ts, a.checked, a.at, b.checked, b.at);
      assert LiveInsert(r, w, i, b.key, b.at);
      StoreIsHistory(r, w, max, late, j);
    }
  }

  ghost predicate NeverReplays(w: Window, max: nat, late: nat) {
    forall r: Run, i: int, j: int :: IsRun(r, w, max, late) && NeverFull(r, max) ==> !Replayed(r, i, j)
  }

  /** A timestamp at the far end of the skew, checked in its first and in its last nanosecond. */
  function WidestReplay(w: Window, late: nat, key: Bytes): Run {
    var ts := w.skew + 1;
    var (first, last) := (SECOND, (2 * w.skew + 2) * SECOND - 1);
    Run([Insert(key, ts, first, first, true), Insert(key, ts, last, last + late, true)],
        [map[], map[key := Nonce(first + w.ttl, first)], map[key := Nonce(last + late + w.ttl, last + late)]])
  }

  lemma WidestReplayIsRun(w: Window, max: nat, late: nat, key: Bytes)
    requires !LongEnough(w, late) && max > 0
    ensures var r := WidestReplay(w, late, key);
            IsRun(r, w, max, late) && NeverFull(r, max) && Replayed(r, 0, 1)
  {
    var r := WidestReplay(w, late, key);
    var (m, s) := (r.stores[1], r.steps[1]);
    assert Unix(r.steps[0].checked) == 1 && Unix(s.checked) == 2 * w.skew + 1;
    assert MakesRoom(map[], max, SECOND, map[]);
    assert LiveOnly(m, s.at) == map[] != m by {
      assert key in m;
    }
    assert |m| == 1;
    assert MakesRoom(m, max, s.at, if max == 1 then map[] else m);
    assert Next(w, max, m, s, r.stores[2]);
  }

  /** Replay protection holds for every run exactly when the nonce outlives the window. */
  lemma ReplayProtectionIsExact(w: Window, max: nat, late: nat)
    requires max > 0
    ensures NeverReplays(w, max, late) <==> LongEnough(w, late)
  {
    if LongEnough(w, late) {
      forall r: Run, i: int, j: int | IsRun(r, w, max, late) && NeverFull(r, max)
        ensures !Replayed(r, i, j)
      {
        NoReplay(r, w, max, late, i, j);
      }
    } else {
      WidestReplayIsRun(w, max, late, []);
      assert Replayed(WidestReplay(w, late, []), 0, 1);
    }
  }

  /** With the default lifetime the insertion may lag the skew check by 59 seconds and no more; a
      skew so large that the lifetime overflows leaves nothing protected. */
  lemma DefaultAllowsFiftyNineSeconds(skewSeconds: nat, max: nat, late: nat)
    requires max > 0
    ensures var w := Normalize(skewSeconds, 0).value;
            NeverReplays(w, max, late) <==> FitsDuration(w.skew) && late <= 59 * SECOND
  {
    var w := Normalize(skewSeconds, 0).value;
    ReplayProtectionIsExact(w, max, late);
    WrapsLarge(DefaultTTL(w.skew));
  }

  /** The largest skew whose default lifetime does not overflow is some 146 years. */
  lemma FitsDurationIff(skew: nat)
    ensures FitsDuration(skew) <==> skew <= 4_611_685_988
  {
  }
}
