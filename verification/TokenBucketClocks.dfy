/** When the shared bucket and the one in process decide alike: exactly as long as the clock has not
    gone back (plugins/ratelimit-redis/ratelimit.go:324-338, plugins/ratelimit/algo_token_bucket.go:15-35). */
module TokenBucketClocks {
  import opened TokenBucket
  import opened TokenBucketRuns

  /** The two buckets decide alike on the last request of a run. */
  predicate Alike(c: Config, run: seq<int>)
    requires c.Valid() && run != []
  {
    Admits(c, After(c, Front(run)), Last(run)) == Admits(c, ScriptAfter(c, Front(run)), Last(run))
  }

  /** The first n requests of a run, and from then on a clock that does not go back. */
  ghost predicate Continues(times: seq<int>, n: nat, more: seq<int>) {
    && n <= |times| && 0 < n + |more| && NonDecreasing(more)
    && (n > 0 && more != [] ==> times[n - 1] <= more[0])
  }

  /** At whatever request of the run one stops looking at its clock, all later decisions are the
      same. */
  ghost predicate AlwaysAlike(c: Config, times: seq<int>)
    requires c.Valid()
  {
    forall n: nat, more {:trigger Continues(times, n, more)} ::
      Continues(times, n, more) ==> Alike(c, times[..n] + more)
  }

  /** The buckets decide alike throughout a run, whatever follows on a steady clock, if and only if
      the clock of the run never goes back. */
  lemma AlikeIffClockNeverWentBack(c: Config, times: seq<int>)
    requires c.Valid()
    ensures AlwaysAlike(c, times) <==> NonDecreasing(times)
  {
    if NonDecreasing(times) {
      forall n: nat, more | Continues(times, n, more)
        ensures Alike(c, times[..n] + more)
      {
        SteadyIsAlike(c, times[..n] + more);
      }
    } else {
      var n := FirstStepBack(times);
      var more := Revealing(c, times[..n], times[n]);
      assert times[..n] + [times[n]] == times[..n + 1];
      assert Continues(times, n + 1, more);
      assert !Alike(c, times[..n + 1] + more);
    }
  }

  lemma SteadyIsAlike(c: Config, run: seq<int>)
    requires c.Valid() && run != [] && NonDecreasing(run)
    ensures Alike(c, run)
  {
    ScriptAgrees(c, Front(run));
  }

  lemma {:induction false} FirstStepBack(times: seq<int>) returns (n: nat)
    requires !NonDecreasing(times)
    ensures 0 < n < |times| && NonDecreasing(times[..n]) && times[n] < times[n - 1]
  {
    var m := |times| - 1;
    if NonDecreasing(Front(times)) {
      n := m;
      var i, j :| 0 <= i <= j < |times| && times[i] > times[j];
      assert j == m && Front(times)[i] <= Front(times)[m - 1];
    } else {
      n := FirstStepBack(Front(times));
      assert Front(times)[..n] == times[..n];
    }
  }

  // ---- what tells the buckets apart ----

  /** After a step back to t: drain both, then ask at the first tick at which the script has earned
      a token. */
  lemma Revealing(c: Config, front: seq<int>, t: int) returns (more: seq<int>)
    requires c.Valid() && front != [] && NonDecreasing(front) && t < Last(front)
    ensures more != [] && NonDecreasing(more) && t <= more[0]
    ensures !Alike(c, front + [t] + more)
  {
    var last := Last(front);
    var z := StepBack(c, front, t);
    var k := z.Floor;
    Drain(c, front + [t], z, last, t, k);
    var y := z - k as real;
    var d := Ceil(TicksToFill(c, 1.0 - y));
    OneTokenLater(c, y, last, t, d);
    more := seq(k, _ => t) + [t + d];
    Differ(c, front + [t] + seq(k, _ => t), y, last, t, t + d);
    Reassociate(front + [t], seq(k, _ => t), t + d);
  }

  lemma Differ(c: Config, run: seq<int>, y: real, last: int, t: int, now: int)
    requires c.Valid() && After(c, run) == Bucket(y, last) && ScriptAfter(c, run) == Bucket(y, t)
    requires Admits(c, Bucket(y, t), now) && !Admits(c, Bucket(y, last), now)
    ensures !Alike(c, run + [now])
  {
    assert Front(run + [now]) == run && Last(run + [now]) == now;
  }

  lemma Reassociate(a: seq<int>, b: seq<int>, x: int)
    ensures a + b + [x] == a + (b + [x])
  {
  }

  lemma StepBack(c: Config, front: seq<int>, t: int) returns (z: real)
    requires c.Valid() && front != [] && NonDecreasing(front) && t < Last(front)
    ensures 0.0 <= z
    ensures After(c, front + [t]) == Bucket(z, Last(front)) && ScriptAfter(c, front + [t]) == Bucket(z, t)
  {
    ScriptAgrees(c, front);
    LastIsKept(c, front);
    AfterIsSane(c, front + [t]);
    assert Front(front + [t]) == front;
    z := After(c, front + [t]).tokens;
  }

  lemma {:induction false} Drain(c: Config, run: seq<int>, z: real, last: int, t: int, k: nat)
    requires c.Valid() && t <= last && k as real <= z
    requires After(c, run) == Bucket(z, last) && ScriptAfter(c, run) == Bucket(z, t)
    ensures After(c, run + seq(k, _ => t)) == Bucket(z - k as real, last)
    ensures ScriptAfter(c, run + seq(k, _ => t)) == Bucket(z - k as real, t)
  {
    var longer := run + seq(k, _ => t);
    if k == 0 {
      assert longer == run;
    } else {
      Drain(c, run, z, last, t, k - 1);
      assert Front(longer) == run + seq(k - 1, _ => t) && Last(longer) == t;
    }
  }

  /** The first tick at which the script has a whole token is too early for the other bucket. */
  lemma OneTokenLater(c: Config, y: real, last: int, t: int, d: int)
    requires c.Valid() && 0.0 <= y < 1.0 && t < last && d == Ceil(TicksToFill(c, 1.0 - y))
    ensures d > 0
    ensures Admits(c, Bucket(y, t), t + d) && !Admits(c, Bucket(y, last), t + d)
  {
    FilledAfter(c, 1.0 - y, 0);
    FilledAfter(c, 1.0 - y, d);
    FilledAfter(c, 1.0 - y, d - 1);
    assert Earned(c, 0) == 0.0;
    EarnedGrows(c, t, t + d);
    if t + d > last {
      EarnedGrows(c, last, t + d);
      EarnedGrows(c, t + d - last, d - 1);
    }
  }

  // ---- and why it cannot be said of the last state alone ----

  lemma {:induction false} LastIsSome(c: Config, times: seq<int>)
    requires c.Valid() && times != []
    ensures After(c, times).Bucket? && After(c, times).last in times
    ensures ScriptAfter(c, times).Bucket? && ScriptAfter(c, times).last == Last(times)
  {
    if Front(times) != [] {
      LastIsSome(c, Front(times));
    }
  }

  /** Whatever the clock did, once the burst has refilled the buckets are in the same state again. */
  lemma ScriptCatchesUp(c: Config, times: seq<int>, now: int)
    requires c.Valid() && times != []
    requires forall i :: 0 <= i < |times| ==> times[i] <= now && c.burst as real <= Earned(c, now - times[i])
    ensures ScriptAfter(c, times + [now]) == After(c, times + [now]) == Bucket(c.burst as real - 1.0, now)
  {
    assert Front(times + [now]) == times;
    LastIsSome(c, times);
    AfterIsSane(c, times);
    ScriptIsSane(c, times);
    FullAgain(c, After(c, times), now);
    FullAgain(c, ScriptAfter(c, times), now);
  }

  lemma {:induction false} ScriptIsSane(c: Config, times: seq<int>)
    requires c.Valid()
    ensures Sane(c, ScriptAfter(c, times))
  {
    if times != [] {
      ScriptIsSane(c, Front(times));
      RefilledWithinBurst(c, ScriptAfter(c, Front(times)), Last(times));
    }
  }

  lemma FullAgain(c: Config, b: Bucket, now: int)
    requires c.Valid() && b.Bucket? && Sane(c, b) && b.last <= now && c.burst as real <= Earned(c, now - b.last)
    ensures Next(c, b, now) == ScriptNext(c, b, now) == Bucket(c.burst as real - 1.0, now)
  {
    EarnedGrows(c, b.last, now);
    assert Earned(c, 0) == 0.0;
  }
}
