/** What a token bucket admits over whole runs, how the shared bucket relates to the one in process,
    and when dropping an idle bucket goes unnoticed. */
module TokenBucketRuns {
  import opened TokenBucket

  function Front<T>(s: seq<T>): seq<T>
    requires s != []
  {
    s[..|s| - 1]
  }

  function Last<T>(s: seq<T>): T
    requires s != []
  {
    s[|s| - 1]
  }

  /** The bucket after requests at the given times. */
  function After(c: Config, times: seq<int>): Bucket
    requires c.Valid()
  {
    if times == [] then Absent else Next(c, After(c, Front(times)), Last(times))
  }

  /** The times of the admitted requests. */
  function Admitted(c: Config, times: seq<int>): seq<int>
    requires c.Valid()
  {
    if times == [] then []
    else
      Admitted(c, Front(times)) + (if Admits(c, After(c, Front(times)), Last(times)) then [Last(times)] else [])
  }

  lemma {:induction false} AfterIsSane(c: Config, times: seq<int>)
    requires c.Valid()
    ensures Sane(c, After(c, times)) && (times != [] ==> After(c, times).Bucket?)
  {
    if times != [] {
      AfterIsSane(c, Front(times));
      RefilledWithinBurst(c, After(c, Front(times)), Last(times));
    }
  }

  // ---- part one: any clock ----

  /** Whatever the clock does, what is admitted after the n-th request is paid for by the tokens
      then at hand and by the advance of `last`. */
  lemma {:induction false} AdmissionsArePaidFor(c: Config, times: seq<int>, n: nat)
    requires c.Valid() && 0 < n <= |times|
    ensures After(c, times).Bucket? && After(c, times[..n]).Bucket?
    ensures After(c, times[..n]).last <= After(c, times).last
    ensures |Admitted(c, times)| as real - |Admitted(c, times[..n])| as real + After(c, times).tokens
            <= After(c, times[..n]).tokens + Earned(c, After(c, times).last) - Earned(c, After(c, times[..n]).last)
  {
    if n == |times| {
      assert times[..n] == times;
    } else {
      assert Front(times)[..n] == times[..n];
      AdmissionsArePaidFor(c, Front(times), n);
      var b := After(c, Front(times));
      if Last(times) > b.last {
        EarnedGrows(c, b.last, Last(times));
      }
    }
  }

  /** Over any stretch of any run: at most the burst plus the refill earned by the advance of `last`. */
  lemma AdmissionBound(c: Config, times: seq<int>, n: nat)
    requires c.Valid() && 0 < n <= |times|
    ensures After(c, times).Bucket? && After(c, times[..n]).Bucket?
    ensures |Admitted(c, times)| as real - |Admitted(c, times[..n])| as real
            <= c.burst as real + Earned(c, After(c, times).last) - Earned(c, After(c, times[..n]).last)
  {
    AdmissionsArePaidFor(c, times, n);
    AfterIsSane(c, times);
    AfterIsSane(c, times[..n]);
  }

  /** And from the first request on. */
  lemma AdmissionFromStart(c: Config, times: seq<int>)
    requires c.Valid() && times != []
    ensures After(c, times).Bucket?
    ensures |Admitted(c, times)| as real <= c.burst as real + Earned(c, After(c, times).last) - Earned(c, times[0])
  {
    var first := times[..1];
    assert Front(first) == [] && Last(first) == times[0];
    assert Admitted(c, first) == [] + [times[0]] && After(c, first) == Bucket(c.burst as real - 1.0, times[0]);
    AdmissionsArePaidFor(c, times, 1);
    AfterIsSane(c, times);
  }

  // ---- part two: a clock that does not go back ----

  ghost predicate NonDecreasing(times: seq<int>) {
    forall i, j :: 0 <= i <= j < |times| ==> times[i] <= times[j]
  }

  /** There is room for x more admissions at time t: every window from an earlier admission holds
      them within the burst plus its refill. */
  ghost predicate Room(c: Config, admitted: seq<int>, t: int, x: real)
    requires c.Valid()
  {
    && x <= c.burst as real
    && forall k {:trigger admitted[k]} :: 0 <= k < |admitted| ==>
         x + (|admitted| - k) as real <= c.burst as real + Earned(c, t) - Earned(c, admitted[k])
  }

  lemma {:induction false} LastIsKept(c: Config, times: seq<int>)
    requires c.Valid() && NonDecreasing(times) && times != []
    ensures After(c, times).Bucket? && After(c, times).last == Last(times)
  {
    if Front(times) != [] {
      LastIsKept(c, Front(times));
      assert Last(Front(times)) <= Last(times);
    }
  }

  /** The tokens at hand are exactly the room the admitted requests leave. */
  lemma {:induction false} TokensAreRoom(c: Config, times: seq<int>, x: real)
    requires c.Valid() && NonDecreasing(times) && times != []
    ensures After(c, times).Bucket? && (x <= After(c, times).tokens <==> Room(c, Admitted(c, times), Last(times), x))
    decreases |times|, 1
  {
    var front, now := Front(times), Last(times);
    var b := After(c, front);
    var y := if Admits(c, b, now) then x + 1.0 else x;
    RefillIsRoom(c, times, y);
    if Admits(c, b, now) {
      RoomAfterAdmission(c, Admitted(c, front), now, x);
    } else {
      assert Admitted(c, times) == Admitted(c, front);
    }
  }

  lemma {:induction false} RefillIsRoom(c: Config, times: seq<int>, x: real)
    requires c.Valid() && NonDecreasing(times) && times != []
    ensures x <= Refilled(c, After(c, Front(times)), Last(times)) <==> Room(c, Admitted(c, Front(times)), Last(times), x)
    decreases |times|, 0
  {
    var front, now := Front(times), Last(times);
    if front != [] {
      var was := Last(front);
      var d := Earned(c, now) - Earned(c, was);
      EarnedGrows(c, was, now);
      LastIsKept(c, front);
      TokensAreRoom(c, front, x - d);
    }
  }

  lemma RoomAfterAdmission(c: Config, admitted: seq<int>, now: int, x: real)
    requires c.Valid()
    ensures Room(c, admitted + [now], now, x) <==> Room(c, admitted, now, x + 1.0)
  {
    var more := admitted + [now];
    assert more[|admitted|] == now;
    assert forall k :: 0 <= k < |admitted| ==> more[k] == admitted[k];
  }

  /** A request is admitted exactly when every window that ends with it and starts at an admitted
      request holds, with it, no more than the burst plus the window's refill. */
  lemma AdmissionIsExact(c: Config, times: seq<int>)
    requires c.Valid() && NonDecreasing(times) && times != []
    ensures Admits(c, After(c, Front(times)), Last(times)) <==> Room(c, Admitted(c, Front(times)), Last(times), 1.0)
  {
    RefillIsRoom(c, times, 1.0);
  }

  predicate WithinRate(c: Config, times: seq<int>, i: int, j: int)
    requires c.Valid() && 0 <= i <= j < |times|
  {
    (j - i + 1) as real <= c.burst as real + Earned(c, times[j]) - Earned(c, times[i])
  }

  /** Every interval holds at most burst + rate * length requests. */
  ghost predicate Conforming(c: Config, times: seq<int>)
    requires c.Valid()
  {
    forall i, j :: 0 <= i <= j < |times| ==> WithinRate(c, times, i, j)
  }

  /** A run is admitted in full if and only if it conforms. */
  lemma {:induction false} ConformingIffAllAdmitted(c: Config, times: seq<int>)
    requires c.Valid() && NonDecreasing(times)
    ensures Conforming(c, times) <==> Admitted(c, times) == times
  {
    if times != [] {
      var front := Front(times);
      ConformingIffAllAdmitted(c, front);
      assert times == front + [Last(times)];
      AdmissionIsExact(c, times);
      FewerAdmitted(c, front);
      if Admitted(c, front) == front {
        LastConforms(c, times);
        ConformsByLast(c, times);
      } else {
        assert |Admitted(c, front)| < |front| ==> |Admitted(c, times)| < |times|;
        NotAllOfFront(c, times);
      }
    }
  }

  lemma {:induction false} FewerAdmitted(c: Config, times: seq<int>)
    requires c.Valid()
    ensures |Admitted(c, times)| <= |times|
    ensures |Admitted(c, times)| == |times| ==> Admitted(c, times) == times
  {
    if times != [] {
      FewerAdmitted(c, Front(times));
    }
  }

  lemma NotAllOfFront(c: Config, times: seq<int>)
    requires c.Valid() && times != [] && !Conforming(c, Front(times))
    ensures !Conforming(c, times)
  {
    var i, j :| 0 <= i <= j < |Front(times)| && !WithinRate(c, Front(times), i, j);
    assert !WithinRate(c, times, i, j);
  }

  ghost predicate WithinRateAt(c: Config, times: seq<int>, n: int)
    requires c.Valid() && 0 <= n < |times|
  {
    forall i :: 0 <= i <= n ==> WithinRate(c, times, i, n)
  }

  lemma LastConforms(c: Config, times: seq<int>)
    requires c.Valid() && times != []
    ensures WithinRateAt(c, times, |times| - 1) <==> Room(c, Front(times), Last(times), 1.0)
  {
    var n := |times| - 1;
    if WithinRateAt(c, times, |times| - 1) {
      assert WithinRate(c, times, n, n);
      forall k | 0 <= k < n
        ensures 1.0 + (n - k) as real <= c.burst as real + Earned(c, Last(times)) - Earned(c, Front(times)[k])
      {
        assert WithinRate(c, times, k, n) && Front(times)[k] == times[k];
      }
    }
    if Room(c, Front(times), Last(times), 1.0) {
      forall i | 0 <= i < |times|
        ensures WithinRate(c, times, i, n)
      {
        if i < n {
          assert Front(times)[i] == times[i];
        }
      }
    }
  }

  lemma ConformsByLast(c: Config, times: seq<int>)
    requires c.Valid() && times != []
    ensures Conforming(c, times) <==> Conforming(c, Front(times)) && WithinRateAt(c, times, |times| - 1)
  {
    var front := Front(times);
    if Conforming(c, times) {
      forall i, j | 0 <= i <= j < |front|
        ensures WithinRate(c, front, i, j)
      {
        assert WithinRate(c, times, i, j);
      }
    }
    if Conforming(c, front) && WithinRateAt(c, times, |times| - 1) {
      forall i, j | 0 <= i <= j < |times|
        ensures WithinRate(c, times, i, j)
      {
        if j < |front| {
          assert WithinRate(c, front, i, j);
        }
      }
    }
  }

  /** What is admitted conforms, however many requests there were. */
  lemma {:induction false} AdmittedConform(c: Config, times: seq<int>)
    requires c.Valid() && NonDecreasing(times)
    ensures Conforming(c, Admitted(c, times))
  {
    if times != [] {
      var front, now := Front(times), Last(times);
      AdmittedConform(c, front);
      if Admits(c, After(c, front), now) {
        AdmissionIsExact(c, times);
        var more := Admitted(c, front) + [now];
        assert Front(more) == Admitted(c, front);
        LastConforms(c, more);
        ConformsByLast(c, more);
      } else {
        assert Admitted(c, times) == Admitted(c, front);
      }
    }
  }

  // ---- the shared bucket ----

  function ScriptAfter(c: Config, times: seq<int>): Bucket
    requires c.Valid()
  {
    if times == [] then Absent else ScriptNext(c, ScriptAfter(c, Front(times)), Last(times))
  }

  /** One request leaves the two buckets in the same state exactly when its time is not before the
      last one; the decision and the tokens agree in any case. */
  lemma ScriptAgreesOnStep(c: Config, b: Bucket, now: int)
    requires c.Valid()
    ensures ScriptNext(c, b, now) == Next(c, b, now) <==> b.Absent? || b.last <= now
    ensures ScriptNext(c, b, now).tokens == Next(c, b, now).tokens
  {
  }

  lemma {:induction false} ScriptAgrees(c: Config, times: seq<int>)
    requires c.Valid() && NonDecreasing(times)
    ensures ScriptAfter(c, times) == After(c, times)
  {
    if times != [] {
      ScriptAgrees(c, Front(times));
      if Front(times) != [] {
        LastIsKept(c, Front(times));
      }
    }
  }

  /** A clock that goes back and forth makes the script admit what the bucket in process denies:
      the time it went back over is earned twice. */
  lemma ScriptEarnsTwice(window: nat)
    requires window > 0
    ensures var c := Config(1, 1, window); var front := [window, 0];
            Admits(c, ScriptAfter(c, front), window) && !Admits(c, After(c, front), window)
  {
    var c := Config(1, 1, window);
    var (one, two) := ([window], [window, 0]);
    assert Front(one) == [] && Front(two) == one;
    assert After(c, one) == ScriptAfter(c, one) == Bucket(0.0, window);
    assert After(c, two) == Bucket(0.0, window);
    assert ScriptAfter(c, two) == Bucket(0.0, 0);
    assert Earned(c, 0) == 0.0;
    assert Earned(c, window) == 1.0;
  }

  // ---- dropping idle buckets ----

  /** A request, and whether the store dropped the bucket before it came. */
  datatype Visit = Visit(time: int, dropped: bool)

  function Times(visits: seq<Visit>): seq<int> {
    seq(|visits|, i requires 0 <= i < |visits| => visits[i].time)
  }

  /** The bucket a visit finds, after those before it. */
  function Found(c: Config, visits: seq<Visit>): Bucket
    requires c.Valid() && visits != []
    decreases |visits|
  {
    if Last(visits).dropped || Front(visits) == [] then Absent
    else Next(c, Found(c, Front(visits)), Last(Front(visits)).time)
  }

  /** A bucket is dropped only after it lay idle for `life` ticks, and the clock does not go back. */
  ghost predicate DropsIdle(visits: seq<Visit>, life: nat) {
    && NonDecreasing(Times(visits))
    && forall i :: 0 < i < |visits| && visits[i].dropped ==> visits[i - 1].time + life <= visits[i].time
  }

  /** The tokens each visit finds are those of a bucket that is never dropped. */
  ghost predicate Unnoticed(c: Config, visits: seq<Visit>)
    requires c.Valid()
  {
    visits != [] ==>
      Refilled(c, Found(c, visits), Last(visits).time) == Refilled(c, After(c, Front(Times(visits))), Last(visits).time)
  }

  lemma {:induction false} DropIsUnnoticed(c: Config, visits: seq<Visit>, life: nat)
    requires c.Valid() && DropsIdle(visits, life) && c.burst as real <= Earned(c, life)
    ensures Unnoticed(c, visits)
    decreases |visits|
  {
    if visits != [] && Front(visits) != [] {
      var front := Front(visits);
      assert Front(Times(visits)) == Times(front);
      DropIsUnnoticed(c, front, life);
      LastIsKept(c, Times(front));
      AfterIsSane(c, Times(front));
      var (was, now) := (Last(front).time, Last(visits).time);
      assert was == Times(visits)[|visits| - 2] <= Times(visits)[|visits| - 1] == now;
      if Last(visits).dropped {
        EarnedGrows(c, was, now);
        EarnedGrows(c, life, now - was);
      } else {
        FoundIsKept(c, front);
      }
    }
  }

  lemma FoundIsKept(c: Config, visits: seq<Visit>)
    requires c.Valid() && visits != [] && NonDecreasing(Times(visits))
    ensures Found(c, visits).Bucket? ==> Found(c, visits).last <= Last(visits).time
    decreases |visits|
  {
    if |visits| > 1 {
      assert Front(Times(visits)) == Times(Front(visits));
      assert Times(visits)[|visits| - 2] <= Times(visits)[|visits| - 1];
      FoundIsKept(c, Front(visits));
    }
  }

  /** Dropping buckets that lay idle for `life` ticks goes unnoticed in every run if and only if the
      burst refills in that time. */
  lemma DropsUnnoticedIffBurstRefills(c: Config, life: nat)
    requires c.Valid()
    ensures (forall visits :: DropsIdle(visits, life) ==> Unnoticed(c, visits)) <==> c.burst as real <= Earned(c, life)
  {
    if c.burst as real <= Earned(c, life) {
      forall visits | DropsIdle(visits, life)
        ensures Unnoticed(c, visits)
      {
        DropIsUnnoticed(c, visits, life);
      }
    } else {
      var visits := DropNoticed(c, life);
      assert !Unnoticed(c, visits);
    }
  }

  /** The burst at once, and one more request when the bucket has just been dropped. */
  lemma DropNoticed(c: Config, life: nat) returns (visits: seq<Visit>)
    requires c.Valid() && Earned(c, life) < c.burst as real
    ensures DropsIdle(visits, life) && !Unnoticed(c, visits)
  {
    var burst := seq(c.burst, i => Visit(0, false));
    visits := burst + [Visit(life, true)];
    var zeros := seq(c.burst, i => 0);
    assert Front(Times(visits)) == zeros;
    BurstEmpties(c, c.burst);
    EarnedGrows(c, 0, life);
  }

  lemma {:induction false} BurstEmpties(c: Config, n: nat)
    requires c.Valid() && n <= c.burst
    ensures n > 0 ==> After(c, seq(n, i => 0)) == Bucket((c.burst - n) as real, 0)
  {
    if n > 0 {
      BurstEmpties(c, n - 1);
      assert Front(seq(n, i => 0)) == seq(n - 1, i => 0);
    }
  }

  /** The lifetime of a Redis key is twice the window, or a second when that is longer; the
      in-process store defaults to twice the window. */
  function KeyLife(window: nat): nat {
    if window * 2 < 1000 then 1000 else window * 2
  }

  /** The condition in whole numbers. */
  lemma BurstRefills(c: Config, life: nat)
    requires c.Valid()
    ensures c.burst as real <= Earned(c, life) <==> c.burst * c.window <= c.limit * life
  {
    assert life * c.limit == c.limit * life;
    QuotientBound(c.burst, life * c.limit, c.window);
  }

  lemma QuotientBound(a: int, p: int, w: int)
    requires w > 0
    ensures a as real <= p as real / w as real <==> a * w <= p
  {
    var (x, y, z) := (a as real, p as real, w as real);
    Scale(x, y / z, z);
    assert y / z * z == y;
    assert (a * w) as real == x * z;
  }

  /** Both default lifetimes meet it when the burst is at most twice the limit. */
  lemma DefaultsRefill(c: Config, life: nat)
    requires c.Valid() && c.burst <= 2 * c.limit && (life == KeyLife(c.window) || life == 2 * c.window)
    ensures c.burst as real <= Earned(c, life)
  {
    ScaleInt(c.burst, 2 * c.limit, c.window);
    ScaleInt(2 * c.window, life, c.limit);
    var product := c.limit * c.window;
    assert 2 * c.limit * c.window == 2 * product == 2 * c.window * c.limit;
    assert life * c.limit == c.limit * life;
    BurstRefills(c, life);
  }

  lemma ScaleInt(a: int, b: int, k: nat)
    requires a <= b
    ensures a * k <= b * k
  {
    assert (b - a) * k >= 0;
  }
}
