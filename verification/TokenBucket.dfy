/** The token bucket, in process (plugins/ratelimit/algo_token_bucket.go:11-48) and as a Redis
    script (plugins/ratelimit-redis/ratelimit.go:309-361).  Tokens are reals; time counts ticks,
    which are nanoseconds in process and milliseconds in Redis. */
module TokenBucket {
  import opened Prelude

  /** `limit` tokens refill over `window` ticks, up to `burst`. */
  datatype Config = Config(limit: nat, burst: nat, window: nat) {
    predicate Valid() {
      0 < limit && 0 < burst && 0 < window
    }
  }

  /** What a clock that shows t has earned since tick 0. */
  function Earned(c: Config, t: int): real
    requires c.Valid()
  {
    (t * c.limit) as real / c.window as real
  }

  lemma EarnedGrows(c: Config, s: int, t: int)
    requires c.Valid() && s <= t
    ensures Earned(c, s) <= Earned(c, t)
    ensures Earned(c, t) - Earned(c, s) == Earned(c, t - s)
  {
    var (w, x, y) := (c.window as real, (s * c.limit) as real, (t * c.limit) as real);
    assert (t - s) * c.limit == t * c.limit - s * c.limit;
    assert y / w - x / w == (y - x) / w;
    assert s * c.limit <= t * c.limit;
    assert (y - x) / w >= 0.0;
  }

  datatype Bucket = Absent | Bucket(tokens: real, last: int)

  predicate Sane(c: Config, b: Bucket) {
    b.Bucket? ==> 0.0 <= b.tokens <= c.burst as real
  }

  function MinReal(a: real, b: real): real {
    if a < b then a else b
  }

  /** The tokens at hand when a request arrives.  A clock that went back earns nothing. */
  function Refilled(c: Config, b: Bucket, now: int): real
    requires c.Valid()
  {
    if b.Absent? then c.burst as real
    else if now <= b.last then b.tokens
    else MinReal(c.burst as real, b.tokens + (Earned(c, now) - Earned(c, b.last)))
  }

  predicate Admits(c: Config, b: Bucket, now: int)
    requires c.Valid()
  {
    Refilled(c, b, now) >= 1.0
  }

  function Left(c: Config, b: Bucket, now: int): real
    requires c.Valid()
  {
    Refilled(c, b, now) - (if Admits(c, b, now) then 1.0 else 0.0)
  }

  /** The bucket in process never moves `last` back ... */
  function Next(c: Config, b: Bucket, now: int): Bucket
    requires c.Valid()
  {
    Bucket(Left(c, b, now), if b.Absent? || now > b.last then now else b.last)
  }

  /** ... the script always records the time it was given. */
  function ScriptNext(c: Config, b: Bucket, now: int): Bucket
    requires c.Valid()
  {
    Bucket(Left(c, b, now), now)
  }

  lemma RefilledWithinBurst(c: Config, b: Bucket, now: int)
    requires c.Valid() && Sane(c, b)
    ensures 0.0 <= Refilled(c, b, now) <= c.burst as real
    ensures b.Bucket? ==> b.tokens <= Refilled(c, b, now)
  {
    if b.Bucket? && now > b.last {
      EarnedGrows(c, b.last, now);
    }
  }

  // ---- when the bucket is full again ----

  /** Ticks until a bucket that lacks `missing` tokens is full. */
  function TicksToFill(c: Config, missing: real): real
    requires c.Valid()
  {
    missing * c.window as real / c.limit as real
  }

  lemma FilledAfter(c: Config, missing: real, ticks: int)
    requires c.Valid()
    ensures missing <= Earned(c, ticks) <==> TicksToFill(c, missing) <= ticks as real
  {
    var (w, l, t) := (c.window as real, c.limit as real, ticks as real);
    assert (ticks * c.limit) as real == t * l;
    Scale(missing, t * l / w, w);
    assert t * l / w * w == t * l;
    Scale(missing * w / l, t, l);
    assert missing * w / l * l == missing * w;
  }

  lemma Scale(a: real, b: real, k: real)
    requires k > 0.0
    ensures a <= b <==> a * k <= b * k
  {
    if a <= b {
      assert (b - a) * k >= 0.0;
    } else {
      assert (a - b) * k > 0.0;
    }
  }

  function Ceil(x: real): int {
    -(-x).Floor
  }

  /** The reset time of the script is the first tick at which an untouched bucket is full. */
  lemma FullAtReset(c: Config, b: Bucket, d: nat)
    requires c.Valid() && b.Bucket? && Sane(c, b)
    ensures Refilled(c, b, b.last + d) == c.burst as real <==> d >= Ceil(TicksToFill(c, c.burst as real - b.tokens))
  {
    EarnedGrows(c, b.last, b.last + d);
    FilledAfter(c, c.burst as real - b.tokens, d);
    FilledAfter(c, c.burst as real - b.tokens, 0);
  }

  /** The reset time in process is cut to a whole nanosecond: at most one tick early. */
  lemma FullOneTickAfterReset(c: Config, b: Bucket, d: nat)
    requires c.Valid() && b.Bucket? && Sane(c, b)
    requires d == TicksToFill(c, c.burst as real - b.tokens).Floor
    ensures Refilled(c, b, b.last + d + 1) == c.burst as real
    ensures Refilled(c, b, b.last + d) + Earned(c, 1) >= c.burst as real
  {
    var missing := c.burst as real - b.tokens;
    FilledAfter(c, missing, d + 1);
    EarnedGrows(c, b.last, b.last + d + 1);
    EarnedGrows(c, b.last, b.last + d);
    EarnedGrows(c, d, d + 1);
  }

  /** The reset time that Decide reports for a request. */
  function ReportedReset(c: Config, b: Bucket, now: int): int
    requires c.Valid()
  {
    now + TicksToFill(c, c.burst as real - Left(c, b, now)).Floor
  }

  /** It counts from the request and not from `last`: too early by what the clock went back, and by
      the part of a tick that is cut off. */
  lemma ReportedResetIsEarly(c: Config, b: Bucket, now: int)
    requires c.Valid() && Sane(c, b)
    ensures var next := Next(c, b, now);
            var ticks := TicksToFill(c, c.burst as real - next.tokens);
            var full := next.last + Ceil(ticks);
            && (forall t :: t >= next.last ==> (Refilled(c, next, t) == c.burst as real <==> t >= full))
            && full - ReportedReset(c, b, now)
               == (if b.Bucket? && now < b.last then b.last - now else 0) + (if ticks == ticks.Floor as real then 0 else 1)
  {
    RefilledWithinBurst(c, b, now);
    var next := Next(c, b, now);
    forall t | t >= next.last
      ensures Refilled(c, next, t) == c.burst as real
         <==> t >= next.last + Ceil(TicksToFill(c, c.burst as real - next.tokens))
    {
      FullAtReset(c, next, t - next.last);
    }
    CeilIsNear(TicksToFill(c, c.burst as real - next.tokens));
  }

  lemma CeilIsNear(x: real)
    ensures Ceil(x) - x.Floor == if x == x.Floor as real then 0 else 1
  {
  }

  // ---- the two implementations ----

  /** The in-process entry of one key; no `last` stands for Go's zero time. */
  class Entry {
    var tokens: real
    var last: Option<int>

    constructor ()
      ensures State() == Absent
    {
      tokens, last := 0.0, None;
    }

    function State(): Bucket
      reads this
    {
      if last.None? then Absent else Bucket(tokens, last.value)
    }

    /** tokenBucketDecide. */
    method Decide(c: Config, now: int) returns (admit: bool, remaining: int, reset: int)
      requires c.Valid() && Sane(c, State())
      modifies this
      ensures State() == Next(c, old(State()), now) && Sane(c, State())
      ensures admit <==> Admits(c, old(State()), now)
      ensures remaining == tokens.Floor
      ensures reset == ReportedReset(c, old(State()), now) == now + TicksToFill(c, c.burst as real - tokens).Floor
    {
      RefilledWithinBurst(c, State(), now);
      var capacity := c.burst as real;
      if last.None? {
        tokens := capacity;
        last := Some(now);
      } else {
        var elapsed := now - last.value;
        if elapsed > 0 {
          EarnedGrows(c, last.value, now);
          tokens := tokens + Earned(c, elapsed);
          if tokens > capacity {
            tokens := capacity;
          }
          last := Some(now);
        }
      }
      admit := false;
      if tokens >= 1.0 {
        tokens := tokens - 1.0;
        admit := true;
      }
      remaining := tokens.Floor;
      if remaining < 0 {
        remaining := 0;
      }
      reset := now + TicksToFill(c, capacity - tokens).Floor;
    }
  }

  /** The Redis hash of one key. */
  class Hash {
    var tokens: Option<real>
    var updated: Option<int>

    constructor ()
      ensures State() == Absent
    {
      tokens, updated := None, None;
    }

    function State(): Bucket
      reads this
    {
      if tokens.None? || updated.None? then Absent else Bucket(tokens.value, updated.value)
    }

    /** The script, but for the expiry that it sets. */
    method Script(c: Config, now: int) returns (allowed: int, remaining: int, reset: int)
      requires c.Valid() && Sane(c, State()) && tokens.Some? == updated.Some?
      modifies this
      ensures State() == ScriptNext(c, old(State()), now) && Sane(c, State()) && tokens.Some? == updated.Some?
      ensures allowed == if Admits(c, old(State()), now) then 1 else 0
      ensures tokens.Some? && remaining == tokens.value.Floor
      ensures reset == now + Ceil(TicksToFill(c, c.burst as real - tokens.value))
    {
      RefilledWithinBurst(c, State(), now);
      var burst := c.burst as real;
      var level, since := burst, now;
      if tokens.Some? {
        level, since := tokens.value, updated.value;
      }
      var elapsed := now - since;
      if elapsed < 0 {
        elapsed := 0;
      }
      if since <= now {
        EarnedGrows(c, since, now);
      }
      var refill := Earned(c, elapsed);
      level := MinReal(burst, level + refill);
      allowed := 0;
      if level >= 1.0 {
        level := level - 1.0;
        allowed := 1;
      }
      tokens, updated := Some(level), Some(now);
      var missing := burst - level;
      reset := now + Ceil(TicksToFill(c, missing));
      remaining := level.Floor;
    }
  }
}
