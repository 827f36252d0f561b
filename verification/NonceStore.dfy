/** The bounded in-memory nonce store (plugins/hmacauth/noncestore.go). */
module NonceStore {
  import opened Prelude

  type Time = int  // nanoseconds

  datatype Nonce = Nonce(expires: Time, added: Time)

  type Nonces = map<Bytes, Nonce>

  predicate Live(n: Nonce, now: Time) {
    now < n.expires
  }

  /** The entries that have not expired. */
  function LiveOnly(m: Nonces, now: Time): Nonces {
    map k | k in m && Live(m[k], now) :: m[k]
  }

  predicate Oldest(m: Nonces, k: Bytes) {
    k in m && forall k' :: k' in m ==> m[k].added <= m[k'].added
  }

  /** Eviction removes every expired entry, or, when there is none, one oldest entry. */
  ghost predicate Evicts(m: Nonces, now: Time, m': Nonces) {
    if LiveOnly(m, now) != m then m' == LiveOnly(m, now)
    else if m == map[] then m' == m
    else exists k :: Oldest(m, k) && m' == m - {k}
  }

  ghost predicate MakesRoom(m: Nonces, max: nat, now: Time, n: Nonces) {
    if |m| >= max then Evicts(m, now, n) else n == m
  }

  /** SetNX: fresh exactly when no live entry is stored under the key; an insertion into a full
      store evicts first.  The choice among equally old entries is left open. */
  ghost predicate Sets(m: Nonces, max: nat, key: Bytes, ttl: int, now: Time, isNew: bool, m': Nonces) {
    && isNew == !(key in m && Live(m[key], now))
    && if !isNew then m' == m
       else exists n :: MakesRoom(m, max, now, n) && m' == n[key := Nonce(now + ttl, now)]
  }

  class MemoryNonceStore {
    var entries: Nonces
    const max: nat

    constructor (maxEntries: nat)
      requires maxEntries > 0
      ensures entries == map[] && max == maxEntries
    {
      entries, max := map[], maxEntries;
    }

    /** None when the caller's context is already done. */
    method SetNX(cancelled: bool, key: Bytes, ttl: int, now: Time) returns (r: Option<bool>)
      modifies this
      ensures r.None? <==> cancelled
      ensures cancelled ==> entries == old(entries)
      ensures !cancelled ==> Sets(old(entries), max, key, ttl, now, r.value, entries)
    {
      if cancelled {
        return None;
      }
      if key in entries {
        if now < entries[key].expires {
          return Some(false);
        }
      }
      if |entries| >= max {
        EvictLocked(now);
      }
      assert MakesRoom(old(entries), max, now, entries);
      entries := entries[key := Nonce(now + ttl, now)];
      return Some(true);
    }

    method EvictLocked(now: Time)
      modifies this
      ensures Evicts(old(entries), now, entries)
    {
      if |entries| == 0 {
        return;
      }
      var removed := RemoveExpired(now);
      if removed {
        return;
      }
      var todo := entries.Keys;
      var oldestKey: Bytes := [];
      var oldestAt := 0;
      var first := true;
      while todo != {}
        invariant todo <= entries.Keys && first == (todo == entries.Keys)
        invariant !first ==> oldestKey in entries && oldestAt == entries[oldestKey].added
        invariant !first ==> forall k :: k in entries.Keys - todo ==> oldestAt <= entries[k].added
        decreases |todo|
      {
        var k :| k in todo;
        todo := todo - {k};
        if first || entries[k].added < oldestAt {
          oldestKey, oldestAt, first := k, entries[k].added, false;
        }
      }
      assert Oldest(entries, oldestKey);
      entries := entries - {oldestKey};
    }

    /** The loop shared by eviction and janitor. */
    method RemoveExpired(now: Time) returns (removed: bool)
      modifies this
      ensures entries == LiveOnly(old(entries), now)
      ensures removed <==> LiveOnly(old(entries), now) != old(entries)
    {
      removed := false;
      var todo := entries.Keys;
      while todo != {}
        invariant todo <= entries.Keys <= old(entries).Keys
        invariant entries == map k | k in old(entries) && (k in todo || Live(old(entries)[k], now)) :: old(entries)[k]
        invariant removed <==> exists k :: k in old(entries).Keys - todo && !Live(old(entries)[k], now)
        decreases |todo|
      {
        var k :| k in todo;
        todo := todo - {k};
        if !(now < entries[k].expires) {
          entries := entries - {k};
          removed := true;
        }
      }
    }

    method JanitorSweep(now: Time)
      modifies this
      ensures entries == LiveOnly(old(entries), now)
    {
      var _ := RemoveExpired(now);
    }
  }

  // ---- what one call does to the store ----

  /** The store never outgrows its maximum, and a live entry disappears only from a store that is
      full of live entries, to make room for a fresh key, and then it is an oldest one. */
  lemma SetsKeepsBound(m: Nonces, max: nat, key: Bytes, ttl: int, now: Time, isNew: bool, m': Nonces)
    requires max > 0 && |m| <= max && Sets(m, max, key, ttl, now, isNew, m')
    ensures |m'| <= max
    ensures forall k :: k in m && Live(m[k], now) ==>
              (k in m' && m'[k] == m[k]) || (isNew && |m| == max && LiveOnly(m, now) == m && Oldest(m, k))
  {
    if isNew {
      var n :| MakesRoom(m, max, now, n) && m' == n[key := Nonce(now + ttl, now)];
      if |m| >= max {
        EvictsShrinks(m, now, n);
      }
      assert m'.Keys == n.Keys + {key};
      assert |m'.Keys| <= |n.Keys| + 1;
    }
  }

  lemma EvictsShrinks(m: Nonces, now: Time, m': Nonces)
    requires m != map[] && Evicts(m, now, m')
    ensures |m'| < |m|
  {
    if LiveOnly(m, now) != m {
      assert LiveOnly(m, now).Keys < m.Keys;
      SubsetSize(LiveOnly(m, now).Keys, m.Keys);
    } else {
      var k :| Oldest(m, k) && m' == m - {k};
      assert m'.Keys < m.Keys;
      SubsetSize(m'.Keys, m.Keys);
    }
  }

  lemma {:induction false} SomeOldest(m: Nonces, keys: set<Bytes>) returns (k: Bytes)
    requires keys != {} && keys <= m.Keys
    ensures k in keys && forall k' :: k' in keys ==> m[k].added <= m[k'].added
    decreases |keys|
  {
    k :| k in keys;
    if keys != {k} {
      var k' := SomeOldest(m, keys - {k});
      if m[k'].added < m[k].added {
        k := k';
      }
    }
  }

  /** The bound has a price: in a store full of live nonces one fresh nonce makes some live nonce
      acceptable again. */
  lemma FullStoreForgets(m: Nonces, max: nat, key: Bytes, ttl: int, now: Time)
    requires |m| >= max > 0 && LiveOnly(m, now) == m && key !in m
    ensures exists k, m', m'' :: k in m && Live(m[k], now)
              && Sets(m, max, key, ttl, now, true, m') && Sets(m', max, k, ttl, now, true, m'')
  {
    assert m.Keys != {};
    var k := SomeOldest(m, m.Keys);
    var n := m - {k};
    assert Oldest(m, k) && MakesRoom(m, max, now, n);
    var m' := n[key := Nonce(now + ttl, now)];
    assert Sets(m, max, key, ttl, now, true, m');
    var n' := Room(m', max, now);
    assert MakesRoom(m', max, now, n');
    var m'' := n'[k := Nonce(now + ttl, now)];
    assert Sets(m', max, k, ttl, now, true, m'');
    assert k in LiveOnly(m, now);
  }

  /** Eviction can always make room. */
  lemma Room(m: Nonces, max: nat, now: Time) returns (n: Nonces)
    requires max > 0
    ensures MakesRoom(m, max, now, n)
  {
    if |m| < max {
      n := m;
    } else if LiveOnly(m, now) != m {
      n := LiveOnly(m, now);
    } else {
      assert m != map[];
      assert m.Keys != {};
      var k := SomeOldest(m, m.Keys);
      assert Oldest(m, k);
      n := m - {k};
    }
  }
}
