/** The in-memory idempotency store (plugins/idempotency/store.go).  Each method holds the store's
    mutex from start to end, so each is one atomic step; the blocking Wait is the sequence of its
    critical sections: one on entry (BeginWait) and one each time the condition variable wakes it
    (Recheck).  Time is an integer, and every method is given the time it reads. */
module IdempotencyStore {
  import opened Prelude
  import opened CaptureWriter

  type Key = string
  type Time = int

  // ---- the store as a value ----

  /** An entry; `expiry` is None for the zero time. */
  datatype Entry = Entry(resp: Option<Response>, expiry: Option<Time>, holder: bool, released: bool)

  /** `entries` names the entry stored under a key; `heap` holds every entry ever created, since a
      waiter keeps its entry after the map has dropped it. */
  datatype Store = Store(entries: map<Key, nat>, heap: seq<Entry>)

  const EMPTY := Store(map[], [])

  predicate WellFormed(s: Store) {
    forall k :: k in s.entries ==> s.entries[k] < |s.heap|
  }

  predicate Expired(e: Entry, now: Time) {
    e.expiry.Some? && e.expiry.value < now
  }

  function Lookup(s: Store, key: Key): Option<Entry>
    requires WellFormed(s)
  {
    if key in s.entries then Some(s.heap[s.entries[key]]) else None
  }

  function Drop(s: Store, key: Key): Store {
    s.(entries := s.entries - {key})
  }

  function Put(s: Store, key: Key, e: Entry): Store {
    Store(s.entries[key := |s.heap|], s.heap + [e])
  }

  function Set(s: Store, id: nat, e: Entry): Store
    requires id < |s.heap|
  {
    s.(heap := s.heap[id := e])
  }

  /** Lock wins exactly when nothing unexpired is stored under the key. */
  predicate LockWins(s: Store, key: Key, now: Time)
    requires WellFormed(s)
  {
    Lookup(s, key).Some? ==> Expired(Lookup(s, key).value, now)
  }

  function AfterLock(s: Store, key: Key, now: Time): Store
    requires WellFormed(s)
  {
    if LockWins(s, key, now) then Put(s, key, Entry(None, None, true, false)) else s
  }

  function AfterUnlock(s: Store, key: Key): Store
    requires WellFormed(s)
  {
    match Lookup(s, key)
    case None => s
    case Some(e) =>
      if e.resp == None then Drop(Set(s, s.entries[key], e.(holder := false)), key)
      else Set(s, s.entries[key], e.(holder := false, released := true))
  }

  function Found(s: Store, key: Key, now: Time): Option<Response>
    requires WellFormed(s)
  {
    match Lookup(s, key)
    case None => None
    case Some(e) => if Expired(e, now) then None else e.resp
  }

  function AfterGet(s: Store, key: Key, now: Time): Store
    requires WellFormed(s)
  {
    match Lookup(s, key)
    case None => s
    case Some(e) => if Expired(e, now) then Drop(s, key) else s
  }

  function Saved(e: Entry, resp: Response, ttl: int, now: Time): Entry {
    e.(resp := Some(resp), expiry := if ttl > 0 then Some(now + ttl) else e.expiry)
  }

  function AfterSave(s: Store, key: Key, resp: Response, ttl: int, now: Time): Store
    requires WellFormed(s)
  {
    match Lookup(s, key)
    case None => Put(s, key, Saved(Entry(None, None, false, false), resp, ttl, now))
    case Some(e) => Set(s, s.entries[key], Saved(e, resp, ttl, now))
  }

  /** Saving under a new key is saving into an entry made for it. */
  lemma SaveIntoNew(s: Store, key: Key, resp: Response, ttl: int, now: Time)
    requires WellFormed(s) && key !in s.entries
    ensures var made := Put(s, key, Entry(None, None, false, false));
            WellFormed(made) && AfterSave(made, key, resp, ttl, now) == AfterSave(s, key, resp, ttl, now)
  {
    var empty := Entry(None, None, false, false);
    assert (s.heap + [empty])[|s.heap| := Saved(empty, resp, ttl, now)] == s.heap + [Saved(empty, resp, ttl, now)];
  }

  lemma DropThenPut(s: Store, key: Key, e: Entry)
    ensures Put(Drop(s, key), key, e) == Put(s, key, e)
  {
    assert Drop(s, key).entries[key := |s.heap|] == s.entries[key := |s.heap|];
  }

  /** The sweep drops an entry exactly when it is expired and nobody holds it. */
  function AfterSweep(s: Store, now: Time): Store
    requires WellFormed(s)
  {
    s.(entries := map k | k in s.entries && !SweepDrops(s, k, now) :: s.entries[k])
  }

  predicate SweepDrops(s: Store, k: Key, now: Time)
    requires WellFormed(s) && k in s.entries
  {
    !s.heap[s.entries[k]].holder && Expired(s.heap[s.entries[k]], now)
  }

  /** The sweep when it has still to visit `todo`. */
  function SweepUntil(s: Store, todo: set<Key>, now: Time): Store
    requires WellFormed(s)
  {
    s.(entries := map k | k in s.entries && (k in todo || !SweepDrops(s, k, now)) :: s.entries[k])
  }

  lemma SweepEnds(s: Store, now: Time)
    requires WellFormed(s)
    ensures SweepUntil(s, s.entries.Keys, now) == s && SweepUntil(s, {}, now) == AfterSweep(s, now)
  {
    assert SweepUntil(s, s.entries.Keys, now).entries == s.entries;
  }

  lemma SweepVisits(s: Store, todo: set<Key>, k: Key, now: Time)
    requires WellFormed(s) && todo <= s.entries.Keys && k in todo
    ensures var t := SweepUntil(s, todo, now);
            && k in t.entries && SweepDrops(t, k, now) == SweepDrops(s, k, now)
            && SweepUntil(s, todo - {k}, now) == if SweepDrops(t, k, now) then Drop(t, k) else t
  {
    var t := SweepUntil(s, todo, now);
    assert SweepUntil(s, todo - {k}, now).entries == if SweepDrops(t, k, now) then t.entries - {k} else t.entries;
  }

  /** What one look at its entry tells a waiter. */
  datatype WaitResult = Sleep | GotNil | GotCancel | Got(resp: Option<Response>)

  function Check(e: Entry, cancelled: bool): WaitResult {
    if e.released then Got(e.resp)
    else if cancelled then GotCancel
    else if !e.holder && e.resp == None then GotNil
    else Sleep
  }

  // ---- the store as the program keeps it ----

  /** memEntry.  `id` is the creation number of the entry, and is not part of the program. */
  class MemEntry {
    ghost const id: nat
    var resp: Option<Response>
    var expiry: Option<Time>
    var holder: bool
    var released: bool

    constructor (ghost id: nat, holder: bool)
      ensures this.id == id && resp == None && expiry == None && this.holder == holder && !released
    {
      this.id, this.holder := id, holder;
      resp, expiry, released := None, None, false;
    }

    ghost function View(): Entry
      reads this
    {
      Entry(resp, expiry, holder, released)
    }
  }

  /** The entries hold what the heap says. */
  ghost predicate Mirrors(all: seq<MemEntry>, heap: seq<Entry>)
    reads all
  {
    |heap| == |all| && forall i :: 0 <= i < |all| ==> all[i].id == i && all[i].View() == heap[i]
  }

  /** The map of the program points where the store's map does. */
  ghost predicate Names(entries: map<Key, MemEntry>, ids: map<Key, nat>, all: seq<MemEntry>) {
    && entries.Keys == ids.Keys
    && forall k :: k in entries ==> ids[k] < |all| && entries[k] == all[ids[k]]
  }

  /** `all` lists the entries by creation number, and `view` is the store as a value. */
  class MemoryStore {
    var entries: map<Key, MemEntry>
    ghost var all: seq<MemEntry>
    ghost var view: Store

    ghost predicate Valid()
      reads this, all
    {
      WellFormed(view) && Mirrors(all, view.heap) && Names(entries, view.entries, all)
    }

    constructor ()
      ensures Valid() && view == EMPTY && all == []
    {
      entries, all, view := map[], [], EMPTY;
    }

    method Lock(key: Key, now: Time) returns (acquired: bool)
      requires Valid()
      modifies this
      ensures Valid() && old(all) <= all && fresh(all[|old(all)|..])
      ensures acquired == LockWins(old(view), key, now)
      ensures view == AfterLock(old(view), key, now)
    {
      DropThenPut(view, key, Entry(None, None, true, false));
      if key in entries {
        var e := entries[key];
        if e.expiry != None && e.expiry.value < now {
          Delete(key);
        } else {
          return false;
        }
      }
      AddEntry(key, true);
      return true;
    }

    method Delete(key: Key)
      requires Valid() && key in entries
      modifies this`entries, this`view
      ensures Valid() && key !in entries && view == Drop(old(view), key)
    {
      entries := entries - {key};
      view := Drop(view, key);
    }

    /** A new entry under a key that has none. */
    method AddEntry(key: Key, holder: bool)
      requires Valid() && key !in entries
      modifies this
      ensures Valid() && key in entries && fresh(entries[key]) && all == old(all) + [entries[key]]
      ensures view == Put(old(view), key, Entry(None, None, holder, false))
    {
      var e := new MemEntry(|all|, holder);
      entries := entries[key := e];
      all := all + [e];
      view := Put(view, key, Entry(None, None, holder, false));
    }

    /** `woken` names the entry whose condition variable is broadcast, if any. */
    method Unlock(key: Key) returns (ghost woken: Option<nat>)
      requires Valid()
      modifies this, all
      ensures Valid() && all == old(all)
      ensures view == AfterUnlock(old(view), key)
      ensures woken == if key in old(view).entries then Some(old(view).entries[key]) else None
    {
      if key !in entries {
        return None;
      }
      var e := entries[key];
      view := AfterUnlock(view, key);
      e.holder := false;
      if e.resp == None {
        entries := entries - {key};
        return Some(e.id);
      }
      e.released := true;
      return Some(e.id);
    }

    method Get(key: Key, now: Time) returns (r: Option<Response>)
      requires Valid()
      modifies this
      ensures Valid() && all == old(all)
      ensures r == Found(old(view), key, now)
      ensures view == AfterGet(old(view), key, now)
    {
      if key !in entries {
        return None;
      }
      var e := entries[key];
      if e.expiry != None && e.expiry.value < now {
        Delete(key);
        return None;
      }
      if e.resp == None {
        return None;
      }
      return e.resp;
    }

    method Save(key: Key, resp: Response, ttl: int, now: Time)
      requires Valid()
      modifies this, all
      ensures Valid() && old(all) <= all && fresh(all[|old(all)|..])
      ensures view == AfterSave(old(view), key, resp, ttl, now)
    {
      if key !in entries {
        SaveIntoNew(view, key, resp, ttl, now);
        AddEntry(key, false);
      }
      SetResponse(key, resp, ttl, now);
    }

    method SetResponse(key: Key, resp: Response, ttl: int, now: Time)
      requires Valid() && key in entries
      modifies this`view, entries[key]
      ensures Valid() && view == AfterSave(old(view), key, resp, ttl, now)
    {
      ghost var after := AfterSave(view, key, resp, ttl, now);
      var e := entries[key];
      e.resp := Some(resp);
      if ttl > 0 {
        e.expiry := Some(now + ttl);
      }
      view := after;
    }

    /** The first critical section of Wait: no entry means nil; otherwise the entry is looked at
        and, if there is nothing to report yet, the caller sleeps on it. */
    method BeginWait(key: Key) returns (e: MemEntry?, r: WaitResult)
      requires Valid()
      ensures e == if key in entries then entries[key] else null
      ensures r == match Lookup(view, key) case None => GotNil case Some(v) => Check(v, false)
    {
      if key !in entries {
        return null, GotNil;
      }
      e := entries[key];
      r := Recheck(e, false);
    }

    /** One pass of the wait loop, run on entry and after every wake-up. */
    method Recheck(e: MemEntry, cancelled: bool) returns (r: WaitResult)
      ensures r == Check(e.View(), cancelled)
    {
      if !e.released && !cancelled {
        if !e.holder && e.resp == None {
          return GotNil;
        }
        return Sleep;
      }
      if cancelled && !e.released {
        return GotCancel;
      }
      return Got(e.resp);
    }

    /** sweepExpired visits the map in any order. */
    method SweepExpired(now: Time)
      requires Valid()
      modifies this`entries, this`view
      ensures Valid()
      ensures view == AfterSweep(old(view), now)
    {
      SweepEnds(view, now);
      var todo := entries.Keys;
      while todo != {}
        invariant Valid() && todo <= old(view).entries.Keys && view == SweepUntil(old(view), todo, now)
        decreases todo
      {
        var k :| k in todo;
        SweepVisits(old(view), todo, k, now);
        todo := todo - {k};
        SweepOne(k, now);
      }
    }

    /** The body of the sweep's loop. */
    method SweepOne(k: Key, now: Time)
      requires Valid() && k in entries
      modifies this`entries, this`view
      ensures Valid() && view == if SweepDrops(old(view), k, now) then Drop(old(view), k) else old(view)
    {
      var e := entries[k];
      if e.holder {
        return;
      }
      if e.expiry != None && e.expiry.value < now {
        Delete(k);
      }
    }
  }
}
