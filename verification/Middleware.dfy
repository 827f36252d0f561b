/** Building middleware chains (middleware.go:93-211).  A handler is the nest of wrappers that the
    builders produce, so two chains are equal exactly when they wrap the same handler in the same
    middleware in the same order. */
module Middleware {
  import opened Prelude

  /** A registered middleware; `native` says whether it has a framework-native form besides its
      standard one. */
  datatype Slot = Slot(id: nat, native: bool)

  datatype Handler = Route(id: nat) | Wrap(slot: Slot, inner: Handler)

  datatype Event = Enters(middleware: nat) | Runs(route: nat)

  /** What a request meets, outermost first. */
  function Trace(h: Handler): seq<Event> {
    match h
    case Route(id) => [Runs(id)]
    case Wrap(slot, inner) => [Enters(slot.id)] + Trace(inner)
  }

  function Entries(slots: seq<Slot>): seq<Event> {
    if slots == [] then [] else [Enters(slots[0].id)] + Entries(slots[1..])
  }

  /** The first slot is the outermost wrapper. */
  function Chain(slots: seq<Slot>, h: Handler): Handler {
    if slots == [] then h else Wrap(slots[0], Chain(slots[1..], h))
  }

  predicate Native(slots: seq<Slot>) {
    forall i :: 0 <= i < |slots| ==> slots[i].native
  }

  lemma {:induction false} ChainTrace(slots: seq<Slot>, h: Handler)
    ensures Trace(Chain(slots, h)) == Entries(slots) + Trace(h)
  {
    if slots != [] {
      ChainTrace(slots[1..], h);
      assert [Enters(slots[0].id)] + (Entries(slots[1..]) + Trace(h)) == Entries(slots) + Trace(h);
    } else {
      assert [] + Trace(h) == Trace(h);
    }
  }

  lemma {:induction false} ChainConcat(a: seq<Slot>, b: seq<Slot>, h: Handler)
    ensures Chain(a + b, h) == Chain(a, Chain(b, h))
  {
    if a == [] {
      assert a + b == b;
    } else {
      assert (a + b)[1..] == a[1..] + b && (a + b)[0] == a[0];
      ChainConcat(a[1..], b, h);
    }
  }

  /** A chain shows its slots and its route. */
  lemma {:induction false} ChainInjective(a: seq<Slot>, h: nat, b: seq<Slot>, k: nat)
    requires Chain(a, Route(h)) == Chain(b, Route(k))
    ensures a == b && h == k
  {
    if a != [] && b != [] {
      ChainInjective(a[1..], h, b[1..], k);
      assert a == [a[0]] + a[1..] && b == [b[0]] + b[1..];
    }
  }

  /** buildChain. */
  method BuildChain(handler: Handler, slots: seq<Slot>) returns (h: Handler)
    ensures h == Chain(slots, handler) && Trace(h) == Entries(slots) + Trace(handler)
  {
    h := handler;
    var i := |slots|;
    while i > 0
      invariant 0 <= i <= |slots| && h == Chain(slots[i..], handler)
    {
      i := i - 1;
      assert slots[i..][1..] == slots[i + 1..];
      h := Wrap(slots[i], h);
    }
    assert slots[0..] == slots;
    ChainTrace(slots, handler);
  }

  /** buildNativeChain: there is a native chain exactly when every slot is native, and then it
      is the same nest as the standard one. */
  method BuildNativeChain(handler: Handler, slots: seq<Slot>) returns (h: Option<Handler>)
    ensures h == if Native(slots) then Some(Chain(slots, handler)) else None
  {
    var chain := handler;
    var i := |slots|;
    while i > 0
      invariant 0 <= i <= |slots| && Native(slots[i..]) && chain == Chain(slots[i..], handler)
    {
      i := i - 1;
      assert slots[i..][1..] == slots[i + 1..];
      if !slots[i].native {
        return None;
      }
      chain := Wrap(slots[i], chain);
      assert forall j :: 0 < j < |slots[i..]| ==> slots[i..][j] == slots[i + 1..][j - 1];
    }
    assert slots[0..] == slots;
    return Some(chain);
  }

  /** allNative. */
  method AllNative(slots: seq<Slot>) returns (all: bool)
    ensures all <==> Native(slots)
  {
    for i := 0 to |slots|
      invariant forall j :: 0 <= j < i ==> slots[j].native
    {
      if !slots[i].native {
        return false;
      }
    }
    return true;
  }
}
