/** Waiting for a response in the shared store (plugins/idempotency-redis/redis.go:190-273): a waiter
    subscribes and then looks, a saver stores and then publishes, and the two interleave freely. */
module RedisWait {
  import opened Prelude
  import opened CaptureWriter

  /** A call of Save: about to store, about to publish, done. */
  datatype Saver = Storing(resp: Response) | Publishing(resp: Response) | Saved(resp: Response)

  /** A call of Wait: about to subscribe, about to look for the first time, blocked on the channel,
      done.  `pending` counts the messages in its channel.  `Missed` is for a waiter that looks first:
      it found nothing and is not subscribed yet. */
  datatype Waiter =
    | Arrived
    | Subscribed(pending: nat)
    | Missed
    | Blocked(pending: nat)
    | Returned(resp: Option<Response>)

  /** One key: the stored response, and all calls so far. */
  datatype State = State(stored: Option<Response>, savers: seq<Saver>, waiters: seq<Waiter>)

  datatype Action =
    | Save(resp: Response)
    | Store(i: nat)
    | Publish(i: nat)
    | Expire
    | Wait
    | Subscribe(j: nat)
    | Look(j: nat)
    | Receive(j: nat)
    | ChannelCloses(j: nat)
    | GiveUp(j: nat)

  const EMPTY: State := State(None, [], [])

  /** A message reaches whoever is subscribed when it is published. */
  function Notified(w: Waiter): Waiter {
    match w
    case Subscribed(n) => Subscribed(n + 1)
    case Blocked(n) => Blocked(n + 1)
    case _ => w
  }

  function Broadcast(ws: seq<Waiter>): (r: seq<Waiter>)
    ensures |r| == |ws| && forall j :: 0 <= j < |ws| ==> r[j] == Notified(ws[j])
  {
    seq(|ws|, j requires 0 <= j < |ws| => Notified(ws[j]))
  }

  /** What one step of the j-th waiter makes of it. */
  function Waits(s: State, w: Waiter, a: Action): Waiter {
    match a
    case Subscribe(_) => if w.Arrived? then Subscribed(0) else w
    case Look(_) =>
      if !w.Subscribed? then w else if s.stored.Some? then Returned(s.stored) else Blocked(w.pending)
    case Receive(_) => if w.Blocked? && w.pending > 0 then Returned(s.stored) else w
    case ChannelCloses(_) => if w.Blocked? then Returned(s.stored) else w
    case GiveUp(_) => if w.Blocked? then Returned(None) else w
    case _ => w
  }

  function Step(s: State, a: Action): State {
    match a
    case Save(resp) => s.(savers := s.savers + [Storing(resp)])
    case Store(i) =>
      if i < |s.savers| && s.savers[i].Storing? then
        s.(stored := Some(s.savers[i].resp), savers := s.savers[i := Publishing(s.savers[i].resp)])
      else s
    case Publish(i) =>
      if i < |s.savers| && s.savers[i].Publishing? then
        s.(waiters := Broadcast(s.waiters), savers := s.savers[i := Saved(s.savers[i].resp)])
      else s
    case Expire => s.(stored := None)
    case Wait => s.(waiters := s.waiters + [Arrived])
    case _ => if a.j < |s.waiters| then s.(waiters := s.waiters[a.j := Waits(s, s.waiters[a.j], a)]) else s
  }

  function Run(actions: seq<Action>): State {
    if actions == [] then EMPTY else Step(Run(actions[..|actions| - 1]), actions[|actions| - 1])
  }

  // ---- no lost notification ----

  /** The waiter would sleep on although its response is there. */
  predicate Stuck(s: State, j: int) {
    0 <= j < |s.waiters| && s.waiters[j] == Blocked(0) && s.stored.Some?
  }

  predicate Pending(s: State, i: int) {
    0 <= i < |s.savers| && s.savers[i].Publishing?
  }

  predicate HasSaved(s: State, i: int, resp: Response) {
    0 <= i < |s.savers| && !s.savers[i].Storing? && s.savers[i].resp == resp
  }

  /** A waiter that would sleep on is about to be notified, and every response that is stored or was
      returned is one that some saver stored. */
  ghost predicate Inv(s: State) {
    && (forall j :: Stuck(s, j) ==> exists i :: Pending(s, i))
    && (s.stored.Some? ==> exists i :: HasSaved(s, i, s.stored.value))
    && (forall j :: 0 <= j < |s.waiters| && s.waiters[j].Returned? && s.waiters[j].resp.Some? ==>
          exists i :: HasSaved(s, i, s.waiters[j].resp.value))
  }

  lemma StillSaved(s: State, a: Action, resp: Response)
    requires exists i :: HasSaved(s, i, resp)
    ensures exists i :: HasSaved(Step(s, a), i, resp)
  {
    var i :| HasSaved(s, i, resp);
    assert HasSaved(Step(s, a), i, resp);
  }

  lemma StepKeepsResponses(s: State, a: Action)
    requires Inv(s)
    ensures var t := Step(s, a);
            && (t.stored.Some? ==> exists i :: HasSaved(t, i, t.stored.value))
            && (forall j :: 0 <= j < |t.waiters| && t.waiters[j].Returned? && t.waiters[j].resp.Some? ==>
                  exists i :: HasSaved(t, i, t.waiters[j].resp.value))
  {
    var t := Step(s, a);
    if t.stored.Some? {
      if t.stored == s.stored {
        StillSaved(s, a, t.stored.value);
      } else {
        assert HasSaved(t, a.i, t.stored.value);
      }
    }
    forall j | 0 <= j < |t.waiters| && t.waiters[j].Returned? && t.waiters[j].resp.Some?
      ensures exists i :: HasSaved(t, i, t.waiters[j].resp.value)
    {
      assert j < |s.waiters| && (t.waiters[j] == s.waiters[j] || t.waiters[j] == Returned(s.stored));
      StillSaved(s, a, t.waiters[j].resp.value);
    }
  }

  lemma StepKeepsNotice(s: State, a: Action)
    requires Inv(s)
    ensures forall j :: Stuck(Step(s, a), j) ==> exists i :: Pending(Step(s, a), i)
  {
    var t := Step(s, a);
    forall j | Stuck(t, j)
      ensures exists i :: Pending(t, i)
    {
      if t.stored == s.stored {
        assert Stuck(s, j);
        var i :| Pending(s, i);
        assert Pending(t, i);
      } else {
        assert Pending(t, a.i);
      }
    }
  }

  lemma {:induction false} RunsKeepInv(actions: seq<Action>)
    ensures Inv(Run(actions))
  {
    if actions != [] {
      var front := actions[..|actions| - 1];
      RunsKeepInv(front);
      StepKeepsResponses(Run(front), actions[|actions| - 1]);
      StepKeepsNotice(Run(front), actions[|actions| - 1]);
    }
  }

  /** In every interleaving: once no publication is under way, no waiter sleeps on a stored
      response; and whatever a waiter returns was saved. */
  lemma NoLostNotification(actions: seq<Action>, j: nat)
    requires j < |Run(actions).waiters|
    ensures var s := Run(actions);
            && ((forall i :: !Pending(s, i)) && s.stored.Some? ==> s.waiters[j] != Blocked(0))
            && (s.waiters[j].Returned? && s.waiters[j].resp.Some? ==>
                  exists i :: HasSaved(s, i, s.waiters[j].resp.value))
  {
    RunsKeepInv(actions);
    assert Run(actions).waiters[j] == Blocked(0) && Run(actions).stored.Some? ==> Stuck(Run(actions), j);
  }

  predicate NothingExpires(actions: seq<Action>) {
    Expire !in actions
  }

  predicate HasMessage(w: Waiter) {
    (w.Subscribed? || w.Blocked?) && w.pending > 0
  }

  predicate NoEarlyMessage(s: State) {
    s.stored.None? ==>
      && (forall i :: 0 <= i < |s.savers| ==> s.savers[i].Storing?)
      && (forall j :: 0 <= j < |s.waiters| ==> !HasMessage(s.waiters[j]))
  }

  lemma StepKeepsNoEarlyMessage(s: State, a: Action)
    requires NoEarlyMessage(s) && !a.Expire?
    ensures NoEarlyMessage(Step(s, a))
  {
    var t := Step(s, a);
    if t.stored.None? {
      assert forall i :: 0 <= i < |t.savers| && i < |s.savers| ==> t.savers[i] == s.savers[i];
      assert forall j :: 0 <= j < |t.waiters| && HasMessage(t.waiters[j]) ==> j < |s.waiters| && HasMessage(s.waiters[j]);
    }
  }

  /** Without expiry a message means that the response is there. */
  lemma {:induction false} MessageMeansStored(actions: seq<Action>)
    requires NothingExpires(actions)
    ensures NoEarlyMessage(Run(actions))
  {
    if actions != [] {
      var (front, a) := (actions[..|actions| - 1], actions[|actions| - 1]);
      assert a in actions && forall b :: b in front ==> b in actions;
      MessageMeansStored(front);
      StepKeepsNoEarlyMessage(Run(front), a);
    }
  }

  /** So the look that follows a message finds a response that was saved. */
  lemma ReceiveFindsResponse(actions: seq<Action>, j: nat)
    requires NothingExpires(actions) && j < |Run(actions).waiters|
    requires Run(actions).waiters[j].Blocked? && Run(actions).waiters[j].pending > 0
    ensures var s := Run(actions); var w := Step(s, Receive(j)).waiters[j];
            w.Returned? && w.resp.Some? && exists i :: HasSaved(s, i, w.resp.value)
  {
    MessageMeansStored(actions);
    assert HasMessage(Run(actions).waiters[j]);
    RunsKeepInv(actions);
  }

  // ---- the order matters ----

  /** The same step of a waiter that looks before it subscribes. */
  function WaitsLate(s: State, w: Waiter, a: Action): Waiter {
    match a
    case Look(_) => if !w.Arrived? then w else if s.stored.Some? then Returned(s.stored) else Missed
    case Subscribe(_) => if w.Missed? then Blocked(0) else w
    case _ => Waits(s, w, a)
  }

  /** The system with look and subscription exchanged. */
  function StepLate(s: State, a: Action): State {
    if a.Look? || a.Subscribe? then
      if a.j < |s.waiters| then s.(waiters := s.waiters[a.j := WaitsLate(s, s.waiters[a.j], a)]) else s
    else Step(s, a)
  }

  function RunLate(actions: seq<Action>): State {
    if actions == [] then EMPTY else StepLate(RunLate(actions[..|actions| - 1]), actions[|actions| - 1])
  }

  lemma RunLateOne(actions: seq<Action>, a: Action)
    ensures RunLate(actions + [a]) == StepLate(RunLate(actions), a)
  {
    assert (actions + [a])[..|actions|] == actions;
  }

  /** There the message is lost: when the whole Save falls between the look and the subscription,
      the waiter sleeps on a stored response although no publication is to come. */
  lemma LookingFirstLosesTheMessage(resp: Response) returns (actions: seq<Action>)
    ensures actions == [Wait, Look(0), Save(resp), Store(0), Publish(0), Subscribe(0)]
    ensures RunLate(actions) == State(Some(resp), [Saved(resp)], [Blocked(0)])
    ensures Stuck(RunLate(actions), 0) && forall i :: !Pending(RunLate(actions), i)
  {
    actions := [Wait];
    RunLateOne([], Wait);
    RunLateOne(actions, Look(0));
    actions := actions + [Look(0)];
    assert RunLate(actions) == State(None, [], [Missed]);
    RunLateOne(actions, Save(resp));
    actions := actions + [Save(resp)];
    RunLateOne(actions, Store(0));
    actions := actions + [Store(0)];
    assert RunLate(actions) == State(Some(resp), [Publishing(resp)], [Missed]);
    RunLateOne(actions, Publish(0));
    actions := actions + [Publish(0)];
    RunLateOne(actions, Subscribe(0));
    actions := actions + [Subscribe(0)];
  }

  ghost predicate Asleep(s: State, resp: Response) {
    s.savers == [Saved(resp)] && s.waiters != [] && s.waiters[0] == Blocked(0)
  }

  lemma StaysAsleep(s: State, resp: Response, a: Action)
    requires Asleep(s, resp) && !a.Save? && !a.ChannelCloses? && !a.GiveUp?
    ensures Asleep(StepLate(s, a), resp)
  {
  }

  /** And it sleeps on whatever else happens, unless someone saves again, the channel is closed or
      the waiter gives up. */
  lemma {:induction false} SleepsOn(resp: Response, lost: seq<Action>, more: seq<Action>)
    requires Asleep(RunLate(lost), resp)
    requires forall a :: a in more ==> !a.Save? && !a.ChannelCloses? && !a.GiveUp?
    ensures Asleep(RunLate(lost + more), resp)
  {
    if more == [] {
      assert lost + more == lost;
    } else {
      var (front, a) := (more[..|more| - 1], more[|more| - 1]);
      SleepsOn(resp, lost, front);
      RunLateOne(lost + front, a);
      StaysAsleep(RunLate(lost + front), resp, a);
      assert lost + more == lost + front + [a];
    }
  }
}
