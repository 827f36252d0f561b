/** The certificate reloader (cert_reload.go:73-257): what it serves while its files are replaced
    under it, and its one-shot Start and Stop. */
module CertReload {
  // ---- the files ----

  type Signature = (int, int)  // modification time, size

  /** Versions of the two files count up with every replacement. */
  datatype Pair = Pair(cert: nat, key: nat)

  predicate NotAfter(a: Pair, b: Pair) {
    a.cert <= b.cert && a.key <= b.key
  }

  /** What each version looks like: whether the file exists, its signature, and whether a
      certificate and a key load as a pair. */
  datatype Files = Files(certThere: nat -> bool, keyThere: nat -> bool,
                         certSig: nat -> Signature, keySig: nat -> Signature, loads: (nat, nat) -> bool)

  datatype Signatures = Signatures(cert: Signature, key: Signature)

  function Sigs(f: Files, p: Pair): Signatures {
    Signatures(f.certSig(p.cert), f.keySig(p.key))
  }

  /** Replacing a file changes its signature, to one that it never had. */
  ghost predicate Telling(f: Files) {
    && (forall a, b :: f.certSig(a) == f.certSig(b) ==> a == b)
    && (forall a, b :: f.keySig(a) == f.keySig(b) ==> a == b)
  }

  predicate Loadable(f: Files, p: Pair) {
    f.certThere(p.cert) && f.keyThere(p.key) && f.loads(p.cert, p.key)
  }

  // ---- one reload ----

  /** The versions found on disk at the four accesses of one reload: two stats, then two reads. */
  datatype Accesses = Accesses(stat: Pair, load: Pair)

  /** The pair that is served, the recorded signatures, and the pair they were taken from. */
  datatype Fields = Fields(served: Pair, recorded: Signatures, seen: Pair)

  /** One reload: all four accesses must succeed and the signatures must differ. */
  function Reloaded(f: Files, v: Fields, at: Accesses): Fields {
    if f.certThere(at.stat.cert) && f.keyThere(at.stat.key) && Sigs(f, at.stat) != v.recorded && Loadable(f, at.load)
    then Fields(at.load, Sigs(f, at.stat), at.stat)
    else v
  }

  /** The fields that serve; `seen` is the pair whose signatures are recorded. */
  class Reloader {
    var cert: Pair
    var recorded: Signatures
    ghost var seen: Pair

    ghost predicate Valid(f: Files)
      reads this
    {
      NotAfter(seen, cert) && recorded == Sigs(f, seen)
    }

    ghost function View(): Fields
      reads this
    {
      Fields(cert, recorded, seen)
    }

    constructor (f: Files, at: Accesses)
      requires Loadable(f, at.load) && NotAfter(at.stat, at.load)
      ensures Valid(f) && cert == at.load && seen == at.stat
    {
      cert, recorded, seen := at.load, Sigs(f, at.stat), at.stat;
    }

    /** reloadOnce. */
    method ReloadOnce(f: Files, at: Accesses) returns (ok: bool)
      requires Valid(f) && NotAfter(cert, at.stat) && NotAfter(at.stat, at.load)
      modifies this
      ensures View() == Reloaded(f, old(View()), at)
      ensures Valid(f) && NotAfter(old(cert), cert)
      ensures !ok ==> cert == old(cert) && seen == old(seen)
      ensures ok && Sigs(f, at.stat) != Sigs(f, old(seen)) ==> cert == at.load && seen == at.stat
      ensures ok && Sigs(f, at.stat) == Sigs(f, old(seen)) ==> cert == old(cert) && seen == old(seen)
      ensures Loadable(f, at.load) && f.certThere(at.stat.cert) && f.keyThere(at.stat.key) ==> ok
      ensures at.stat == at.load && Loadable(f, at.load) && Telling(f) ==> cert == at.load
    {
      if !f.certThere(at.stat.cert) {
        return false;
      }
      if !f.keyThere(at.stat.key) {
        return false;
      }
      var certSig, keySig := f.certSig(at.stat.cert), f.keySig(at.stat.key);
      var same := certSig == recorded.cert && keySig == recorded.key;
      if same {
        return true;
      }
      if !Loadable(f, at.load) {
        return false;
      }
      cert := at.load;
      recorded := Signatures(certSig, keySig);
      seen := at.stat;
      return true;
    }
  }

  /** NewCertReloader: the files are inspected before they are read. */
  method NewCertReloader(f: Files, at: Accesses) returns (r: Reloader?)
    requires NotAfter(at.stat, at.load)
    ensures r == null <==> !f.certThere(at.stat.cert) || !f.keyThere(at.stat.key) || !Loadable(f, at.load)
    ensures r != null ==> fresh(r) && r.Valid(f) && r.cert == at.load && r.seen == at.stat
  {
    if !f.certThere(at.stat.cert) || !f.keyThere(at.stat.key) {
      return null;
    }
    if !Loadable(f, at.load) {
      return null;
    }
    r := new Reloader(f, at);
  }

  // ---- the reloader among other threads ----

  datatype Life = NotStarted | Running | Stopped

  /** The polling goroutine: not started, waiting for a tick, inside a reload, or on its way out
      (past the loop, past the state change, past closing the channel). */
  datatype Poller =
    | NoPoller
    | Waiting
    | Begun
    | CertStated(cert: nat)
    | Stated(stat: Pair)
    | CertRead(stat: Pair, cert: nat)
    | Loaded(stat: Pair, pair: Pair)
    | Stored(stat: Pair)
    | Leaving
    | Marked
    | Gone

  /** A call of Stop on a started reloader. */
  datatype StopCall = Entered | Signalled | Returned

  datatype State = State(disk: Pair, served: Pair, recorded: Signatures, seen: Pair,
                         life: Life, poller: Poller, pollers: nat, signalled: bool,
                         stopCloses: nat, stoppedCloses: nat, cancelled: bool, stops: seq<StopCall>)

  datatype Action =
    | ReplaceCert
    | ReplaceKey
    | Cancel
    | Start
    | Tick
    | Proceed
    | Leave
    | StopEnter
    | StopSignal(i: nat)
    | StopReturn(i: nat)

  /** The next step of the goroutine inside a reload or on its way out. */
  function Proceeds(f: Files, s: State): State {
    match s.poller
    case Begun => s.(poller := if f.certThere(s.disk.cert) then CertStated(s.disk.cert) else Waiting)
    case CertStated(c) =>
      if !f.keyThere(s.disk.key) || Sigs(f, Pair(c, s.disk.key)) == s.recorded then s.(poller := Waiting)
      else s.(poller := Stated(Pair(c, s.disk.key)))
    case Stated(stat) =>
      s.(poller := if f.certThere(s.disk.cert) then CertRead(stat, s.disk.cert) else Waiting)
    case CertRead(stat, c) =>
      s.(poller := if f.keyThere(s.disk.key) && f.loads(c, s.disk.key) then Loaded(stat, Pair(c, s.disk.key)) else Waiting)
    case Loaded(stat, pair) => s.(served := pair, poller := Stored(stat))
    case Stored(stat) => s.(recorded := Sigs(f, stat), seen := stat, poller := Waiting)
    case Leaving => s.(life := Stopped, poller := Marked)
    case Marked => s.(stoppedCloses := s.stoppedCloses + 1, poller := Gone)
    case _ => s
  }

  /** A disabled action, and a Start or Stop that does nothing, leaves the state as it is. */
  function Step(f: Files, s: State, a: Action): State {
    match a
    case ReplaceCert => s.(disk := Pair(s.disk.cert + 1, s.disk.key))
    case ReplaceKey => s.(disk := Pair(s.disk.cert, s.disk.key + 1))
    case Cancel => s.(cancelled := true)
    case Start => if s.life.NotStarted? then s.(life := Running, poller := Waiting, pollers := s.pollers + 1) else s
    case Tick => if s.poller.Waiting? then s.(poller := Begun) else s
    case Proceed => Proceeds(f, s)
    case Leave => if s.poller.Waiting? && (s.stopCloses > 0 || s.cancelled) then s.(poller := Leaving) else s
    case StopEnter => if s.life.NotStarted? then s else s.(life := Stopped, stops := s.stops + [Entered])
    case StopSignal(i) =>
      if i < |s.stops| && s.stops[i].Entered? then
        s.(stops := s.stops[i := Signalled], signalled := true,
           stopCloses := if s.signalled then s.stopCloses else s.stopCloses + 1)
      else s
    case StopReturn(i) =>
      if i < |s.stops| && s.stops[i].Signalled? && s.stoppedCloses > 0 then s.(stops := s.stops[i := Returned]) else s
  }

  predicate Reloading(f: Files, s: State) {
    && NotAfter(s.seen, s.served) && NotAfter(s.served, s.disk) && s.recorded == Sigs(f, s.seen)
    && match s.poller
       case CertStated(c) => s.served.cert <= c <= s.disk.cert
       case Stated(stat) => NotAfter(s.served, stat) && NotAfter(stat, s.disk)
       case CertRead(stat, c) => NotAfter(s.served, stat) && stat.cert <= c <= s.disk.cert && stat.key <= s.disk.key
       case Loaded(stat, pair) => NotAfter(s.served, stat) && NotAfter(stat, pair) && NotAfter(pair, s.disk)
       case Stored(stat) => NotAfter(s.seen, stat) && NotAfter(stat, s.served)
       case _ => true
  }

  predicate Living(s: State) {
    && (s.life.NotStarted? <==> s.poller.NoPoller?)
    && s.pollers == (if s.life.NotStarted? then 0 else 1)
    && s.stopCloses == (if s.signalled then 1 else 0)
    && s.stoppedCloses == (if s.poller.Gone? then 1 else 0)
    && (s.poller.Marked? || s.poller.Gone? || |s.stops| > 0 ==> s.life.Stopped?)
    && forall i :: 0 <= i < |s.stops| && s.stops[i].Returned? ==> s.poller.Gone?
  }

  predicate Inv(f: Files, s: State) {
    Reloading(f, s) && Living(s)
  }

  /** A reloader just made, with the pair it loaded and the signatures it took before. */
  predicate Initial(f: Files, s: State) {
    && NotAfter(s.seen, s.served) && NotAfter(s.served, s.disk) && s.recorded == Sigs(f, s.seen)
    && s.life.NotStarted? && s.poller.NoPoller? && s.pollers == s.stopCloses == s.stoppedCloses == 0
    && !s.signalled && s.stops == []
  }

  lemma StatKeepsReloading(f: Files, s: State)
    requires Reloading(f, s) && (s.poller.Begun? || s.poller.CertStated?)
    ensures Reloading(f, Proceeds(f, s)) && Proceeds(f, s).served == s.served
  {
  }

  lemma ReadKeepsReloading(f: Files, s: State)
    requires Reloading(f, s) && (s.poller.Stated? || s.poller.CertRead?)
    ensures Reloading(f, Proceeds(f, s)) && Proceeds(f, s).served == s.served
  {
  }

  lemma StoreKeepsReloading(f: Files, s: State)
    requires Reloading(f, s) && (s.poller.Loaded? || s.poller.Stored?)
    ensures Reloading(f, Proceeds(f, s)) && NotAfter(s.served, Proceeds(f, s).served)
  {
  }

  lemma ProceedKeepsReloading(f: Files, s: State)
    requires Reloading(f, s)
    ensures Reloading(f, Proceeds(f, s)) && NotAfter(s.served, Proceeds(f, s).served)
  {
    match s.poller
    case Begun | CertStated(_) => StatKeepsReloading(f, s);
    case Stated(_) | CertRead(_, _) => ReadKeepsReloading(f, s);
    case Loaded(_, _) | Stored(_) => StoreKeepsReloading(f, s);
    case _ =>
  }

  lemma ProceedKeepsLiving(f: Files, s: State)
    requires Living(s)
    ensures Living(Proceeds(f, s))
  {
    assert Proceeds(f, s).stops == s.stops;
  }

  lemma StopKeepsLiving(f: Files, s: State, a: Action)
    requires Living(s) && (a.StopEnter? || a.StopSignal? || a.StopReturn?)
    ensures Living(Step(f, s, a))
  {
    var t := Step(f, s, a);
    assert forall i :: 0 <= i < |t.stops| && t.stops[i].Returned? ==>
      (i < |s.stops| && s.stops[i].Returned?) || s.poller.Gone?;
  }

  lemma OtherStepKeepsInv(f: Files, s: State, a: Action)
    requires Inv(f, s) && !a.Proceed? && !a.StopEnter? && !a.StopSignal? && !a.StopReturn?
    ensures Inv(f, Step(f, s, a)) && Step(f, s, a).served == s.served
  {
  }

  lemma StepKeepsInv(f: Files, s: State, a: Action)
    requires Inv(f, s)
    ensures Inv(f, Step(f, s, a)) && NotAfter(s.served, Step(f, s, a).served)
  {
    if a.Proceed? {
      ProceedKeepsReloading(f, s);
      ProceedKeepsLiving(f, s);
    } else if a.StopEnter? || a.StopSignal? || a.StopReturn? {
      StopKeepsLiving(f, s, a);
    } else {
      OtherStepKeepsInv(f, s, a);
    }
  }

  function Run(f: Files, s: State, actions: seq<Action>): State {
    if actions == [] then s else Step(f, Run(f, s, actions[..|actions| - 1]), actions[|actions| - 1])
  }

  /** In every reachable state: at most one goroutine was ever started, each channel was closed at
      most once, and what is served never went back. */
  lemma {:induction false} RunsKeepInv(f: Files, s: State, actions: seq<Action>)
    requires Initial(f, s)
    ensures var t := Run(f, s, actions);
            && Inv(f, t) && NotAfter(s.served, t.served)
            && t.pollers <= 1 && t.stopCloses <= 1 && t.stoppedCloses <= 1
  {
    if actions != [] {
      var front := actions[..|actions| - 1];
      RunsKeepInv(f, s, front);
      StepKeepsInv(f, Run(f, s, front), actions[|actions| - 1]);
    }
  }

  /** No change is lost: whenever the recorded signatures are those on disk, the pair on disk is
      the one served. */
  lemma NoChangeIsLost(f: Files, s: State, actions: seq<Action>)
    requires Initial(f, s) && Telling(f)
    ensures var t := Run(f, s, actions); t.recorded == Sigs(f, t.disk) ==> t.served == t.disk
  {
    RunsKeepInv(f, s, actions);
  }

  /** Steps of the goroutine that nothing comes between. */
  function RunAll(f: Files, s: State, n: nat): State
    decreases n
  {
    if n == 0 then s else RunAll(f, Proceeds(f, s), n - 1)
  }

  lemma {:induction false} WaitingStays(f: Files, s: State, n: nat)
    requires s.poller.Waiting?
    ensures RunAll(f, s, n) == s
    decreases n
  {
    if n > 0 {
      WaitingStays(f, s, n - 1);
    }
  }

  /** The second half: both files are read, the pair is stored, the signatures are recorded. */
  lemma UndisturbedLoad(f: Files, s: State)
    requires s.poller == Stated(s.disk)
    ensures RunAll(f, s, 4)
         == if Loadable(f, s.disk) then s.(served := s.disk, recorded := Sigs(f, s.disk), seen := s.disk, poller := Waiting)
            else s.(poller := Waiting)
  {
    var s1 := Proceeds(f, s);
    var s2 := Proceeds(f, s1);
    assert RunAll(f, s, 4) == RunAll(f, s1, 3) == RunAll(f, s2, 2);
    if f.certThere(s.disk.cert) {
      if Loadable(f, s.disk) {
        assert s2 == s.(poller := Loaded(s.disk, s.disk));
        assert RunAll(f, s2, 2) == Proceeds(f, Proceeds(f, s2));
      } else {
        WaitingStays(f, s2, 2);
      }
    } else {
      WaitingStays(f, s1, 3);
    }
  }

  /** After an undisturbed reload of a loadable pair the pair is served, exactly if it was served
      before or the signatures tell; a pair that does not load changes nothing and is tried again. */
  lemma UndisturbedReload(f: Files, s: State)
    requires Inv(f, s) && s.poller.Waiting?
    ensures var t := RunAll(f, Step(f, s, Tick), 6);
            && t.poller.Waiting? && t.disk == s.disk
            && (Loadable(f, s.disk) ==> (t.served == s.disk <==> s.served == s.disk || s.recorded != Sigs(f, s.disk)))
            && (Loadable(f, s.disk) && Telling(f) ==> t.served == s.disk && t.recorded == Sigs(f, s.disk))
            && (!Loadable(f, s.disk) ==> t.served == s.served && t.recorded == s.recorded)
  {
    var s1 := Step(f, s, Tick);
    var s2 := Proceeds(f, s1);
    var s3 := Proceeds(f, s2);
    assert RunAll(f, s1, 6) == RunAll(f, s2, 5) == RunAll(f, s3, 4);
    if s2.poller.Waiting? {
      WaitingStays(f, s2, 5);
    } else if s3.poller.Waiting? {
      WaitingStays(f, s3, 4);
    } else {
      UndisturbedLoad(f, s3);
    }
  }

  // ---- a reload among the other threads is one reload ----

  function Serves(s: State): Fields {
    Fields(s.served, s.recorded, s.seen)
  }

  /** What the other threads do between two steps of the goroutine. */
  predicate Quiet(others: seq<seq<Action>>) {
    forall i :: 0 <= i < |others| ==> Proceed !in others[i]
  }

  /** The goroutine goes on until its reload is over, and before each of its steps the others act. */
  function Finish(f: Files, s: State, others: seq<seq<Action>>): State
    decreases |others|
  {
    if others == [] || s.poller.Waiting? then s
    else Finish(f, Step(f, Run(f, s, others[0]), Proceed), others[1..])
  }

  predicate InReload(s: State) {
    s.poller.Begun? || s.poller.CertStated? || s.poller.Stated? || s.poller.CertRead? || s.poller.Loaded? || s.poller.Stored?
  }

  lemma OtherLeavesReload(f: Files, s: State, a: Action)
    requires Living(s) && InReload(s) && !a.Proceed?
    ensures var t := Step(f, s, a); t.poller == s.poller && Serves(t) == Serves(s) && NotAfter(s.disk, t.disk)
  {
  }

  /** Whatever the others do, the goroutine finds its own state as it left it. */
  lemma {:induction false} OthersLeaveReload(f: Files, s: State, actions: seq<Action>)
    requires Inv(f, s) && InReload(s) && Proceed !in actions
    ensures var t := Run(f, s, actions);
            Inv(f, t) && t.poller == s.poller && Serves(t) == Serves(s) && NotAfter(s.disk, t.disk)
  {
    if actions != [] {
      var (front, a) := (actions[..|actions| - 1], actions[|actions| - 1]);
      assert actions == front + [a];
      OthersLeaveReload(f, s, front);
      OtherLeavesReload(f, Run(f, s, front), a);
      StepKeepsInv(f, Run(f, s, front), a);
    }
  }

  lemma StatsAlike(f: Files, s: State, r: State)
    requires (s.poller.Begun? || s.poller.CertStated?) && r.poller == s.poller && Serves(r) == Serves(s)
    ensures var (t, u) := (Proceeds(f, r), Proceeds(f, s.(disk := r.disk)));
            t.poller == u.poller && Serves(t) == Serves(u) && t.disk == r.disk
  {
  }

  lemma ReadsAlike(f: Files, s: State, r: State)
    requires (s.poller.Stated? || s.poller.CertRead?) && r.poller == s.poller && Serves(r) == Serves(s)
    ensures var (t, u) := (Proceeds(f, r), Proceeds(f, s.(disk := r.disk)));
            t.poller == u.poller && Serves(t) == Serves(u) && t.disk == r.disk
  {
  }

  lemma StoresAlike(f: Files, s: State, r: State)
    requires (s.poller.Loaded? || s.poller.Stored?) && r.poller == s.poller && Serves(r) == Serves(s)
    ensures var (t, u) := (Proceeds(f, r), Proceeds(f, s.(disk := r.disk)));
            t.poller == u.poller && Serves(t) == Serves(u) && t.disk == r.disk
  {
  }

  /** A step of the goroutine depends on its own state and the disk only. */
  lemma ProceedsAlike(f: Files, s: State, r: State)
    requires InReload(s) && r.poller == s.poller && Serves(r) == Serves(s)
    ensures var (t, u) := (Proceeds(f, r), Proceeds(f, s.(disk := r.disk)));
            t.poller == u.poller && Serves(t) == Serves(u) && t.disk == r.disk
  {
    if s.poller.Begun? || s.poller.CertStated? {
      StatsAlike(f, s, r);
    } else if s.poller.Stated? || s.poller.CertRead? {
      ReadsAlike(f, s, r);
    } else {
      StoresAlike(f, s, r);
    }
  }

  /** One step of the goroutine after the others have acted: it takes `disk` as it finds it. */
  lemma OneStep(f: Files, s: State, others: seq<seq<Action>>) returns (t: State, disk: Pair)
    requires Inv(f, s) && InReload(s) && others != [] && Quiet(others)
    ensures Quiet(others[1..]) && Finish(f, s, others) == Finish(f, t, others[1..])
    ensures Inv(f, t) && t.disk == disk && NotAfter(s.disk, disk)
    ensures var u := Proceeds(f, s.(disk := disk)); t.poller == u.poller && Serves(t) == Serves(u)
  {
    var r := Run(f, s, others[0]);
    OthersLeaveReload(f, s, others[0]);
    StepKeepsInv(f, r, Proceed);
    ProceedsAlike(f, s, r);
    t, disk := Step(f, r, Proceed), r.disk;
  }

  lemma FromLoaded(f: Files, s: State, others: seq<seq<Action>>)
    requires Inv(f, s) && s.poller.Loaded? && |others| >= 2 && Quiet(others)
    ensures var t := Finish(f, s, others);
            && t.poller.Waiting? && Serves(t) == Fields(s.poller.pair, Sigs(f, s.poller.stat), s.poller.stat)
            && NotAfter(s.disk, t.disk)
  {
    var t, _ := OneStep(f, s, others);
    var u, _ := OneStep(f, t, others[1..]);
  }

  lemma FromCertRead(f: Files, s: State, others: seq<seq<Action>>) returns (key: nat)
    requires Inv(f, s) && s.poller.CertRead? && |others| >= 3 && Quiet(others)
    ensures var (t, load) := (Finish(f, s, others), Pair(s.poller.cert, key));
            && t.poller.Waiting? && s.disk.key <= key && NotAfter(load, t.disk)
            && Serves(t) == if f.keyThere(key) && f.loads(load.cert, key)
                            then Fields(load, Sigs(f, s.poller.stat), s.poller.stat) else Serves(s)
  {
    var t, disk := OneStep(f, s, others);
    key := disk.key;
    if t.poller.Loaded? {
      FromLoaded(f, t, others[1..]);
    }
  }

  lemma FromStated(f: Files, s: State, others: seq<seq<Action>>) returns (load: Pair)
    requires Inv(f, s) && s.poller.Stated? && |others| >= 4 && Quiet(others)
    ensures var t := Finish(f, s, others);
            && t.poller.Waiting? && NotAfter(s.disk, load) && NotAfter(load, t.disk)
            && Serves(t) == if Loadable(f, load) then Fields(load, Sigs(f, s.poller.stat), s.poller.stat) else Serves(s)
  {
    var t, disk := OneStep(f, s, others);
    load := disk;
    if t.poller.CertRead? {
      var key := FromCertRead(f, t, others[1..]);
      load := Pair(disk.cert, key);
    }
  }

  lemma FromCertStated(f: Files, s: State, others: seq<seq<Action>>) returns (at: Accesses)
    requires Inv(f, s) && s.poller.CertStated? && |others| >= 5 && Quiet(others)
    ensures at.stat.cert == s.poller.cert && s.disk.key <= at.stat.key && NotAfter(at.stat, at.load)
    ensures var t := Finish(f, s, others);
            && t.poller.Waiting? && NotAfter(at.load, t.disk)
            && (f.certThere(s.poller.cert) ==> Serves(t) == Reloaded(f, Serves(s), at))
  {
    var t, disk := OneStep(f, s, others);
    at := Accesses(Pair(s.poller.cert, disk.key), disk);
    if t.poller.Stated? {
      var load := FromStated(f, t, others[1..]);
      at := at.(load := load);
    }
  }

  /** In every interleaving the steps of the goroutine from a tick to its next wait do what one
      ReloadOnce does, with the versions that its four accesses find on disk. */
  lemma ReloadIsReloaded(f: Files, s: State, others: seq<seq<Action>>) returns (at: Accesses)
    requires Inv(f, s) && s.poller.Begun? && |others| >= 6 && Quiet(others)
    ensures NotAfter(s.disk, at.stat) && NotAfter(at.stat, at.load) && NotAfter(at.load, Finish(f, s, others).disk)
    ensures var t := Finish(f, s, others); t.poller.Waiting? && Serves(t) == Reloaded(f, Serves(s), at)
  {
    var t, disk := OneStep(f, s, others);
    at := Accesses(disk, disk);
    if t.poller.CertStated? {
      at := FromCertStated(f, t, others[1..]);
    }
  }

  // ---- after Stop ----

  predicate SomeStopReturned(s: State) {
    exists i :: 0 <= i < |s.stops| && s.stops[i].Returned?
  }

  /** A step after that. */
  lemma StepAfterStop(f: Files, s: State, a: Action)
    requires Living(s) && SomeStopReturned(s)
    ensures var t := Step(f, s, a);
            && SomeStopReturned(t) && t.served == s.served && t.recorded == s.recorded
            && t.life.Stopped? && t.poller.Gone? && t.pollers == s.pollers
  {
    var i :| 0 <= i < |s.stops| && s.stops[i].Returned?;
    assert Step(f, s, a).stops[i].Returned?;
  }

  /** Once a Stop has returned on a started reloader nothing it serves or records changes, and it
      cannot be started again. */
  lemma {:induction false} NothingChangesAfterStop(f: Files, s: State, actions: seq<Action>)
    requires Inv(f, s) && SomeStopReturned(s)
    ensures var t := Run(f, s, actions);
            && Inv(f, t) && SomeStopReturned(t) && t.served == s.served && t.recorded == s.recorded
            && t.life.Stopped? && t.poller.Gone? && t.pollers == s.pollers
  {
    if actions != [] {
      var (front, a) := (actions[..|actions| - 1], actions[|actions| - 1]);
      NothingChangesAfterStop(f, s, front);
      StepAfterStop(f, Run(f, s, front), a);
      StepKeepsInv(f, Run(f, s, front), a);
    }
  }
}
