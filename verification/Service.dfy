/**
 The runtime service around its snapshots: acquire, the swap and retirement done
 by a reload, the bounded list of retired snapshots, and service Close, which may
 race with all of them.

 A reload or a Close call is a task with a program counter; each event is one
 mutex region, or the call or return of a snapshot operation, or one step of a
 goroutine inside a snapshot.
 */
module Service {
  import opened Basics
  import opened Snapshot

  type Sid = nat
  type Tid = nat

  const MAX_RETIRED := 8

  /** `sid` is the snapshot the call is working on; the others are where its own calls into snapshots run. */
  datatype Task =
    // Reload
    | Built(sid: Sid)
    | Abandoning(sid: Sid, r: ActorId)
    | Detached(sid: Sid)
    | RetireOld(sid: Sid, r: ActorId)
    | Retired(sid: Sid)
    | Registering(sid: Sid)
    | ForceOld(sid: Sid, f: ActorId)
    // Close
    | Collecting(sid: Sid)
    | Sweeping(todo: seq<Sid>)
    | SweepRetire(sid: Sid, r: ActorId, todo: seq<Sid>)
    | SweepForce(sid: Sid, f: ActorId, todo: seq<Sid>)

  /** `installed`, `reloader` and `shutter` (the call that closed the service) record history. */
  datatype Svc = Svc(
    closed: bool,
    current: Option<Sid>,
    retired: seq<Sid>,
    snaps: map<Sid, Snap>,
    tasks: map<Tid, Task>,
    reloader: Option<Tid>,
    shutter: Option<Tid>,
    installed: set<Sid>)

  function Start(first: Sid): Svc {
    Svc(false, Some(first), [], map[first := Pristine], map[], None, None, {first})
  }

  datatype SvcEvent =
    | Lease(a: ActorId)
    | Inner(x: Sid, e: Event)
    | BeginReload(t: Tid, x: Sid)
    | Abandon(t: Tid, r: ActorId)
    | Swap(t: Tid)
    | CallRetire(t: Tid, r: ActorId)
    | RetireReturns(t: Tid)
    | LoadClosed(t: Tid)
    | Register(t: Tid, f: ActorId)
    | RegisterLate(t: Tid, f: ActorId)
    | ReloadReturns(t: Tid)
    | BeginClose(t: Tid)
    | Collect(t: Tid)
    | CallSweepRetire(t: Tid, r: ActorId)
    | CallSweepForce(t: Tid, f: ActorId)
    | SweepForceReturns(t: Tid)
    | CloseReturns(t: Tid)

  predicate Fresh(s: Svc, sid: Sid, a: ActorId) {
    sid in s.snaps && a !in s.snaps[sid].actors
  }

  predicate Finish(s: Svc, sid: Sid, a: ActorId) {
    sid in s.snaps && At(s.snaps[sid], a, Done)
  }

  /** The retired snapshots whose resources are still open, oldest first. */
  function StillOpen(retired: seq<Sid>, snaps: map<Sid, Snap>): seq<Sid>
    requires forall x :: x in retired ==> x in snaps
  {
    if retired == [] then []
    else (if snaps[retired[0]].closed then [] else [retired[0]]) + StillOpen(retired[1..], snaps)
  }

  function Kept(s: Svc, sid: Sid): seq<Sid>
    requires forall x :: x in s.retired ==> x in s.snaps
  {
    StillOpen(s.retired, s.snaps) + [sid]
  }

  function Put(s: Svc, t: Tid, task: Task, sid: Sid, sn: Snap): Svc {
    s.(tasks := s.tasks[t := task], snaps := s.snaps[sid := sn])
  }

  // Acquire.

  predicate CanLease(s: Svc, a: ActorId) {
    !s.closed && s.current.Some? && Fresh(s, s.current.value, a)
  }

  function DoLease(s: Svc, a: ActorId): Svc
    requires CanLease(s, a)
  {
    var cur := s.current.value;
    s.(snaps := s.snaps[cur := Acquire(s.snaps[cur], a)])
  }

  // One step of a goroutine inside snapshot x.

  predicate CanInner(s: Svc, x: Sid, e: Event) {
    x in s.snaps && Enabled(s.snaps[x], e)
  }

  function DoInner(s: Svc, x: Sid, e: Event): Svc
    requires CanInner(s, x, e)
  {
    s.(snaps := s.snaps[x := Next(s.snaps[x], e)])
  }

  // Reload wins reloadBusy and builds snapshot x.

  predicate CanBeginReload(s: Svc, t: Tid, x: Sid) {
    s.reloader == None && t !in s.tasks && x !in s.snaps
  }

  function DoBeginReload(s: Svc, t: Tid, x: Sid): Svc
    requires CanBeginReload(s, t, x)
  {
    Put(s, t, Built(x), x, Pristine).(reloader := Some(t))
  }

  // A reload that failed retires the snapshot it built.

  predicate CanAbandon(s: Svc, t: Tid, r: ActorId) {
    t in s.tasks && s.tasks[t].Built? && Fresh(s, s.tasks[t].sid, r)
  }

  function DoAbandon(s: Svc, t: Tid, r: ActorId): Svc
    requires CanAbandon(s, t, r)
  {
    var x := s.tasks[t].sid;
    Put(s, t, Abandoning(x, r), x, StartRetire(s.snaps[x], r))
  }

  // The swap; on a closed service the reload abandons instead.

  predicate CanSwap(s: Svc, t: Tid) {
    t in s.tasks && s.tasks[t].Built? && !s.closed && s.current.Some?
  }

  function DoSwap(s: Svc, t: Tid): Svc
    requires CanSwap(s, t)
  {
    var x := s.tasks[t].sid;
    s.(tasks := s.tasks[t := Detached(s.current.value)], current := Some(x), installed := s.installed + {x})
  }

  // RetireSnapshot calls retire.

  predicate CanCallRetire(s: Svc, t: Tid, r: ActorId) {
    t in s.tasks && s.tasks[t].Detached? && Fresh(s, s.tasks[t].sid, r)
  }

  function DoCallRetire(s: Svc, t: Tid, r: ActorId): Svc
    requires CanCallRetire(s, t, r)
  {
    var x := s.tasks[t].sid;
    Put(s, t, RetireOld(x, r), x, StartRetire(s.snaps[x], r))
  }

  predicate CanRetireReturns(s: Svc, t: Tid) {
    t in s.tasks && s.tasks[t].RetireOld? && Finish(s, s.tasks[t].sid, s.tasks[t].r)
  }

  function DoRetireReturns(s: Svc, t: Tid): Svc
    requires CanRetireReturns(s, t)
  {
    s.(tasks := s.tasks[t := Retired(s.tasks[t].sid)])
  }

  // RetireSnapshot returns early when the snapshot is closed already.

  predicate CanLoadClosed(s: Svc, t: Tid) {
    t in s.tasks && s.tasks[t].Retired? && s.tasks[t].sid in s.snaps
  }

  function DoLoadClosed(s: Svc, t: Tid): Svc
    requires CanLoadClosed(s, t)
  {
    if s.snaps[s.tasks[t].sid].closed then s.(tasks := s.tasks - {t}, reloader := None)
    else s.(tasks := s.tasks[t := Registering(s.tasks[t].sid)])
  }

  // RetireSnapshot registers the snapshot and force-closes the oldest beyond the bound.

  predicate CanRegister(s: Svc, t: Tid, f: ActorId) {
    && t in s.tasks && s.tasks[t].Registering? && s.tasks[t].sid in s.snaps && !s.closed
    && (forall x :: x in s.retired ==> x in s.snaps)
    && (|Kept(s, s.tasks[t].sid)| > MAX_RETIRED ==> Fresh(s, Kept(s, s.tasks[t].sid)[0], f))
  }

  function DoRegister(s: Svc, t: Tid, f: ActorId): Svc
    requires CanRegister(s, t, f)
  {
    var kept := Kept(s, s.tasks[t].sid);
    var s' := s.(tasks := s.tasks - {t}, reloader := None);
    if |kept| > MAX_RETIRED then
      s'.(retired := kept[1..], snaps := s.snaps[kept[0] := StartForce(s.snaps[kept[0]], f)])
    else s'.(retired := kept)
  }

  // RetireSnapshot finds the service closed and force-closes the snapshot itself.

  predicate CanRegisterLate(s: Svc, t: Tid, f: ActorId) {
    t in s.tasks && s.tasks[t].Registering? && s.closed && Fresh(s, s.tasks[t].sid, f)
  }

  function DoRegisterLate(s: Svc, t: Tid, f: ActorId): Svc
    requires CanRegisterLate(s, t, f)
  {
    var x := s.tasks[t].sid;
    Put(s, t, ForceOld(x, f), x, StartForce(s.snaps[x], f))
  }

  predicate CanReloadReturns(s: Svc, t: Tid) {
    && t in s.tasks && (s.tasks[t].ForceOld? || s.tasks[t].Abandoning?)
    && Finish(s, s.tasks[t].sid, if s.tasks[t].ForceOld? then s.tasks[t].f else s.tasks[t].r)
  }

  function DoReloadReturns(s: Svc, t: Tid): Svc
    requires CanReloadReturns(s, t)
  {
    s.(tasks := s.tasks - {t}, reloader := None)
  }

  // Service Close detaches the current snapshot.

  predicate CanBeginClose(s: Svc, t: Tid) {
    !s.closed && s.current.Some? && t !in s.tasks
  }

  function DoBeginClose(s: Svc, t: Tid): Svc
    requires CanBeginClose(s, t)
  {
    s.(closed := true, current := None, shutter := Some(t), tasks := s.tasks[t := Collecting(s.current.value)])
  }

  predicate CanCollect(s: Svc, t: Tid) {
    t in s.tasks && s.tasks[t].Collecting?
  }

  function DoCollect(s: Svc, t: Tid): Svc
    requires CanCollect(s, t)
  {
    s.(retired := [], tasks := s.tasks[t := Sweeping(s.retired + [s.tasks[t].sid])])
  }

  predicate CanCallSweepRetire(s: Svc, t: Tid, r: ActorId) {
    t in s.tasks && s.tasks[t].Sweeping? && s.tasks[t].todo != [] && Fresh(s, s.tasks[t].todo[0], r)
  }

  function DoCallSweepRetire(s: Svc, t: Tid, r: ActorId): Svc
    requires CanCallSweepRetire(s, t, r)
  {
    var x := s.tasks[t].todo[0];
    Put(s, t, SweepRetire(x, r, s.tasks[t].todo[1..]), x, StartRetire(s.snaps[x], r))
  }

  predicate CanCallSweepForce(s: Svc, t: Tid, f: ActorId) {
    && t in s.tasks && s.tasks[t].SweepRetire? && Finish(s, s.tasks[t].sid, s.tasks[t].r)
    && Fresh(s, s.tasks[t].sid, f)
  }

  function DoCallSweepForce(s: Svc, t: Tid, f: ActorId): Svc
    requires CanCallSweepForce(s, t, f)
  {
    var x := s.tasks[t].sid;
    Put(s, t, SweepForce(x, f, s.tasks[t].todo), x, StartForce(s.snaps[x], f))
  }

  predicate CanSweepForceReturns(s: Svc, t: Tid) {
    t in s.tasks && s.tasks[t].SweepForce? && Finish(s, s.tasks[t].sid, s.tasks[t].f)
  }

  function DoSweepForceReturns(s: Svc, t: Tid): Svc
    requires CanSweepForceReturns(s, t)
  {
    s.(tasks := s.tasks[t := Sweeping(s.tasks[t].todo)])
  }

  predicate CanCloseReturns(s: Svc, t: Tid) {
    t in s.tasks && s.tasks[t] == Sweeping([])
  }

  function DoCloseReturns(s: Svc, t: Tid): Svc
    requires CanCloseReturns(s, t)
  {
    s.(tasks := s.tasks - {t})
  }

  predicate SvcEnabled(s: Svc, e: SvcEvent) {
    match e
    case Lease(a) => CanLease(s, a)
    case Inner(x, i) => CanInner(s, x, i)
    case BeginReload(t, x) => CanBeginReload(s, t, x)
    case Abandon(t, r) => CanAbandon(s, t, r)
    case Swap(t) => CanSwap(s, t)
    case CallRetire(t, r) => CanCallRetire(s, t, r)
    case RetireReturns(t) => CanRetireReturns(s, t)
    case LoadClosed(t) => CanLoadClosed(s, t)
    case Register(t, f) => CanRegister(s, t, f)
    case RegisterLate(t, f) => CanRegisterLate(s, t, f)
    case ReloadReturns(t) => CanReloadReturns(s, t)
    case BeginClose(t) => CanBeginClose(s, t)
    case Collect(t) => CanCollect(s, t)
    case CallSweepRetire(t, r) => CanCallSweepRetire(s, t, r)
    case CallSweepForce(t, f) => CanCallSweepForce(s, t, f)
    case SweepForceReturns(t) => CanSweepForceReturns(s, t)
    case CloseReturns(t) => CanCloseReturns(s, t)
  }

  function SvcNext(s: Svc, e: SvcEvent): Svc
    requires SvcEnabled(s, e)
  {
    match e
    case Lease(a) => DoLease(s, a)
    case Inner(x, i) => DoInner(s, x, i)
    case BeginReload(t, x) => DoBeginReload(s, t, x)
    case Abandon(t, r) => DoAbandon(s, t, r)
    case Swap(t) => DoSwap(s, t)
    case CallRetire(t, r) => DoCallRetire(s, t, r)
    case RetireReturns(t) => DoRetireReturns(s, t)
    case LoadClosed(t) => DoLoadClosed(s, t)
    case Register(t, f) => DoRegister(s, t, f)
    case RegisterLate(t, f) => DoRegisterLate(s, t, f)
    case ReloadReturns(t) => DoReloadReturns(s, t)
    case BeginClose(t) => DoBeginClose(s, t)
    case Collect(t) => DoCollect(s, t)
    case CallSweepRetire(t, r) => DoCallSweepRetire(s, t, r)
    case CallSweepForce(t, f) => DoCallSweepForce(s, t, f)
    case SweepForceReturns(t) => DoSweepForceReturns(s, t)
    case CloseReturns(t) => DoCloseReturns(s, t)
  }

  // ---- Invariant --------------------------------------------------------

  /** Installed once, but no longer current. */
  ghost predicate Away(s: Svc, x: Sid) {
    x in s.snaps && x in s.installed && s.current != Some(x)
  }

  ghost predicate AllAway(s: Svc, xs: seq<Sid>) {
    forall x :: x in xs ==> Away(s, x)
  }

  ghost predicate TaskOk(s: Svc, t: Tid, task: Task) {
    match task
    case Built(x) => s.reloader == Some(t) && x in s.snaps && x !in s.installed && s.snaps[x] == Pristine
    case Abandoning(x, r) => s.reloader == Some(t) && x in s.snaps && x !in s.installed && r in s.snaps[x].retirers
    case Detached(x) => s.reloader == Some(t) && Away(s, x)
    case RetireOld(x, r) => s.reloader == Some(t) && Away(s, x) && r in s.snaps[x].retirers
    case Retired(x) => s.reloader == Some(t) && Away(s, x)
    case Registering(x) => s.reloader == Some(t) && Away(s, x)
    case ForceOld(x, f) => s.reloader == Some(t) && Away(s, x) && f in s.snaps[x].forcers
    case Collecting(x) => s.shutter == Some(t) && Away(s, x)
    case Sweeping(todo) => s.shutter == Some(t) && AllAway(s, todo)
    case SweepRetire(x, r, todo) =>
      s.shutter == Some(t) && Away(s, x) && r in s.snaps[x].retirers && AllAway(s, todo)
    case SweepForce(x, f, todo) =>
      s.shutter == Some(t) && Away(s, x) && f in s.snaps[x].forcers && AllAway(s, todo)
  }

  ghost predicate TasksOk(s: Svc) {
    forall t :: t in s.tasks ==> TaskOk(s, t, s.tasks[t])
  }

  ghost predicate SnapsOk(s: Svc) {
    forall x :: x in s.snaps ==> Inv(s.snaps[x], s.current == Some(x))
  }

  ghost predicate Shape(s: Svc) {
    && (s.closed <==> s.current.None?)
    && (s.closed <==> s.shutter.Some?)
    && s.installed <= s.snaps.Keys
    && (s.current.Some? ==> s.current.value in s.installed)
    && (forall x :: x in s.snaps && x !in s.installed ==> s.snaps[x].refs == 0)
    && |s.retired| <= MAX_RETIRED
    && AllAway(s, s.retired)
    && (s.closed && s.retired != [] ==> s.shutter.value in s.tasks && s.tasks[s.shutter.value].Collecting?)
  }

  predicate Mentions(task: Task, x: Sid) {
    match task
    case Sweeping(todo) => x in todo
    case SweepRetire(y, _, todo) => x == y || x in todo
    case SweepForce(y, _, todo) => x == y || x in todo
    case _ => x == task.sid
  }

  /** Somebody is answerable for closing snapshot x, or it is current. */
  ghost predicate Covered(s: Svc, x: Sid)
    requires x in s.snaps
  {
    || s.current == Some(x)
    || s.snaps[x].closed
    || s.snaps[x].forcers != {}
    || (x !in s.installed && s.snaps[x].retired)
    || x in s.retired
    || exists t :: t in s.tasks && Mentions(s.tasks[t], x)
  }

  ghost predicate AllCovered(s: Svc) {
    forall x :: x in s.snaps ==> Covered(s, x)
  }

  ghost predicate SvcInv(s: Svc) {
    Shape(s) && SnapsOk(s) && TasksOk(s) && AllCovered(s)
  }

  // ---- Preservation -----------------------------------------------------

  lemma StillOpenKeeps(retired: seq<Sid>, snaps: map<Sid, Snap>)
    requires forall x :: x in retired ==> x in snaps
    ensures var kept := StillOpen(retired, snaps);
            && |kept| <= |retired|
            && (forall x :: x in kept <==> x in retired && !snaps[x].closed)
  {
  }

  lemma PristineIsIdle(e: Event)
    ensures !Enabled(Pristine, e)
  {
  }

  lemma PristineInv()
    ensures Inv(Pristine, true) && Inv(Pristine, false)
  {
    assert Leases(Pristine) == {};
  }

  ghost predicate SnapsGrow(s: Svc, s': Svc) {
    && s.snaps.Keys <= s'.snaps.Keys
    && forall x :: x in s.snaps ==> Grows(s.snaps[x], s'.snaps[x])
  }

  /** A step of task t loses coverage only where t itself, the list or the current slot gave it up. */
  lemma CoverageMoves(s: Svc, s': Svc, t: Tid, x: Sid)
    requires x in s.snaps && Covered(s, x) && SnapsGrow(s, s')
    requires forall u :: u in s.tasks && u != t ==> u in s'.tasks && s'.tasks[u] == s.tasks[u]
    requires s.current == Some(x) ==> Covered(s', x)
    requires x in s.retired ==> Covered(s', x)
    requires x in s'.installed - s.installed ==> Covered(s', x)
    requires t in s.tasks && Mentions(s.tasks[t], x) ==> Covered(s', x)
    ensures Covered(s', x)
  {
    if u :| u in s.tasks && Mentions(s.tasks[u], x) {
      if u != t {
        assert Mentions(s'.tasks[u], x);
      }
    }
  }

  lemma LeaseKeeps(s: Svc, a: ActorId)
    requires Shape(s) && SnapsOk(s) && TasksOk(s) && CanLease(s, a)
    ensures var s' := DoLease(s, a); Shape(s') && SnapsOk(s') && TasksOk(s')
  {
    hide Inv;
    AcquireKeepsInv(s.snaps[s.current.value], a);
  }

  lemma LeaseCovers(s: Svc, a: ActorId)
    requires SvcInv(s) && CanLease(s, a)
    ensures AllCovered(DoLease(s, a))
  {
    hide Inv, TasksOk, SnapsOk;
    var s' := DoLease(s, a);
    forall y | y in s'.snaps
      ensures Covered(s', y)
    {
      if u :| u in s.tasks && Mentions(s.tasks[u], y) {
        assert u in s'.tasks;
      }
    }
  }

  lemma InnerKeeps(s: Svc, x: Sid, e: Event)
    requires Shape(s) && SnapsOk(s) && TasksOk(s) && CanInner(s, x, e)
    ensures var s' := DoInner(s, x, e); Shape(s') && SnapsOk(s') && TasksOk(s')
  {
    hide Inv;
    hide Next, Enabled;
    StepKeepsInv(s.snaps[x], e, s.current == Some(x));
    PristineIsIdle(e);
  }

  lemma InnerCovers(s: Svc, x: Sid, e: Event)
    requires SvcInv(s) && CanInner(s, x, e)
    ensures AllCovered(DoInner(s, x, e))
  {
    hide Inv;
    hide Next, Enabled;
    StepKeepsInv(s.snaps[x], e, s.current == Some(x));
    PristineIsIdle(e);
    var s' := DoInner(s, x, e);
    forall y | y in s'.snaps
      ensures Covered(s', y)
    {
      if u :| u in s.tasks && Mentions(s.tasks[u], y) {
        assert u in s'.tasks;
      }
    }
  }

  lemma BeginReloadKeeps(s: Svc, t: Tid, x: Sid)
    requires Shape(s) && SnapsOk(s) && TasksOk(s) && CanBeginReload(s, t, x)
    ensures var s' := DoBeginReload(s, t, x); Shape(s') && SnapsOk(s') && TasksOk(s')
  {
    hide Inv;
    PristineInv();
  }

  lemma BeginReloadCovers(s: Svc, t: Tid, x: Sid)
    requires SvcInv(s) && CanBeginReload(s, t, x)
    ensures AllCovered(DoBeginReload(s, t, x))
  {
    hide Inv, TasksOk, SnapsOk, Grows;
    var s' := DoBeginReload(s, t, x);
    Moved(s, s', x, Pristine);
    forall y | y in s'.snaps
      ensures Covered(s', y)
    {
      if !(t in s'.tasks && Mentions(s'.tasks[t], y)) {
        CoverageMoves(s, s', t, y);
      }
    }
  }

  lemma AbandonKeeps(s: Svc, t: Tid, r: ActorId)
    requires Shape(s) && SnapsOk(s) && TasksOk(s) && CanAbandon(s, t, r)
    ensures var s' := DoAbandon(s, t, r); Shape(s') && SnapsOk(s') && TasksOk(s')
  {
    hide Inv;
    StartRetireKeepsInv(s.snaps[s.tasks[t].sid], r);
  }

  lemma AbandonCovers(s: Svc, t: Tid, r: ActorId)
    requires SvcInv(s) && CanAbandon(s, t, r)
    ensures AllCovered(DoAbandon(s, t, r))
  {
    hide Inv, TasksOk, SnapsOk, Grows;
    var s' := DoAbandon(s, t, r);
    Called(s, s', s.tasks[t].sid, r);
    forall y | y in s'.snaps
      ensures Covered(s', y)
    {
      if !(t in s'.tasks && Mentions(s'.tasks[t], y)) {
        CoverageMoves(s, s', t, y);
      }
    }
  }

  lemma SwapKeeps(s: Svc, t: Tid)
    requires Shape(s) && SnapsOk(s) && TasksOk(s) && CanSwap(s, t)
    ensures var s' := DoSwap(s, t); Shape(s') && SnapsOk(s') && TasksOk(s')
  {
    hide Inv;
    PristineInv();
    DetachKeepsInv(s.snaps[s.current.value]);
  }

  lemma SwapCovers(s: Svc, t: Tid)
    requires SvcInv(s) && CanSwap(s, t)
    ensures AllCovered(DoSwap(s, t))
  {
    hide Inv, TasksOk, SnapsOk, Grows;
    var s' := DoSwap(s, t);
    Unmoved(s, s');
    forall y | y in s'.snaps
      ensures Covered(s', y)
    {
      if !(t in s'.tasks && Mentions(s'.tasks[t], y)) {
        CoverageMoves(s, s', t, y);
      }
    }
  }

  lemma CallRetireKeeps(s: Svc, t: Tid, r: ActorId)
    requires Shape(s) && SnapsOk(s) && TasksOk(s) && CanCallRetire(s, t, r)
    ensures var s' := DoCallRetire(s, t, r); Shape(s') && SnapsOk(s') && TasksOk(s')
  {
    hide Inv;
    StartRetireKeepsInv(s.snaps[s.tasks[t].sid], r);
  }

  lemma CallRetireCovers(s: Svc, t: Tid, r: ActorId)
    requires SvcInv(s) && CanCallRetire(s, t, r)
    ensures AllCovered(DoCallRetire(s, t, r))
  {
    hide Inv, TasksOk, SnapsOk, Grows;
    var s' := DoCallRetire(s, t, r);
    Called(s, s', s.tasks[t].sid, r);
    forall y | y in s'.snaps
      ensures Covered(s', y)
    {
      if !(t in s'.tasks && Mentions(s'.tasks[t], y)) {
        CoverageMoves(s, s', t, y);
      }
    }
  }

  lemma RetireReturnsKeeps(s: Svc, t: Tid)
    requires Shape(s) && SnapsOk(s) && TasksOk(s) && CanRetireReturns(s, t)
    ensures var s' := DoRetireReturns(s, t); Shape(s') && SnapsOk(s') && TasksOk(s')
  {
    hide Inv;
  }

  lemma RetireReturnsCovers(s: Svc, t: Tid)
    requires SvcInv(s) && CanRetireReturns(s, t)
    ensures AllCovered(DoRetireReturns(s, t))
  {
    hide Inv, TasksOk, SnapsOk, Grows;
    var s' := DoRetireReturns(s, t);
    Unmoved(s, s');
    forall y | y in s'.snaps
      ensures Covered(s', y)
    {
      if !(t in s'.tasks && Mentions(s'.tasks[t], y)) {
        CoverageMoves(s, s', t, y);
      }
    }
  }

  lemma LoadClosedKeeps(s: Svc, t: Tid)
    requires Shape(s) && SnapsOk(s) && TasksOk(s) && CanLoadClosed(s, t)
    ensures var s' := DoLoadClosed(s, t); Shape(s') && SnapsOk(s') && TasksOk(s')
  {
    hide Inv;
  }

  lemma LoadClosedCovers(s: Svc, t: Tid)
    requires SvcInv(s) && CanLoadClosed(s, t)
    ensures AllCovered(DoLoadClosed(s, t))
  {
    hide Inv, TasksOk, SnapsOk, Grows;
    var s' := DoLoadClosed(s, t);
    Unmoved(s, s');
    forall y | y in s'.snaps
      ensures Covered(s', y)
    {
      if !(t in s'.tasks && Mentions(s'.tasks[t], y)) {
        CoverageMoves(s, s', t, y);
      }
    }
  }

  /** What the list becomes: the snapshots still open and the new one, without the victim. */
  lemma KeptIsAway(s: Svc, t: Tid, f: ActorId)
    requires Shape(s) && TasksOk(s) && CanRegister(s, t, f)
    ensures var kept := Kept(s, s.tasks[t].sid);
            AllAway(s, kept) && |kept| <= MAX_RETIRED + 1 && kept != [] && forall x :: x in kept[1..] ==> x in kept
  {
    StillOpenKeeps(s.retired, s.snaps);
    hide StillOpen;
    assert TaskOk(s, t, s.tasks[t]);
  }

  lemma RegisterKeeps(s: Svc, t: Tid, f: ActorId)
    requires Shape(s) && SnapsOk(s) && TasksOk(s) && CanRegister(s, t, f)
    ensures var s' := DoRegister(s, t, f); Shape(s') && SnapsOk(s') && TasksOk(s')
  {
    hide Inv;
    KeptIsAway(s, t, f);
    var kept, s' := Kept(s, s.tasks[t].sid), DoRegister(s, t, f);
    if |kept| > MAX_RETIRED {
      assert kept[0] in kept;
      StartForceKeepsInv(s.snaps[kept[0]], f);
    }
    hide Kept, StillOpen;
  }

  lemma RegisterCovers(s: Svc, t: Tid, f: ActorId)
    requires SvcInv(s) && CanRegister(s, t, f)
    ensures AllCovered(DoRegister(s, t, f))
  {
    hide Inv, TasksOk, SnapsOk;
    StillOpenKeeps(s.retired, s.snaps);
    var kept, s' := Kept(s, s.tasks[t].sid), DoRegister(s, t, f);
    if |kept| > MAX_RETIRED {
      Called(s, s', kept[0], f);
      assert forall x :: x in kept ==> x == kept[0] || x in kept[1..];
    } else {
      Unmoved(s, s');
    }
    hide StillOpen;
    forall y | y in s'.snaps
      ensures Covered(s', y)
    {
      CoverageMoves(s, s', t, y);
    }
  }

  lemma RegisterLateKeeps(s: Svc, t: Tid, f: ActorId)
    requires Shape(s) && SnapsOk(s) && TasksOk(s) && CanRegisterLate(s, t, f)
    ensures var s' := DoRegisterLate(s, t, f); Shape(s') && SnapsOk(s') && TasksOk(s')
  {
    hide Inv;
    StartForceKeepsInv(s.snaps[s.tasks[t].sid], f);
  }

  lemma RegisterLateCovers(s: Svc, t: Tid, f: ActorId)
    requires SvcInv(s) && CanRegisterLate(s, t, f)
    ensures AllCovered(DoRegisterLate(s, t, f))
  {
    hide Inv, TasksOk, SnapsOk, Grows;
    var s' := DoRegisterLate(s, t, f);
    Called(s, s', s.tasks[t].sid, f);
    forall y | y in s'.snaps
      ensures Covered(s', y)
    {
      if !(t in s'.tasks && Mentions(s'.tasks[t], y)) {
        CoverageMoves(s, s', t, y);
      }
    }
  }

  lemma ReloadReturnsKeeps(s: Svc, t: Tid)
    requires Shape(s) && SnapsOk(s) && TasksOk(s) && CanReloadReturns(s, t)
    ensures var s' := DoReloadReturns(s, t); Shape(s') && SnapsOk(s') && TasksOk(s')
  {
    hide Inv;
    var x := s.tasks[t].sid;
    if s.tasks[t].Abandoning? {
      RetireReturned(s.snaps[x], s.current == Some(x), s.tasks[t].r);
    }
  }

  lemma ReloadReturnsCovers(s: Svc, t: Tid)
    requires SvcInv(s) && CanReloadReturns(s, t)
    ensures AllCovered(DoReloadReturns(s, t))
  {
    hide Inv;
    var x := s.tasks[t].sid;
    if s.tasks[t].Abandoning? {
      RetireReturned(s.snaps[x], s.current == Some(x), s.tasks[t].r);
    }
    var s' := DoReloadReturns(s, t);
    forall y | y in s'.snaps
      ensures Covered(s', y)
    {
      CoverageMoves(s, s', t, y);
    }
  }

  lemma BeginCloseKeeps(s: Svc, t: Tid)
    requires Shape(s) && SnapsOk(s) && TasksOk(s) && CanBeginClose(s, t)
    ensures var s' := DoBeginClose(s, t); Shape(s') && SnapsOk(s') && TasksOk(s')
  {
    hide Inv;
    DetachKeepsInv(s.snaps[s.current.value]);
  }

  lemma BeginCloseCovers(s: Svc, t: Tid)
    requires SvcInv(s) && CanBeginClose(s, t)
    ensures AllCovered(DoBeginClose(s, t))
  {
    hide Inv, TasksOk, SnapsOk, Grows;
    var s' := DoBeginClose(s, t);
    Unmoved(s, s');
    forall y | y in s'.snaps
      ensures Covered(s', y)
    {
      if !(t in s'.tasks && Mentions(s'.tasks[t], y)) {
        CoverageMoves(s, s', t, y);
      }
    }
  }

  lemma CollectKeeps(s: Svc, t: Tid)
    requires Shape(s) && SnapsOk(s) && TasksOk(s) && CanCollect(s, t)
    ensures var s' := DoCollect(s, t); Shape(s') && SnapsOk(s') && TasksOk(s')
  {
    hide Inv;
  }

  lemma CollectCovers(s: Svc, t: Tid)
    requires SvcInv(s) && CanCollect(s, t)
    ensures AllCovered(DoCollect(s, t))
  {
    hide Inv, TasksOk, SnapsOk, Grows;
    var s' := DoCollect(s, t);
    Unmoved(s, s');
    forall y | y in s'.snaps
      ensures Covered(s', y)
    {
      if !(t in s'.tasks && Mentions(s'.tasks[t], y)) {
        CoverageMoves(s, s', t, y);
      }
    }
  }

  lemma CallSweepRetireKeeps(s: Svc, t: Tid, r: ActorId)
    requires Shape(s) && SnapsOk(s) && TasksOk(s) && CanCallSweepRetire(s, t, r)
    ensures var s' := DoCallSweepRetire(s, t, r); Shape(s') && SnapsOk(s') && TasksOk(s')
  {
    hide Inv;
    StartRetireKeepsInv(s.snaps[s.tasks[t].todo[0]], r);
    assert forall y :: y in s.tasks[t].todo[1..] ==> y in s.tasks[t].todo;
    assert s.tasks[t].todo[0] in s.tasks[t].todo;
  }

  lemma CallSweepRetireCovers(s: Svc, t: Tid, r: ActorId)
    requires SvcInv(s) && CanCallSweepRetire(s, t, r)
    ensures AllCovered(DoCallSweepRetire(s, t, r))
  {
    hide Inv, TasksOk, SnapsOk, Grows;
    assert forall y :: y in s.tasks[t].todo[1..] ==> y in s.tasks[t].todo;
    assert s.tasks[t].todo[0] in s.tasks[t].todo;
    var s' := DoCallSweepRetire(s, t, r);
    Called(s, s', s.tasks[t].todo[0], r);
    forall y | y in s'.snaps
      ensures Covered(s', y)
    {
      if !(t in s'.tasks && Mentions(s'.tasks[t], y)) {
        CoverageMoves(s, s', t, y);
      }
    }
  }

  lemma CallSweepForceKeeps(s: Svc, t: Tid, f: ActorId)
    requires Shape(s) && SnapsOk(s) && TasksOk(s) && CanCallSweepForce(s, t, f)
    ensures var s' := DoCallSweepForce(s, t, f); Shape(s') && SnapsOk(s') && TasksOk(s')
  {
    hide Inv;
    StartForceKeepsInv(s.snaps[s.tasks[t].sid], f);
  }

  lemma CallSweepForceCovers(s: Svc, t: Tid, f: ActorId)
    requires SvcInv(s) && CanCallSweepForce(s, t, f)
    ensures AllCovered(DoCallSweepForce(s, t, f))
  {
    hide Inv, TasksOk, SnapsOk, Grows;
    var s' := DoCallSweepForce(s, t, f);
    Called(s, s', s.tasks[t].sid, f);
    forall y | y in s'.snaps
      ensures Covered(s', y)
    {
      if !(t in s'.tasks && Mentions(s'.tasks[t], y)) {
        CoverageMoves(s, s', t, y);
      }
    }
  }

  lemma SweepForceReturnsKeeps(s: Svc, t: Tid)
    requires Shape(s) && SnapsOk(s) && TasksOk(s) && CanSweepForceReturns(s, t)
    ensures var s' := DoSweepForceReturns(s, t); Shape(s') && SnapsOk(s') && TasksOk(s')
  {
    hide Inv;
  }

  lemma SweepForceReturnsCovers(s: Svc, t: Tid)
    requires SvcInv(s) && CanSweepForceReturns(s, t)
    ensures AllCovered(DoSweepForceReturns(s, t))
  {
    hide Inv, SnapsOk, Grows;
    var s' := DoSweepForceReturns(s, t);
    Unmoved(s, s');
    assert TaskOk(s, t, s.tasks[t]);
    hide TasksOk;
    forall y | y in s'.snaps
      ensures Covered(s', y)
    {
      if !(t in s'.tasks && Mentions(s'.tasks[t], y)) {
        CoverageMoves(s, s', t, y);
      }
    }
  }

  lemma CloseReturnsKeeps(s: Svc, t: Tid)
    requires Shape(s) && SnapsOk(s) && TasksOk(s) && CanCloseReturns(s, t)
    ensures var s' := DoCloseReturns(s, t); Shape(s') && SnapsOk(s') && TasksOk(s')
  {
    hide Inv;
  }

  lemma CloseReturnsCovers(s: Svc, t: Tid)
    requires SvcInv(s) && CanCloseReturns(s, t)
    ensures AllCovered(DoCloseReturns(s, t))
  {
    hide Inv, TasksOk, SnapsOk, Grows;
    var s' := DoCloseReturns(s, t);
    Unmoved(s, s');
    forall y | y in s'.snaps
      ensures Covered(s', y)
    {
      CoverageMoves(s, s', t, y);
    }
  }

  lemma StepKeepsSvcInv(s: Svc, e: SvcEvent)
    requires SvcInv(s) && SvcEnabled(s, e)
    ensures SvcInv(SvcNext(s, e))
  {
    hide Shape, SnapsOk, TasksOk, AllCovered;
    match e
    case Lease(a) => LeaseKeeps(s, a); LeaseCovers(s, a);
    case Inner(x, i) => InnerKeeps(s, x, i); InnerCovers(s, x, i);
    case BeginReload(t, x) => BeginReloadKeeps(s, t, x); BeginReloadCovers(s, t, x);
    case Abandon(t, r) => AbandonKeeps(s, t, r); AbandonCovers(s, t, r);
    case Swap(t) => SwapKeeps(s, t); SwapCovers(s, t);
    case CallRetire(t, r) => CallRetireKeeps(s, t, r); CallRetireCovers(s, t, r);
    case RetireReturns(t) => RetireReturnsKeeps(s, t); RetireReturnsCovers(s, t);
    case LoadClosed(t) => LoadClosedKeeps(s, t); LoadClosedCovers(s, t);
    case Register(t, f) => RegisterKeeps(s, t, f); RegisterCovers(s, t, f);
    case RegisterLate(t, f) => RegisterLateKeeps(s, t, f); RegisterLateCovers(s, t, f);
    case ReloadReturns(t) => ReloadReturnsKeeps(s, t); ReloadReturnsCovers(s, t);
    case BeginClose(t) => BeginCloseKeeps(s, t); BeginCloseCovers(s, t);
    case Collect(t) => CollectKeeps(s, t); CollectCovers(s, t);
    case CallSweepRetire(t, r) => CallSweepRetireKeeps(s, t, r); CallSweepRetireCovers(s, t, r);
    case CallSweepForce(t, f) => CallSweepForceKeeps(s, t, f); CallSweepForceCovers(s, t, f);
    case SweepForceReturns(t) => SweepForceReturnsKeeps(s, t); SweepForceReturnsCovers(s, t);
    case CloseReturns(t) => CloseReturnsKeeps(s, t); CloseReturnsCovers(s, t);
  }

  // ---- Runs -------------------------------------------------------------

  /** evs is a possible interleaving starting in s. */
  ghost predicate Run(s: Svc, evs: seq<SvcEvent>)
    decreases |evs|, 0
  {
    evs == [] || (Run(s, evs[..|evs| - 1]) && SvcEnabled(Exec(s, evs[..|evs| - 1]), evs[|evs| - 1]))
  }

  ghost function Exec(s: Svc, evs: seq<SvcEvent>): Svc
    requires Run(s, evs)
    decreases |evs|, 1
  {
    if evs == [] then s else SvcNext(Exec(s, evs[..|evs| - 1]), evs[|evs| - 1])
  }

  lemma StartInv(first: Sid)
    ensures SvcInv(Start(first))
  {
    PristineInv();
  }

  lemma {:induction false} RunInv(first: Sid, evs: seq<SvcEvent>)
    requires Run(Start(first), evs)
    ensures SvcInv(Exec(Start(first), evs))
    decreases |evs|
  {
    hide SvcInv, SvcNext, SvcEnabled;
    if evs == [] {
      StartInv(first);
    } else {
      RunInv(first, evs[..|evs| - 1]);
      StepKeepsSvcInv(Exec(Start(first), evs[..|evs| - 1]), evs[|evs| - 1]);
    }
  }

  /**
   After every interleaving: refs counts the outstanding leases, a retired snapshot is not
   current, resources close at most once, the retired list holds at most 8 snapshots, and a
   retired snapshot without leases has had its close issued unless a release or retire call
   is still between its atomic operations.
   */
  lemma EveryRunIsSafe(first: Sid, evs: seq<SvcEvent>, x: Sid)
    requires Run(Start(first), evs) && x in Exec(Start(first), evs).snaps
    ensures var s := Exec(Start(first), evs); var sn := s.snaps[x];
            && sn.refs == |Leases(sn)|
            && (sn.retired ==> s.current != Some(x))
            && sn.closes <= 1
            && |s.retired| <= 8
            && (sn.retired && sn.refs == 0 && (forall a :: a in sn.actors ==> !sn.actors[a].RelCheck? && !sn.actors[a].RetireLoad?) ==>
                  sn.closer.Some? || sn.spawned > 0 || exists a :: a in sn.actors && sn.actors[a].CloseEnter?)
  {
    RunInv(first, evs);
    var s := Exec(Start(first), evs);
    var sn := s.snaps[x];
    hide Run, Exec;
    assert Inv(sn, s.current == Some(x));
    if sn.retired && sn.refs == 0 && (forall a :: a in sn.actors ==> !sn.actors[a].RelCheck? && !sn.actors[a].RetireLoad?) {
      RetiredWithoutLeasesIsClosing(sn, s.current == Some(x));
    }
  }

  /** Snapshots only move forward, and only the current one gains leases. */
  ghost predicate Evolves(s: Svc, s': Svc) {
    && SnapsGrow(s, s')
    && forall x :: x in s.snaps && s.current != Some(x) ==> x in s'.snaps && s'.snaps[x].refs <= s.snaps[x].refs
  }

  lemma Unmoved(s: Svc, s': Svc)
    requires s'.snaps == s.snaps
    ensures Evolves(s, s')
  {
  }

  lemma Moved(s: Svc, s': Svc, x: Sid, sn: Snap)
    requires s'.snaps == s.snaps[x := sn]
    requires x in s.snaps ==> Grows(s.snaps[x], sn) && (s.current == Some(x) || sn.refs <= s.snaps[x].refs)
    ensures Evolves(s, s')
  {
    hide Grows;
    forall y | y in s.snaps
      ensures Grows(s.snaps[y], s'.snaps[y])
    {
      SelfGrows(s.snaps[y]);
    }
  }

  lemma SelfGrows(sn: Snap)
    ensures Grows(sn, sn)
  {
  }

  lemma StartingGrows(sn: Snap, a: ActorId)
    requires a !in sn.actors
    ensures Grows(sn, StartRetire(sn, a)) && StartRetire(sn, a).refs == sn.refs
    ensures Grows(sn, StartForce(sn, a)) && StartForce(sn, a).refs == sn.refs
    ensures Grows(sn, Acquire(sn, a))
  {
  }

  lemma SnapsEvolve(s: Svc, e: SvcEvent)
    requires Shape(s) && SnapsOk(s) && SvcEnabled(s, e)
    ensures Evolves(s, SvcNext(s, e))
  {
    hide Inv, Next, Enabled, Evolves, Grows, StillOpen, AllAway, StartRetire, StartForce, Acquire, Finish;
    var s' := SvcNext(s, e);
    match e
    case Lease(a) =>
      StartingGrows(s.snaps[s.current.value], a);
      Moved(s, s', s.current.value, Acquire(s.snaps[s.current.value], a));
    case Inner(x, i) =>
      StepKeepsInv(s.snaps[x], i, s.current == Some(x));
      Moved(s, s', x, Next(s.snaps[x], i));
    case BeginReload(t, x) => Moved(s, s', x, Pristine);
    case Abandon(t, r) => Called(s, s', s.tasks[t].sid, r);
    case CallRetire(t, r) => Called(s, s', s.tasks[t].sid, r);
    case RegisterLate(t, f) => Called(s, s', s.tasks[t].sid, f);
    case CallSweepRetire(t, r) => Called(s, s', s.tasks[t].todo[0], r);
    case CallSweepForce(t, f) => Called(s, s', s.tasks[t].sid, f);
    case Register(t, f) =>
      var kept := Kept(s, s.tasks[t].sid);
      if |kept| > MAX_RETIRED {
        Called(s, s', kept[0], f);
      } else {
        Unmoved(s, s');
      }
    case _ => Unmoved(s, s');
  }

  lemma Called(s: Svc, s': Svc, x: Sid, a: ActorId)
    requires Fresh(s, x, a)
    requires s'.snaps == s.snaps[x := StartRetire(s.snaps[x], a)] || s'.snaps == s.snaps[x := StartForce(s.snaps[x], a)]
    ensures Evolves(s, s')
  {
    hide Evolves, Grows, StartRetire, StartForce;
    StartingGrows(s.snaps[x], a);
    if s'.snaps == s.snaps[x := StartRetire(s.snaps[x], a)] {
      Moved(s, s', x, StartRetire(s.snaps[x], a));
    } else {
      Moved(s, s', x, StartForce(s.snaps[x], a));
    }
  }

  /** Retirement is final: no later step leases the snapshot or makes it current again. */
  lemma RetiredStaysRetired(s: Svc, e: SvcEvent, x: Sid)
    requires SvcInv(s) && SvcEnabled(s, e) && x in s.snaps && s.snaps[x].retired
    ensures var s' := SvcNext(s, e);
            x in s'.snaps && s'.snaps[x].retired && s'.current != Some(x) && s'.snaps[x].refs <= s.snaps[x].refs
  {
    hide SvcNext, SvcEnabled;
    var s' := SvcNext(s, e);
    StepKeepsSvcInv(s, e);
    SnapsEvolve(s, e);
    RetiredIsDetached(s.snaps[x], s.current == Some(x));
    RetiredIsDetached(s'.snaps[x], s'.current == Some(x));
  }

  /** Over whole runs: from its retirement on, a snapshot stays retired, is never current again and gains no lease. */
  lemma {:induction false} RetiredForGood(first: Sid, evs: seq<SvcEvent>, more: seq<SvcEvent>, x: Sid)
    requires evs <= more && Run(Start(first), evs) && Run(Start(first), more)
    requires x in Exec(Start(first), evs).snaps && Exec(Start(first), evs).snaps[x].retired
    ensures var s, s' := Exec(Start(first), evs), Exec(Start(first), more);
            x in s'.snaps && s'.snaps[x].retired && s'.current != Some(x) && s'.snaps[x].refs <= s.snaps[x].refs
    decreases |more|
  {
    hide SvcInv, SvcNext, SvcEnabled;
    if |evs| < |more| {
      var m := more[..|more| - 1];
      RetiredForGood(first, evs, m, x);
      RunInv(first, m);
      RetiredStaysRetired(Exec(Start(first), m), more[|more| - 1], x);
    } else {
      assert evs == more;
      RunInv(first, evs);
      RetiredIsAway(Exec(Start(first), evs), x);
    }
  }

  lemma RetiredIsAway(s: Svc, x: Sid)
    requires SvcInv(s) && x in s.snaps && s.snaps[x].retired
    ensures s.current != Some(x)
  {
    hide Inv;
    RetiredIsDetached(s.snaps[x], s.current == Some(x));
  }

  // ---- No early close ---------------------------------------------------

  /** No lease is handed out while a releaser stalls between its decrement and its load of `retired`. */
  ghost predicate Calm(s: Svc, e: SvcEvent) {
    e.Lease? && s.current.Some? && s.current.value in s.snaps ==>
      forall b :: b in s.snaps[s.current.value].actors ==> !s.snaps[s.current.value].actors[b].RelCheck?
  }

  ghost predicate CalmRun(s: Svc, evs: seq<SvcEvent>)
    requires Run(s, evs)
  {
    evs != [] ==> CalmRun(s, evs[..|evs| - 1]) && Calm(Exec(s, evs[..|evs| - 1]), evs[|evs| - 1])
  }

  ghost predicate NoneEarly(s: Svc) {
    forall x :: x in s.snaps ==> NoEarlyClose(s.snaps[x])
  }

  lemma PristineIsNotEarly()
    ensures NoEarlyClose(Pristine)
  {
  }

  lemma MovedNotEarly(s: Svc, s': Svc, x: Sid, sn: Snap)
    requires NoneEarly(s) && s'.snaps == s.snaps[x := sn] && NoEarlyClose(sn)
    ensures NoneEarly(s')
  {
    hide NoEarlyClose;
  }

  lemma CalledNotEarly(s: Svc, s': Svc, x: Sid, a: ActorId)
    requires NoneEarly(s) && Fresh(s, x, a)
    requires s'.snaps == s.snaps[x := StartRetire(s.snaps[x], a)] || s'.snaps == s.snaps[x := StartForce(s.snaps[x], a)]
    ensures NoneEarly(s')
  {
    StartKeepsNoEarlyClose(s.snaps[x], a);
    hide NoEarlyClose, StartRetire, StartForce;
  }

  lemma CalmStepKeepsNoneEarly(s: Svc, e: SvcEvent)
    requires SvcInv(s) && NoneEarly(s) && SvcEnabled(s, e) && Calm(s, e)
    ensures NoneEarly(SvcNext(s, e))
  {
    hide Inv, Next, Enabled, NoEarlyClose, TasksOk, AllCovered, StillOpen, AllAway, StartRetire, StartForce, Acquire, Finish;
    var s' := SvcNext(s, e);
    match e
    case Lease(a) =>
      AcquireKeepsNoEarlyClose(s.snaps[s.current.value], a);
      MovedNotEarly(s, s', s.current.value, Acquire(s.snaps[s.current.value], a));
    case Inner(x, i) =>
      StepKeepsNoEarlyClose(s.snaps[x], i, s.current == Some(x));
      MovedNotEarly(s, s', x, Next(s.snaps[x], i));
    case BeginReload(t, x) =>
      PristineIsNotEarly();
      MovedNotEarly(s, s', x, Pristine);
    case Abandon(t, r) => CalledNotEarly(s, s', s.tasks[t].sid, r);
    case CallRetire(t, r) => CalledNotEarly(s, s', s.tasks[t].sid, r);
    case RegisterLate(t, f) => CalledNotEarly(s, s', s.tasks[t].sid, f);
    case CallSweepRetire(t, r) => CalledNotEarly(s, s', s.tasks[t].todo[0], r);
    case CallSweepForce(t, f) => CalledNotEarly(s, s', s.tasks[t].sid, f);
    case Register(t, f) =>
      var kept := Kept(s, s.tasks[t].sid);
      if |kept| > MAX_RETIRED {
        CalledNotEarly(s, s', kept[0], f);
      }
    case _ =>
  }

  lemma {:induction false} CalmRunNoneEarly(first: Sid, evs: seq<SvcEvent>)
    requires Run(Start(first), evs) && CalmRun(Start(first), evs)
    ensures NoneEarly(Exec(Start(first), evs))
    decreases |evs|
  {
    if evs != [] {
      var s := Exec(Start(first), evs[..|evs| - 1]);
      CalmRunNoneEarly(first, evs[..|evs| - 1]);
      RunInv(first, evs[..|evs| - 1]);
      CalmStepKeepsNoneEarly(s, evs[|evs| - 1]);
    }
  }

  /** On every calm interleaving an unforced close finds no outstanding lease. */
  lemma CalmRunNeverClosesEarly(first: Sid, evs: seq<SvcEvent>, x: Sid)
    requires Run(Start(first), evs) && CalmRun(Start(first), evs)
    requires x in Exec(Start(first), evs).snaps
    ensures var sn := Exec(Start(first), evs).snaps[x];
            (sn.closer.Some? || sn.closed || sn.torn) && !sn.forced ==> sn.refs == 0 && Leases(sn) == {}
  {
    CalmRunNoneEarly(first, evs);
    RunInv(first, evs);
    var s := Exec(Start(first), evs);
    hide Run, Exec, CalmRun;
    assert NoEarlyClose(s.snaps[x]) && Inv(s.snaps[x], s.current == Some(x));
  }

  /** release as one atomic step: whoever decremented to zero makes its check before anything else happens. */
  ghost predicate AtomicRelease(s: Svc, e: SvcEvent) {
    forall x, b :: x in s.snaps && b in s.snaps[x].actors && s.snaps[x].actors[b].RelCheck? ==>
      e == Inner(x, Release(CheckRetired(b)))
  }

  ghost predicate AtomicRun(s: Svc, evs: seq<SvcEvent>)
    requires Run(s, evs)
  {
    evs != [] ==> AtomicRun(s, evs[..|evs| - 1]) && AtomicRelease(Exec(s, evs[..|evs| - 1]), evs[|evs| - 1])
  }

  /** With release atomic, every interleaving is calm. */
  lemma {:induction false} AtomicRunIsCalm(s: Svc, evs: seq<SvcEvent>)
    requires Run(s, evs) && AtomicRun(s, evs)
    ensures CalmRun(s, evs)
    decreases |evs|
  {
    if evs != [] {
      AtomicRunIsCalm(s, evs[..|evs| - 1]);
      var s' := Exec(s, evs[..|evs| - 1]);
      assert AtomicRelease(s', evs[|evs| - 1]);
      forall x, b | x in s'.snaps && b in s'.snaps[x].actors && s'.snaps[x].actors[b].RelCheck?
        ensures !evs[|evs| - 1].Lease?
      {
        assert evs[|evs| - 1] == Inner(x, Release(CheckRetired(b)));
      }
    }
  }

  // ---- Forced drain -----------------------------------------------------

  /** In every interleaving, a snapshot whose forced drain is over has closed every connection that was dialed under a lease on it. */
  lemma NoConnectionEscapes(first: Sid, evs: seq<SvcEvent>, x: Sid)
    requires Run(Start(first), evs) && x in Exec(Start(first), evs).snaps
    requires var sn := Exec(Start(first), evs).snaps[x];
             sn.forced && forall a :: a in sn.actors ==> !Forcing(sn.actors[a]) && !sn.actors[a].Rejected?
    ensures var sn := Exec(Start(first), evs).snaps[x]; sn.dialed <= sn.netClosed
  {
    RunInv(first, evs);
    var s := Exec(Start(first), evs);
    hide Run, Exec, Inv;
    ForcedDrainClosesEveryConnection(s.snaps[x], s.current == Some(x));
  }

  // ---- Shutdown ---------------------------------------------------------

  /**
   Once the service is closed and no Close or Reload call is running, every snapshot ever built,
   including one that a racing reload detached, is torn down exactly once as soon as its own
   goroutines have settled.
   */
  lemma ShutdownClosesEverySnapshot(first: Sid, evs: seq<SvcEvent>, x: Sid)
    requires Run(Start(first), evs)
    requires var s := Exec(Start(first), evs);
             s.closed && s.tasks == map[] && x in s.snaps && Settled(s.snaps[x])
    ensures Exec(Start(first), evs).snaps[x].torn && Exec(Start(first), evs).snaps[x].closes == 1
  {
    RunInv(first, evs);
    var s := Exec(Start(first), evs);
    hide Run, Exec, Inv;
    assert Covered(s, x) && Inv(s.snaps[x], s.current == Some(x));
    SettledIsTornDown(s.snaps[x], false);
  }
}
