/**
 No call of the service is ever stuck, and what the counters record is what
 happened: every guard opens as soon as what it waits for is there.
 */
module Progress {
  import opened Basics
  import opened Snapshot
  import opened Service
  import opened EarlyClose
  import opened Settling

  // ---- Calls go on ----------------------------------------------------------------

  /** The goroutine inside a snapshot that a call waits for, if it does. */
  function WaitsFor(task: Task): Option<(Sid, ActorId)> {
    match task
    case Abandoning(x, r) => Some((x, r))
    case RetireOld(x, r) => Some((x, r))
    case ForceOld(x, f) => Some((x, f))
    case SweepRetire(x, r, _) => Some((x, r))
    case SweepForce(x, f, _) => Some((x, f))
    case _ => None
  }

  predicate Waiting(s: Svc, task: Task) {
    var w := WaitsFor(task);
    w.Some? && w.value.0 in s.snaps && !At(s.snaps[w.value.0], w.value.1, Done)
  }

  /** e is a step of call t. */
  predicate StepOf(e: SvcEvent, t: Tid) {
    match e
    case Lease(_) => false
    case Inner(_, _) => false
    case BeginReload(_, _) => false
    case BeginClose(_) => false
    case _ => e.t == t
  }

  lemma TaskFacts(s: Svc, t: Tid)
    requires SvcInv(s) && t in s.tasks
    ensures TaskOk(s, t, s.tasks[t]) && forall x :: x in s.retired ==> x in s.snaps
  {
    hide Inv, AllCovered, TaskOk;
  }

  /** An actor that is not in the snapshot yet. */
  function Newcomer(s: Svc, x: Sid, n: ActorId): bool {
    x in s.snaps ==> n !in s.snaps[x].actors
  }

  lemma FreshIn(s: Svc, x: Sid) returns (n: ActorId)
    ensures Newcomer(s, x, n)
  {
    n := FreshId(if x in s.snaps then s.snaps[x].actors.Keys else {});
  }

  /** Where the next step of a call needs a goroutine of its own: in which snapshot. */
  function Target(s: Svc, t: Tid): Sid
    requires t in s.tasks && forall x :: x in s.retired ==> x in s.snaps
  {
    match s.tasks[t]
    case Registering(x) => if s.closed then x else Service.Kept(s, x)[0]
    case Sweeping(todo) => if todo == [] then 0 else todo[0]
    case Collecting(x) => x
    case Built(x) => x
    case Abandoning(x, _) => x
    case Detached(x) => x
    case RetireOld(x, _) => x
    case Retired(x) => x
    case ForceOld(x, _) => x
    case SweepRetire(x, _, _) => x
    case SweepForce(x, _, _) => x
  }

  lemma ReloadGoesOn(s: Svc, t: Tid, n: ActorId) returns (e: SvcEvent)
    requires t in s.tasks && IsReload(s.tasks[t]) && TaskOk(s, t, s.tasks[t]) && !Waiting(s, s.tasks[t])
    requires forall x :: x in s.retired ==> x in s.snaps
    requires Newcomer(s, Target(s, t), n) && (s.tasks[t].Registering? && !s.closed ==> Target(s, t) in s.snaps)
    ensures SvcEnabled(s, e) && StepOf(e, t)
  {
    hide StillOpen;
    match s.tasks[t]
    case Built(_) => e := Abandon(t, n);
    case Abandoning(_, _) => e := ReloadReturns(t);
    case Detached(_) => e := CallRetire(t, n);
    case RetireOld(_, _) => e := RetireReturns(t);
    case Retired(_) => e := LoadClosed(t);
    case Registering(_) => e := if s.closed then RegisterLate(t, n) else Register(t, n);
    case ForceOld(_, _) => e := ReloadReturns(t);
  }

  lemma CloseGoesOn(s: Svc, t: Tid, n: ActorId) returns (e: SvcEvent)
    requires t in s.tasks && !IsReload(s.tasks[t]) && TaskOk(s, t, s.tasks[t]) && !Waiting(s, s.tasks[t])
    requires (forall x :: x in s.retired ==> x in s.snaps) && Newcomer(s, Target(s, t), n)
    ensures SvcEnabled(s, e) && StepOf(e, t)
  {
    match s.tasks[t]
    case Collecting(_) => e := Collect(t);
    case Sweeping(todo) =>
      if todo != [] {
        assert todo[0] in todo;
      }
      e := if todo == [] then CloseReturns(t) else CallSweepRetire(t, n);
    case SweepRetire(_, _, _) => e := CallSweepForce(t, n);
    case SweepForce(_, _, _) => e := SweepForceReturns(t);
  }

  lemma TargetExists(s: Svc, t: Tid)
    requires t in s.tasks && TaskOk(s, t, s.tasks[t]) && s.tasks[t].Registering? && forall x :: x in s.retired ==> x in s.snaps
    ensures Target(s, t) in s.snaps
  {
    StillOpenKeeps(s.retired, s.snaps);
    hide StillOpen;
    var kept := Service.Kept(s, s.tasks[t].sid);
    assert kept[0] in kept;
  }

  /** A call that does not wait for a goroutine can go on; one that does can, as soon as that has returned. */
  lemma CallGoesOn(first: Sid, evs: seq<SvcEvent>, s: Svc, t: Tid) returns (e: SvcEvent)
    requires Reaches(first, evs, s) && t in s.tasks && !Waiting(s, s.tasks[t])
    ensures SvcEnabled(s, e) && StepOf(e, t)
  {
    hide *;
    RunTo(first, evs, s);
    TaskFacts(s, t);
    var n := FreshIn(s, Target(s, t));
    if s.tasks[t].Registering? {
      TargetExists(s, t);
    }
    if IsReload(s.tasks[t]) {
      e := ReloadGoesOn(s, t, n);
    } else {
      e := CloseGoesOn(s, t, n);
    }
  }

  lemma AwaitedIsThere(s: Svc, t: Tid)
    requires t in s.tasks && TaskOk(s, t, s.tasks[t]) && WaitsFor(s.tasks[t]).Some?
    ensures var (x, a) := WaitsFor(s.tasks[t]).value;
            x in s.snaps && (a in s.snaps[x].retirers || a in s.snaps[x].forcers)
  {
  }

  /** What a call waits for moves on by itself. */
  lemma WaitMovesOn(first: Sid, evs: seq<SvcEvent>, s: Svc, t: Tid) returns (x: Sid, e: Event)
    requires Reaches(first, evs, s) && t in s.tasks && Waiting(s, s.tasks[t])
    ensures x in s.snaps && Enabled(s.snaps[x], e) && Bound(s.snaps[x], e)
  {
    var (y, a) := WaitsFor(s.tasks[t]).value;
    hide Reaches, SvcInv, Inv, AllWait, Waits, Enabled, Bound, TaskOk, Settled, WaitsFor;
    x := y;
    RunTo(first, evs, s);
    ReachedInv(first, evs, s);
    TaskFacts(s, t);
    AwaitedIsThere(s, t);
    SnapInv(s, x);
    OneWaits(s, x);
    StillAtWork(s.snaps[x], s.current == Some(x), a);
    e := UnsettledMoves(s.snaps[x], s.current == Some(x));
  }

  lemma StillAtWork(sn: Snap, acquirable: bool, a: ActorId)
    requires Inv(sn, acquirable) && (a in sn.retirers || a in sn.forcers) && !At(sn, a, Done)
    ensures !Settled(sn)
  {
    hide Counted, Secluded, ClosedOnce, Dialed, Drained, Caused, NoLostClose;
  }

  /** An open service hands out leases, can be closed, and takes a reload unless one is running; a swap goes through. */
  lemma OpenServiceServes(first: Sid, evs: seq<SvcEvent>, s: Svc) returns (a: ActorId, t: Tid, y: Sid)
    requires Reaches(first, evs, s) && !s.closed
    ensures CanLease(s, a) && CanBeginClose(s, t)
    ensures s.reloader == None ==> CanBeginReload(s, t, y)
    ensures forall u :: u in s.tasks && s.tasks[u].Built? ==> CanSwap(s, u)
  {
    hide Reaches, SvcInv, Inv;
    RunTo(first, evs, s);
    CurrentIsSome(s);
    CurrentInv(s);
    a := FreshId(s.snaps[s.current.value].actors.Keys);
    t := FreshId(s.tasks.Keys);
    y := FreshId(s.snaps.Keys);
  }

  lemma CurrentIsSome(s: Svc)
    requires SvcInv(s)
    ensures s.closed <==> s.current.None?
  {
    hide Inv, TasksOk, AllCovered, AllAway;
  }

  // ---- The counter of teardowns ---------------------------------------------------

  predicate IsTearDown(e: SvcEvent, x: Sid) {
    e.Inner? && e.x == x && e.e.Close? && e.e.close.TearDown?
  }

  /** How often a run has torn down x. */
  function TearDowns(evs: seq<SvcEvent>, x: Sid): nat {
    if evs == [] then 0 else TearDowns(evs[..|evs| - 1], x) + if IsTearDown(evs[|evs| - 1], x) then 1 else 0
  }

  lemma InnerCloses(sn: Snap, e: Event)
    requires Enabled(sn, e)
    ensures Next(sn, e).closes == sn.closes + if e.Close? && e.close.TearDown? then 1 else 0
  {
    hide ConnNext, ReleaseNext, RetireNext, ForceNext, CloseNext, ConnEnabled, ReleaseEnabled, RetireEnabled, ForceEnabled, CloseEnabled;
    match e
    case Conn(i) => ConnCloses(sn, i);
    case Release(i) => ReleaseCloses(sn, i);
    case Retire(i) => RetireCloses(sn, i);
    case Force(i) => ForceCloses(sn, i);
    case Close(i) => CloseCloses(sn, i);
  }

  lemma ConnCloses(sn: Snap, e: ConnEvent)
    requires ConnEnabled(sn, e)
    ensures ConnNext(sn, e).closes == sn.closes
  {
  }

  lemma ReleaseCloses(sn: Snap, e: ReleaseEvent)
    requires ReleaseEnabled(sn, e)
    ensures ReleaseNext(sn, e).closes == sn.closes
  {
  }

  lemma RetireCloses(sn: Snap, e: RetireEvent)
    requires RetireEnabled(sn, e)
    ensures RetireNext(sn, e).closes == sn.closes
  {
  }

  lemma ForceCloses(sn: Snap, e: ForceEvent)
    requires ForceEnabled(sn, e)
    ensures ForceNext(sn, e).closes == sn.closes
  {
  }

  lemma CloseCloses(sn: Snap, e: CloseEvent)
    requires CloseEnabled(sn, e)
    ensures CloseNext(sn, e).closes == sn.closes + if e.TearDown? then 1 else 0
  {
  }

  ghost function Closes(s: Svc, x: Sid): nat {
    if x in s.snaps then s.snaps[x].closes else 0
  }

  lemma StepCloses(s: Svc, e: SvcEvent, x: Sid)
    requires SvcEnabled(s, e)
    ensures Closes(SvcNext(s, e), x) == Closes(s, x) + if IsTearDown(e, x) then 1 else 0
  {
    if e.Inner? {
      InnerCloses(s.snaps[e.x], e.e);
    }
    hide Next, Enabled, StillOpen, Finish;
  }

  /** Resources are torn down as often as the run tears them down: never twice. */
  lemma {:induction false} TornDownAtMostOnce(first: Sid, evs: seq<SvcEvent>, x: Sid)
    requires Run(Start(first), evs)
    ensures Closes(Exec(Start(first), evs), x) == TearDowns(evs, x) <= 1
    decreases |evs|
  {
    CountsTearDowns(first, evs, x);
    if x in Exec(Start(first), evs).snaps {
      EveryRunIsSafe(first, evs, x);
    }
  }

  lemma {:induction false} CountsTearDowns(first: Sid, evs: seq<SvcEvent>, x: Sid)
    requires Run(Start(first), evs)
    ensures Closes(Exec(Start(first), evs), x) == TearDowns(evs, x)
    decreases |evs|
  {
    hide SvcNext, SvcEnabled, IsTearDown;
    if evs != [] {
      CountsTearDowns(first, evs[..|evs| - 1], x);
      StepCloses(Exec(Start(first), evs[..|evs| - 1]), evs[|evs| - 1], x);
    }
  }
}
