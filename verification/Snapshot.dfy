/**
 One runtime snapshot and every goroutine that touches it.

 A goroutine is an actor with a program counter. Each event below is one atomic
 operation or one mutex region of the Go code, so a run is any interleaving of
 leases, releases, retirement, drain timer, forced close and connection close.
 `release` keeps its two atomic operations apart: the decrement and the load of
 `retired` are two events.
 */
module Snapshot {
  import opened Basics

  type ActorId = nat

  datatype Pc =
    | Using                  // holds a lease; routing or dialing
    | Rejected               // track saw `forced`; must close its connection
    | Open                   // a tracked connection owns the lease
    | Unregistering          // the connection's once-body has begun
    | Releasing              // about to decrement refs
    | RelCheck               // decremented refs to zero; about to load `retired`
    | RetireCas
    | RetireLoad
    | RetireTimer
    | ForceLock
    | ForceLoop(rest: set<ActorId>)
    | ForceWait(conn: ActorId, rest: set<ActorId>)
    | CloseEnter             // about to call closeOnce.Do
    | CloseMark
    | CloseTimer
    | CloseTear
    | Done

  /**
   `spawned` counts the `go closeResources()` goroutines that have not run yet.
   `closer` is the goroutine that won closeOnce and `drainer` the latest to set `forced`;
   `dialed`, `forcers` and `retirers` record history.
   */
  datatype Snap = Snap(
    refs: int,
    retired: bool,
    forced: bool,
    closed: bool,
    timer: bool,
    conns: set<ActorId>,
    closer: Option<ActorId>,
    torn: bool,
    closes: nat,
    spawned: nat,
    actors: map<ActorId, Pc>,
    netClosed: set<ActorId>,
    drainer: Option<ActorId>,
    dialed: set<ActorId>,
    forcers: set<ActorId>,
    retirers: set<ActorId>)

  const Pristine := Snap(0, false, false, false, false, {}, None, false, 0, 0, map[], {}, None, {}, {}, {})

  /** Steps of track and leasedConn.Close. */
  datatype ConnEvent =
    | Track(a: ActorId)
    | RejectClose(a: ActorId)
    | UserClose(a: ActorId)
    | TakeOnce(a: ActorId)
    | Unregister(a: ActorId)

  /** Steps of release. */
  datatype ReleaseEvent =
    | Decrement(a: ActorId)
    | CheckRetired(a: ActorId)

  /** Steps of retire. */
  datatype RetireEvent =
    | CasRetired(a: ActorId)
    | LoadRefs(a: ActorId)
    | ArmTimer(a: ActorId)

  /** Steps of the drain timer and forceClose. */
  datatype ForceEvent =
    | TimerFires(g: ActorId)
    | LockForced(a: ActorId)
    | CloseConn(a: ActorId, c: ActorId)
    | ConnClosed(a: ActorId)
    | ForceAll(a: ActorId)

  /** Steps of closeResources; the losers of closeOnce wait until the winner has torn everything down. */
  datatype CloseEvent =
    | StartClose(g: ActorId)
    | EnterClose(a: ActorId)
    | MarkClosed(a: ActorId)
    | StopTimer(a: ActorId)
    | TearDown(a: ActorId)

  datatype Event = Conn(conn: ConnEvent) | Release(release: ReleaseEvent) | Retire(retire: RetireEvent) | Force(force: ForceEvent) | Close(close: CloseEvent)

  predicate At(sn: Snap, a: ActorId, pc: Pc) {
    a in sn.actors && sn.actors[a] == pc
  }

  function Goto(sn: Snap, a: ActorId, pc: Pc): Snap {
    sn.(actors := sn.actors[a := pc])
  }

  predicate ConnEnabled(sn: Snap, e: ConnEvent) {
    match e
    case Track(a) => At(sn, a, Using)
    case RejectClose(a) => At(sn, a, Rejected)
    case UserClose(a) => At(sn, a, Open)
    case TakeOnce(a) => At(sn, a, Open) && a in sn.netClosed
    case Unregister(a) => At(sn, a, Unregistering)
  }

  function ConnNext(sn: Snap, e: ConnEvent): Snap
    requires ConnEnabled(sn, e)
  {
    match e
    case Track(a) =>
      Goto(sn.(dialed := sn.dialed + {a}, conns := if sn.forced then sn.conns else sn.conns + {a}), a, if sn.forced then Rejected else Open)
    case RejectClose(a) => Goto(sn.(netClosed := sn.netClosed + {a}), a, Releasing)
    case UserClose(a) => sn.(netClosed := sn.netClosed + {a})
    case TakeOnce(a) => Goto(sn, a, Unregistering)
    case Unregister(a) => Goto(sn.(conns := sn.conns - {a}), a, Releasing)
  }

  predicate ReleaseEnabled(sn: Snap, e: ReleaseEvent) {
    match e
    case Decrement(a) => At(sn, a, Using) || At(sn, a, Releasing)
    case CheckRetired(a) => At(sn, a, RelCheck)
  }

  function ReleaseNext(sn: Snap, e: ReleaseEvent): Snap
    requires ReleaseEnabled(sn, e)
  {
    match e
    case Decrement(a) =>
      Goto(sn.(refs := sn.refs - 1), a, if sn.refs - 1 == 0 then RelCheck else Done)
    case CheckRetired(a) =>
      Goto(sn.(spawned := sn.spawned + if sn.retired then 1 else 0), a, Done)
  }

  predicate RetireEnabled(sn: Snap, e: RetireEvent) {
    match e
    case CasRetired(a) => At(sn, a, RetireCas)
    case LoadRefs(a) => At(sn, a, RetireLoad)
    case ArmTimer(a) => At(sn, a, RetireTimer)
  }

  function RetireNext(sn: Snap, e: RetireEvent): Snap
    requires RetireEnabled(sn, e)
  {
    match e
    case CasRetired(a) =>
      Goto(sn.(retired := true), a, if sn.retired then Done else RetireLoad)
    case LoadRefs(a) =>
      Goto(sn.(spawned := sn.spawned + if sn.refs == 0 then 1 else 0), a, if sn.refs == 0 then Done else RetireTimer)
    case ArmTimer(a) => Goto(sn.(timer := sn.timer || !sn.closed), a, Done)
  }

  predicate ForceEnabled(sn: Snap, e: ForceEvent) {
    match e
    case TimerFires(g) => sn.timer && g !in sn.actors
    case LockForced(a) => At(sn, a, ForceLock)
    case CloseConn(a, c) => a in sn.actors && sn.actors[a].ForceLoop? && c in sn.actors[a].rest
    case ConnClosed(a) => a in sn.actors && sn.actors[a].ForceWait? && At(sn, sn.actors[a].conn, Done)
    case ForceAll(a) => At(sn, a, ForceLoop({}))
  }

  function ForceNext(sn: Snap, e: ForceEvent): Snap
    requires ForceEnabled(sn, e)
  {
    match e
    case TimerFires(g) => StartForce(sn.(timer := false), g)
    case LockForced(a) =>
      Goto(sn.(forced := true, drainer := Some(a)), a, ForceLoop(sn.conns))
    case CloseConn(a, c) =>
      Goto(sn.(netClosed := sn.netClosed + {c}), a, ForceWait(c, sn.actors[a].rest - {c}))
    case ConnClosed(a) => Goto(sn, a, ForceLoop(sn.actors[a].rest))
    case ForceAll(a) => Goto(sn, a, CloseEnter)
  }

  predicate CloseEnabled(sn: Snap, e: CloseEvent) {
    match e
    case StartClose(g) => sn.spawned > 0 && g !in sn.actors
    case EnterClose(a) => At(sn, a, CloseEnter) && (sn.closer == None || sn.torn)
    case MarkClosed(a) => At(sn, a, CloseMark)
    case StopTimer(a) => At(sn, a, CloseTimer)
    case TearDown(a) => At(sn, a, CloseTear)
  }

  function CloseNext(sn: Snap, e: CloseEvent): Snap
    requires CloseEnabled(sn, e)
  {
    match e
    case StartClose(g) => Goto(sn.(spawned := sn.spawned - 1), g, CloseEnter)
    case EnterClose(a) =>
      Goto(sn.(closer := if sn.closer == None then Some(a) else sn.closer), a, if sn.closer == None then CloseMark else Done)
    case MarkClosed(a) => Goto(sn.(closed := true), a, CloseTimer)
    case StopTimer(a) => Goto(sn.(timer := false), a, CloseTear)
    case TearDown(a) => Goto(sn.(closes := sn.closes + 1, torn := true), a, Done)
  }

  predicate Enabled(sn: Snap, e: Event) {
    match e
    case Conn(x) => ConnEnabled(sn, x)
    case Release(x) => ReleaseEnabled(sn, x)
    case Retire(x) => RetireEnabled(sn, x)
    case Force(x) => ForceEnabled(sn, x)
    case Close(x) => CloseEnabled(sn, x)
  }

  function Next(sn: Snap, e: Event): Snap
    requires Enabled(sn, e)
  {
    match e
    case Conn(x) => ConnNext(sn, x)
    case Release(x) => ReleaseNext(sn, x)
    case Retire(x) => RetireNext(sn, x)
    case Force(x) => ForceNext(sn, x)
    case Close(x) => CloseNext(sn, x)
  }

  // Calls made by the service.

  function Acquire(sn: Snap, a: ActorId): Snap {
    Goto(sn.(refs := sn.refs + 1), a, Using)
  }

  function StartRetire(sn: Snap, a: ActorId): Snap {
    Goto(sn.(retirers := sn.retirers + {a}), a, RetireCas)
  }

  function StartForce(sn: Snap, a: ActorId): Snap {
    Goto(sn.(forcers := sn.forcers + {a}), a, ForceLock)
  }

  // ---- Invariants -------------------------------------------------------

  predicate HoldsLease(pc: Pc) {
    pc.Using? || pc.Rejected? || pc.Open? || pc.Unregistering? || pc.Releasing?
  }

  predicate Forcing(pc: Pc) {
    pc.ForceLock? || pc.ForceLoop? || pc.ForceWait?
  }

  predicate Closing(pc: Pc) {
    pc.CloseMark? || pc.CloseTimer? || pc.CloseTear?
  }

  predicate Retiring(pc: Pc) {
    pc.RetireCas? || pc.RetireLoad? || pc.RetireTimer?
  }

  function Leases(sn: Snap): set<ActorId> {
    set a | a in sn.actors && HoldsLease(sn.actors[a])
  }

  /** refs counts the outstanding leases, and the registry holds exactly the tracked connections. */
  ghost predicate Counted(sn: Snap) {
    && sn.refs == |Leases(sn)|
    && sn.conns == (set a | a in sn.actors && (sn.actors[a].Open? || sn.actors[a].Unregistering?))
  }

  /** A snapshot that can still be acquired has met no retirement, force or close activity. */
  ghost predicate Secluded(sn: Snap, acquirable: bool) {
    && (acquirable ==> !sn.retired && !sn.forced && !sn.timer && sn.closer == None && sn.spawned == 0)
    && (forall a :: a in sn.actors && (Retiring(sn.actors[a]) || Forcing(sn.actors[a]) || Closing(sn.actors[a]) || sn.actors[a].CloseEnter?) ==> !acquirable)
    && (sn.timer ==> sn.retired)
    && (forall a :: a in sn.actors && (sn.actors[a].RetireLoad? || sn.actors[a].RetireTimer?) ==> sn.retired)
  }

  /** closeOnce: one winner, which alone walks the close sequence, and tears down at most once. */
  ghost predicate ClosedOnce(sn: Snap) {
    && (forall a :: a in sn.actors && Closing(sn.actors[a]) ==> sn.closer == Some(a))
    && sn.closes == (if sn.torn then 1 else 0)
    && (sn.closer.None? ==> !sn.closed && !sn.torn)
    && (sn.closer.Some? ==>
          && sn.closer.value in sn.actors
          && (Closing(sn.actors[sn.closer.value]) || sn.actors[sn.closer.value].Done?)
          && (sn.torn <==> sn.actors[sn.closer.value].Done?)
          && (sn.closed <==> !sn.actors[sn.closer.value].CloseMark?)
          && (sn.timer && sn.closed ==> sn.actors[sn.closer.value].CloseTimer?))
  }

  /** Every dialed connection is still tracked or waiting to be rejected, or its socket is closed. */
  ghost predicate Dialed(sn: Snap) {
    && sn.dialed <= sn.actors.Keys
    && (forall a :: a in sn.actors && (sn.actors[a].Open? || sn.actors[a].Unregistering? || sn.actors[a].Rejected?) ==> a in sn.dialed)
    && (forall a :: a in sn.dialed && !sn.actors[a].Rejected? && !sn.actors[a].Open? ==> a in sn.netClosed)
  }

  /** After `forced`, a registered connection has its socket closed or is listed by the live drain. */
  ghost predicate Drained(sn: Snap) {
    && (sn.forced <==> sn.drainer.Some?)
    && (sn.forced ==>
          forall c :: c in sn.conns && c !in sn.netClosed ==>
            && sn.drainer.value in sn.actors
            && (sn.actors[sn.drainer.value].ForceLoop? || sn.actors[sn.drainer.value].ForceWait?)
            && c in sn.actors[sn.drainer.value].rest)
  }

  /** A goroutine at such a point goes on to close a retired snapshot, or arms the timer that will. */
  predicate WillClose(pc: Pc) {
    pc.RetireLoad? || pc.RetireTimer? || Forcing(pc) || pc.CloseEnter?
  }

  /** Something will still close a retired snapshot that nobody has begun to close. */
  ghost predicate Caused(sn: Snap) {
    sn.retired && sn.closer == None ==>
      sn.timer || sn.spawned > 0 || exists a :: a in sn.actors && WillClose(sn.actors[a])
  }

  /** A goroutine at such a point finds refs at zero and issues the close, or performs it. */
  predicate IssuesClose(pc: Pc) {
    pc.RetireLoad? || pc.RelCheck? || pc.CloseEnter?
  }

  /** No lost close: retired with no lease, the close has begun or its issuer is still running. */
  ghost predicate NoLostClose(sn: Snap) {
    sn.retired && sn.refs == 0 && sn.closer == None ==>
      sn.spawned > 0 || exists a :: a in sn.actors && IssuesClose(sn.actors[a])
  }

  /** A finished forceClose has torn the snapshot down; a finished retire has retired it. */
  ghost predicate Finished(sn: Snap) {
    && sn.forcers <= sn.actors.Keys
    && sn.retirers <= sn.actors.Keys
    && (forall f :: f in sn.forcers ==>
          Forcing(sn.actors[f]) || sn.actors[f].CloseEnter? || Closing(sn.actors[f]) || (sn.actors[f].Done? && sn.torn))
    && (forall r :: r in sn.retirers ==> sn.actors[r].RetireCas? || ((Retiring(sn.actors[r]) || sn.actors[r].Done?) && sn.retired))
  }

  ghost predicate Inv(sn: Snap, acquirable: bool) {
    && Counted(sn)
    && Secluded(sn, acquirable)
    && ClosedOnce(sn)
    && Dialed(sn)
    && Drained(sn)
    && Caused(sn)
    && NoLostClose(sn)
    && Finished(sn)
  }

  /** No early close: an unforced close, begun or on its way, finds no lease. */
  ghost predicate NoEarlyClose(sn: Snap) {
    && (forall a :: a in sn.actors && sn.actors[a].RelCheck? ==> sn.refs == 0)
    && (forall a :: a in sn.actors && sn.actors[a].CloseEnter? ==> sn.forced || (sn.refs == 0 && sn.retired))
    && (sn.spawned > 0 || sn.closer.Some? ==> sn.forced || (sn.refs == 0 && sn.retired))
    && (forall a :: a in sn.actors && (sn.actors[a].ForceLoop? || sn.actors[a].ForceWait?) ==> sn.forced)
    && (forall a :: a in sn.actors && sn.actors[a].RetireLoad? ==> sn.retired)
  }

  // ---- Preservation -----------------------------------------------------

  /** What only grows: once retired, closed or torn down, a snapshot stays so. */
  ghost predicate Grows(sn: Snap, sn': Snap) {
    && (sn.retired ==> sn'.retired)
    && (sn.closed ==> sn'.closed)
    && (sn.torn ==> sn'.torn)
    && sn.forcers <= sn'.forcers
    && sn.retirers <= sn'.retirers
  }

  lemma HolderCounts(sn: Snap, a: ActorId)
    requires Counted(sn) && a in sn.actors && HoldsLease(sn.actors[a])
    ensures sn.refs > 0
  {
    assert a in Leases(sn);
  }

  lemma ConnKeepsLeases(sn: Snap, e: ConnEvent)
    requires Counted(sn) && Dialed(sn) && Drained(sn) && ConnEnabled(sn, e)
    ensures Counted(ConnNext(sn, e)) && Dialed(ConnNext(sn, e)) && Drained(ConnNext(sn, e))
    ensures 0 <= ConnNext(sn, e).refs <= sn.refs
  {
    assert Leases(ConnNext(sn, e)) == Leases(sn);
  }

  lemma ConnKeepsSeclusion(sn: Snap, e: ConnEvent, acquirable: bool)
    requires Secluded(sn, acquirable) && ConnEnabled(sn, e)
    ensures Secluded(ConnNext(sn, e), acquirable)
  {
  }

  lemma ConnKeepsCloser(sn: Snap, e: ConnEvent, acquirable: bool)
    requires Secluded(sn, acquirable) && ClosedOnce(sn) && ConnEnabled(sn, e)
    ensures ClosedOnce(ConnNext(sn, e))
  {
  }

  lemma ConnKeepsFinished(sn: Snap, e: ConnEvent, acquirable: bool)
    requires Secluded(sn, acquirable) && ClosedOnce(sn) && Finished(sn) && ConnEnabled(sn, e)
    ensures Finished(ConnNext(sn, e))
  {
  }

  lemma ConnKeepsCause(sn: Snap, e: ConnEvent)
    requires Caused(sn) && NoLostClose(sn) && ClosedOnce(sn) && ConnEnabled(sn, e)
    ensures Caused(ConnNext(sn, e)) && NoLostClose(ConnNext(sn, e)) && Grows(sn, ConnNext(sn, e))
  {
    var sn' := ConnNext(sn, e);
    if sn.retired && sn.closer == None && !sn.timer && sn.spawned == 0 {
      var w :| w in sn.actors && WillClose(sn.actors[w]);
      assert w in sn'.actors && WillClose(sn'.actors[w]);
    }
    if sn.retired && sn.closer == None && sn.refs == 0 && sn.spawned == 0 {
      var w :| w in sn.actors && IssuesClose(sn.actors[w]);
      assert w in sn'.actors && IssuesClose(sn'.actors[w]);
    }
  }

  lemma ConnKeepsEarly(sn: Snap, e: ConnEvent)
    requires NoEarlyClose(sn) && Counted(sn) && ConnEnabled(sn, e)
    ensures NoEarlyClose(ConnNext(sn, e))
  {
  }

  lemma ReleaseKeepsLeases(sn: Snap, e: ReleaseEvent)
    requires Counted(sn) && Dialed(sn) && Drained(sn) && ReleaseEnabled(sn, e)
    ensures Counted(ReleaseNext(sn, e)) && Dialed(ReleaseNext(sn, e)) && Drained(ReleaseNext(sn, e))
    ensures 0 <= ReleaseNext(sn, e).refs <= sn.refs
  {
    assert Leases(ReleaseNext(sn, e)) == Leases(sn) - {e.a};
  }

  lemma ReleaseKeepsSeclusion(sn: Snap, e: ReleaseEvent, acquirable: bool)
    requires Secluded(sn, acquirable) && ReleaseEnabled(sn, e)
    ensures Secluded(ReleaseNext(sn, e), acquirable)
  {
  }

  lemma ReleaseKeepsCloser(sn: Snap, e: ReleaseEvent, acquirable: bool)
    requires Secluded(sn, acquirable) && ClosedOnce(sn) && ReleaseEnabled(sn, e)
    ensures ClosedOnce(ReleaseNext(sn, e))
  {
  }

  lemma ReleaseKeepsFinished(sn: Snap, e: ReleaseEvent, acquirable: bool)
    requires Secluded(sn, acquirable) && ClosedOnce(sn) && Finished(sn) && ReleaseEnabled(sn, e)
    ensures Finished(ReleaseNext(sn, e))
  {
  }

  lemma ReleaseKeepsCause(sn: Snap, e: ReleaseEvent)
    requires Caused(sn) && NoLostClose(sn) && ClosedOnce(sn) && ReleaseEnabled(sn, e)
    ensures Caused(ReleaseNext(sn, e)) && NoLostClose(ReleaseNext(sn, e)) && Grows(sn, ReleaseNext(sn, e))
  {
    var sn' := ReleaseNext(sn, e);
    if sn.retired && sn.closer == None && !sn.timer && sn.spawned == 0 {
      var w :| w in sn.actors && WillClose(sn.actors[w]);
      assert w in sn'.actors && WillClose(sn'.actors[w]);
    }
    assert e.Decrement? && sn'.refs == 0 ==> IssuesClose(sn'.actors[e.a]);
  }

  lemma ReleaseKeepsEarly(sn: Snap, e: ReleaseEvent)
    requires NoEarlyClose(sn) && Counted(sn) && ReleaseEnabled(sn, e)
    ensures NoEarlyClose(ReleaseNext(sn, e))
  {
    if e.Decrement? {
      HolderCounts(sn, e.a);
    }
  }

  lemma RetireKeepsLeases(sn: Snap, e: RetireEvent)
    requires Counted(sn) && Dialed(sn) && Drained(sn) && RetireEnabled(sn, e)
    ensures Counted(RetireNext(sn, e)) && Dialed(RetireNext(sn, e)) && Drained(RetireNext(sn, e))
    ensures 0 <= RetireNext(sn, e).refs <= sn.refs
  {
    assert Leases(RetireNext(sn, e)) == Leases(sn);
  }

  lemma RetireKeepsSeclusion(sn: Snap, e: RetireEvent, acquirable: bool)
    requires Secluded(sn, acquirable) && RetireEnabled(sn, e)
    ensures Secluded(RetireNext(sn, e), acquirable)
  {
  }

  lemma RetireKeepsCloser(sn: Snap, e: RetireEvent, acquirable: bool)
    requires Secluded(sn, acquirable) && ClosedOnce(sn) && RetireEnabled(sn, e)
    ensures ClosedOnce(RetireNext(sn, e))
  {
  }

  lemma RetireKeepsFinished(sn: Snap, e: RetireEvent, acquirable: bool)
    requires Secluded(sn, acquirable) && ClosedOnce(sn) && Finished(sn) && RetireEnabled(sn, e)
    ensures Finished(RetireNext(sn, e))
  {
  }

  lemma RetireKeepsCause(sn: Snap, e: RetireEvent)
    requires Caused(sn) && NoLostClose(sn) && ClosedOnce(sn) && RetireEnabled(sn, e)
    ensures Caused(RetireNext(sn, e)) && NoLostClose(RetireNext(sn, e)) && Grows(sn, RetireNext(sn, e))
  {
    var sn' := RetireNext(sn, e);
    var x := e.a;
    if !WillClose(sn'.actors[x]) && sn.retired && sn.closer == None && !sn'.timer && sn'.spawned == 0 {
      var w :| w in sn.actors && WillClose(sn.actors[w]);
      assert w in sn'.actors && WillClose(sn'.actors[w]);
    }
    if !IssuesClose(sn'.actors[x]) && sn.retired && sn.refs == 0 && sn.closer == None && sn'.spawned == 0 {
      var w :| w in sn.actors && IssuesClose(sn.actors[w]);
      assert w in sn'.actors && IssuesClose(sn'.actors[w]);
    }
  }

  lemma RetireKeepsEarly(sn: Snap, e: RetireEvent)
    requires NoEarlyClose(sn) && Counted(sn) && RetireEnabled(sn, e)
    ensures NoEarlyClose(RetireNext(sn, e))
  {
  }

  lemma ForceKeepsLeases(sn: Snap, e: ForceEvent)
    requires Counted(sn) && Dialed(sn) && Drained(sn) && ForceEnabled(sn, e)
    ensures Counted(ForceNext(sn, e)) && Dialed(ForceNext(sn, e)) && Drained(ForceNext(sn, e))
    ensures 0 <= ForceNext(sn, e).refs <= sn.refs
  {
    assert Leases(ForceNext(sn, e)) == Leases(sn);
  }

  lemma ForceKeepsSeclusion(sn: Snap, e: ForceEvent, acquirable: bool)
    requires Secluded(sn, acquirable) && ForceEnabled(sn, e)
    ensures Secluded(ForceNext(sn, e), acquirable)
  {
  }

  lemma ForceKeepsCloser(sn: Snap, e: ForceEvent, acquirable: bool)
    requires Secluded(sn, acquirable) && ClosedOnce(sn) && ForceEnabled(sn, e)
    ensures ClosedOnce(ForceNext(sn, e))
  {
  }

  lemma ForceKeepsFinished(sn: Snap, e: ForceEvent, acquirable: bool)
    requires Secluded(sn, acquirable) && ClosedOnce(sn) && Finished(sn) && ForceEnabled(sn, e)
    ensures Finished(ForceNext(sn, e))
  {
  }

  lemma ForceKeepsCause(sn: Snap, e: ForceEvent)
    requires Caused(sn) && NoLostClose(sn) && ClosedOnce(sn) && ForceEnabled(sn, e)
    ensures Caused(ForceNext(sn, e)) && NoLostClose(ForceNext(sn, e)) && Grows(sn, ForceNext(sn, e))
  {
    var sn' := ForceNext(sn, e);
    if sn.retired && sn.closer == None && !sn.timer && sn.spawned == 0 {
      var w :| w in sn.actors && WillClose(sn.actors[w]);
      assert w in sn'.actors && WillClose(sn'.actors[w]);
    }
    if sn.retired && sn.closer == None && sn.refs == 0 && sn.spawned == 0 {
      var w :| w in sn.actors && IssuesClose(sn.actors[w]);
      assert w in sn'.actors && IssuesClose(sn'.actors[w]);
    }
    assert e.TimerFires? ==> WillClose(sn'.actors[e.g]);
  }

  lemma ForceKeepsEarly(sn: Snap, e: ForceEvent)
    requires NoEarlyClose(sn) && Counted(sn) && ForceEnabled(sn, e)
    ensures NoEarlyClose(ForceNext(sn, e))
  {
  }

  lemma CloseKeepsLeases(sn: Snap, e: CloseEvent)
    requires Counted(sn) && Dialed(sn) && Drained(sn) && CloseEnabled(sn, e)
    ensures Counted(CloseNext(sn, e)) && Dialed(CloseNext(sn, e)) && Drained(CloseNext(sn, e))
    ensures 0 <= CloseNext(sn, e).refs <= sn.refs
  {
    assert Leases(CloseNext(sn, e)) == Leases(sn);
  }

  lemma CloseKeepsSeclusion(sn: Snap, e: CloseEvent, acquirable: bool)
    requires Secluded(sn, acquirable) && CloseEnabled(sn, e)
    ensures Secluded(CloseNext(sn, e), acquirable)
  {
  }

  lemma CloseKeepsCloser(sn: Snap, e: CloseEvent, acquirable: bool)
    requires Secluded(sn, acquirable) && ClosedOnce(sn) && CloseEnabled(sn, e)
    ensures ClosedOnce(CloseNext(sn, e))
  {
  }

  lemma CloseKeepsFinished(sn: Snap, e: CloseEvent, acquirable: bool)
    requires Secluded(sn, acquirable) && ClosedOnce(sn) && Finished(sn) && CloseEnabled(sn, e)
    ensures Finished(CloseNext(sn, e))
  {
  }

  lemma CloseKeepsCause(sn: Snap, e: CloseEvent)
    requires Caused(sn) && NoLostClose(sn) && ClosedOnce(sn) && CloseEnabled(sn, e)
    ensures Caused(CloseNext(sn, e)) && NoLostClose(CloseNext(sn, e)) && Grows(sn, CloseNext(sn, e))
  {
    var sn' := CloseNext(sn, e);
    assert e.StartClose? ==> IssuesClose(sn'.actors[e.g]) && WillClose(sn'.actors[e.g]);
  }

  lemma CloseKeepsEarly(sn: Snap, e: CloseEvent)
    requires NoEarlyClose(sn) && Counted(sn) && CloseEnabled(sn, e)
    ensures NoEarlyClose(CloseNext(sn, e))
  {
  }

  /** Every step of every goroutine keeps the invariant. */
  lemma StepKeepsInv(sn: Snap, e: Event, acquirable: bool)
    requires Inv(sn, acquirable) && Enabled(sn, e)
    ensures Inv(Next(sn, e), acquirable) && Grows(sn, Next(sn, e))
    ensures 0 <= Next(sn, e).refs <= sn.refs
  {
    hide Counted, Secluded, ClosedOnce, Dialed, Drained, Caused, NoLostClose, Finished, Grows;
    hide ConnNext, ReleaseNext, RetireNext, ForceNext, CloseNext, ConnEnabled, ReleaseEnabled, RetireEnabled, ForceEnabled, CloseEnabled;
    match e
    case Conn(x) =>
      ConnKeepsLeases(sn, x);
      ConnKeepsSeclusion(sn, x, acquirable);
      ConnKeepsCloser(sn, x, acquirable);
      ConnKeepsFinished(sn, x, acquirable);
      ConnKeepsCause(sn, x);
    case Release(x) =>
      ReleaseKeepsLeases(sn, x);
      ReleaseKeepsSeclusion(sn, x, acquirable);
      ReleaseKeepsCloser(sn, x, acquirable);
      ReleaseKeepsFinished(sn, x, acquirable);
      ReleaseKeepsCause(sn, x);
    case Retire(x) =>
      RetireKeepsLeases(sn, x);
      RetireKeepsSeclusion(sn, x, acquirable);
      RetireKeepsCloser(sn, x, acquirable);
      RetireKeepsFinished(sn, x, acquirable);
      RetireKeepsCause(sn, x);
    case Force(x) =>
      ForceKeepsLeases(sn, x);
      ForceKeepsSeclusion(sn, x, acquirable);
      ForceKeepsCloser(sn, x, acquirable);
      ForceKeepsFinished(sn, x, acquirable);
      ForceKeepsCause(sn, x);
    case Close(x) =>
      CloseKeepsLeases(sn, x);
      CloseKeepsSeclusion(sn, x, acquirable);
      CloseKeepsCloser(sn, x, acquirable);
      CloseKeepsFinished(sn, x, acquirable);
      CloseKeepsCause(sn, x);
  }

  /** No step alone makes an unforced close early. */
  lemma StepKeepsNoEarlyClose(sn: Snap, e: Event, acquirable: bool)
    requires NoEarlyClose(sn) && Inv(sn, acquirable) && Enabled(sn, e)
    ensures NoEarlyClose(Next(sn, e))
  {
    match e
    case Conn(x) => ConnKeepsEarly(sn, x);
    case Release(x) => ReleaseKeepsEarly(sn, x);
    case Retire(x) => RetireKeepsEarly(sn, x);
    case Force(x) => ForceKeepsEarly(sn, x);
    case Close(x) => CloseKeepsEarly(sn, x);
  }

  // ---- Calls made by the service ----------------------------------------

  lemma AcquireKeepsInv(sn: Snap, a: ActorId)
    requires Inv(sn, true) && a !in sn.actors
    ensures Inv(Acquire(sn, a), true)
  {
    assert Leases(Acquire(sn, a)) == Leases(sn) + {a};
  }

  /** A lease is safe to hand out while no releaser stalls between its decrement and its check. */
  lemma AcquireKeepsNoEarlyClose(sn: Snap, a: ActorId)
    requires Inv(sn, true) && a !in sn.actors && NoEarlyClose(sn)
    requires forall b :: b in sn.actors ==> !sn.actors[b].RelCheck?
    ensures NoEarlyClose(Acquire(sn, a))
  {
  }

  lemma DetachKeepsInv(sn: Snap)
    requires Inv(sn, true)
    ensures Inv(sn, false)
  {
  }

  lemma StartRetireKeepsInv(sn: Snap, a: ActorId)
    requires Inv(sn, false) && a !in sn.actors
    ensures Inv(StartRetire(sn, a), false) && Grows(sn, StartRetire(sn, a))
  {
    var sn' := StartRetire(sn, a);
    assert Leases(sn') == Leases(sn);
    assert forall w :: w in sn.actors ==> w in sn'.actors && sn'.actors[w] == sn.actors[w];
  }

  lemma StartForceKeepsInv(sn: Snap, a: ActorId)
    requires Inv(sn, false) && a !in sn.actors
    ensures Inv(StartForce(sn, a), false) && Grows(sn, StartForce(sn, a))
  {
    var sn' := StartForce(sn, a);
    assert Leases(sn') == Leases(sn);
    assert forall w :: w in sn.actors ==> w in sn'.actors && sn'.actors[w] == sn.actors[w];
  }

  lemma StartKeepsNoEarlyClose(sn: Snap, a: ActorId)
    requires NoEarlyClose(sn) && a !in sn.actors
    ensures NoEarlyClose(StartRetire(sn, a)) && NoEarlyClose(StartForce(sn, a))
  {
  }

  // ---- What the invariant means -----------------------------------------

  /** No goroutine is inside retire, the drain, or closeResources, and none is due to start. */
  ghost predicate Settled(sn: Snap) {
    && !sn.timer && sn.spawned == 0
    && forall a :: a in sn.actors ==> HoldsLease(sn.actors[a]) || sn.actors[a].Done?
  }

  lemma RetiredIsDetached(sn: Snap, acquirable: bool)
    requires Inv(sn, acquirable) && sn.retired
    ensures !acquirable
  {
  }

  /** A retire call that has returned has retired the snapshot. */
  lemma RetireReturned(sn: Snap, acquirable: bool, r: ActorId)
    requires Inv(sn, acquirable) && r in sn.retirers && At(sn, r, Done)
    ensures sn.retired
  {
  }

  /** No connection escapes a forced drain: once the drain is over every dialed socket is closed. */
  lemma ForcedDrainClosesEveryConnection(sn: Snap, acquirable: bool)
    requires Inv(sn, acquirable) && sn.forced
    requires forall a :: a in sn.actors ==> !Forcing(sn.actors[a]) && !sn.actors[a].Rejected?
    ensures sn.dialed <= sn.netClosed
  {
    forall a | a in sn.dialed
      ensures a in sn.netClosed
    {
      if sn.actors[a].Open? {
        assert a in sn.conns;
      }
    }
  }

  /** A retired snapshot without leases has had its close issued unless a release or retire call is still running. */
  lemma RetiredWithoutLeasesIsClosing(sn: Snap, acquirable: bool)
    requires Inv(sn, acquirable) && sn.retired && sn.refs == 0
    requires forall a :: a in sn.actors ==> !sn.actors[a].RelCheck? && !sn.actors[a].RetireLoad?
    ensures sn.closer.Some? || sn.spawned > 0 || exists a :: a in sn.actors && sn.actors[a].CloseEnter?
  {
    if sn.closer == None && sn.spawned == 0 {
      var w :| w in sn.actors && IssuesClose(sn.actors[w]);
      assert sn.actors[w].CloseEnter?;
    }
  }

  /** When everything has settled, a retired or force-closed snapshot is torn down, exactly once. */
  lemma SettledIsTornDown(sn: Snap, acquirable: bool)
    requires Inv(sn, acquirable) && Settled(sn)
    requires sn.retired || sn.closed || sn.forcers != {}
    ensures sn.torn && sn.closes == 1
  {
    if sn.forcers != {} {
      var f :| f in sn.forcers;
      assert sn.actors[f].Done? && sn.torn;
    }
  }
}
