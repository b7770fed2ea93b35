/**
 When a lease is safe. A lease handed out while a releaser sits between its
 decrement of refs and its load of retired can be closed under, by nothing more
 than the next reload; any other lease cannot, whatever happens while it is held.
 */
module EarlyClose {
  import opened Basics
  import opened Snapshot
  import opened Service

  // ---- Extending a run ----------------------------------------------------

  ghost predicate Reaches(first: Sid, evs: seq<SvcEvent>, s: Svc) {
    Run(Start(first), evs) && Exec(Start(first), evs) == s
  }

  /** more goes on from evs and hands out leases only to reloads that begin. */
  ghost predicate ForReloads(evs: seq<SvcEvent>, more: seq<SvcEvent>) {
    evs <= more && forall i :: |evs| <= i < |more| ==> ForReload(more, i)
  }

  /** A lease at i is the one a reload takes as it begins. */
  predicate ForReload(evs: seq<SvcEvent>, i: nat)
    requires i < |evs|
  {
    evs[i].Lease? ==> i + 1 < |evs| && evs[i + 1].BeginReload?
  }

  lemma Go(first: Sid, evs: seq<SvcEvent>, s: Svc, e: SvcEvent) returns (more: seq<SvcEvent>, s': Svc)
    requires Reaches(first, evs, s) && SvcEnabled(s, e) && !e.Lease?
    ensures s' == SvcNext(s, e) && Reaches(first, more, s') && ForReloads(evs, more) && more == evs + [e]
  {
    more, s' := evs + [e], SvcNext(s, e);
    assert more[..|evs|] == evs;
  }

  lemma ForReloadsTrans(a: seq<SvcEvent>, b: seq<SvcEvent>, c: seq<SvcEvent>)
    requires ForReloads(a, b) && ForReloads(b, c)
    ensures ForReloads(a, c)
  {
    forall i | |a| <= i < |c|
      ensures ForReload(c, i)
    {
      if i < |b| {
        assert ForReload(b, i) && c[i] == b[i];
      }
    }
  }

  lemma FreshId(ids: set<nat>) returns (n: nat)
    ensures n !in ids && forall i :: i in ids ==> i < n
    decreases ids
  {
    if ids == {} {
      n := 0;
    } else {
      var x :| x in ids;
      var m := FreshId(ids - {x});
      n := if x < m then m else x + 1;
      assert forall i :: i in ids ==> i == x || i in ids - {x};
    }
  }

  // ---- A running reload can be finished -----------------------------------------

  predicate IsReload(task: Task) {
    task.Built? || task.Abandoning? || task.Detached? || task.RetireOld? || task.Retired? || task.Registering? || task.ForceOld?
  }

  /** The reload that holds reloadBusy is running, and force-closes a snapshot itself only after Close. */
  ghost predicate ReloadOk(s: Svc) {
    && (s.reloader.Some? ==> s.reloader.value in s.tasks && IsReload(s.tasks[s.reloader.value]))
    && (forall t :: t in s.tasks && s.tasks[t].ForceOld? ==> s.closed)
  }

  lemma StepKeepsReloadOk(s: Svc, e: SvcEvent)
    requires ReloadOk(s) && SvcEnabled(s, e)
    ensures ReloadOk(SvcNext(s, e))
  {
    hide Next, Enabled, StillOpen, StartRetire, StartForce, Acquire, Finish;
  }

  lemma {:induction false} RunReloadOk(first: Sid, evs: seq<SvcEvent>)
    requires Run(Start(first), evs)
    ensures ReloadOk(Exec(Start(first), evs))
    decreases |evs|
  {
    if evs != [] {
      RunReloadOk(first, evs[..|evs| - 1]);
      StepKeepsReloadOk(Exec(Start(first), evs[..|evs| - 1]), evs[|evs| - 1]);
    }
  }

  /** What x looks like while actor a holds the lease and actor b stalls in release. */
  ghost predicate Exposed(sn: Snap, a: ActorId, b: ActorId) {
    && At(sn, a, Using) && At(sn, b, RelCheck) && sn.refs >= 1
    && !sn.forced && !sn.closed && sn.closer == None
  }

  /** The exposed snapshot is current and not retired. */
  ghost predicate Doomed(s: Svc, x: Sid, a: ActorId, b: ActorId) {
    && !s.closed && s.current == Some(x) && x in s.snaps
    && Exposed(s.snaps[x], a, b) && !s.snaps[x].retired && s.snaps[x].spawned == 0
  }

  /** A step that leaves x and the current slot alone. */
  ghost predicate Spares(s: Svc, s': Svc, x: Sid) {
    s'.closed == s.closed && s'.current == s.current && x in s.snaps && x in s'.snaps && s'.snaps[x] == s.snaps[x]
  }

  lemma SparesDoomed(s: Svc, s': Svc, x: Sid, a: ActorId, b: ActorId)
    requires Doomed(s, x, a, b) && Spares(s, s', x)
    ensures Doomed(s', x, a, b)
  {
  }

  /** One step inside another snapshot. */
  lemma GoInside(first: Sid, evs: seq<SvcEvent>, s: Svc, y: Sid, e: Event, x: Sid) returns (more: seq<SvcEvent>, s': Svc)
    requires Reaches(first, evs, s) && y in s.snaps && Enabled(s.snaps[y], e) && x in s.snaps && x != y
    ensures s' == s.(snaps := s.snaps[y := Next(s.snaps[y], e)]) && Reaches(first, more, s') && ForReloads(evs, more) && Spares(s, s', x)
  {
    hide Reaches, Next, Enabled;
    more, s' := Go(first, evs, s, Inner(y, e));
  }

  /** A retire call in another snapshot runs to its end. */
  lemma FinishRetire(first: Sid, evs: seq<SvcEvent>, s: Svc, y: Sid, r: ActorId, x: Sid) returns (more: seq<SvcEvent>, s': Svc)
    requires Reaches(first, evs, s) && y in s.snaps && x in s.snaps && x != y && Inv(s.snaps[y], s.current == Some(y)) && r in s.snaps[y].retirers
    ensures Reaches(first, more, s') && ForReloads(evs, more) && Spares(s, s', x)
    ensures s'.tasks == s.tasks && s'.reloader == s.reloader && Finish(s', y, r)
    decreases Left(s.snaps[y], r)
  {
    hide Reaches, Run, Exec, ForReloads;
    var sn := s.snaps[y];
    assert r in sn.actors;
    if sn.actors[r].Done? {
      more, s' := evs, s;
      assert ForReloads(evs, more) by { SelfForReloads(evs); }
    } else {
      RetireMoves(sn, s.current == Some(y), r);
      var e := RetireStep(sn, r);
      StepKeepsInv(sn, e, s.current == Some(y));
      var evs1, s1 := GoInside(first, evs, s, y, e, x);
      more, s' := FinishRetire(first, evs1, s1, y, r, x);
      ForReloadsTrans(evs, evs1, more);
    }
  }

  lemma SelfForReloads(evs: seq<SvcEvent>)
    ensures ForReloads(evs, evs)
  {
  }

  function Left(sn: Snap, r: ActorId): nat {
    if r !in sn.actors then 0
    else match sn.actors[r]
      case RetireCas => 3
      case RetireLoad => 2
      case RetireTimer => 1
      case _ => 0
  }

  function RetireStep(sn: Snap, r: ActorId): Event {
    if At(sn, r, RetireCas) then Event.Retire(CasRetired(r))
    else if At(sn, r, RetireLoad) then Event.Retire(LoadRefs(r))
    else Event.Retire(ArmTimer(r))
  }

  lemma RetireMoves(sn: Snap, acquirable: bool, r: ActorId)
    requires Inv(sn, acquirable) && r in sn.retirers && r in sn.actors && !sn.actors[r].Done?
    ensures Enabled(sn, RetireStep(sn, r)) && Left(Next(sn, RetireStep(sn, r)), r) < Left(sn, r) && r in Next(sn, RetireStep(sn, r)).retirers
  {
    assert Finished(sn);
    hide Inv, Counted, Secluded, ClosedOnce, Dialed, Drained, Caused, NoLostClose;
  }

  /** A run that has reached a doomed state. */
  ghost predicate Ready(first: Sid, evs: seq<SvcEvent>, s: Svc, x: Sid, a: ActorId, b: ActorId) {
    Reaches(first, evs, s) && Doomed(s, x, a, b)
  }

  ghost predicate Idle(s: Svc) {
    s.reloader.Some? ==> s.reloader.value in s.tasks && s.tasks[s.reloader.value].Built?
  }

  /** The invariants, in a doomed state, for the snapshot the reload t works on. */
  lemma Facts(first: Sid, evs: seq<SvcEvent>, s: Svc, x: Sid, a: ActorId, b: ActorId, t: Tid)
    requires Ready(first, evs, s, x, a, b) && t in s.tasks && IsReload(s.tasks[t])
    ensures s.reloader == Some(t) && !s.tasks[t].ForceOld? && TaskOk(s, t, s.tasks[t])
    ensures s.tasks[t].sid in s.snaps && s.tasks[t].sid != x
    ensures Inv(s.snaps[s.tasks[t].sid], s.current == Some(s.tasks[t].sid))
    ensures (forall z :: z in s.retired ==> z in s.snaps && z != x) && (s.current.Some? ==> s.current.value in s.installed)
  {
    hide Reaches, SvcInv, ReloadOk, Inv, TaskOk, AllAway, Exposed;
    RunTo(first, evs, s);
    FactsOf(s, x, t);
  }

  lemma RunTo(first: Sid, evs: seq<SvcEvent>, s: Svc)
    requires Reaches(first, evs, s)
    ensures SvcInv(s) && ReloadOk(s)
  {
    hide Run, Exec, SvcInv, ReloadOk;
    RunInv(first, evs);
    RunReloadOk(first, evs);
  }

  lemma CurrentInv(s: Svc)
    requires SvcInv(s) && s.current.Some?
    ensures s.current.value in s.snaps && Inv(s.snaps[s.current.value], true)
  {
    hide Inv, TasksOk, AllCovered, AllAway;
  }

  lemma FactsOf(s: Svc, x: Sid, t: Tid)
    requires SvcInv(s) && ReloadOk(s) && !s.closed && s.current == Some(x) && t in s.tasks && IsReload(s.tasks[t])
    ensures s.reloader == Some(t) && !s.tasks[t].ForceOld? && TaskOk(s, t, s.tasks[t])
    ensures s.tasks[t].sid in s.snaps && s.tasks[t].sid != x
    ensures Inv(s.snaps[s.tasks[t].sid], s.current == Some(s.tasks[t].sid))
    ensures (forall z :: z in s.retired ==> z in s.snaps && z != x) && (s.current.Some? ==> s.current.value in s.installed)
  {
    hide Inv, AllCovered;
    assert TaskOk(s, t, s.tasks[t]);
    assert x in s.installed;
  }

  lemma FromRegistering(first: Sid, evs: seq<SvcEvent>, s: Svc, x: Sid, a: ActorId, b: ActorId, t: Tid) returns (more: seq<SvcEvent>, s': Svc)
    requires Ready(first, evs, s, x, a, b) && t in s.tasks && s.tasks[t].Registering?
    ensures Ready(first, more, s', x, a, b) && ForReloads(evs, more) && s'.reloader == None
  {
    Facts(first, evs, s, x, a, b, t);
    var kept := Kept(s, s.tasks[t].sid);
    StillOpenKeeps(s.retired, s.snaps);
    hide Inv, Reaches, StillOpen;
    assert kept[0] in kept && kept[0] in s.snaps && kept[0] != x;
    var f := FreshId(s.snaps[kept[0]].actors.Keys);
    more, s' := Go(first, evs, s, Register(t, f));
    SparesDoomed(s, s', x, a, b);
  }

  lemma FromRetired(first: Sid, evs: seq<SvcEvent>, s: Svc, x: Sid, a: ActorId, b: ActorId, t: Tid) returns (more: seq<SvcEvent>, s': Svc)
    requires Ready(first, evs, s, x, a, b) && t in s.tasks && s.tasks[t].Retired?
    ensures Ready(first, more, s', x, a, b) && ForReloads(evs, more) && s'.reloader == None
  {
    Facts(first, evs, s, x, a, b, t);
    hide Inv, Reaches, ForReloads;
    var evs1, s1 := Go(first, evs, s, LoadClosed(t));
    SparesDoomed(s, s1, x, a, b);
    if s1.reloader == None {
      more, s' := evs1, s1;
    } else {
      more, s' := FromRegistering(first, evs1, s1, x, a, b, t);
      ForReloadsTrans(evs, evs1, more);
    }
  }

  lemma FromRetireOld(first: Sid, evs: seq<SvcEvent>, s: Svc, x: Sid, a: ActorId, b: ActorId, t: Tid) returns (more: seq<SvcEvent>, s': Svc)
    requires Ready(first, evs, s, x, a, b) && t in s.tasks && s.tasks[t].RetireOld?
    ensures Ready(first, more, s', x, a, b) && ForReloads(evs, more) && s'.reloader == None
  {
    Facts(first, evs, s, x, a, b, t);
    var y, r := s.tasks[t].sid, s.tasks[t].r;
    hide Inv, Reaches, ForReloads;
    var evs1, s1 := FinishRetire(first, evs, s, y, r, x);
    SparesDoomed(s, s1, x, a, b);
    var evs2, s2 := Go(first, evs1, s1, RetireReturns(t));
    SparesDoomed(s1, s2, x, a, b);
    ForReloadsTrans(evs, evs1, evs2);
    more, s' := FromRetired(first, evs2, s2, x, a, b, t);
    ForReloadsTrans(evs, evs2, more);
  }

  lemma FromDetached(first: Sid, evs: seq<SvcEvent>, s: Svc, x: Sid, a: ActorId, b: ActorId, t: Tid) returns (more: seq<SvcEvent>, s': Svc)
    requires Ready(first, evs, s, x, a, b) && t in s.tasks && s.tasks[t].Detached?
    ensures Ready(first, more, s', x, a, b) && ForReloads(evs, more) && s'.reloader == None
  {
    Facts(first, evs, s, x, a, b, t);
    hide Inv, Reaches, ForReloads;
    var r := FreshId(s.snaps[s.tasks[t].sid].actors.Keys);
    var evs1, s1 := Go(first, evs, s, CallRetire(t, r));
    SparesDoomed(s, s1, x, a, b);
    more, s' := FromRetireOld(first, evs1, s1, x, a, b, t);
    ForReloadsTrans(evs, evs1, more);
  }

  lemma FromAbandoning(first: Sid, evs: seq<SvcEvent>, s: Svc, x: Sid, a: ActorId, b: ActorId, t: Tid) returns (more: seq<SvcEvent>, s': Svc)
    requires Ready(first, evs, s, x, a, b) && t in s.tasks && s.tasks[t].Abandoning?
    ensures Ready(first, more, s', x, a, b) && ForReloads(evs, more) && s'.reloader == None
  {
    Facts(first, evs, s, x, a, b, t);
    var y, r := s.tasks[t].sid, s.tasks[t].r;
    hide Inv, Reaches, ForReloads;
    var evs1, s1 := FinishRetire(first, evs, s, y, r, x);
    SparesDoomed(s, s1, x, a, b);
    more, s' := Go(first, evs1, s1, ReloadReturns(t));
    SparesDoomed(s1, s', x, a, b);
    ForReloadsTrans(evs, evs1, more);
  }

  /** Whatever a running reload is at, it can be brought to an end, or is ready to swap. */
  lemma FinishReload(first: Sid, evs: seq<SvcEvent>, s: Svc, x: Sid, a: ActorId, b: ActorId) returns (more: seq<SvcEvent>, s': Svc)
    requires Ready(first, evs, s, x, a, b)
    ensures Ready(first, more, s', x, a, b) && ForReloads(evs, more) && Idle(s')
  {
    RunReloadOk(first, evs);
    hide Reaches, ForReloads, Doomed;
    if Idle(s) {
      more, s' := evs, s;
      SelfForReloads(evs);
    } else {
      var t := s.reloader.value;
      Facts(first, evs, s, x, a, b, t);
      match s.tasks[t]
      case Abandoning(_, _) => more, s' := FromAbandoning(first, evs, s, x, a, b, t);
      case Detached(_) => more, s' := FromDetached(first, evs, s, x, a, b, t);
      case RetireOld(_, _) => more, s' := FromRetireOld(first, evs, s, x, a, b, t);
      case Retired(_) => more, s' := FromRetired(first, evs, s, x, a, b, t);
      case Registering(_) => more, s' := FromRegistering(first, evs, s, x, a, b, t);
    }
  }

  // ---- The lease is closed under --------------------------------------------------

  /** A reload has swapped x out and is about to retire it. */
  ghost predicate SwappedOut(s: Svc, x: Sid, a: ActorId, b: ActorId) {
    && x in s.snaps && Exposed(s.snaps[x], a, b) && s.snaps[x].spawned == 0
    && exists t :: t in s.tasks && s.tasks[t] == Detached(x)
  }

  /** Snapshot x is closed, by nobody's force, under the lease of a. */
  ghost predicate ClosedUnder(s: Svc, x: Sid, a: ActorId) {
    x in s.snaps && s.snaps[x].closed && !s.snaps[x].forced && a in Leases(s.snaps[x])
  }

  /** A reload begins: it takes a lease of its own on the current snapshot and builds y. */
  lemma LeasedReload(first: Sid, evs: seq<SvcEvent>, s: Svc, x: Sid, t: Tid, y: Sid) returns (more: seq<SvcEvent>, s': Svc)
    requires Reaches(first, evs, s) && !s.closed && s.current == Some(x) && x in s.snaps && CanBeginReload(s, t, y)
    ensures Reaches(first, more, s') && ForReloads(evs, more)
    ensures s'.closed == s.closed && s'.current == s.current && t in s'.tasks && s'.tasks[t] == Built(y)
    ensures exists l :: l !in s.snaps[x].actors && x in s'.snaps && s'.snaps[x] == Acquire(s.snaps[x], l)
  {
    hide Reaches, Acquire;
    var l := FreshId(s.snaps[x].actors.Keys);
    LeaseTo(first, evs, s, l);
    more, s' := Go(first, evs + [Lease(l)], DoLease(s, l), BeginReload(t, y));
    assert more == evs + [Lease(l), BeginReload(t, y)];
    assert s'.snaps[x] == Acquire(s.snaps[x], l);
  }

  lemma SwapOut(first: Sid, evs: seq<SvcEvent>, s: Svc, x: Sid, a: ActorId, b: ActorId) returns (more: seq<SvcEvent>, s': Svc)
    requires Ready(first, evs, s, x, a, b) && Idle(s)
    ensures Reaches(first, more, s') && ForReloads(evs, more) && SwappedOut(s', x, a, b)
  {
    hide Reaches, ForReloads;
    var evs1, s1, t := evs, s, 0;
    if s.reloader == None {
      t := FreshId(s.tasks.Keys);
      var y := FreshId(s.snaps.Keys);
      evs1, s1 := LeasedReload(first, evs, s, x, t, y);
    } else {
      t := s.reloader.value;
      SelfForReloads(evs);
    }
    more, s' := Go(first, evs1, s1, Swap(t));
    ForReloadsTrans(evs, evs1, more);
    assert s'.tasks[t] == Detached(x);
  }

  /** One step inside x. */
  lemma Inside(first: Sid, evs: seq<SvcEvent>, s: Svc, x: Sid, e: Event) returns (more: seq<SvcEvent>, s': Svc)
    requires Reaches(first, evs, s) && x in s.snaps && Enabled(s.snaps[x], e)
    ensures Reaches(first, more, s') && ForReloads(evs, more) && x in s'.snaps && s'.snaps[x] == Next(s.snaps[x], e)
  {
    hide Reaches, Next, Enabled, ForReloads;
    more, s' := Go(first, evs, s, Inner(x, e));
  }

  lemma RetireOut(first: Sid, evs: seq<SvcEvent>, s: Svc, x: Sid, a: ActorId, b: ActorId) returns (more: seq<SvcEvent>, s': Svc)
    requires Reaches(first, evs, s) && SwappedOut(s, x, a, b)
    ensures Reaches(first, more, s') && ForReloads(evs, more) && x in s'.snaps
    ensures Exposed(s'.snaps[x], a, b) && s'.snaps[x].retired
  {
    hide Reaches, ForReloads;
    var t :| t in s.tasks && s.tasks[t] == Detached(x);
    var r := FreshId(s.snaps[x].actors.Keys);
    assert r != a && r != b;
    var evs1, s1 := Go(first, evs, s, CallRetire(t, r));
    more, s' := Inside(first, evs1, s1, x, Event.Retire(CasRetired(r)));
    ForReloadsTrans(evs, evs1, more);
  }

  lemma SpawnClose(first: Sid, evs: seq<SvcEvent>, s: Svc, x: Sid, a: ActorId, b: ActorId, g: ActorId) returns (more: seq<SvcEvent>, s': Svc)
    requires Reaches(first, evs, s) && x in s.snaps && Exposed(s.snaps[x], a, b) && s.snaps[x].retired && g !in s.snaps[x].actors
    ensures Reaches(first, more, s') && ForReloads(evs, more) && x in s'.snaps
    ensures var sn := s'.snaps[x]; At(sn, g, CloseEnter) && At(sn, a, Using) && sn.refs >= 1 && !sn.forced && sn.closer == None
  {
    hide Reaches, ForReloads;
    assert g != a && g != b && a != b;
    var evs1, s1 := Inside(first, evs, s, x, Release(CheckRetired(b)));
    more, s' := Inside(first, evs1, s1, x, Event.Close(StartClose(g)));
    ForReloadsTrans(evs, evs1, more);
  }

  lemma CloseOut(first: Sid, evs: seq<SvcEvent>, s: Svc, x: Sid, a: ActorId, b: ActorId) returns (more: seq<SvcEvent>, s': Svc)
    requires Reaches(first, evs, s) && x in s.snaps && Exposed(s.snaps[x], a, b) && s.snaps[x].retired
    ensures Reaches(first, more, s') && ForReloads(evs, more) && ClosedUnder(s', x, a)
  {
    hide Reaches, ForReloads;
    var g := FreshId(s.snaps[x].actors.Keys);
    var evs1, s1 := SpawnClose(first, evs, s, x, a, b, g);
    var evs2, s2 := Inside(first, evs1, s1, x, Event.Close(EnterClose(g)));
    ForReloadsTrans(evs, evs1, evs2);
    more, s' := Inside(first, evs2, s2, x, Event.Close(MarkClosed(g)));
    ForReloadsTrans(evs, evs2, more);
  }

  lemma AcquireExposes(sn: Snap, a: ActorId, b: ActorId)
    requires Inv(sn, true) && a !in sn.actors && At(sn, b, RelCheck)
    ensures Exposed(Acquire(sn, a), a, b) && !Acquire(sn, a).retired && Acquire(sn, a).spawned == 0
  {
    assert sn.refs == |Leases(sn)|;
    hide Counted, Dialed, Drained, Caused, NoLostClose, Finished, Leases;
  }

  /** A lease that is not calm dooms the snapshot. */
  lemma LeaseDooms(first: Sid, evs: seq<SvcEvent>, s: Svc, a: ActorId) returns (b: ActorId)
    requires Reaches(first, evs, s) && CanLease(s, a) && !Calm(s, Lease(a))
    ensures Ready(first, evs + [Lease(a)], DoLease(s, a), s.current.value, a, b)
  {
    hide Reaches, SvcInv, Inv, Acquire, Exposed;
    RunTo(first, evs, s);
    CurrentInv(s);
    LeaseTo(first, evs, s, a);
    var x := s.current.value;
    b :| b in s.snaps[x].actors && s.snaps[x].actors[b].RelCheck?;
    AcquireExposes(s.snaps[x], a, b);
  }

  lemma LeaseTo(first: Sid, evs: seq<SvcEvent>, s: Svc, a: ActorId)
    requires Reaches(first, evs, s) && CanLease(s, a)
    ensures Reaches(first, evs + [Lease(a)], DoLease(s, a))
  {
    hide CanLease, DoLease;
    assert (evs + [Lease(a)])[..|evs|] == evs;
  }

  /** Every lease handed out during a stall can be closed under, by the next reload. */
  lemma StalledLeaseCanBeClosedUnder(first: Sid, evs: seq<SvcEvent>, a: ActorId) returns (more: seq<SvcEvent>)
    requires Run(Start(first), evs) && CanLease(Exec(Start(first), evs), a) && !Calm(Exec(Start(first), evs), Lease(a))
    ensures ForReloads(evs + [Lease(a)], more) && Run(Start(first), more)
    ensures ClosedUnder(Exec(Start(first), more), Exec(Start(first), evs).current.value, a)
  {
    var s := Exec(Start(first), evs);
    var x := s.current.value;
    var leased := evs + [Lease(a)];
    var b := LeaseDooms(first, evs, s, a);
    var evs1, s1 := FinishReload(first, leased, DoLease(s, a), x, a, b);
    var evs2, s2 := SwapOut(first, evs1, s1, x, a, b);
    var evs3, s3 := RetireOut(first, evs2, s2, x, a, b);
    var s4;
    more, s4 := CloseOut(first, evs3, s3, x, a, b);
    hide Run, Exec, CanLease, Calm, SvcNext, SvcEnabled;
    ForReloadsTrans(leased, evs1, evs2);
    ForReloadsTrans(leased, evs2, evs3);
    ForReloadsTrans(leased, evs3, more);
  }

  // ---- The exact condition ---------------------------------------------------------

  /** However the run goes on, x is not closed under the lease of a. */
  ghost predicate Safe(first: Sid, evs: seq<SvcEvent>, x: Sid, a: ActorId) {
    forall more :: evs <= more && Run(Start(first), more) ==> !ClosedUnder(Exec(Start(first), more), x, a)
  }

  /** As long as a holds its lease, no unforced close is on its way. */
  ghost predicate Guarded(sn: Snap, a: ActorId) {
    a in sn.actors && (HoldsLease(sn.actors[a]) ==> NoEarlyClose(sn))
  }

  lemma GuardedIsOpen(sn: Snap, acquirable: bool, a: ActorId)
    requires Inv(sn, acquirable) && Guarded(sn, a) && a in Leases(sn)
    ensures sn.refs > 0 && (sn.closed ==> sn.forced) && forall b :: b in sn.actors ==> !sn.actors[b].RelCheck?
  {
    HolderCounts(sn, a);
    hide Counted, Dialed, Drained, Caused, NoLostClose, Finished;
  }

  lemma CalmLeaseIsGuarded(sn: Snap, a: ActorId)
    requires Inv(sn, true) && a !in sn.actors && forall b :: b in sn.actors ==> !sn.actors[b].RelCheck?
    ensures Guarded(Acquire(sn, a), a)
  {
    hide Counted, Dialed, Drained, Caused, NoLostClose, Finished;
  }

  /** Nobody comes to hold a lease by a step inside a snapshot. */
  lemma HeldBefore(sn: Snap, e: Event, a: ActorId)
    requires Enabled(sn, e) && a in sn.actors
    ensures a in Next(sn, e).actors && (HoldsLease(Next(sn, e).actors[a]) ==> HoldsLease(sn.actors[a]))
  {
    hide ConnNext, ReleaseNext, RetireNext, ForceNext, CloseNext, ConnEnabled, ReleaseEnabled, RetireEnabled, ForceEnabled, CloseEnabled;
    match e
    case Conn(i) => HeldBeforeConn(sn, i, a);
    case Release(i) => HeldBeforeRelease(sn, i, a);
    case Retire(i) => HeldBeforeRetire(sn, i, a);
    case Force(i) => HeldBeforeForce(sn, i, a);
    case Close(i) => HeldBeforeClose(sn, i, a);
  }

  lemma HeldBeforeConn(sn: Snap, e: ConnEvent, a: ActorId)
    requires ConnEnabled(sn, e) && a in sn.actors
    ensures a in ConnNext(sn, e).actors && (HoldsLease(ConnNext(sn, e).actors[a]) ==> HoldsLease(sn.actors[a]))
  {
    match e
    case Track(m) => assert ConnNext(sn, e).actors == sn.actors[m := ConnNext(sn, e).actors[m]];
    case RejectClose(m) => assert ConnNext(sn, e).actors == sn.actors[m := ConnNext(sn, e).actors[m]];
    case UserClose(_) =>
    case TakeOnce(m) => assert ConnNext(sn, e).actors == sn.actors[m := ConnNext(sn, e).actors[m]];
    case Unregister(m) => assert ConnNext(sn, e).actors == sn.actors[m := ConnNext(sn, e).actors[m]];
  }

  lemma HeldBeforeRelease(sn: Snap, e: ReleaseEvent, a: ActorId)
    requires ReleaseEnabled(sn, e) && a in sn.actors
    ensures a in ReleaseNext(sn, e).actors && (HoldsLease(ReleaseNext(sn, e).actors[a]) ==> HoldsLease(sn.actors[a]))
  {
    match e
    case Decrement(m) => assert ReleaseNext(sn, e).actors == sn.actors[m := ReleaseNext(sn, e).actors[m]];
    case CheckRetired(m) => assert ReleaseNext(sn, e).actors == sn.actors[m := ReleaseNext(sn, e).actors[m]];
  }

  lemma HeldBeforeRetire(sn: Snap, e: RetireEvent, a: ActorId)
    requires RetireEnabled(sn, e) && a in sn.actors
    ensures a in RetireNext(sn, e).actors && (HoldsLease(RetireNext(sn, e).actors[a]) ==> HoldsLease(sn.actors[a]))
  {
    match e
    case CasRetired(m) => assert RetireNext(sn, e).actors == sn.actors[m := RetireNext(sn, e).actors[m]];
    case LoadRefs(m) => assert RetireNext(sn, e).actors == sn.actors[m := RetireNext(sn, e).actors[m]];
    case ArmTimer(m) => assert RetireNext(sn, e).actors == sn.actors[m := RetireNext(sn, e).actors[m]];
  }

  lemma HeldBeforeForce(sn: Snap, e: ForceEvent, a: ActorId)
    requires ForceEnabled(sn, e) && a in sn.actors
    ensures a in ForceNext(sn, e).actors && (HoldsLease(ForceNext(sn, e).actors[a]) ==> HoldsLease(sn.actors[a]))
  {
    match e
    case TimerFires(g) => assert ForceNext(sn, e).actors == sn.actors[g := ForceNext(sn, e).actors[g]];
    case LockForced(m) => assert ForceNext(sn, e).actors == sn.actors[m := ForceNext(sn, e).actors[m]];
    case CloseConn(m, c) => assert ForceNext(sn, e).actors == sn.actors[m := ForceNext(sn, e).actors[m]];
    case ConnClosed(m) => assert ForceNext(sn, e).actors == sn.actors[m := ForceNext(sn, e).actors[m]];
    case ForceAll(m) => assert ForceNext(sn, e).actors == sn.actors[m := ForceNext(sn, e).actors[m]];
  }

  lemma HeldBeforeClose(sn: Snap, e: CloseEvent, a: ActorId)
    requires CloseEnabled(sn, e) && a in sn.actors
    ensures a in CloseNext(sn, e).actors && (HoldsLease(CloseNext(sn, e).actors[a]) ==> HoldsLease(sn.actors[a]))
  {
    match e
    case StartClose(g) => assert CloseNext(sn, e).actors == sn.actors[g := CloseNext(sn, e).actors[g]];
    case EnterClose(m) => assert CloseNext(sn, e).actors == sn.actors[m := CloseNext(sn, e).actors[m]];
    case MarkClosed(m) => assert CloseNext(sn, e).actors == sn.actors[m := CloseNext(sn, e).actors[m]];
    case StopTimer(m) => assert CloseNext(sn, e).actors == sn.actors[m := CloseNext(sn, e).actors[m]];
    case TearDown(m) => assert CloseNext(sn, e).actors == sn.actors[m := CloseNext(sn, e).actors[m]];
  }

  lemma InnerKeepsGuarded(sn: Snap, e: Event, acquirable: bool, a: ActorId)
    requires Inv(sn, acquirable) && Enabled(sn, e) && Guarded(sn, a)
    ensures Guarded(Next(sn, e), a)
  {
    hide Inv, NoEarlyClose, Enabled, Next;
    HeldBefore(sn, e, a);
    if HoldsLease(sn.actors[a]) {
      StepKeepsNoEarlyClose(sn, e, acquirable);
    }
  }

  lemma LeaseKeepsGuarded(sn: Snap, c: ActorId, a: ActorId)
    requires Inv(sn, true) && c !in sn.actors && Guarded(sn, a)
    ensures Guarded(Acquire(sn, c), a)
  {
    hide Inv, NoEarlyClose;
    if HoldsLease(sn.actors[a]) {
      assert a in Leases(sn);
      GuardedIsOpen(sn, true, a);
      AcquireKeepsNoEarlyClose(sn, c);
    }
  }

  lemma CallKeepsGuarded(sn: Snap, c: ActorId, a: ActorId)
    requires c !in sn.actors && Guarded(sn, a)
    ensures Guarded(StartRetire(sn, c), a) && Guarded(StartForce(sn, c), a)
  {
    hide NoEarlyClose;
    if HoldsLease(sn.actors[a]) {
      StartKeepsNoEarlyClose(sn, c);
    }
  }

  /** What a step of the service can do to a snapshot that exists. */
  ghost predicate Steps(sn: Snap, sn': Snap, acquirable: bool) {
    || sn' == sn
    || (exists e :: Enabled(sn, e) && sn' == Next(sn, e))
    || (exists c :: c !in sn.actors && ((acquirable && sn' == Acquire(sn, c)) || sn' == StartRetire(sn, c) || sn' == StartForce(sn, c)))
  }

  lemma SnapSteps(s: Svc, e: SvcEvent, x: Sid)
    requires SvcEnabled(s, e) && x in s.snaps
    ensures x in SvcNext(s, e).snaps && Steps(s.snaps[x], SvcNext(s, e).snaps[x], s.current == Some(x))
  {
    hide Next, Enabled, Acquire, StartRetire, StartForce, StillOpen, Finish;
  }

  lemma StepsKeepGuarded(sn: Snap, sn': Snap, acquirable: bool, a: ActorId)
    requires Inv(sn, acquirable) && Guarded(sn, a) && Steps(sn, sn', acquirable)
    ensures Guarded(sn', a)
  {
    hide Inv, Guarded, Next, Enabled, Acquire, StartRetire, StartForce;
    if i :| Enabled(sn, i) && sn' == Next(sn, i) {
      InnerKeepsGuarded(sn, i, acquirable, a);
    } else if sn' != sn {
      var c :| c !in sn.actors && ((acquirable && sn' == Acquire(sn, c)) || sn' == StartRetire(sn, c) || sn' == StartForce(sn, c));
      CallKeepsGuarded(sn, c, a);
      if acquirable {
        LeaseKeepsGuarded(sn, c, a);
      }
    }
  }

  lemma StepKeepsGuarded(s: Svc, e: SvcEvent, x: Sid, a: ActorId)
    requires SvcInv(s) && SvcEnabled(s, e) && x in s.snaps && Guarded(s.snaps[x], a)
    ensures x in SvcNext(s, e).snaps && Guarded(SvcNext(s, e).snaps[x], a)
  {
    hide SvcInv, SvcNext, SvcEnabled, Inv, Guarded, Steps;
    SnapSteps(s, e, x);
    OneInv(s, x);
    StepsKeepGuarded(s.snaps[x], SvcNext(s, e).snaps[x], s.current == Some(x), a);
  }

  lemma {:induction false} StaysGuarded(first: Sid, evs: seq<SvcEvent>, more: seq<SvcEvent>, x: Sid, a: ActorId)
    requires evs <= more && Run(Start(first), evs) && Run(Start(first), more)
    requires x in Exec(Start(first), evs).snaps && Guarded(Exec(Start(first), evs).snaps[x], a)
    ensures x in Exec(Start(first), more).snaps && Guarded(Exec(Start(first), more).snaps[x], a)
    decreases |more|
  {
    hide Guarded, SvcInv, SvcNext, SvcEnabled;
    if |evs| < |more| {
      var m := more[..|more| - 1];
      StaysGuarded(first, evs, m, x, a);
      RunInv(first, m);
      StepKeepsGuarded(Exec(Start(first), m), more[|more| - 1], x, a);
    } else {
      assert evs == more;
    }
  }

  lemma GuardedIsSafe(first: Sid, evs: seq<SvcEvent>, x: Sid, a: ActorId)
    requires Run(Start(first), evs) && x in Exec(Start(first), evs).snaps && Guarded(Exec(Start(first), evs).snaps[x], a)
    ensures Safe(first, evs, x, a)
  {
    hide Run, Exec, Guarded, SvcInv, Inv;
    forall more | evs <= more && Run(Start(first), more)
      ensures !ClosedUnder(Exec(Start(first), more), x, a)
    {
      StaysGuarded(first, evs, more, x, a);
      RunInv(first, more);
      OneInv(Exec(Start(first), more), x);
      var s := Exec(Start(first), more);
      if a in Leases(s.snaps[x]) {
        GuardedIsOpen(s.snaps[x], s.current == Some(x), a);
      }
    }
  }

  lemma OneInv(s: Svc, x: Sid)
    requires SvcInv(s) && x in s.snaps
    ensures Inv(s.snaps[x], s.current == Some(x))
  {
    hide Inv, Shape, TasksOk, AllCovered;
  }

  /** After every run, a lease is safe for as long as it is held, exactly if it is calm. */
  lemma LeaseIsSafeIffCalm(first: Sid, evs: seq<SvcEvent>, a: ActorId)
    requires Run(Start(first), evs) && CanLease(Exec(Start(first), evs), a)
    ensures var s := Exec(Start(first), evs);
            Safe(first, evs + [Lease(a)], s.current.value, a) <==> Calm(s, Lease(a))
  {
    var s := Exec(Start(first), evs);
    if Calm(s, Lease(a)) {
      CalmLeaseIsSafe(first, evs, a);
    } else {
      var more := StalledLeaseCanBeClosedUnder(first, evs, a);
    }
  }

  lemma CalmLeaseIsSafe(first: Sid, evs: seq<SvcEvent>, a: ActorId)
    requires Run(Start(first), evs) && CanLease(Exec(Start(first), evs), a) && Calm(Exec(Start(first), evs), Lease(a))
    ensures Safe(first, evs + [Lease(a)], Exec(Start(first), evs).current.value, a)
  {
    var s := Exec(Start(first), evs);
    var x := s.current.value;
    RunInv(first, evs);
    hide SvcInv, Inv, Guarded, Acquire, Safe;
    CurrentInv(s);
    CalmLeaseIsGuarded(s.snaps[x], a);
    LeaseTo(first, evs, s, a);
    GuardedIsSafe(first, evs + [Lease(a)], x, a);
  }

  /** Such a lease exists: actor 1 stalls in release, and actor 2 leases. */
  lemma StalledReleaseClosesEarly() returns (evs: seq<SvcEvent>)
    ensures Run(Start(0), evs) && ClosedUnder(Exec(Start(0), evs), 0, 2)
  {
    var one, s1 := [Lease(1)], DoLease(Start(0), 1);
    assert one[..0] == [];
    assert Reaches(0, one, s1);
    var two, s2 := Go(0, one, s1, Inner(0, Release(Decrement(1))));
    hide Run, Exec;
    assert s2.snaps[0].actors[1] == RelCheck;
    evs := StalledLeaseCanBeClosedUnder(0, two, 2);
  }
}
