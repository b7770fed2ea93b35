/**
 A snapshot comes to rest by itself. Apart from what lease holders choose to do,
 some goroutine of an unsettled snapshot can always move, and every such move
 brings the snapshot nearer to rest.
 */
module Settling {
  import opened Basics
  import opened Snapshot
  import opened Service
  import opened EarlyClose

  // ---- Nobody waits in vain -------------------------------------------------

  /** Actor c owns a tracked connection, or is past closing it. */
  predicate Closable(sn: Snap, c: ActorId) {
    c in sn.actors && (sn.actors[c].Open? || sn.actors[c].Unregistering? || sn.actors[c].Releasing? || sn.actors[c].RelCheck? || sn.actors[c].Done?)
  }

  predicate WaitsWell(sn: Snap, pc: Pc) {
    match pc
    case ForceLoop(rest) => forall c :: c in rest ==> Closable(sn, c)
    case ForceWait(c, rest) => Closable(sn, c) && c in sn.netClosed && forall d :: d in rest ==> Closable(sn, d)
    case _ => true
  }

  /** A forced drain lists only connections, and waits only for one whose socket it has closed. */
  ghost predicate Waits(sn: Snap) {
    forall a :: a in sn.actors ==> WaitsWell(sn, sn.actors[a])
  }

  /** Steps that keep closable actors closable and sockets closed. */
  ghost predicate KeepsClosable(sn: Snap, sn': Snap) {
    (forall c :: Closable(sn, c) ==> Closable(sn', c)) && sn.netClosed <= sn'.netClosed
  }

  /** Only actor a moves. */
  ghost predicate MovesOnly(sn: Snap, sn': Snap, a: ActorId) {
    a in sn'.actors && sn'.actors == sn.actors[a := sn'.actors[a]]
  }

  lemma WaitsKept(sn: Snap, sn': Snap, a: ActorId)
    requires Waits(sn) && KeepsClosable(sn, sn') && MovesOnly(sn, sn', a) && WaitsWell(sn', sn'.actors[a])
    ensures Waits(sn')
  {
    hide Closable;
  }

  /** The actor an event moves. */
  function Mover(e: Event): ActorId {
    match e
    case Conn(x) => x.a
    case Release(x) => x.a
    case Retire(x) => x.a
    case Force(x) => if x.TimerFires? then x.g else x.a
    case Close(x) => if x.StartClose? then x.g else x.a
  }

  lemma ConnClosable(sn: Snap, e: ConnEvent)
    requires ConnEnabled(sn, e)
    ensures var sn' := ConnNext(sn, e); KeepsClosable(sn, sn') && MovesOnly(sn, sn', e.a) && (WaitsWell(sn, sn.actors[e.a]) ==> WaitsWell(sn', sn'.actors[e.a]))
  {
  }

  lemma ReleaseClosable(sn: Snap, e: ReleaseEvent)
    requires ReleaseEnabled(sn, e)
    ensures var sn' := ReleaseNext(sn, e); KeepsClosable(sn, sn') && MovesOnly(sn, sn', e.a) && WaitsWell(sn', sn'.actors[e.a])
  {
  }

  lemma RetireClosable(sn: Snap, e: RetireEvent)
    requires RetireEnabled(sn, e)
    ensures var sn' := RetireNext(sn, e); KeepsClosable(sn, sn') && MovesOnly(sn, sn', e.a) && WaitsWell(sn', sn'.actors[e.a])
  {
  }

  lemma ForceClosable(sn: Snap, e: ForceEvent)
    requires ForceEnabled(sn, e) && Counted(sn) && Waits(sn)
    ensures var sn' := ForceNext(sn, e); var a := Mover(Event.Force(e));
            KeepsClosable(sn, sn') && MovesOnly(sn, sn', a) && WaitsWell(sn', sn'.actors[a])
  {
    ForceMoves(sn, e);
    var a := Mover(Event.Force(e));
    assert a in sn.actors ==> WaitsWell(sn, sn.actors[a]);
    assert e.LockForced? ==> forall c :: c in sn.conns ==> Closable(sn, c);
    hide Waits, Counted, KeepsClosable, MovesOnly;
  }

  lemma ForceMoves(sn: Snap, e: ForceEvent)
    requires ForceEnabled(sn, e)
    ensures var sn' := ForceNext(sn, e); KeepsClosable(sn, sn') && MovesOnly(sn, sn', Mover(Event.Force(e)))
  {
  }

  lemma CloseClosable(sn: Snap, e: CloseEvent)
    requires CloseEnabled(sn, e)
    ensures var sn' := CloseNext(sn, e); var a := Mover(Event.Close(e)); KeepsClosable(sn, sn') && MovesOnly(sn, sn', a) && WaitsWell(sn', sn'.actors[a])
  {
  }

  lemma StepKeepsWaits(sn: Snap, e: Event)
    requires Waits(sn) && Counted(sn) && Enabled(sn, e)
    ensures Waits(Next(sn, e))
  {
    assert Mover(e) in sn.actors ==> WaitsWell(sn, sn.actors[Mover(e)]);
    hide Waits, WaitsWell, KeepsClosable, Counted, Closable, MovesOnly;
    hide ConnNext, ReleaseNext, RetireNext, ForceNext, CloseNext;
    match e
    case Conn(x) => ConnClosable(sn, x); WaitsKept(sn, Next(sn, e), Mover(e));
    case Release(x) => ReleaseClosable(sn, x); WaitsKept(sn, Next(sn, e), Mover(e));
    case Retire(x) => RetireClosable(sn, x); WaitsKept(sn, Next(sn, e), Mover(e));
    case Force(x) => ForceClosable(sn, x); WaitsKept(sn, Next(sn, e), Mover(e));
    case Close(x) => CloseClosable(sn, x); WaitsKept(sn, Next(sn, e), Mover(e));
  }

  // ---- Somebody can always move ------------------------------------------------

  /** The event is not a lease holder's choice to dial, to close its connection or to give its lease back. */
  predicate Bound(sn: Snap, e: Event) {
    match e
    case Conn(x) => !x.Track? && !x.UserClose?
    case Release(x) => x.Decrement? ==> !At(sn, x.a, Using)
    case _ => true
  }

  /** A closable actor whose socket is closed moves on until it is done. */
  lemma ClosableMoves(sn: Snap, c: ActorId) returns (e: Event)
    requires Closable(sn, c) && c in sn.netClosed && !sn.actors[c].Done?
    ensures Enabled(sn, e) && Bound(sn, e)
  {
    match sn.actors[c]
    case Open => e := Conn(TakeOnce(c));
    case Unregistering => e := Conn(Unregister(c));
    case Releasing => e := Release(Decrement(c));
    case RelCheck => e := Release(CheckRetired(c));
  }

  /** Whoever has entered closeOnce moves on until everything is torn down. */
  lemma CloserMoves(sn: Snap) returns (e: Event)
    requires ClosedOnce(sn) && sn.closer.Some? && !sn.torn
    ensures Enabled(sn, e) && Bound(sn, e)
  {
    var c := sn.closer.value;
    match sn.actors[c]
    case CloseMark => e := Event.Close(MarkClosed(c));
    case CloseTimer => e := Event.Close(StopTimer(c));
    case CloseTear => e := Event.Close(TearDown(c));
  }

  lemma ActorMoves(sn: Snap, w: ActorId) returns (e: Event)
    requires ClosedOnce(sn) && Waits(sn) && w in sn.actors && !HoldsLease(sn.actors[w]) && !sn.actors[w].Done?
    ensures Enabled(sn, e) && Bound(sn, e)
  {
    assert WaitsWell(sn, sn.actors[w]);
    match sn.actors[w]
    case RelCheck => e := Release(CheckRetired(w));
    case RetireCas => e := Event.Retire(CasRetired(w));
    case RetireLoad => e := Event.Retire(LoadRefs(w));
    case RetireTimer => e := Event.Retire(ArmTimer(w));
    case ForceLock => e := Event.Force(LockForced(w));
    case ForceLoop(rest) =>
      if rest == {} {
        e := Event.Force(ForceAll(w));
      } else {
        var c :| c in rest;
        e := Event.Force(CloseConn(w, c));
      }
    case ForceWait(c, rest) =>
      if sn.actors[c].Done? {
        e := Event.Force(ConnClosed(w));
      } else {
        e := ClosableMoves(sn, c);
      }
    case CloseEnter =>
      if sn.closer == None || sn.torn {
        e := Event.Close(EnterClose(w));
      } else {
        e := CloserMoves(sn);
      }
    case CloseMark => e := Event.Close(MarkClosed(w));
    case CloseTimer => e := Event.Close(StopTimer(w));
    case CloseTear => e := Event.Close(TearDown(w));
  }

  /** No deadlock: a snapshot that has not settled has a step that waits for no lease holder. */
  lemma UnsettledMoves(sn: Snap, acquirable: bool) returns (e: Event)
    requires Inv(sn, acquirable) && Waits(sn) && !Settled(sn)
    ensures Enabled(sn, e) && Bound(sn, e)
  {
    hide Counted, Secluded, Dialed, Drained, Caused, NoLostClose, Finished, Waits, ClosedOnce;
    if sn.timer {
      var g := FreshId(sn.actors.Keys);
      e := Event.Force(TimerFires(g));
    } else if sn.spawned > 0 {
      var g := FreshId(sn.actors.Keys);
      e := Event.Close(StartClose(g));
    } else {
      var w :| w in sn.actors && !HoldsLease(sn.actors[w]) && !sn.actors[w].Done?;
      e := ActorMoves(sn, w);
    }
  }

  // ---- Every such move brings rest nearer ----------------------------------------

  /** How much a goroutine still has to do, with n connections registered. */
  function Weight(pc: Pc, n: nat): nat {
    match pc
    case Done => 0
    case CloseTear => 1
    case CloseTimer => 2
    case CloseMark => 3
    case CloseEnter => 4
    case ForceLoop(rest) => 5 + 2 * |rest|
    case ForceWait(_, rest) => 6 + 2 * |rest|
    case ForceLock => 6 + 2 * n
    case RelCheck => 6
    case Releasing => 7
    case Unregistering => 8
    case Rejected => 8
    case Using => 9
    case Open => 9
    case RetireTimer => 8 + 2 * n
    case RetireLoad => 9 + 2 * n
    case RetireCas => 10 + 2 * n
  }

  ghost function Total(keys: set<ActorId>, actors: map<ActorId, Pc>, n: nat): nat
    requires keys <= actors.Keys
  {
    if keys == {} then 0 else var a :| a in keys; Weight(actors[a], n) + Total(keys - {a}, actors, n)
  }

  lemma {:induction false} TotalSplits(keys: set<ActorId>, actors: map<ActorId, Pc>, n: nat, a: ActorId)
    requires keys <= actors.Keys && a in keys
    ensures Total(keys, actors, n) == Weight(actors[a], n) + Total(keys - {a}, actors, n)
    decreases keys
  {
    hide Weight;
    var b :| b in keys && Total(keys, actors, n) == Weight(actors[b], n) + Total(keys - {b}, actors, n);
    if a != b {
      TotalSplits(keys - {b}, actors, n, a);
      TotalSplits(keys - {a}, actors, n, b);
      assert keys - {a} - {b} == keys - {b} - {a};
    }
  }

  /** Fewer connections to drain weigh no more, and only the listed actors count. */
  lemma {:induction false} TotalShrinks(keys: set<ActorId>, actors: map<ActorId, Pc>, n: nat, actors': map<ActorId, Pc>, n': nat)
    requires keys <= actors.Keys && keys <= actors'.Keys && n' <= n && forall a :: a in keys ==> actors'[a] == actors[a]
    ensures Total(keys, actors', n') <= Total(keys, actors, n)
    decreases keys
  {
    if keys != {} {
      var a :| a in keys;
      TotalSplits(keys, actors, n, a);
      TotalSplits(keys, actors', n', a);
      TotalShrinks(keys - {a}, actors, n, actors', n');
    }
  }

  /** Everything still to be done without lease holders: by goroutines, by those about to start, and by the timer. */
  ghost function Work(sn: Snap): nat {
    Total(sn.actors.Keys, sn.actors, |sn.conns|) + 5 * sn.spawned + if sn.timer then 7 + 2 * |sn.conns| else 0
  }

  /** What actor a, if it is there, has to do. */
  function Share(sn: Snap, a: ActorId): nat {
    if a in sn.actors then Weight(sn.actors[a], |sn.conns|) else 0
  }

  /** A step of one actor changes the work by that actor's share, and by what it spawns or arms. */
  lemma OneMoves(sn: Snap, sn': Snap, a: ActorId)
    requires MovesOnly(sn, sn', a) && |sn'.conns| <= |sn.conns|
    ensures Total(sn'.actors.Keys, sn'.actors, |sn'.conns|) + Share(sn, a) <= Total(sn.actors.Keys, sn.actors, |sn.conns|) + Share(sn', a)
  {
    var rest := sn.actors.Keys - {a};
    hide Weight;
    TotalSplits(sn'.actors.Keys, sn'.actors, |sn'.conns|, a);
    assert sn'.actors.Keys - {a} == rest;
    TotalShrinks(rest, sn.actors, |sn.conns|, sn'.actors, |sn'.conns|);
    if a in sn.actors {
      TotalSplits(sn.actors.Keys, sn.actors, |sn.conns|, a);
    } else {
      assert sn.actors.Keys == rest;
    }
  }

  /** The mover's share, with what it spawns or arms, goes down. */
  ghost predicate Lightens(sn: Snap, sn': Snap, a: ActorId) {
    && |sn'.conns| <= |sn.conns|
    && Share(sn', a) + 5 * sn'.spawned + (if sn'.timer then 7 + 2 * |sn.conns| else 0) <
       Share(sn, a) + 5 * sn.spawned + (if sn.timer then 7 + 2 * |sn.conns| else 0)
  }

  lemma ConnLightens(sn: Snap, e: ConnEvent)
    requires ConnEnabled(sn, e) && Bound(sn, Conn(e))
    ensures Lightens(sn, ConnNext(sn, e), e.a)
  {
    var sn' := ConnNext(sn, e);
    Fewer(sn'.conns, sn.conns);
  }

  lemma {:induction false} Fewer(a: set<ActorId>, b: set<ActorId>)
    ensures a <= b ==> |a| <= |b|
    decreases a
  {
    if a != {} && a <= b {
      var x :| x in a;
      Fewer(a - {x}, b - {x});
    }
  }

  lemma ReleaseLightens(sn: Snap, e: ReleaseEvent)
    requires ReleaseEnabled(sn, e) && Bound(sn, Release(e))
    ensures Lightens(sn, ReleaseNext(sn, e), e.a)
  {
  }

  lemma RetireLightens(sn: Snap, e: RetireEvent)
    requires RetireEnabled(sn, e)
    ensures Lightens(sn, RetireNext(sn, e), e.a)
  {
  }

  lemma ForceLightens(sn: Snap, e: ForceEvent)
    requires ForceEnabled(sn, e)
    ensures Lightens(sn, ForceNext(sn, e), Mover(Event.Force(e)))
  {
    if e.CloseConn? {
      var rest := sn.actors[e.a].rest;
      assert |rest - {e.c}| == |rest| - 1;
    }
  }

  lemma CloseLightens(sn: Snap, e: CloseEvent)
    requires CloseEnabled(sn, e)
    ensures Lightens(sn, CloseNext(sn, e), Mover(Event.Close(e)))
  {
  }

  /** So an unsettled snapshot cannot go on forever without a lease holder's choice. */
  lemma BoundStepsEnd(sn: Snap, e: Event)
    requires Counted(sn) && Waits(sn) && Enabled(sn, e) && Bound(sn, e)
    ensures Work(Next(sn, e)) < Work(sn)
  {
    var sn', a := Next(sn, e), Mover(e);
    assert MovesOnly(sn, sn', a) && Lightens(sn, sn', a) by {
      hide MovesOnly, Lightens, Waits, Counted, WaitsWell, KeepsClosable;
      hide ConnNext, ReleaseNext, RetireNext, ForceNext, CloseNext;
      match e
      case Conn(x) => ConnClosable(sn, x); ConnLightens(sn, x);
      case Release(x) => ReleaseClosable(sn, x); ReleaseLightens(sn, x);
      case Retire(x) => RetireClosable(sn, x); RetireLightens(sn, x);
      case Force(x) => ForceClosable(sn, x); ForceLightens(sn, x);
      case Close(x) => CloseClosable(sn, x); CloseLightens(sn, x);
    }
    OneMoves(sn, sn', a);
    hide Next, Share, Total, MovesOnly;
  }

  // ---- Runs ---------------------------------------------------------------------

  ghost predicate AllWait(s: Svc) {
    forall x :: x in s.snaps ==> Waits(s.snaps[x])
  }

  lemma MovedWaits(s: Svc, s': Svc, x: Sid, sn: Snap)
    requires AllWait(s) && s'.snaps == s.snaps[x := sn] && Waits(sn)
    ensures AllWait(s')
  {
    hide Waits;
  }

  /** A new actor waits for nobody. */
  lemma NewActorWaits(sn: Snap, a: ActorId)
    requires Waits(sn) && a !in sn.actors
    ensures Waits(Acquire(sn, a)) && Waits(StartRetire(sn, a)) && Waits(StartForce(sn, a))
  {
    WaitsKept(sn, Acquire(sn, a), a);
    WaitsKept(sn, StartRetire(sn, a), a);
    WaitsKept(sn, StartForce(sn, a), a);
  }

  lemma CalledWaits(s: Svc, s': Svc, x: Sid, a: ActorId)
    requires AllWait(s) && Fresh(s, x, a)
    requires s'.snaps == s.snaps[x := StartRetire(s.snaps[x], a)] || s'.snaps == s.snaps[x := StartForce(s.snaps[x], a)]
    ensures AllWait(s')
  {
    NewActorWaits(s.snaps[x], a);
    hide Waits, StartRetire, StartForce;
  }

  lemma PristineWaits()
    ensures Waits(Pristine)
  {
  }

  lemma SnapInv(s: Svc, x: Sid)
    requires SvcInv(s) && x in s.snaps
    ensures Inv(s.snaps[x], s.current == Some(x))
  {
    hide Inv, Shape, TasksOk, AllCovered;
  }

  lemma InvParts(sn: Snap, acquirable: bool)
    requires Inv(sn, acquirable)
    ensures Counted(sn) && Finished(sn) && sn.closes == if sn.torn then 1 else 0
  {
    hide Counted, Secluded, Dialed, Drained, Caused, NoLostClose, Finished;
  }

  lemma StepKeepsAllWait(s: Svc, e: SvcEvent)
    requires SvcInv(s) && AllWait(s) && SvcEnabled(s, e)
    ensures AllWait(SvcNext(s, e))
  {
    hide SvcInv, Inv, Counted, Waits, AllWait, Next, Enabled, StillOpen, StartRetire, StartForce, Acquire, Finish;
    var s' := SvcNext(s, e);
    match e
    case Lease(a) =>
      OneWaits(s, s.current.value);
      NewActorWaits(s.snaps[s.current.value], a);
      MovedWaits(s, s', s.current.value, Acquire(s.snaps[s.current.value], a));
    case Inner(x, i) =>
      SnapInv(s, x);
      InvParts(s.snaps[x], s.current == Some(x));
      OneWaits(s, x);
      StepKeepsWaits(s.snaps[x], i);
      MovedWaits(s, s', x, Next(s.snaps[x], i));
    case BeginReload(t, x) =>
      PristineWaits();
      MovedWaits(s, s', x, Pristine);
    case Abandon(t, r) => CalledWaits(s, s', s.tasks[t].sid, r);
    case CallRetire(t, r) => CalledWaits(s, s', s.tasks[t].sid, r);
    case RegisterLate(t, f) => CalledWaits(s, s', s.tasks[t].sid, f);
    case CallSweepRetire(t, r) => CalledWaits(s, s', s.tasks[t].todo[0], r);
    case CallSweepForce(t, f) => CalledWaits(s, s', s.tasks[t].sid, f);
    case Register(t, f) =>
      var kept := Kept(s, s.tasks[t].sid);
      if |kept| > MAX_RETIRED {
        CalledWaits(s, s', kept[0], f);
      } else {
        SameWaits(s, s');
      }
    case _ => SameWaits(s, s');
  }

  lemma OneWaits(s: Svc, x: Sid)
    requires AllWait(s) && x in s.snaps
    ensures Waits(s.snaps[x])
  {
  }

  lemma SameWaits(s: Svc, s': Svc)
    requires AllWait(s) && s'.snaps == s.snaps
    ensures AllWait(s')
  {
  }

  lemma {:induction false} RunWaits(first: Sid, evs: seq<SvcEvent>)
    requires Run(Start(first), evs)
    ensures AllWait(Exec(Start(first), evs))
    decreases |evs|
  {
    hide SvcInv, SvcNext, SvcEnabled, Waits;
    if evs == [] {
      PristineWaits();
    } else {
      RunWaits(first, evs[..|evs| - 1]);
      RunInv(first, evs[..|evs| - 1]);
      StepKeepsAllWait(Exec(Start(first), evs[..|evs| - 1]), evs[|evs| - 1]);
    }
  }

  lemma ReachedInv(first: Sid, evs: seq<SvcEvent>, s: Svc)
    requires Reaches(first, evs, s)
    ensures SvcInv(s) && AllWait(s)
  {
    hide SvcInv, AllWait;
    RunInv(first, evs);
    RunWaits(first, evs);
  }

  /** more goes on from evs by steps inside x that are no lease holder's choice. */
  ghost predicate Quiet(first: Sid, evs: seq<SvcEvent>, more: seq<SvcEvent>, x: Sid)
    decreases |more|
  {
    more == evs ||
    (|evs| < |more| && QuietLast(first, more, x) && Quiet(first, evs, more[..|more| - 1], x))
  }

  ghost predicate QuietLast(first: Sid, more: seq<SvcEvent>, x: Sid)
    requires more != []
  {
    var m, e := more[..|more| - 1], more[|more| - 1];
    && e.Inner? && e.x == x && Run(Start(first), m)
    && x in Exec(Start(first), m).snaps && Bound(Exec(Start(first), m).snaps[x], e.e)
  }

  /** From every reachable state, a snapshot settles by bound steps of its own, in no more steps than it has work. */
  lemma Settles(first: Sid, evs: seq<SvcEvent>, s: Svc, x: Sid) returns (more: seq<SvcEvent>, s': Svc)
    requires Reaches(first, evs, s) && x in s.snaps
    ensures Reaches(first, more, s') && Quiet(first, evs, more, x) && |more| - |evs| <= Work(s.snaps[x])
    ensures x in s'.snaps && Settled(s'.snaps[x]) && s' == s.(snaps := s.snaps[x := s'.snaps[x]])
    decreases Work(s.snaps[x])
  {
    hide Reaches, Quiet, SvcInv, Inv, AllWait, Waits, Counted, Finished, Settled, Work, Next, Enabled, Bound;
    ReachedInv(first, evs, s);
    var sn := s.snaps[x];
    SnapInv(s, x);
    InvParts(sn, s.current == Some(x));
    OneWaits(s, x);
    if Settled(sn) {
      more, s' := evs, s;
      QuietSelf(first, evs, x);
      assert s.snaps[x := sn] == s.snaps;
    } else {
      var e := UnsettledMoves(sn, s.current == Some(x));
      BoundStepsEnd(sn, e);
      var evs1 := evs + [Inner(x, e)];
      var s1 := GoOn(first, evs, s, x, e);
      more, s' := Settles(first, evs1, s1, x);
      JoinQuiet(first, evs, evs1, more, x);
    }
  }

  /** However they are chosen, steps of x that are no lease holder's choice come to an end: there are no more of them than x has work. */
  lemma {:induction false} QuietIsShort(first: Sid, evs: seq<SvcEvent>, more: seq<SvcEvent>, x: Sid)
    requires Run(Start(first), evs) && Run(Start(first), more) && Quiet(first, evs, more, x)
    requires x in Exec(Start(first), evs).snaps
    ensures x in Exec(Start(first), more).snaps
    ensures |more| - |evs| + Work(Exec(Start(first), more).snaps[x]) <= Work(Exec(Start(first), evs).snaps[x])
    decreases |more|
  {
    hide SvcInv, Inv, AllWait, Waits, Counted, Finished, Work, Next, Enabled, Bound;
    if more != evs {
      var m, e := more[..|more| - 1], more[|more| - 1];
      QuietIsShort(first, evs, m, x);
      var s := Exec(Start(first), m);
      ReachedInv(first, m, s);
      SnapInv(s, x);
      InvParts(s.snaps[x], s.current == Some(x));
      OneWaits(s, x);
      BoundStepsEnd(s.snaps[x], e.e);
    }
  }

  /** And where no such step is left, x has settled. */
  lemma QuietEndsSettled(first: Sid, evs: seq<SvcEvent>, x: Sid)
    requires Run(Start(first), evs) && x in Exec(Start(first), evs).snaps
    requires var sn := Exec(Start(first), evs).snaps[x]; forall e :: Enabled(sn, e) ==> !Bound(sn, e)
    ensures Settled(Exec(Start(first), evs).snaps[x])
  {
    var s := Exec(Start(first), evs);
    ReachedInv(first, evs, s);
    hide Run, Exec, SvcInv, Inv, AllWait, Waits, Settled, Enabled, Bound;
    SnapInv(s, x);
    OneWaits(s, x);
    if !Settled(s.snaps[x]) {
      var e := UnsettledMoves(s.snaps[x], s.current == Some(x));
    }
  }

  lemma QuietSelf(first: Sid, evs: seq<SvcEvent>, x: Sid)
    ensures Quiet(first, evs, evs, x)
  {
  }

  lemma GoOn(first: Sid, evs: seq<SvcEvent>, s: Svc, x: Sid, e: Event) returns (s': Svc)
    requires Reaches(first, evs, s) && x in s.snaps && Enabled(s.snaps[x], e) && Bound(s.snaps[x], e)
    ensures Reaches(first, evs + [Inner(x, e)], s') && s' == s.(snaps := s.snaps[x := Next(s.snaps[x], e)])
    ensures Quiet(first, evs, evs + [Inner(x, e)], x)
  {
    hide Next, Enabled, Bound;
    s' := SvcNext(s, Inner(x, e));
    var more := evs + [Inner(x, e)];
    assert more[..|evs|] == evs;
    assert QuietLast(first, more, x);
  }

  lemma {:induction false} JoinQuiet(first: Sid, a: seq<SvcEvent>, b: seq<SvcEvent>, c: seq<SvcEvent>, x: Sid)
    requires Quiet(first, a, b, x) && Quiet(first, b, c, x) && |a| <= |b|
    ensures Quiet(first, a, c, x) && |b| <= |c|
    decreases |c|
  {
    hide QuietLast;
    if c != b {
      JoinQuiet(first, a, b, c[..|c| - 1], x);
    }
  }

  /** What Close sweeps is torn down before it goes on to the next snapshot. */
  lemma SweptIsTornDown(first: Sid, evs: seq<SvcEvent>, s: Svc, t: Tid)
    requires Reaches(first, evs, s) && CanSweepForceReturns(s, t)
    ensures var x := s.tasks[t].sid; x in s.snaps && s.snaps[x].torn && s.snaps[x].closes == 1
  {
    hide Reaches, SvcInv, Inv, AllWait, Counted;
    ReachedInv(first, evs, s);
    SweptForces(s, t);
    var x := s.tasks[t].sid;
    SnapInv(s, x);
    InvParts(s.snaps[x], s.current == Some(x));
  }

  lemma SweptForces(s: Svc, t: Tid)
    requires SvcInv(s) && CanSweepForceReturns(s, t)
    ensures s.tasks[t].sid in s.snaps && s.tasks[t].f in s.snaps[s.tasks[t].sid].forcers
  {
    hide Inv, Shape, SnapsOk, AllCovered;
    assert TaskOk(s, t, s.tasks[t]);
  }

  /**
   After Close and the reloads in flight have returned, every snapshot ever built is torn down exactly
   once by finitely many further steps of its own goroutines, whatever lease holders do or leave undone.
   */
  lemma ShutdownTearsDown(first: Sid, evs: seq<SvcEvent>, x: Sid) returns (more: seq<SvcEvent>)
    requires Run(Start(first), evs)
    requires var s := Exec(Start(first), evs); s.closed && s.tasks == map[] && x in s.snaps
    ensures Quiet(first, evs, more, x) && Run(Start(first), more) && x in Exec(Start(first), more).snaps
    ensures Exec(Start(first), more).snaps[x].torn && Exec(Start(first), more).snaps[x].closes == 1
  {
    var s := Exec(Start(first), evs);
    var s';
    more, s' := Settles(first, evs, s, x);
    ShutdownClosesEverySnapshot(first, more, x);
  }
}
