/**
 Which retired snapshot is evicted. The order of registration is read off the
 run itself; the retired list follows it, and a registration that finds eight
 open snapshots listed force-closes the one registered first.
 */
module Eviction {
  import opened Basics
  import opened Snapshot
  import opened Service

  /** What an event registers. */
  function Registers(s: Svc, e: SvcEvent): seq<Sid> {
    if e.Register? && e.t in s.tasks && s.tasks[e.t].Registering? then [s.tasks[e.t].sid] else []
  }

  /** The snapshots registered in the course of a run, in that order. */
  ghost function Registered(first: Sid, evs: seq<SvcEvent>): seq<Sid>
    requires Run(Start(first), evs)
  {
    if evs == [] then []
    else Registered(first, evs[..|evs| - 1]) + Registers(Exec(Start(first), evs[..|evs| - 1]), evs[|evs| - 1])
  }

  /** x was registered before y. */
  ghost predicate Before(reg: seq<Sid>, x: Sid, y: Sid) {
    exists p, q :: 0 <= p < q < |reg| && reg[p] == x && reg[q] == y
  }

  ghost predicate Once(reg: seq<Sid>) {
    forall p, q :: 0 <= p < q < |reg| ==> reg[p] != reg[q]
  }

  /** l lists registered snapshots in the order of their registration. */
  ghost predicate InOrder(reg: seq<Sid>, l: seq<Sid>) {
    (forall x :: x in l ==> x in reg) && forall i, j :: 0 <= i < j < |l| ==> Before(reg, l[i], l[j])
  }

  lemma InOrderIsOnce(reg: seq<Sid>, l: seq<Sid>)
    requires Once(reg) && InOrder(reg, l)
    ensures Once(l)
  {
  }

  lemma MoreInOrder(reg: seq<Sid>, l: seq<Sid>, x: Sid)
    requires InOrder(reg, l)
    ensures InOrder(reg + [x], l + [x])
  {
    var all, r := l + [x], reg + [x];
    forall i, j | 0 <= i < j < |all|
      ensures Before(r, all[i], all[j])
    {
      if j < |l| {
        assert Before(reg, l[i], l[j]);
        var p, q :| 0 <= p < q < |reg| && reg[p] == l[i] && reg[q] == l[j];
        assert r[p] == l[i] && r[q] == l[j];
      } else {
        assert l[i] in reg;
        var p :| 0 <= p < |reg| && reg[p] == l[i];
        assert r[p] == l[i] && r[|reg|] == x;
      }
    }
  }

  lemma TailInOrder(reg: seq<Sid>, l: seq<Sid>)
    requires InOrder(reg, l) && l != []
    ensures InOrder(reg, l[1..]) && forall y :: y in l[1..] ==> Before(reg, l[0], y)
  {
    hide Before;
    var rest := l[1..];
    assert forall i :: 0 <= i < |rest| ==> rest[i] == l[i + 1];
  }

  lemma TailIs(l: seq<Sid>)
    requires Once(l) && l != []
    ensures forall y :: y in l[1..] <==> y in l && y != l[0]
  {
    assert l == [l[0]] + l[1..];
    assert forall i :: 0 <= i < |l| - 1 ==> l[1..][i] == l[i + 1];
  }

  lemma OnceMore(reg: seq<Sid>, x: Sid)
    requires Once(reg) && x !in reg
    ensures Once(reg + [x])
  {
  }

  lemma {:induction false} OpenInOrder(reg: seq<Sid>, l: seq<Sid>, snaps: map<Sid, Snap>)
    requires (forall x :: x in l ==> x in snaps) && InOrder(reg, l)
    ensures InOrder(reg, StillOpen(l, snaps))
  {
    if l != [] {
      hide Before;
      TailInOrder(reg, l);
      OpenInOrder(reg, l[1..], snaps);
      StillOpenKeeps(l[1..], snaps);
    }
  }

  /** The listed snapshots that are still open. */
  function Open(s: Svc): set<Sid>
    requires forall x :: x in s.retired ==> x in s.snaps
  {
    set x | x in s.retired && !s.snaps[x].closed
  }

  function Elements(l: seq<Sid>): set<Sid> {
    set x | x in l
  }

  lemma {:induction false} OnceSize(l: seq<Sid>)
    requires Once(l)
    ensures |Elements(l)| == |l|
  {
    if l != [] {
      var rest, x := l[..|l| - 1], l[|l| - 1];
      OnceSize(rest);
      assert l == rest + [x] && x !in rest;
      assert Elements(l) == Elements(rest) + {x};
    }
  }

  lemma OpenSize(s: Svc, reg: seq<Sid>)
    requires (forall x :: x in s.retired ==> x in s.snaps) && Once(reg) && InOrder(reg, s.retired)
    ensures |StillOpen(s.retired, s.snaps)| == |Open(s)|
  {
    StillOpenKeeps(s.retired, s.snaps);
    OpenInOrder(reg, s.retired, s.snaps);
    hide StillOpen, InOrder;
    var l := StillOpen(s.retired, s.snaps);
    InOrderIsOnce(reg, l);
    OnceSize(l);
    assert Open(s) == Elements(l);
  }

  // ---- Over every run --------------------------------------------------------------

  /** A reload that has swapped a snapshot out and not registered it yet. */
  predicate Holding(task: Task) {
    task.Detached? || task.RetireOld? || task.Retired? || task.Registering?
  }

  ghost predicate Unregistered(s: Svc, reg: seq<Sid>) {
    forall t :: t in s.tasks && Holding(s.tasks[t]) ==> s.tasks[t].sid !in reg
  }

  /** The list is in order of registration with the latest last, and nothing is registered twice. */
  ghost predicate ListOk(s: Svc, reg: seq<Sid>) {
    && Once(reg) && AllAway(s, reg) && Unregistered(s, reg)
    && InOrder(reg, s.retired)
    && (s.retired != [] ==> reg != [] && s.retired[|s.retired| - 1] == reg[|reg| - 1])
  }

  lemma OthersKeepAway(s: Svc, e: SvcEvent, reg: seq<Sid>)
    requires SvcInv(s) && SvcEnabled(s, e) && AllAway(s, reg)
    ensures AllAway(SvcNext(s, e), reg)
  {
    hide Inv, AllCovered, Next, Enabled, StillOpen, Acquire, StartRetire, StartForce, Finish;
    if e.Swap? {
      assert TaskOk(s, e.t, s.tasks[e.t]);
    }
  }

  lemma OthersKeepUnregistered(s: Svc, e: SvcEvent, reg: seq<Sid>)
    requires SvcInv(s) && SvcEnabled(s, e) && AllAway(s, reg) && Unregistered(s, reg)
    ensures Unregistered(SvcNext(s, e), reg)
  {
    hide Inv, AllCovered, Next, Enabled, StillOpen, Acquire, StartRetire, StartForce, Finish;
  }

  lemma OthersKeepList(s: Svc, e: SvcEvent)
    requires SvcEnabled(s, e) && !e.Register?
    ensures SvcNext(s, e).retired == s.retired || SvcNext(s, e).retired == []
  {
    hide Next, Enabled, Acquire, StartRetire, StartForce, Finish;
  }

  lemma RegisteredIsAway(s: Svc, t: Tid, f: ActorId, reg: seq<Sid>)
    requires SvcInv(s) && CanRegister(s, t, f) && AllAway(s, reg) && Unregistered(s, reg)
    ensures s.tasks[t].sid !in reg
    ensures AllAway(DoRegister(s, t, f), reg + [s.tasks[t].sid]) && Unregistered(DoRegister(s, t, f), reg + [s.tasks[t].sid])
  {
    hide StillOpen, Inv, AllCovered, StartForce;
    assert TaskOk(s, t, s.tasks[t]);
    assert forall u :: u in s.tasks && Holding(s.tasks[u]) ==> TaskOk(s, u, s.tasks[u]);
  }

  lemma ListAfter(s: Svc, t: Tid, f: ActorId)
    requires CanRegister(s, t, f)
    ensures var kept, s' := StillOpen(s.retired, s.snaps) + [s.tasks[t].sid], DoRegister(s, t, f);
            if |kept| > 8 then s'.retired == kept[1..] && s'.snaps == s.snaps[kept[0] := StartForce(s.snaps[kept[0]], f)]
            else s'.retired == kept && s'.snaps == s.snaps
  {
    hide StartForce;
  }

  lemma RegisterKeepsList(s: Svc, t: Tid, f: ActorId, reg: seq<Sid>)
    requires SvcInv(s) && CanRegister(s, t, f) && ListOk(s, reg)
    ensures ListOk(DoRegister(s, t, f), reg + [s.tasks[t].sid])
  {
    var x, open := s.tasks[t].sid, StillOpen(s.retired, s.snaps);
    OpenInOrder(reg, s.retired, s.snaps);
    hide SvcInv, DoRegister, StillOpen, InOrder, AllAway, Unregistered, StartForce, Once;
    RegisteredIsAway(s, t, f, reg);
    OnceMore(reg, x);
    MoreInOrder(reg, open, x);
    TailInOrder(reg + [x], open + [x]);
    ListAfter(s, t, f);
  }

  lemma OthersKeepListOk(s: Svc, e: SvcEvent, reg: seq<Sid>)
    requires SvcInv(s) && SvcEnabled(s, e) && ListOk(s, reg) && !e.Register?
    ensures ListOk(SvcNext(s, e), reg)
  {
    hide SvcInv, SvcNext, SvcEnabled, AllAway, Unregistered, Before;
    OthersKeepAway(s, e, reg);
    OthersKeepUnregistered(s, e, reg);
    OthersKeepList(s, e);
  }

  lemma StepKeepsListOk(s: Svc, e: SvcEvent, reg: seq<Sid>)
    requires SvcInv(s) && SvcEnabled(s, e) && ListOk(s, reg)
    ensures ListOk(SvcNext(s, e), reg + Registers(s, e))
  {
    hide SvcInv, ListOk, CanRegister, DoRegister;
    if e.Register? {
      RegisterFacts(s, e.t, e.f, reg);
      RegisterKeepsList(s, e.t, e.f, reg);
    } else {
      hide SvcNext, SvcEnabled;
      OthersKeepListOk(s, e, reg);
      assert reg + Registers(s, e) == reg;
    }
  }

  /** After every run the retired list is in order of registration, with the latest one last. */
  lemma {:induction false} ListIsInOrder(first: Sid, evs: seq<SvcEvent>)
    requires Run(Start(first), evs)
    ensures ListOk(Exec(Start(first), evs), Registered(first, evs))
    decreases |evs|
  {
    hide SvcInv, SvcNext, SvcEnabled, ListOk, Registers;
    if evs == [] {
      StartListOk(first);
    } else {
      var m := evs[..|evs| - 1];
      ListIsInOrder(first, m);
      RunInv(first, m);
      StepKeepsListOk(Exec(Start(first), m), evs[|evs| - 1], Registered(first, m));
    }
  }

  lemma StartListOk(first: Sid)
    ensures ListOk(Start(first), [])
  {
  }

  // ---- The victim ---------------------------------------------------------------------

  /** Fewer than eight open ones were listed: nothing is force-closed. */
  ghost predicate Kept(s: Svc, s': Svc, x: Sid)
    requires forall y :: y in s.retired ==> y in s.snaps
  {
    s'.snaps == s.snaps && forall y :: y in s'.retired <==> y in Open(s) || y == x
  }

  /** v makes room for x: it was registered before every snapshot still listed, and a forceClose of it starts. */
  ghost predicate Evicted(s: Svc, s': Svc, x: Sid, v: Sid, f: ActorId, reg: seq<Sid>)
    requires forall y :: y in s.retired ==> y in s.snaps
  {
    && v in Open(s) && s'.snaps == s.snaps[v := StartForce(s.snaps[v], f)]
    && (forall y :: y in s'.retired <==> (y in Open(s) && y != v) || y == x)
    && forall y :: y in s'.retired ==> Before(reg, v, y)
  }

  lemma EndsDiffer(l: seq<Sid>)
    requires Once(l) && |l| > 1
    ensures l[|l| - 1] != l[0]
  {
  }

  /** The first of the open ones was registered before all others, and the rest is what stays listed. */
  lemma FirstIsOldest(reg: seq<Sid>, open: seq<Sid>, x: Sid)
    requires Once(reg) && InOrder(reg, open) && open != [] && x !in reg
    ensures var kept := open + [x];
            && kept[0] == open[0] && open[0] in open
            && (forall y :: y in kept[1..] <==> (y in open && y != open[0]) || y == x)
            && (forall y :: y in kept[1..] ==> Before(reg + [x], open[0], y))
  {
    hide InOrder, Once, Before;
    MoreInOrder(reg, open, x);
    OnceMore(reg, x);
    InOrderIsOnce(reg + [x], open + [x]);
    TailInOrder(reg + [x], open + [x]);
    TailIs(open + [x]);
    EndsDiffer(open + [x]);
  }

  /** What a registration of x does, given what was registered before. */
  ghost predicate Registration(s: Svc, s': Svc, x: Sid, f: ActorId, reg: seq<Sid>) {
    && (forall y :: y in s.retired ==> y in s.snaps)
    && s'.retired != [] && s'.retired[|s'.retired| - 1] == x && InOrder(reg + [x], s'.retired)
    && (|Open(s)| < 8 ==> Kept(s, s', x))
    && (|Open(s)| >= 8 ==> exists v :: Evicted(s, s', x, v, f, reg + [x]))
  }

  lemma MakesRoom(s: Svc, s': Svc, x: Sid, f: ActorId, reg: seq<Sid>, open: seq<Sid>)
    requires (forall y :: y in s.retired ==> y in s.snaps) && Once(reg) && InOrder(reg, open) && x !in reg
    requires |open| == |Open(s)| && (forall y :: y in open <==> y in Open(s))
    requires if |open + [x]| > 8 then s'.retired == (open + [x])[1..] && open[0] in s.snaps && s'.snaps == s.snaps[open[0] := StartForce(s.snaps[open[0]], f)]
             else s'.retired == open + [x] && s'.snaps == s.snaps
    ensures |Open(s)| < 8 ==> Kept(s, s', x)
    ensures |Open(s)| >= 8 ==> Evicted(s, s', x, open[0], f, reg + [x])
  {
    hide Open, StartForce, Once, InOrder, Before;
    if |Open(s)| >= 8 {
      FirstIsOldest(reg, open, x);
    }
  }

  lemma OpenAre(s: Svc)
    requires forall y :: y in s.retired ==> y in s.snaps
    ensures forall y :: y in StillOpen(s.retired, s.snaps) <==> y in Open(s)
    ensures forall y :: y in StillOpen(s.retired, s.snaps) ==> y in s.snaps
  {
    StillOpenKeeps(s.retired, s.snaps);
    hide StillOpen;
  }

  lemma RegisterFacts(s: Svc, t: Tid, f: ActorId, reg: seq<Sid>)
    requires SvcInv(s) && CanRegister(s, t, f) && ListOk(s, reg)
    ensures t in s.tasks && s.tasks[t].Registering? && s.tasks[t].sid !in reg && (forall y :: y in s.retired ==> y in s.snaps)
    ensures Once(reg) && InOrder(reg, s.retired) && InOrder(reg + [s.tasks[t].sid], DoRegister(s, t, f).retired)
  {
    RegisterKeepsList(s, t, f, reg);
    hide SvcInv, DoRegister, StillOpen, InOrder, AllAway, Once;
  }

  lemma RegisterEvicts(s: Svc, t: Tid, f: ActorId, reg: seq<Sid>)
    requires SvcInv(s) && CanRegister(s, t, f) && ListOk(s, reg)
    ensures Registration(s, DoRegister(s, t, f), s.tasks[t].sid, f, reg)
  {
    hide *;
    RegisterFacts(s, t, f, reg);
    var x, s', open := s.tasks[t].sid, DoRegister(s, t, f), StillOpen(s.retired, s.snaps);
    ListAfter(s, t, f);
    OpenAre(s);
    OpenSize(s, reg);
    OpenInOrder(reg, s.retired, s.snaps);
    assert open != [] ==> open[0] in open && (open + [x])[0] == open[0];
    MakesRoom(s, s', x, f, reg, open);
    LastListed(open, x);
    RegistrationOf(s, s', x, f, reg, open);
  }

  lemma RegistrationOf(s: Svc, s': Svc, x: Sid, f: ActorId, reg: seq<Sid>, open: seq<Sid>)
    requires forall y :: y in s.retired ==> y in s.snaps
    requires s'.retired != [] && s'.retired[|s'.retired| - 1] == x && InOrder(reg + [x], s'.retired)
    requires |open| == |Open(s)| && (|Open(s)| < 8 ==> Kept(s, s', x)) && (|Open(s)| >= 8 ==> Evicted(s, s', x, open[0], f, reg + [x]))
    ensures Registration(s, s', x, f, reg)
  {
    hide InOrder, Open, Kept, Evicted;
  }

  lemma LastListed(open: seq<Sid>, x: Sid)
    ensures |open| > 0 ==> (open + [x])[1..] != [] && (open + [x])[1..][|open| - 1] == x
  {
  }

  /**
   Whenever a reload registers a snapshot: closed ones leave the list, the new one joins it last, and only if
   eight open ones were listed already is one force-closed, the one that was registered first.
   */
  lemma OldestIsEvicted(first: Sid, evs: seq<SvcEvent>, t: Tid, f: ActorId)
    requires Run(Start(first), evs) && CanRegister(Exec(Start(first), evs), t, f)
    ensures var s := Exec(Start(first), evs); Registration(s, DoRegister(s, t, f), s.tasks[t].sid, f, Registered(first, evs))
  {
    hide SvcInv, ListOk, CanRegister, DoRegister, Registration;
    ListIsInOrder(first, evs);
    RunInv(first, evs);
    RegisterEvicts(Exec(Start(first), evs), t, f, Registered(first, evs));
  }
}
