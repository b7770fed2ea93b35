/**
 The configuration reload transaction: build a candidate, reload every inbound
 listener and the metrics server in place, activate the candidate, swap it in,
 and undo each completed step when a later one fails.

 What can fail for reasons outside this model (validation, allocation, a listener
 stopped meanwhile, an unreachable nftables set) is a parameter.
 */
module Reload {
  import opened Basics

  /** What a reload compares and installs; policy stands for all that changes without a restart. */
  datatype InboundConfig = InboundConfig(tag: string, binding: int, certificates: int, routing: int, policy: int)
  datatype MetricsConfig = MetricsConfig(listen: string, policy: int)
  datatype Config = Config(inbounds: seq<Option<InboundConfig>>, metrics: Option<MetricsConfig>, control: int, nftSets: bool, observer: bool, routes: int)
  datatype Snapshot = Snapshot(revision: nat, hash: string, config: Config)

  /** The If-Match value of a request, once quotes and the weak prefix are stripped. */
  datatype Expected = Any | Revision(n: nat) | Hash(h: string)
  datatype Request = Request(config: Option<Config>, hash: string, expected: Expected)

  datatype Result =
    | Busy
    | InvalidConfig
    | Closed
    | Conflict
    | Unchanged(revision: nat)
    | Incompatible
    | NotBuilt
    | NftSetUnavailable
    | InboundsFailed(undone: bool)
    | MetricsFailed(undone: bool)
    | NotActivated(undone: bool)
    | ClosedAtSwap(undone: bool)
    | Reloaded(revision: nat)
  {
    /** A completed step could not be undone. */
    predicate Torn() {
      (InboundsFailed? || MetricsFailed? || NotActivated? || ClosedAtSwap?) && !undone
    }

    /** The candidate had been built when the reload gave up. */
    predicate AfterBuild() {
      NftSetUnavailable? || InboundsFailed? || MetricsFailed? || NotActivated? || ClosedAtSwap?
    }
  }

  function NormalListen(listen: string): string {
    if listen == "" then "127.0.0.1:9090" else listen
  }

  predicate SameIdentity(a: InboundConfig, b: InboundConfig) {
    a.tag == b.tag && a.binding == b.binding && a.certificates == b.certificates && a.routing == b.routing
  }

  /** What a reload may change without a restart. */
  predicate Compatible(current: Config, next: Config) {
    && |current.inbounds| == |next.inbounds|
    && (forall i :: 0 <= i < |current.inbounds| ==>
          current.inbounds[i].Some? && next.inbounds[i].Some? && SameIdentity(current.inbounds[i].value, next.inbounds[i].value))
    && (current.metrics.Some? <==> next.metrics.Some?)
    && (current.metrics.Some? ==> NormalListen(current.metrics.value.listen) == NormalListen(next.metrics.value.listen))
    && current.control == next.control
  }

  predicate Matches(expected: Expected, s: Snapshot) {
    match expected
    case Any => true
    case Revision(n) => n == s.revision
    case Hash(h) => h == s.hash
  }

  /** The listeners that fail, by index: on preparing, on committing, and on being put back. */
  datatype Faults = Faults(prepare: set<nat>, commit: set<nat>, undo: set<nat>)

  /** How one reload fares; closeFirst says that Close takes the lock before the swap does. */
  datatype Env = Env(built: bool, reachable: bool, metrics: bool, activates: bool, closeFirst: bool, metricsBack: bool, forward: Faults, back: Faults)

  // ---- All listeners, stated outright ------------------------------------

  type Listeners = seq<Option<InboundConfig>>

  /** A listener takes a config only for its own binding and tag. */
  predicate Accepts(running: Option<InboundConfig>, config: Option<InboundConfig>) {
    running.Some? && config.Some? && running.value.tag == config.value.tag && running.value.binding == config.value.binding
  }

  predicate Prepared(ls: Listeners, next: Listeners, f: Faults) {
    |ls| == |next| && forall k :: 0 <= k < |next| ==> Accepts(ls[k], next[k]) && k !in f.prepare
  }

  /** The first faulty index from i on, or n. */
  function FirstFault(s: set<nat>, i: nat, n: nat): (r: nat)
    requires i <= n
    ensures i <= r <= n && (r < n ==> r in s) && forall k :: i <= k < r ==> k !in s
    decreases n - i
  {
    if i == n || i in s then i else FirstFault(s, i + 1, n)
  }

  predicate Undoes(previous: Listeners, next: Listeners, f: Faults, k: nat)
    requires k < |previous| == |next|
  {
    Accepts(next[k], previous[k]) && k !in f.undo
  }

  /** The first n listeners, which run next, are put back as far as that goes; the others are left alone. */
  function RolledBack(ls: Listeners, previous: Listeners, next: Listeners, f: Faults, n: nat): (r: Listeners)
    requires n <= |ls| == |previous| == |next|
    ensures |r| == |ls|
  {
    seq(|ls|, k requires 0 <= k < |ls| => if k >= n then ls[k] else if Undoes(previous, next, f, k) then previous[k] else next[k])
  }

  datatype Inbound = Inbound(ok: bool, undone: bool, reached: nat, listeners: Listeners)

  /** reloadInbounds: prepare all, commit all, put back what was committed before a failure. */
  function Inbounds(ls: Listeners, previous: Listeners, next: Listeners, f: Faults): (r: Inbound)
    requires |previous| == |next|
    ensures |r.listeners| == |ls| && r.reached <= |ls|
  {
    if !Prepared(ls, next, f) then Inbound(false, true, 0, ls)
    else
      var i := FirstFault(f.commit, 0, |next|);
      if i == |next| then Inbound(true, true, i, next)
      else Inbound(false, forall k :: 0 <= k < i ==> Undoes(previous, next, f, k), i, RolledBack(ls, previous, next, f, i))
  }

  /** An error without a rollback error leaves the listeners it reached at previous and the others as they were. */
  lemma InboundsUndone(ls: Listeners, previous: Listeners, next: Listeners, f: Faults)
    requires |previous| == |next|
    ensures var r := Inbounds(ls, previous, next, f);
            !r.ok && r.undone ==>
              && r.reached <= |previous|
              && r.listeners == previous[..r.reached] + ls[r.reached..]
              && (r.listeners == ls <==> ls[..r.reached] == previous[..r.reached])
  {
    var r := Inbounds(ls, previous, next, f);
    if !r.ok && r.undone {
      var n := r.reached;
      assert r.listeners == previous[..n] + ls[n..];
      assert r.listeners[..n] == previous[..n];
      assert ls == ls[..n] + ls[n..];
    }
  }

  /** Even where putting back fails, a listener runs what it ran, or one of the two configs. */
  lemma InboundsBounded(ls: Listeners, previous: Listeners, next: Listeners, f: Faults, k: nat)
    requires |previous| == |next| && k < |ls|
    ensures var r := Inbounds(ls, previous, next, f).listeners;
            r[k] == ls[k] || (k < |next| && (r[k] == previous[k] || r[k] == next[k]))
  {
  }

  // ---- The transaction, stated outright ---------------------------------------

  /** The runtime as a reload sees it. */
  datatype State = State(closed: bool, current: Option<Snapshot>, listeners: Listeners, metrics: Option<MetricsConfig>, retired: seq<Snapshot>) {
    predicate Runs(config: Config) {
      listeners == config.inbounds && (metrics.Some? && config.metrics.Some? ==> metrics == config.metrics)
    }

    /** Listeners and metrics run what the current snapshot says. */
    predicate InSync() {
      current.Some? ==> Runs(current.value.config)
    }

    /** The request may replace the current snapshot. */
    predicate Replaceable(request: Request) {
      && !closed && current.Some? && request.config.Some?
      && Matches(request.expected, current.value) && request.hash != current.value.hash
      && Compatible(current.value.config, request.config.value)
    }

    function Candidate(request: Request): Snapshot
      requires Replaceable(request)
    {
      Snapshot(current.value.revision + 1, request.hash, request.config.value)
    }
  }

  predicate MetricsTake(running: Option<MetricsConfig>, config: Option<MetricsConfig>, ok: bool) {
    running.Some? && config.Some? && ok && NormalListen(config.value.listen) == NormalListen(running.value.listen)
  }

  /** Putting listeners and metrics back from one config to the other; both are attempted. */
  function Undo(st: State, from: Config, to: Config, env: Env): (bool, State)
    requires |from.inbounds| == |to.inbounds|
  {
    var b := Inbounds(st.listeners, from.inbounds, to.inbounds, env.back);
    var took := MetricsTake(st.metrics, to.metrics, env.metricsBack);
    (b.ok && (took || st.metrics.None? || to.metrics.None?), st.(listeners := b.listeners, metrics := if took then to.metrics else st.metrics))
  }

  /** From the built candidate to the point where only the swap is left. */
  function Install(st: State, cur: Config, next: Config, env: Env): (Option<Result>, State)
    requires |cur.inbounds| == |next.inbounds|
  {
    if next.nftSets && !env.reachable then (Some(NftSetUnavailable), st)
    else
      var a := Inbounds(st.listeners, cur.inbounds, next.inbounds, env.forward);
      var st1 := st.(listeners := a.listeners);
      if !a.ok then (Some(InboundsFailed(a.undone)), st1)
      else if st.metrics.Some? && next.metrics.Some? && !MetricsTake(st.metrics, next.metrics, env.metrics) then
        var b := Inbounds(st1.listeners, next.inbounds, cur.inbounds, env.back);
        (Some(MetricsFailed(b.ok)), st1.(listeners := b.listeners))
      else
        var st2 := if st.metrics.Some? && next.metrics.Some? then st1.(metrics := next.metrics) else st1;
        if next.observer && !env.activates then
          var (undone, st3) := Undo(st2, next, cur, env);
          (Some(NotActivated(undone)), st3)
        else (None, st2)
  }

  /** From the built candidate on: swapped in, or retired with the steps before the failure undone. */
  function Attempt(st: State, request: Request, env: Env): (Result, State)
    requires st.Replaceable(request)
  {
    var s, next := st.current.value, st.Candidate(request);
    var (failure, st1) := Install(st, s.config, next.config, env);
    if failure.Some? then (failure.value, st1.(retired := st.retired + [next]))
    else if env.closeFirst then
      var (undone, st2) := Undo(st1, next.config, s.config, env);
      (ClosedAtSwap(undone), st2.(closed := true, current := None, retired := st.retired + [next]))
    else (Reloaded(next.revision), st1.(current := Some(next), retired := st.retired + [s]))
  }

  /** The refusals before anything is built, in their order. */
  function Refusal(st: State, request: Request, env: Env): Option<Result> {
    if request.config.None? then Some(InvalidConfig)
    else if st.closed || st.current.None? then Some(Closed)
    else if !Matches(request.expected, st.current.value) then Some(Conflict)
    else if request.hash == st.current.value.hash then Some(Unchanged(st.current.value.revision))
    else if !Compatible(st.current.value.config, request.config.value) then Some(Incompatible)
    else if !env.built then Some(NotBuilt)
    else None
  }

  function Outcome(st: State, request: Request, env: Env): (Result, State) {
    var refusal := Refusal(st, request, env);
    if refusal.Some? then (refusal.value, st) else Attempt(st, request, env)
  }

  // ---- What it promises ---------------------------------------------------------

  /** Success needs every step to succeed, and moves everything together, one revision on. */
  lemma SuccessMovesAll(st: State, request: Request, env: Env)
    ensures var (r, after) := Outcome(st, request, env);
            r.Reloaded? ==>
              && st.Replaceable(request) && env.built && !env.closeFirst
              && (request.config.value.nftSets ==> env.reachable) && (request.config.value.observer ==> env.activates)
              && r.revision == st.current.value.revision + 1
              && after.current == Some(st.Candidate(request)) && after.Runs(request.config.value) && !after.closed
              && after.retired == st.retired + [st.current.value]
  {
    hide Inbounds, SameIdentity;
    if st.Replaceable(request) {
      InboundsInstalled(st.listeners, st.current.value.config.inbounds, request.config.value.inbounds, env.forward);
    }
  }

  lemma InboundsInstalled(ls: Listeners, previous: Listeners, next: Listeners, f: Faults)
    requires |previous| == |next|
    ensures Inbounds(ls, previous, next, f).ok ==> Inbounds(ls, previous, next, f).listeners == next
  {
  }

  /** Every listener of the first config can go over to the second without a fault. */
  predicate TakesAll(ls: Listeners, next: Listeners, f: Faults) {
    |ls| == |next| && forall k :: 0 <= k < |ls| ==> SameBinding(ls[k], next[k]) && k !in f.prepare && k !in f.commit
  }

  /** Two configs for one listener. */
  predicate SameBinding(a: Option<InboundConfig>, b: Option<InboundConfig>) {
    a.Some? && b.Some? && b.value == a.value.(certificates := b.value.certificates, routing := b.value.routing, policy := b.value.policy)
  }

  lemma InboundsOkIff(ls: Listeners, previous: Listeners, next: Listeners, f: Faults)
    requires |previous| == |next|
    ensures Inbounds(ls, previous, next, f).ok <==> TakesAll(ls, next, f)
  {
    if Prepared(ls, next, f) {
      var i := FirstFault(f.commit, 0, |next|);
    }
  }

  /** What a reload needs, in the order in which it finds out. */
  function Needs(st: State, request: Request, env: Env): (r: seq<bool>)
    ensures |r| == 11
  {
    var given := request.config.Some?;
    var open := !st.closed && st.current.Some?;
    var both := given && open;
    [given,
     open,
     both && request.expected in {Any, Revision(st.current.value.revision), Hash(st.current.value.hash)},
     both && request.hash != st.current.value.hash,
     both && Compatible(st.current.value.config, request.config.value),
     env.built,
     given && (request.config.value.nftSets ==> env.reachable),
     given && TakesAll(st.listeners, request.config.value.inbounds, env.forward),
     given && (st.metrics.Some? && request.config.value.metrics.Some? ==>
                 env.metrics && NormalListen(request.config.value.metrics.value.listen) == NormalListen(st.metrics.value.listen)),
     given && (request.config.value.observer ==> env.activates),
     !env.closeFirst]
  }

  /** Which need a result says was not met. */
  function Unmet(r: Result): nat {
    match r
    case InvalidConfig => 0
    case Closed => 1
    case Conflict => 2
    case Unchanged(_) => 3
    case Incompatible => 4
    case NotBuilt => 5
    case NftSetUnavailable => 6
    case InboundsFailed(_) => 7
    case MetricsFailed(_) => 8
    case NotActivated(_) => 9
    case ClosedAtSwap(_) => 10
    case Reloaded(_) => 11
    case Busy => 12
  }

  /** All needs before n are met, and need n, if there is one, is not. */
  ghost predicate FirstUnmet(needs: seq<bool>, n: nat) {
    && n <= |needs| && (n < |needs| ==> !needs[n])
    && forall i :: 0 <= i < n ==> needs[i]
  }

  lemma RefusalFirst(st: State, request: Request, env: Env)
    ensures var refusal, needs := Refusal(st, request, env), Needs(st, request, env);
            && (refusal.Some? ==> FirstUnmet(needs, Unmet(refusal.value)))
            && (refusal.None? ==> st.Replaceable(request) && needs[0] && needs[1] && needs[2] && needs[3] && needs[4] && needs[5])
  {
    NeedsToBuild(st, request, env);
    hide Compatible, NormalListen, TakesAll, Needs;
  }

  lemma NeedsToBuild(st: State, request: Request, env: Env)
    ensures var needs := Needs(st, request, env); var both := request.config.Some? && !st.closed && st.current.Some?;
            && needs[0] == request.config.Some? && needs[1] == (!st.closed && st.current.Some?)
            && needs[2] == (both && request.expected in {Any, Revision(st.current.value.revision), Hash(st.current.value.hash)})
            && needs[3] == (both && request.hash != st.current.value.hash)
            && needs[4] == (both && Compatible(st.current.value.config, request.config.value))
            && needs[5] == env.built
  {
    hide Matches, Compatible, NormalListen, TakesAll;
  }

  lemma NeedsToInstall(st: State, request: Request, env: Env)
    requires request.config.Some?
    ensures var needs, next := Needs(st, request, env), request.config.value;
            && needs[6] == (next.nftSets ==> env.reachable)
            && needs[7] == TakesAll(st.listeners, next.inbounds, env.forward)
            && needs[8] == (st.metrics.Some? && next.metrics.Some? ==> MetricsTake(st.metrics, next.metrics, env.metrics))
            && needs[9] == (next.observer ==> env.activates) && needs[10] == !env.closeFirst
  {
    hide Matches, Compatible, NormalListen, TakesAll;
  }

  lemma AttemptFirst(st: State, request: Request, env: Env)
    requires st.Replaceable(request)
    ensures var r, needs := Attempt(st, request, env).0, Needs(st, request, env);
            && 6 <= Unmet(r) <= 11
            && (Unmet(r) > 6 ==> needs[6]) && (Unmet(r) > 7 ==> needs[7]) && (Unmet(r) > 8 ==> needs[8])
            && (Unmet(r) > 9 ==> needs[9]) && (Unmet(r) > 10 ==> needs[10])
            && (Unmet(r) < 11 ==> !needs[Unmet(r)])
  {
    var cur, next := st.current.value.config, request.config.value;
    InboundsOkIff(st.listeners, cur.inbounds, next.inbounds, env.forward);
    assert |cur.inbounds| == |next.inbounds|;
    NeedsToInstall(st, request, env);
    hide Inbounds, TakesAll, Matches, Compatible, Undo, NormalListen, Needs, MetricsTake;
  }

  /** The result names the first need that is not met. */
  lemma ResultIsFirstUnmet(st: State, request: Request, env: Env)
    ensures var r := Outcome(st, request, env).0;
            && FirstUnmet(Needs(st, request, env), Unmet(r))
            && (r.Unchanged? ==> st.current.Some? && r.revision == st.current.value.revision)
  {
    RefusalFirst(st, request, env);
    if Refusal(st, request, env).None? {
      AttemptFirst(st, request, env);
      hide Needs, Attempt, Refusal, Compatible, Matches;
    } else {
      hide Needs, Attempt, FirstUnmet, Compatible, Matches;
    }
  }

  /** So a reload succeeds exactly if every need is met. */
  lemma SuccessIff(st: State, request: Request, env: Env)
    ensures Outcome(st, request, env).0.Reloaded? <==> forall i :: 0 <= i < 11 ==> Needs(st, request, env)[i]
  {
    ResultIsFirstUnmet(st, request, env);
    hide Outcome, Needs;
  }

  lemma InboundsUndoneIff(ls: Listeners, previous: Listeners, next: Listeners, f: Faults)
    requires |previous| == |next|
    ensures var r := Inbounds(ls, previous, next, f);
            && (!r.ok && !Prepared(ls, next, f) ==> r.undone && r.reached == 0)
            && (!r.ok && Prepared(ls, next, f) ==>
                  && r.reached < |next| && r.reached in f.commit && (forall k :: 0 <= k < r.reached ==> k !in f.commit)
                  && (r.undone <==> forall k :: 0 <= k < r.reached ==> Accepts(next[k], previous[k]) && k !in f.undo))
  {
    var r := Inbounds(ls, previous, next, f);
    if !r.ok && Prepared(ls, next, f) {
      assert forall k :: 0 <= k < r.reached ==> (Undoes(previous, next, f, k) <==> Accepts(next[k], previous[k]) && k !in f.undo);
    }
  }

  /** Whether what had been done before the failure was undone: what each undo needs. */
  ghost predicate UndoneAsNeeded(st: State, request: Request, env: Env, r: Result)
    requires st.Replaceable(request)
  {
    var cur, next := st.current.value.config, request.config.value;
    && (r.InboundsFailed? ==> r.undone == Inbounds(st.listeners, cur.inbounds, next.inbounds, env.forward).undone)
    && (r.MetricsFailed? ==> (r.undone <==> TakesAll(next.inbounds, cur.inbounds, env.back)))
    && (r.NotActivated? || r.ClosedAtSwap? ==>
          (r.undone <==> TakesAll(next.inbounds, cur.inbounds, env.back) && (st.metrics.Some? && cur.metrics.Some? ==> env.metricsBack)))
  }

  lemma UndoneIff(st: State, request: Request, env: Env)
    requires st.Replaceable(request)
    ensures UndoneAsNeeded(st, request, env, Outcome(st, request, env).0)
  {
    var cur, next := st.current.value.config, request.config.value;
    InboundsInstalled(st.listeners, cur.inbounds, next.inbounds, env.forward);
    InboundsOkIff(next.inbounds, next.inbounds, cur.inbounds, env.back);
    assert |cur.inbounds| == |next.inbounds|;
    hide Inbounds, TakesAll, SameIdentity, Matches;
  }

  /** How many listeners a failed reload has moved and put back. */
  function Touched(st: State, request: Request, r: Result, env: Env): nat
    requires r.AfterBuild() ==> st.Replaceable(request)
  {
    if r.InboundsFailed? then Inbounds(st.listeners, st.current.value.config.inbounds, request.config.value.inbounds, env.forward).reached
    else if r.MetricsFailed? || r.NotActivated? || r.ClosedAtSwap? then |st.listeners|
    else 0
  }

  predicate MetricsTouched(st: State, request: Request, r: Result) {
    (r.NotActivated? || r.ClosedAtSwap?) && st.metrics.Some? && request.config.Some? && request.config.value.metrics.Some?
  }

  /** What a failed reload moved is where the current snapshot says; all else is as it was. */
  ghost predicate PutBack(st: State, request: Request, r: Result, env: Env, after: State)
    requires r.AfterBuild() ==> st.Replaceable(request)
  {
    var n := Touched(st, request, r, env);
    && (n > 0 ==> n <= |st.listeners| == |st.current.value.config.inbounds|)
    && (n == 0 ==> after.listeners == st.listeners)
    && (n > 0 ==> after.listeners == st.current.value.config.inbounds[..n] + st.listeners[n..])
    && after.metrics == if MetricsTouched(st, request, r) then st.current.value.config.metrics else st.metrics
  }

  /** A failed reload that could undo its steps, whichever step failed and whatever the listeners ran before. */
  lemma FailurePutsBack(st: State, request: Request, env: Env)
    ensures var (r, after) := Outcome(st, request, env);
            && (r.AfterBuild() ==> st.Replaceable(request) && after.retired == st.retired + [st.Candidate(request)])
            && (!r.AfterBuild() && !r.Reloaded? ==> after == st)
            && (!r.Reloaded? && !r.ClosedAtSwap? ==> after.current == st.current && after.closed == st.closed)
            && (r.ClosedAtSwap? ==> env.closeFirst && after.closed && after.current.None?)
            && (!r.Reloaded? && !r.Torn() ==> PutBack(st, request, r, env, after))
  {
    if Refusal(st, request, env).None? {
      AttemptPutsBack(st, request, env);
    }
  }

  lemma AttemptFrame(st: State, request: Request, env: Env)
    requires st.Replaceable(request)
    ensures var (r, after) := Attempt(st, request, env);
            && (r.AfterBuild() || r.Reloaded?)
            && (r.AfterBuild() ==> after.retired == st.retired + [st.Candidate(request)])
            && (!r.Reloaded? && !r.ClosedAtSwap? ==> after.current == st.current && after.closed == st.closed)
            && (r.ClosedAtSwap? ==> env.closeFirst && after.closed && after.current.None?)
  {
    hide Inbounds, SameIdentity, Matches, MetricsTake;
  }

  /** An undo that works leaves listeners and metrics where it aims. */
  lemma UndoneIs(st: State, from: Config, to: Config, env: Env)
    requires |from.inbounds| == |to.inbounds| && Undo(st, from, to, env).0
    ensures var (_, after) := Undo(st, from, to, env);
            after.listeners == to.inbounds && after.metrics == if st.metrics.Some? && to.metrics.Some? then to.metrics else st.metrics
  {
    InboundsInstalled(st.listeners, from.inbounds, to.inbounds, env.back);
    hide Inbounds, MetricsTake;
  }

  lemma AllPutBack(st: State, request: Request, r: Result, env: Env, after: State)
    requires st.Replaceable(request) && (r.MetricsFailed? || r.NotActivated? || r.ClosedAtSwap?)
    requires |st.listeners| == |st.current.value.config.inbounds| && after.listeners == st.current.value.config.inbounds
    requires after.metrics == if MetricsTouched(st, request, r) then st.current.value.config.metrics else st.metrics
    ensures PutBack(st, request, r, env, after)
  {
    hide Matches, SameIdentity;
    var c := st.current.value.config.inbounds;
    assert c[..|c|] == c && st.listeners[|st.listeners|..] == [];
  }

  /** The listeners took next; what follows either works or is undone. */
  lemma InstallPutsBack(st: State, request: Request, env: Env)
    requires st.Replaceable(request)
    ensures var (f, after) := Install(st, st.current.value.config, request.config.value, env);
            && (f.Some? ==> f.value.AfterBuild())
            && (f.Some? && !f.value.Torn() ==> PutBack(st, request, f.value, env, after))
            && (f.None? ==> |after.listeners| == |st.listeners| == |st.current.value.config.inbounds| && (after.metrics.Some? <==> st.metrics.Some?))
            && (f.None? && (st.metrics.None? || request.config.value.metrics.None?) ==> after.metrics == st.metrics)
  {
    var cur, next := st.current.value.config, request.config.value;
    var (f, after) := Install(st, cur, next, env);
    var a := Inbounds(st.listeners, cur.inbounds, next.inbounds, env.forward);
    assert cur.metrics.Some? <==> next.metrics.Some?;
    InboundsUndone(st.listeners, cur.inbounds, next.inbounds, env.forward);
    InboundsInstalled(st.listeners, cur.inbounds, next.inbounds, env.forward);
    hide Inbounds, SameIdentity, Matches, MetricsTake, Undo;
    if f.Some? && !f.value.Torn() {
      if f.value.MetricsFailed? {
        InboundsInstalled(a.listeners, next.inbounds, cur.inbounds, env.back);
        AllPutBack(st, request, f.value, env, after);
      } else if f.value.NotActivated? {
        var st2 := st.(listeners := a.listeners, metrics := if st.metrics.Some? && next.metrics.Some? then next.metrics else st.metrics);
        UndoneIs(st2, next, cur, env);
        AllPutBack(st, request, f.value, env, after);
      }
    }
  }

  lemma AttemptPutsBack(st: State, request: Request, env: Env)
    requires st.Replaceable(request)
    ensures var (r, after) := Attempt(st, request, env);
            && (r.AfterBuild() || r.Reloaded?)
            && (r.AfterBuild() ==> after.retired == st.retired + [st.Candidate(request)])
            && (!r.Reloaded? && !r.ClosedAtSwap? ==> after.current == st.current && after.closed == st.closed)
            && (r.ClosedAtSwap? ==> env.closeFirst && after.closed && after.current.None?)
            && (!r.Reloaded? && !r.Torn() ==> PutBack(st, request, r, env, after))
  {
    AttemptFrame(st, request, env);
    InstallPutsBack(st, request, env);
    var cur, next := st.current.value.config, request.config.value;
    var (f, st1) := Install(st, cur, next, env);
    var (r, after) := Attempt(st, request, env);
    assert cur.metrics.Some? <==> next.metrics.Some?;
    hide Install, SameIdentity, Matches, Undo, Touched;
    if r.ClosedAtSwap? && r.undone {
      UndoneIs(st1, next, cur, env);
      AllPutBack(st, request, r, env, after);
    }
  }

  /** Listeners and metrics are as before exactly if the ones it moved already ran what the current snapshot says. */
  lemma UnchangedIff(st: State, request: Request, env: Env)
    ensures var (r, after) := Outcome(st, request, env);
            !r.Reloaded? && !r.Torn() ==>
              && (r.AfterBuild() ==> st.Replaceable(request))
              && var n := Touched(st, request, r, env);
                 && (n > 0 ==> n <= |st.listeners| == |st.current.value.config.inbounds|)
                 && (after.listeners == st.listeners <==> n == 0 || st.listeners[..n] == st.current.value.config.inbounds[..n])
                 && (after.metrics == st.metrics <==> !MetricsTouched(st, request, r) || st.metrics == st.current.value.config.metrics)
  {
    FailurePutsBack(st, request, env);
    var (r, after) := Outcome(st, request, env);
    hide Outcome;
    if !r.Reloaded? && !r.Torn() {
      var n := Touched(st, request, r, env);
      hide Touched;
      if n > 0 {
        var c := st.current.value.config.inbounds;
        assert after.listeners[..n] == c[..n];
        assert st.listeners == st.listeners[..n] + st.listeners[n..];
      }
    }
  }

  /** Where the runtime ran what its snapshot says, a reload moves everything or nothing, and it does so again afterwards. */
  lemma StaysInSync(st: State, request: Request, env: Env)
    requires st.InSync() && !Outcome(st, request, env).0.Torn()
    ensures var (r, after) := Outcome(st, request, env);
            && after.InSync()
            && (r.Reloaded? || (after.listeners == st.listeners && after.metrics == st.metrics))
  {
    UnchangedIff(st, request, env);
    FailurePutsBack(st, request, env);
    SuccessMovesAll(st, request, env);
    hide Outcome, Touched;
  }

  /** Every listener and the metrics run what they ran, what the current snapshot says, or what was asked for, also after a torn reload. */
  lemma NothingElseRuns(st: State, request: Request, env: Env, k: nat)
    requires k < |st.listeners| && st.Replaceable(request)
    ensures var (r, after) := Outcome(st, request, env); var cur, next := st.current.value.config, request.config.value;
            && |after.listeners| == |st.listeners|
            && (after.listeners[k] == st.listeners[k] ||
                (k < |cur.inbounds| == |next.inbounds| && (after.listeners[k] == cur.inbounds[k] || after.listeners[k] == next.inbounds[k])))
            && (after.metrics == st.metrics || after.metrics == cur.metrics || after.metrics == next.metrics)
  {
    var cur, next := st.current.value.config, request.config.value;
    var a := Inbounds(st.listeners, cur.inbounds, next.inbounds, env.forward);
    InboundsBounded(st.listeners, cur.inbounds, next.inbounds, env.forward, k);
    InboundsBounded(a.listeners, next.inbounds, cur.inbounds, env.back, k);
    hide Inbounds, Compatible, Matches, NormalListen;
  }

  /** Whatever a reload does, also one that could not be undone, no listener changes its tag or binding. */
  lemma NeverRebinds(st: State, request: Request, env: Env, k: nat)
    requires k < |st.listeners| && st.listeners[k].Some?
    ensures var after := Outcome(st, request, env).1.listeners; k < |after| && SameBinding(st.listeners[k], after[k])
  {
    if Refusal(st, request, env).None? {
      var cur, next := st.current.value.config, request.config.value;
      var a := Inbounds(st.listeners, cur.inbounds, next.inbounds, env.forward);
      InboundsNeverRebind(st.listeners, cur.inbounds, next.inbounds, env.forward, k);
      InboundsNeverRebind(a.listeners, next.inbounds, cur.inbounds, env.back, k);
      hide Inbounds, Compatible, Matches, NormalListen, MetricsTake;
    }
  }

  lemma InboundsNeverRebind(ls: Listeners, previous: Listeners, next: Listeners, f: Faults, k: nat)
    requires |previous| == |next| && k < |ls| && ls[k].Some?
    ensures SameBinding(ls[k], Inbounds(ls, previous, next, f).listeners[k])
  {
    assert SameBinding(ls[k], ls[k]);
    if Prepared(ls, next, f) {
      assert Accepts(ls[k], next[k]);
    }
  }

  /** What a reload may not change: everything but the policies, the nftables sets, the observer and the routes. */
  function Frozen(c: Config): (Listeners, Option<string>, int) {
    (seq(|c.inbounds|, k requires 0 <= k < |c.inbounds| => if c.inbounds[k].Some? then Some(c.inbounds[k].value.(policy := 0)) else None),
     if c.metrics.Some? then Some(if c.metrics.value.listen == "" then "127.0.0.1:9090" else c.metrics.value.listen) else None,
     c.control)
  }

  lemma CompatibleIff(cur: Config, next: Config)
    ensures Compatible(cur, next) <==> Frozen(cur) == Frozen(next) && forall k :: 0 <= k < |cur.inbounds| ==> cur.inbounds[k].Some?
  {
    var a, b := Frozen(cur).0, Frozen(next).0;
    if Compatible(cur, next) {
      assert a == b;
    } else if Frozen(cur) == Frozen(next) {
      assert |cur.inbounds| == |a| == |b| == |next.inbounds|;
      forall k | 0 <= k < |a| && cur.inbounds[k].Some?
        ensures next.inbounds[k].Some? && SameIdentity(cur.inbounds[k].value, next.inbounds[k].value)
      {
        assert a[k] == b[k];
        assert a[k].value == cur.inbounds[k].value.(policy := 0) && b[k].value == next.inbounds[k].value.(policy := 0);
        assert a[k].value.tag == b[k].value.tag && a[k].value.binding == b[k].value.binding;
        assert a[k].value.certificates == b[k].value.certificates && a[k].value.routing == b[k].value.routing;
      }
    }
  }

  const NO_FAULTS := Faults({}, {}, {})

  /** Every failure that is undone leaves listeners and metrics as they were. */
  ghost predicate UndoIsExact(st: State, request: Request) {
    forall env :: var (r, after) := Outcome(st, request, env);
      !r.Reloaded? && !r.Torn() ==> after.listeners == st.listeners && after.metrics == st.metrics
  }

  /** For a request that the runtime could carry out, that is so exactly if the runtime runs what its current snapshot says. */
  lemma UndoIsExactIff(st: State, request: Request)
    requires st.Replaceable(request) && Prepared(st.listeners, request.config.value.inbounds, NO_FAULTS)
    requires st.metrics.Some? && request.config.value.metrics.Some? ==> MetricsTake(st.metrics, request.config.value.metrics, true)
    ensures UndoIsExact(st, request) <==> st.InSync()
  {
    if st.InSync() {
      forall env | !Outcome(st, request, env).0.Reloaded? && !Outcome(st, request, env).0.Torn()
        ensures Outcome(st, request, env).1.listeners == st.listeners && Outcome(st, request, env).1.metrics == st.metrics
      {
        StaysInSync(st, request, env);
      }
    } else {
      ClosingShows(st, request);
    }
  }

  /** A fault-free reload that Close overtakes puts everything where the current snapshot says. */
  lemma ClosingShows(st: State, request: Request)
    requires st.Replaceable(request) && Prepared(st.listeners, request.config.value.inbounds, NO_FAULTS)
    requires st.metrics.Some? && request.config.value.metrics.Some? ==> MetricsTake(st.metrics, request.config.value.metrics, true)
    ensures UndoIsExact(st, request) ==> st.InSync()
  {
    var env := Env(true, true, true, true, true, true, NO_FAULTS, NO_FAULTS);
    var cur, next := st.current.value.config, request.config.value;
    assert Prepared(next.inbounds, cur.inbounds, NO_FAULTS);
    var a := Inbounds(st.listeners, cur.inbounds, next.inbounds, NO_FAULTS);
    assert a.ok && a.listeners == next.inbounds;
    assert Inbounds(next.inbounds, next.inbounds, cur.inbounds, NO_FAULTS).ok;
    InboundsInstalled(next.inbounds, next.inbounds, cur.inbounds, NO_FAULTS);
    var (r, after) := Outcome(st, request, env);
    assert r == ClosedAtSwap(true) && after.listeners == cur.inbounds;
  }

  /** A stale If-Match cannot succeed and builds nothing. */
  lemma StaleRequestFails(st: State, request: Request, env: Env)
    requires st.current.Some? && !Matches(request.expected, st.current.value)
    ensures var (r, after) := Outcome(st, request, env); !r.Reloaded? && !r.AfterBuild() && after == st
  {
  }

  // ---- A torn reload shows later ---------------------------------------------------

  function Inb(policy: int): Option<InboundConfig> {
    Some(InboundConfig("in", 1, 0, 0, policy))
  }

  function TwoInbounds(policy: int): Config {
    Config([Inb(policy), Inb(policy)], None, 0, false, true, 0)
  }

  /** Two listeners that run what the current snapshot says. */
  function Synced(): State {
    State(false, Some(Snapshot(1, "a", TwoInbounds(1))), [Inb(1), Inb(1)], None, [])
  }

  /** The candidate is not activated, and preparing the first listener for being put back fails. */
  function TornEnv(): Env {
    Env(true, true, true, false, false, true, NO_FAULTS, Faults({0}, {}, {}))
  }

  /** The second listener's commit fails; what was committed before is put back. */
  function UndoneEnv(): Env {
    Env(true, true, true, true, false, true, Faults({}, {1}, {}), NO_FAULTS)
  }

  /** The torn reload leaves the runtime out of sync. */
  lemma TornReload()
    ensures Outcome(Synced(), Request(Some(TwoInbounds(9)), "b", Any), TornEnv()) ==
            (NotActivated(false), Synced().(listeners := [Inb(9), Inb(9)], retired := [Snapshot(2, "b", TwoInbounds(9))]))
  {
    var st, next := Synced(), TwoInbounds(9);
    var cur := st.current.value.config;
    assert Prepared(st.listeners, next.inbounds, NO_FAULTS);
    assert FirstFault(NO_FAULTS.commit, 0, 2) == 2;
    assert Inbounds(st.listeners, cur.inbounds, next.inbounds, NO_FAULTS) == Inbound(true, true, 2, next.inbounds);
    assert 0 in TornEnv().back.prepare;
    assert Inbounds(next.inbounds, next.inbounds, cur.inbounds, TornEnv().back) == Inbound(false, true, 0, next.inbounds);
    hide Inbounds;
    assert Refusal(st, Request(Some(next), "b", Any), TornEnv()).None?;
    assert st.retired + [Snapshot(2, "b", next)] == [Snapshot(2, "b", next)];
    assert Undo(st.(listeners := next.inbounds), next, cur, TornEnv()) == (false, st.(listeners := next.inbounds));
  }

  /**
   From a runtime in sync: after a reload whose undo failed, the next one fails and is undone without
   error, and yet the first listener does not run what it ran.
   */
  lemma FailedReloadMovesAListener()
    ensures var st := Synced();
            var (r1, torn) := Outcome(st, Request(Some(TwoInbounds(9)), "b", Any), TornEnv());
            var (r2, after) := Outcome(torn, Request(Some(TwoInbounds(2)), "c", Any), UndoneEnv());
            && st.InSync() && r1.Torn() && !torn.InSync()
            && r2 == InboundsFailed(true) && !r2.Torn()
            && torn.listeners == [Inb(9), Inb(9)] && after.listeners == [Inb(1), Inb(9)]
  {
    TornReload();
    var torn, next, f := Outcome(Synced(), Request(Some(TwoInbounds(9)), "b", Any), TornEnv()).1, TwoInbounds(2), UndoneEnv().forward;
    var cur := torn.current.value.config;
    assert Prepared(torn.listeners, next.inbounds, f);
    assert FirstFault(f.commit, 0, 2) == 1;
    assert Undoes(cur.inbounds, next.inbounds, f, 0);
    var a := Inbounds(torn.listeners, cur.inbounds, next.inbounds, f);
    assert !a.ok && a.undone && a.listeners == [Inb(1), Inb(9)];
  }

  // ---- The runtime object -------------------------------------------------------------

  function Leased(leases: multiset<Snapshot>, s: Snapshot): multiset<Snapshot> {
    leases + multiset{s}
  }

  function Unleased(leases: multiset<Snapshot>, s: Snapshot): multiset<Snapshot> {
    leases - multiset{s}
  }

  lemma GivenBack(leases: multiset<Snapshot>, s: Snapshot)
    ensures s in Leased(leases, s) && Unleased(Leased(leases, s), s) == leases
  {
  }

  /** The first i listeners committed. */
  function Partly(before: Listeners, next: Listeners, i: nat): Listeners
    requires i <= |before| == |next|
  {
    next[..i] + before[i..]
  }

  lemma PartlyNext(before: Listeners, next: Listeners, i: nat)
    requires i <= |before| == |next|
    ensures |Partly(before, next, i)| == |next| && Partly(before, next, 0) == before && Partly(before, next, |next|) == next
    ensures i < |next| ==> Partly(before, next, i)[i] == before[i] && Partly(before, next, i)[i := next[i]] == Partly(before, next, i + 1)
  {
  }

  lemma PreparedAt(ls: Listeners, next: Listeners, f: Faults, i: nat)
    requires Prepared(ls, next, f) && i < |next|
    ensures |ls| == |next| && Accepts(ls[i], next[i])
  {
  }

  lemma FaultNext(s: set<nat>, i: nat, n: nat)
    requires i <= n
    ensures FirstFault(s, i, n) == if i == n || i in s then i else FirstFault(s, i + 1, n)
  {
  }

  class Runtime {
    var closed: bool
    var busy: bool
    var current: Option<Snapshot>
    var listeners: Listeners                   // what each registered listener runs with
    var metrics: Option<MetricsConfig>         // what the metrics server runs with, if there is one
    var leases: multiset<Snapshot>
    var retired: seq<Snapshot>                 // snapshots a reload has retired, oldest first

    ghost function Abs(): State
      reads this`closed, this`current, this`listeners, this`metrics, this`retired
    {
      State(closed, current, listeners, metrics, retired)
    }

    /** PrepareReload of one listener. */
    method PrepareReload(i: nat, config: Option<InboundConfig>, faulty: bool) returns (ok: bool)
      requires i < |listeners|
      ensures ok <==> Accepts(listeners[i], config) && !faulty
    {
      ok := Accepts(listeners[i], config) && !faulty;
    }

    /** The prepared commit of one listener: it publishes the config or changes nothing. */
    method Commit(i: nat, config: Option<InboundConfig>, faulty: bool) returns (ok: bool)
      requires i < |listeners|
      modifies this`listeners
      ensures ok <==> Accepts(old(listeners[i]), config) && !faulty
      ensures listeners == if ok then old(listeners)[i := config] else old(listeners)
    {
      ok := Accepts(listeners[i], config) && !faulty;
      if ok {
        listeners := listeners[i := config];
      }
    }

    method ReloadListener(i: nat, config: Option<InboundConfig>, faulty: bool) returns (ok: bool)
      requires i < |listeners|
      modifies this`listeners
      ensures ok <==> Accepts(old(listeners[i]), config) && !faulty
      ensures listeners == if ok then old(listeners)[i := config] else old(listeners)
    {
      ok := PrepareReload(i, config, faulty);
      if ok {
        ok := Commit(i, config, false);
      }
    }

    method ReloadMetrics(config: MetricsConfig, works: bool) returns (ok: bool)
      requires metrics.Some?
      modifies this`metrics
      ensures ok <==> MetricsTake(old(metrics), Some(config), works)
      ensures metrics == if ok then Some(config) else old(metrics)
    {
      ok := works && NormalListen(config.listen) == NormalListen(metrics.value.listen);
      if ok {
        metrics := Some(config);
      }
    }

    /** Puts the first n listeners back; every one is attempted even after a failure. */
    method RollBack(ghost before: Listeners, previous: Listeners, ghost next: Listeners, f: Faults, n: nat) returns (undone: bool)
      requires n <= |listeners| == |before| == |previous| == |next|
      requires listeners == Partly(before, next, n)
      modifies this`listeners
      ensures listeners == RolledBack(before, previous, next, f, n)
      ensures undone <==> forall k :: 0 <= k < n ==> Undoes(previous, next, f, k)
    {
      undone := true;
      ghost var goal := RolledBack(before, previous, next, f, n);
      for k := 0 to n
        invariant |listeners| == |before|
        invariant forall i :: 0 <= i < k ==> listeners[i] == goal[i]
        invariant forall i :: k <= i < |before| ==> listeners[i] == if i < n then next[i] else before[i]
        invariant undone <==> forall i :: 0 <= i < k ==> Undoes(previous, next, f, i)
      {
        var ok := ReloadListener(k, previous[k], k in f.undo);
        undone := undone && ok;
      }
      assert listeners == goal;
    }

    method PrepareAll(next: Listeners, f: Faults) returns (ok: bool)
      ensures ok <==> Prepared(listeners, next, f)
    {
      if |listeners| != |next| {
        return false;
      }
      for i := 0 to |next|
        invariant forall k :: 0 <= k < i ==> Accepts(listeners[k], next[k]) && k !in f.prepare
      {
        var prepared := PrepareReload(i, next[i], i in f.prepare);
        if !prepared {
          return false;
        }
      }
      return true;
    }

    /** Commits from the first listener on; i is the one that fails, if any does. */
    method CommitAll(next: Listeners, f: Faults) returns (i: nat)
      requires Prepared(listeners, next, f)
      modifies this`listeners
      ensures i == FirstFault(f.commit, 0, |next|) && |old(listeners)| == |next|
      ensures listeners == Partly(old(listeners), next, i)
    {
      assert |listeners| == |next|;
      hide *;
      ghost var before := listeners;
      PartlyNext(before, next, 0);
      for k := 0 to |next|
        invariant listeners == Partly(before, next, k)
        invariant FirstFault(f.commit, 0, |next|) == FirstFault(f.commit, k, |next|)
      {
        PartlyNext(before, next, k);
        FaultNext(f.commit, k, |next|);
        PreparedAt(before, next, f, k);
        var committed := Commit(k, next[k], k in f.commit);
        if !committed {
          return k;
        }
      }
      FaultNext(f.commit, |next|, |next|);
      return |next|;
    }

    method ReloadInbounds(previous: Listeners, next: Listeners, f: Faults) returns (ok: bool, undone: bool)
      requires |previous| == |next|
      modifies this`listeners
      ensures var r := Inbounds(old(listeners), previous, next, f); (ok, undone, listeners) == (r.ok, r.undone, r.listeners)
    {
      var prepared := PrepareAll(next, f);
      if !prepared {
        return false, true;
      }
      var i := CommitAll(next, f);
      hide Prepared, RolledBack, FirstFault;
      PartlyNext(old(listeners), next, i);
      if i == |next| {
        return true, true;
      }
      undone := RollBack(old(listeners), previous, next, f, i);
      ok := false;
    }

    /** Puts listeners and metrics back to what the current snapshot says. */
    method Compensate(from: Config, to: Config, env: Env) returns (undone: bool)
      requires |from.inbounds| == |to.inbounds|
      modifies this`listeners, this`metrics
      ensures (undone, Abs()) == Undo(old(Abs()), from, to, env)
    {
      var ok, _ := ReloadInbounds(from.inbounds, to.inbounds, env.back);
      hide Inbounds;
      undone := ok;
      if metrics.Some? && to.metrics.Some? {
        ok := ReloadMetrics(to.metrics.value, env.metricsBack);
        undone := undone && ok;
      }
    }

    method Release(s: Snapshot)
      requires s in leases
      modifies this`leases
      ensures leases == Unleased(old(leases), s)
    {
      leases := leases - multiset{s};
    }

    method Retire(s: Snapshot)
      modifies this`retired
      ensures retired == old(retired) + [s]
    {
      retired := retired + [s];
    }

    /** acquire: a lease on the current snapshot. */
    method Acquire() returns (s: Option<Snapshot>)
      modifies this`leases
      ensures s == if closed then None else current
      ensures leases == if s.Some? then Leased(old(leases), s.value) else old(leases)
    {
      if closed || current.None? {
        return None;
      }
      leases := leases + multiset{current.value};
      return current;
    }

    /** The checks a request has to pass, and building the candidate. */
    method Build(request: Request, s: Snapshot, env: Env) returns (refusal: Option<Result>)
      requires !closed && current == Some(s) && request.config.Some?
      ensures refusal == Refusal(Abs(), request, env)
    {
      if !Matches(request.expected, s) {
        return Some(Conflict);
      }
      if request.hash == s.hash {
        return Some(Unchanged(s.revision));
      }
      if !Compatible(s.config, request.config.value) {
        return Some(Incompatible);
      }
      return if env.built then None else Some(NotBuilt);
    }

    /** Probe, inbounds, metrics and activation; each failure undoes the steps before it. */
    method InstallAll(cur: Config, next: Config, env: Env) returns (failure: Option<Result>)
      requires |cur.inbounds| == |next.inbounds|
      modifies this`listeners, this`metrics
      ensures (failure, Abs()) == Install(old(Abs()), cur, next, env)
    {
      hide Inbounds, Undo;
      if next.nftSets {
        if !env.reachable {
          return Some(NftSetUnavailable);
        }
      }
      var ok, undone := ReloadInbounds(cur.inbounds, next.inbounds, env.forward);
      if !ok {
        return Some(InboundsFailed(undone));
      }
      if metrics.Some? && next.metrics.Some? {
        ok := ReloadMetrics(next.metrics.value, env.metrics);
        if !ok {
          var back, _ := ReloadInbounds(next.inbounds, cur.inbounds, env.back);
          return Some(MetricsFailed(back));
        }
      }
      if next.observer {
        if !env.activates {
          undone := Compensate(next, cur, env);
          return Some(NotActivated(undone));
        }
      }
      return None;
    }

    /** Reload: one at a time, the lease given back on every path, and the outcome as stated. */
    method Reload(request: Request, env: Env) returns (r: Result)
      modifies this
      ensures busy == old(busy) && leases == old(leases)
      ensures if old(busy) then r == Busy && Abs() == old(Abs()) else (r, Abs()) == Outcome(old(Abs()), request, env)
    {
      hide *;
      if busy {
        return Busy;
      }
      busy := true;
      r := ReloadLocked(request, env);
      busy := false;
    }

    method ReloadLocked(request: Request, env: Env) returns (r: Result)
      modifies this`closed, this`current, this`listeners, this`metrics, this`leases, this`retired
      ensures leases == old(leases) && (r, Abs()) == Outcome(old(Abs()), request, env)
    {
      hide Compatible, Matches, Leased, Unleased, Attempt;
      if request.config.None? {
        return InvalidConfig;
      }
      var lease := Acquire();
      if lease.None? {
        return Closed;
      }
      var s := lease.value;
      GivenBack(old(leases), s);
      var refusal := Build(request, s, env);
      if refusal.Some? {
        Release(s);
        return refusal.value;
      }
      r := AttemptBuilt(request, env);
      Release(s);
    }

    /** From the built candidate on. */
    method AttemptBuilt(request: Request, env: Env) returns (r: Result)
      requires Abs().Replaceable(request)
      modifies this`closed, this`current, this`listeners, this`metrics, this`retired
      ensures (r, Abs()) == Attempt(old(Abs()), request, env)
    {
      var s := current.value;
      var next := Snapshot(s.revision + 1, request.hash, request.config.value);
      hide Install, Undo, SameIdentity, Matches;
      var failure := InstallAll(s.config, next.config, env);
      if failure.Some? {
        Retire(next);
        return failure.value;
      }
      if env.closeFirst {
        closed, current := true, None;
      }
      if closed {
        var undone := Compensate(next.config, s.config, env);
        Retire(next);
        return ClosedAtSwap(undone);
      }
      current := Some(next);
      Retire(s);
      return Reloaded(next.revision);
    }

    /** Over any number of requests, until Close comes, the revision counts the successful ones; nothing drifts as long as every undo works. */
    method ReloadAll(requests: seq<Request>, envs: seq<Env>) returns (results: seq<Result>)
      requires |envs| == |requests| && !closed && current.Some? && !busy
      modifies this
      ensures |results| == |requests|
      ensures old(Abs()).InSync() ==> Abs().InSync() || exists i :: 0 <= i < |results| && results[i].Torn()
      ensures !closed ==> current.Some? && current.value.revision == old(current).value.revision + Successes(results)
      ensures closed ==> exists i :: 0 <= i < |results| && results[i].ClosedAtSwap?
      ensures leases == old(leases) && !busy
    {
      results := [];
      ghost var torn := false;
      hide Outcome;
      for i := 0 to |requests|
        invariant |results| == i && !busy && leases == old(leases)
        invariant torn <==> exists k :: 0 <= k < i && results[k].Torn()
        invariant old(Abs()).InSync() && !torn ==> Abs().InSync()
        invariant !closed ==> current.Some? && current.value.revision == old(current).value.revision + Successes(results)
        invariant closed ==> exists k :: 0 <= k < i && results[k].ClosedAtSwap?
      {
        ghost var before, st := results, Abs();
        var r := Reload(requests[i], envs[i]);
        FailurePutsBack(st, requests[i], envs[i]);
        SuccessMovesAll(st, requests[i], envs[i]);
        if st.InSync() && !r.Torn() {
          StaysInSync(st, requests[i], envs[i]);
        }
        assert (results + [r])[..i] == results;
        torn := torn || r.Torn();
        results := results + [r];
        assert results[i] == r && forall k :: 0 <= k < i ==> results[k] == before[k];
      }
    }
  }

  function Successes(results: seq<Result>): nat {
    if results == [] then 0
    else Successes(results[..|results| - 1]) + if results[|results| - 1].Reloaded? then 1 else 0
  }
}
