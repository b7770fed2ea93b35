/**
 With limits that are not patient a source can spend its burst, be forgotten
 while its bucket is still filling, and spend a full burst again.
 */
module RateOverrun {
  import opened RateLimit

  const A := Addr(0)
  const C := Addr(1)

  /** A spends a burst at 0; at t, C asks until the next check is a sweep; then A spends another burst. */
  function Rush(burst: nat, wait: nat, t: real): seq<Query> {
    seq(burst + wait + burst, i => if i < burst then Query(A, 0.0) else if i < burst + wait then Query(C, t) else Query(A, t))
  }

  ghost predicate OnlyTwo(clients: Buckets) {
    forall ip :: ip in clients ==> ip == A || ip == C
  }

  /** Two sources always find room for two. */
  lemma RoomForTwo(lim: Limits, maxClients: nat, s: Limiter, q: Query)
    requires maxClients >= 2 && OnlyTwo(s.clients) && (q.ip == A || q.ip == C)
    ensures var seen := Seen(s.clients, s.checks + 1, maxClients, q.ip, q.now);
            && OnlyTwo(seen) && OnlyTwo(Check(lim, maxClients, s, q).1.clients)
            && Check(lim, maxClients, s, q) == (Ask(lim, seen, q.ip, q.now).0, Limiter(Ask(lim, seen, q.ip, q.now).1, s.checks + 1))
  {
    var seen := Seen(s.clients, s.checks + 1, maxClients, q.ip, q.now);
    if q.ip !in seen {
      Subset(seen.Keys, if q.ip == A then {C} else {A});
      assert |seen.Keys| == |seen|;
    }
  }

  lemma LevelNow(lim: Limits, b: Bucket)
    requires b.tokens <= lim.burst
    ensures Level(lim, b, b.lastSeen) == b.tokens
  {
    RefillAdds(lim, 0.0, 0.0);
    assert b.lastSeen - b.lastSeen == 0.0;
  }

  /** A has n of its burst left, last taken at time t. */
  ghost predicate Left(clients: Buckets, n: nat, t: real) {
    A in clients && clients[A] == Bucket(n as real, t)
  }

  lemma SpendOne(lim: Limits, maxClients: nat, s: Limiter, n: nat, t: real)
    requires maxClients >= 2 && OnlyTwo(s.clients) && (n + 1) as real <= lim.burst && Left(s.clients, n + 1, t)
    ensures var (ok, s') := Check(lim, maxClients, s, Query(A, t));
            ok && OnlyTwo(s'.clients) && Left(s'.clients, n, t) && s'.checks == s.checks + 1
            && (forall ip :: ip != A && ip in s'.clients ==> ip in s.clients && s'.clients[ip] == s.clients[ip])
  {
    RoomForTwo(lim, maxClients, s, Query(A, t));
    LevelNow(lim, s.clients[A]);
  }

  lemma SpendFirst(lim: Limits, maxClients: nat, s: Limiter, n: nat, t: real)
    requires maxClients >= 2 && OnlyTwo(s.clients) && lim.burst == (n + 1) as real
    requires A !in Seen(s.clients, s.checks + 1, maxClients, A, t)
    ensures var (ok, s') := Check(lim, maxClients, s, Query(A, t));
            ok && OnlyTwo(s'.clients) && Left(s'.clients, n, t) && s'.checks == s.checks + 1
  {
    RoomForTwo(lim, maxClients, s, Query(A, t));
  }

  /** The first burst. */
  lemma {:induction false} FirstBurst(lim: Limits, maxClients: nat, burst: nat, wait: nat, t: real, n: nat)
    requires maxClients >= 2 && lim.burst == burst as real && n <= burst
    ensures var queries := Rush(burst, wait, t); var s := After(lim, maxClients, queries, n);
            && s.checks == n && OnlyTwo(s.clients) && (n == 0 ==> s.clients == map[])
            && (n > 0 ==> Left(s.clients, burst - n, 0.0) && Decision(lim, maxClients, queries, n - 1))
  {
    hide Check;
    if n > 0 {
      var queries := Rush(burst, wait, t);
      FirstBurst(lim, maxClients, burst, wait, t, n - 1);
      var s := After(lim, maxClients, queries, n - 1);
      assert queries[n - 1] == Query(A, 0.0);
      if n == 1 {
        SpendFirst(lim, maxClients, s, burst - 1, 0.0);
      } else {
        SpendOne(lim, maxClients, s, burst - n, 0.0);
      }
    }
  }

  /** Up to the sweep A is left alone. */
  lemma {:induction false} Waiting(lim: Limits, maxClients: nat, burst: nat, wait: nat, t: real, n: nat)
    requires maxClients >= 2 && lim.burst == burst as real && burst >= 1 && n <= wait && t >= 0.0
    requires forall k :: burst < k <= burst + wait ==> k % SWEEP_INTERVAL != 0
    ensures var queries := Rush(burst, wait, t); var s := After(lim, maxClients, queries, burst + n);
            s.checks == burst + n && OnlyTwo(s.clients) && Left(s.clients, 0, 0.0)
  {
    hide Check;
    if n == 0 {
      FirstBurst(lim, maxClients, burst, wait, t, burst);
    } else {
      var queries := Rush(burst, wait, t);
      Waiting(lim, maxClients, burst, wait, t, n - 1);
      var s := After(lim, maxClients, queries, burst + n - 1);
      assert queries[burst + n - 1] == Query(C, t);
      AskOther(lim, maxClients, s, t);
    }
  }

  lemma AskOther(lim: Limits, maxClients: nat, s: Limiter, t: real)
    requires maxClients >= 2 && OnlyTwo(s.clients) && Left(s.clients, 0, 0.0) && (s.checks + 1) % SWEEP_INTERVAL != 0
    ensures var s' := Check(lim, maxClients, s, Query(C, t)).1;
            OnlyTwo(s'.clients) && Left(s'.clients, 0, 0.0) && s'.checks == s.checks + 1
  {
    RoomForTwo(lim, maxClients, s, Query(C, t));
    if C !in s.clients {
      Subset(s.clients.Keys, {A});
      assert |s.clients.Keys| == |s.clients|;
    }
  }

  /** The second burst. */
  lemma {:induction false} SecondBurst(lim: Limits, maxClients: nat, burst: nat, wait: nat, t: real, n: nat)
    requires maxClients >= 2 && lim.burst == burst as real && burst >= 1 && 1 <= n <= burst && t > IDLE_RETENTION
    requires (forall k :: burst < k <= burst + wait ==> k % SWEEP_INTERVAL != 0) && (burst + wait + 1) % SWEEP_INTERVAL == 0
    ensures var queries := Rush(burst, wait, t); var s := After(lim, maxClients, queries, burst + wait + n);
            && OnlyTwo(s.clients) && Left(s.clients, burst - n, t) && Decision(lim, maxClients, queries, burst + wait + n - 1)
  {
    hide Check;
    var queries := Rush(burst, wait, t);
    var m := burst + wait + n - 1;
    var s := After(lim, maxClients, queries, m);
    assert queries[m] == Query(A, t);
    if n == 1 {
      Waiting(lim, maxClients, burst, wait, t, wait);
      assert A !in Seen(s.clients, s.checks + 1, maxClients, A, t);
      SpendFirst(lim, maxClients, s, burst - 1, t);
    } else {
      SecondBurst(lim, maxClients, burst, wait, t, n - 1);
      SpendOne(lim, maxClients, s, burst - n, t);
    }
  }

  lemma {:induction false} AllAdmitted(queries: seq<Query>, oks: seq<bool>, i: nat, j: nat)
    requires i <= j <= |queries| <= |oks| && forall k :: i <= k < j ==> oks[k] && queries[k].ip == A
    ensures Admitted(queries, oks, A, i, j) == (j - i) as real
  {
    if i < j {
      AllAdmitted(queries, oks, i, j - 1);
    }
  }

  lemma {:induction false} AdmittedSplits(queries: seq<Query>, oks: seq<bool>, ip: Addr, i: nat, m: nat, j: nat)
    requires i <= m <= j <= |queries| <= |oks|
    ensures Admitted(queries, oks, ip, i, j) == Admitted(queries, oks, ip, i, m) + Admitted(queries, oks, ip, m, j)
    ensures Admitted(queries, oks, ip, m, j) >= 0.0
  {
    if m < j {
      AdmittedSplits(queries, oks, ip, i, m, j - 1);
    }
  }

  lemma BothBursts(lim: Limits, maxClients: nat, burst: nat, wait: nat, t: real)
    requires maxClients >= 2 && lim.burst == burst as real && burst >= 1 && t > IDLE_RETENTION
    requires (forall k :: burst < k <= burst + wait ==> k % SWEEP_INTERVAL != 0) && (burst + wait + 1) % SWEEP_INTERVAL == 0
    ensures var queries := Rush(burst, wait, t);
            Admitted(queries, Decisions(lim, maxClients, queries), A, 0, |queries|) >= 2.0 * lim.burst
  {
    var queries := Rush(burst, wait, t);
    var oks := Decisions(lim, maxClients, queries);
    hide Decision, After, Left, Admitted;
    forall k | 0 <= k < burst
      ensures oks[k]
    {
      FirstBurst(lim, maxClients, burst, wait, t, k + 1);
    }
    forall k | burst + wait <= k < burst + wait + burst
      ensures oks[k]
    {
      SecondBurst(lim, maxClients, burst, wait, t, k - burst - wait + 1);
    }
    AllAdmitted(queries, oks, 0, burst);
    AllAdmitted(queries, oks, burst + wait, |queries|);
    AdmittedSplits(queries, oks, A, 0, burst, burst + wait);
    AdmittedSplits(queries, oks, A, 0, burst + wait, |queries|);
  }

  /** Without patience some run of a new limiter breaks the window bound. */
  lemma Overrun(lim: Limits, maxClients: nat, burst: nat) returns (queries: seq<Query>)
    requires lim.Valid() && !lim.Patient() && lim.burst == burst as real && maxClients >= 2
    ensures |queries| > 0 && InTime(queries)
    ensures Admitted(queries, Decisions(lim, maxClients, queries), A, 0, |queries|) >
            lim.burst + Refill(lim, queries[|queries| - 1].now - queries[0].now)
  {
    var t := StillFilling(lim);
    var wait := (SWEEP_INTERVAL - 1) - burst % SWEEP_INTERVAL;
    Quiet(burst, wait);
    queries := Rush(burst, wait, t);
    BothBursts(lim, maxClients, burst, wait, t);
    hide Decisions, Admitted, Refill;
    assert queries[0].now == 0.0 && queries[|queries| - 1].now == t;
    assert t - 0.0 == t;
  }

  lemma Quiet(burst: nat, wait: nat)
    requires wait == (SWEEP_INTERVAL - 1) - burst % SWEEP_INTERVAL
    ensures (burst + wait + 1) % SWEEP_INTERVAL == 0
    ensures forall k :: burst < k <= burst + wait ==> k % SWEEP_INTERVAL != 0
  {
    var d := burst / SWEEP_INTERVAL;
    assert burst + wait + 1 == (d + 1) * SWEEP_INTERVAL;
    forall k | burst < k <= burst + wait
      ensures k % SWEEP_INTERVAL != 0
    {
      assert d * SWEEP_INTERVAL < k < (d + 1) * SWEEP_INTERVAL;
    }
  }
}
