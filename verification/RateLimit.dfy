/**
 The token buckets of the DNS inbound: one per source address, kept for a
 bounded number of sources that are forgotten when idle, and one for all
 queries. Tokens and seconds are real numbers.
 */
module RateLimit {
  import opened Basics

  datatype Addr = Addr(bits: int)

  const IDLE_RETENTION: real := 300.0
  const SWEEP_INTERVAL := 256

  datatype Limits = Limits(rate: real, burst: real) {
    ghost predicate Valid() {
      rate > 0.0 && burst >= 1.0
    }

    /** An empty bucket fills up within the time after which a source is forgotten. */
    predicate Patient() {
      burst <= IDLE_RETENTION * rate
    }
  }
  datatype Bucket = Bucket(tokens: real, lastSeen: real)

  // ---- A bucket ------------------------------------------------------------

  /** The tokens that come in over a time. */
  function Refill(lim: Limits, d: real): real {
    d * lim.rate
  }

  function Level(lim: Limits, b: Bucket, now: real): real {
    var tokens := b.tokens + Refill(lim, now - b.lastSeen);
    if tokens > lim.burst then lim.burst else tokens
  }

  function Take(level: real, now: real): (bool, Bucket) {
    if level < 1.0 then (false, Bucket(level, now)) else (true, Bucket(level - 1.0, now))
  }

  /** A bucket that was last filled at some time up to now. */
  ghost predicate Sound(lim: Limits, b: Bucket, now: real) {
    0.0 <= b.tokens <= lim.burst && b.lastSeen <= now
  }

  lemma RefillAdds(lim: Limits, a: real, b: real)
    ensures Refill(lim, a) + Refill(lim, b) == Refill(lim, a + b)
    ensures Refill(lim, 0.0) == 0.0
  {
  }

  lemma RefillGrows(lim: Limits, d: real)
    requires lim.Valid() && d >= 0.0
    ensures Refill(lim, d) >= 0.0
  {
  }

  /** Filling up in two steps is filling up in one, except that the limit may bite in between. */
  lemma LevelGrows(lim: Limits, b: Bucket, s: real, t: real)
    requires lim.Valid() && Sound(lim, b, s) && s <= t
    ensures 0.0 <= Level(lim, b, s) <= Level(lim, b, t) <= Level(lim, b, s) + Refill(lim, t - s)
    ensures Level(lim, b, t) <= lim.burst
    ensures Level(lim, Bucket(Level(lim, b, s), s), t) == Level(lim, b, t)
  {
    hide Refill;
    RefillGrows(lim, s - b.lastSeen);
    RefillGrows(lim, t - s);
    RefillAdds(lim, t - s, s - b.lastSeen);
    assert (t - s) + (s - b.lastSeen) == t - b.lastSeen;
  }

  // ---- The limiter that never forgets -----------------------------------

  type Buckets = map<Addr, Bucket>

  /** A source without a bucket has a full one. */
  function LevelOf(lim: Limits, m: Buckets, ip: Addr, now: real): real {
    if ip in m then Level(lim, m[ip], now) else lim.burst
  }

  function Ask(lim: Limits, m: Buckets, ip: Addr, now: real): (bool, Buckets) {
    var (ok, b) := Take(LevelOf(lim, m, ip, now), now);
    (ok, m[ip := b])
  }

  ghost predicate AllSound(lim: Limits, m: Buckets, now: real) {
    forall ip :: ip in m ==> Sound(lim, m[ip], now)
  }

  lemma LevelOfGrows(lim: Limits, m: Buckets, ip: Addr, s: real, t: real)
    requires lim.Valid() && AllSound(lim, m, s) && s <= t
    ensures 0.0 <= LevelOf(lim, m, ip, s) <= LevelOf(lim, m, ip, t) <= LevelOf(lim, m, ip, s) + Refill(lim, t - s)
    ensures LevelOf(lim, m, ip, t) <= lim.burst
  {
    hide Refill;
    RefillGrows(lim, t - s);
    if ip in m {
      LevelGrows(lim, m[ip], s, t);
    }
  }

  lemma AskSound(lim: Limits, m: Buckets, ip: Addr, now: real)
    requires lim.Valid() && AllSound(lim, m, now)
    ensures AllSound(lim, Ask(lim, m, ip, now).1, now)
  {
    LevelOfGrows(lim, m, ip, now, now);
  }

  /** A query spends one token of its own source when it is admitted and none otherwise. */
  lemma AskSpends(lim: Limits, m: Buckets, ip: Addr, now: real, other: Addr)
    requires lim.Valid() && AllSound(lim, m, now)
    ensures LevelOf(lim, Ask(lim, m, ip, now).1, other, now) ==
            LevelOf(lim, m, other, now) - if other == ip && Ask(lim, m, ip, now).0 then 1.0 else 0.0
  {
    LevelOfGrows(lim, m, ip, now, now);
    hide Refill;
    RefillAdds(lim, 0.0, 0.0);
    assert Ask(lim, m, ip, now).1[ip].lastSeen - now == 0.0;
  }

  // ---- The window bound ----------------------------------------------------

  datatype Query = Query(ip: Addr, now: real)

  ghost predicate InTime(queries: seq<Query>) {
    forall i, j :: 0 <= i < j < |queries| ==> queries[i].now <= queries[j].now
  }

  /** How many of the queries i to j - 1 of a source were admitted. */
  function Admitted(queries: seq<Query>, oks: seq<bool>, ip: Addr, i: nat, j: nat): real
    requires i <= j <= |queries| <= |oks|
  {
    if i == j then 0.0
    else Admitted(queries, oks, ip, i, j - 1) + if oks[j - 1] && queries[j - 1].ip == ip then 1.0 else 0.0
  }

  ghost predicate Answers(lim: Limits, q: Query, ok: bool, capped: bool, before: Buckets, after: Buckets) {
    if capped then !ok && after == before else (ok, after) == Ask(lim, before, q.ip, q.now)
  }

  /** The decisions are those of the limiter that never forgets, on the queries that reach it; the others are refused. */
  ghost predicate Follows(lim: Limits, queries: seq<Query>, oks: seq<bool>, capped: seq<bool>, states: seq<Buckets>) {
    && |oks| == |capped| == |queries| && |states| == |queries| + 1
    && forall k, h :: 0 <= k < |queries| && h == k + 1 ==> Answers(lim, queries[k], oks[k], capped[k], states[k], states[h])
  }

  lemma {:induction false} RunSound(lim: Limits, queries: seq<Query>, oks: seq<bool>, capped: seq<bool>, states: seq<Buckets>, k: nat)
    requires lim.Valid() && InTime(queries) && Follows(lim, queries, oks, capped, states) && states[0] == map[] && k < |queries|
    ensures AllSound(lim, states[k], queries[k].now) && AllSound(lim, states[k + 1], queries[k].now)
  {
    if k > 0 {
      RunSound(lim, queries, oks, capped, states, k - 1);
      assert queries[k - 1].now <= queries[k].now;
    }
    AskSound(lim, states[k], queries[k].ip, queries[k].now);
    var h := k + 1;
    assert Answers(lim, queries[k], oks[k], capped[k], states[k], states[h]);
  }

  lemma {:induction false} Spent(lim: Limits, queries: seq<Query>, oks: seq<bool>, capped: seq<bool>, states: seq<Buckets>, ip: Addr, i: nat, j: nat)
    requires lim.Valid() && InTime(queries) && Follows(lim, queries, oks, capped, states) && states[0] == map[] && i < j <= |queries|
    ensures Admitted(queries, oks, ip, i, j) + LevelOf(lim, states[j], ip, queries[j - 1].now) <=
            LevelOf(lim, states[i], ip, queries[i].now) + Refill(lim, queries[j - 1].now - queries[i].now)
  {
    hide Refill, Level, LevelOf, Ask, AllSound;
    var k := j - 1;
    RunSound(lim, queries, oks, capped, states, k);
    AskSpends(lim, states[k], queries[k].ip, queries[k].now, ip);
    assert Answers(lim, queries[k], oks[k], capped[k], states[k], states[j]);
    if i < k {
      Spent(lim, queries, oks, capped, states, ip, i, k);
      RunSound(lim, queries, oks, capped, states, k - 1);
      LevelOfGrows(lim, states[k], ip, queries[k - 1].now, queries[k].now);
      RefillAdds(lim, queries[k].now - queries[k - 1].now, queries[k - 1].now - queries[i].now);
      assert (queries[k].now - queries[k - 1].now) + (queries[k - 1].now - queries[i].now) == queries[k].now - queries[i].now;
    } else {
      RefillAdds(lim, 0.0, 0.0);
    }
  }

  /** In any stretch of queries no source is admitted more often than its burst plus what the rate refills meanwhile. */
  lemma WindowBound(lim: Limits, queries: seq<Query>, oks: seq<bool>, capped: seq<bool>, states: seq<Buckets>, ip: Addr, i: nat, j: nat)
    requires lim.Valid() && InTime(queries) && Follows(lim, queries, oks, capped, states) && states[0] == map[] && i < j <= |queries|
    ensures Admitted(queries, oks, ip, i, j) <= lim.burst + Refill(lim, queries[j - 1].now - queries[i].now)
  {
    Spent(lim, queries, oks, capped, states, ip, i, j);
    RunSound(lim, queries, oks, capped, states, i);
    RunSound(lim, queries, oks, capped, states, j - 1);
    LevelOfGrows(lim, states[i], ip, queries[i].now, queries[i].now);
    LevelOfGrows(lim, states[j], ip, queries[j - 1].now, queries[j - 1].now);
  }

  // ---- Forgetting ---------------------------------------------------------

  ghost predicate Full(lim: Limits, b: Bucket, now: real) {
    Level(lim, b, now) == lim.burst
  }

  /** Forgetting an idle source gives it nothing, whatever its bucket held, exactly if the limits are patient. */
  lemma ForgettingIsInvisibleIff(lim: Limits)
    requires lim.Valid()
    ensures lim.Patient() <==> forall b, now :: Sound(lim, b, now) && b.lastSeen < now - IDLE_RETENTION ==> Full(lim, b, now)
  {
    if lim.Patient() {
      forall b, now | Sound(lim, b, now) && b.lastSeen < now - IDLE_RETENTION
        ensures Full(lim, b, now)
      {
        IdleIsFull(lim, b, now);
      }
    } else {
      var now := StillFilling(lim);
      assert !Full(lim, Bucket(0.0, 0.0), now);
    }
  }

  lemma IdleIsFull(lim: Limits, b: Bucket, now: real)
    requires lim.Valid() && lim.Patient() && Sound(lim, b, now) && b.lastSeen < now - IDLE_RETENTION
    ensures Full(lim, b, now)
  {
    RefillAdds(lim, IDLE_RETENTION, now - b.lastSeen - IDLE_RETENTION);
    RefillGrows(lim, now - b.lastSeen - IDLE_RETENTION);
    assert IDLE_RETENTION + (now - b.lastSeen - IDLE_RETENTION) == now - b.lastSeen;
  }

  lemma StillFilling(lim: Limits) returns (now: real)
    requires lim.Valid() && !lim.Patient()
    ensures Sound(lim, Bucket(0.0, 0.0), now) && now > IDLE_RETENTION && Level(lim, Bucket(0.0, 0.0), now) < lim.burst
  {
    var gap := lim.burst - IDLE_RETENTION * lim.rate;
    var extra := gap / (2.0 * lim.rate);
    now := IDLE_RETENTION + extra;
    assert extra * lim.rate == gap / 2.0;
    assert now * lim.rate == IDLE_RETENTION * lim.rate + gap / 2.0;
    assert now - 0.0 == now;
  }

  /** What is kept is kept exactly, and what is forgotten would be full again. */
  ghost predicate Refines(lim: Limits, clients: Buckets, ideal: Buckets, now: real) {
    && AllSound(lim, ideal, now)
    && (forall ip :: ip in clients ==> ip in ideal && clients[ip] == ideal[ip])
    && (forall ip :: ip in ideal && ip !in clients ==> Full(lim, ideal[ip], now))
  }

  lemma RefinesLater(lim: Limits, clients: Buckets, ideal: Buckets, s: real, t: real)
    requires lim.Valid() && Refines(lim, clients, ideal, s) && s <= t
    ensures Refines(lim, clients, ideal, t)
  {
    forall ip | ip in ideal && ip !in clients
      ensures Full(lim, ideal[ip], t)
    {
      LevelGrows(lim, ideal[ip], s, t);
    }
  }

  function Kept(clients: Buckets, now: real): Buckets {
    map ip | ip in clients && clients[ip].lastSeen >= now - IDLE_RETENTION :: clients[ip]
  }

  lemma SweepRefines(lim: Limits, clients: Buckets, ideal: Buckets, now: real)
    requires lim.Valid() && lim.Patient() && Refines(lim, clients, ideal, now)
    ensures Refines(lim, Kept(clients, now), ideal, now)
  {
    forall ip | ip in ideal && ip !in Kept(clients, now)
      ensures Full(lim, ideal[ip], now)
    {
      if ip in clients {
        IdleIsFull(lim, ideal[ip], now);
      }
    }
  }

  /** Both limiters see the same level, and an answered query leaves both with the same bucket. */
  lemma AskRefines(lim: Limits, clients: Buckets, ideal: Buckets, ip: Addr, now: real)
    requires lim.Valid() && Refines(lim, clients, ideal, now)
    ensures LevelOf(lim, clients, ip, now) == LevelOf(lim, ideal, ip, now)
    ensures Ask(lim, clients, ip, now).0 == Ask(lim, ideal, ip, now).0
    ensures Refines(lim, Ask(lim, clients, ip, now).1, Ask(lim, ideal, ip, now).1, now)
  {
    hide Level;
    AskSound(lim, ideal, ip, now);
  }

  // ---- The limiters as they are kept --------------------------------------

  lemma KeptSize(clients: Buckets, now: real)
    ensures |Kept(clients, now)| <= |clients|
  {
    assert Kept(clients, now).Keys <= clients.Keys;
    Subset(Kept(clients, now).Keys, clients.Keys);
    assert |Kept(clients, now).Keys| == |Kept(clients, now)| && |clients.Keys| == |clients|;
  }

  lemma {:induction false} Subset(a: set<Addr>, b: set<Addr>)
    requires a <= b
    ensures |a| <= |b|
  {
    if |a| > 0 {
      var x :| x in a;
      Subset(a - {x}, b - {x});
    }
  }

  lemma AddSize(clients: Buckets, ip: Addr, b: Bucket)
    ensures |clients[ip := b]| == if ip in clients then |clients| else |clients| + 1
  {
    assert clients[ip := b].Keys == clients.Keys + {ip};
    assert |clients[ip := b].Keys| == |clients[ip := b]| && |clients.Keys| == |clients|;
  }

  /** The clients a check sees: without the idle ones at every 256th check, and whenever a new source finds no room. */
  function Seen(clients: Buckets, checks: nat, maxClients: nat, ip: Addr, now: real): Buckets {
    if checks % 256 == 0 || (ip !in clients && |clients| >= maxClients) then Kept(clients, now) else clients
  }

  /** A new source finds no room even so. */
  predicate Capped(clients: Buckets, checks: nat, maxClients: nat, ip: Addr, now: real) {
    var seen := Seen(clients, checks, maxClients, ip, now);
    ip !in seen && |seen| >= maxClients
  }

  /** With patient limits a check decides as the limiter that never forgets would, unless the source finds no room. */
  lemma CheckRefines(lim: Limits, clients: Buckets, ideal: Buckets, checks: nat, maxClients: nat, ip: Addr, now: real)
    requires lim.Valid() && lim.Patient() && Refines(lim, clients, ideal, now)
    ensures var seen := Seen(clients, checks, maxClients, ip, now);
            && Refines(lim, seen, ideal, now)
            && Ask(lim, seen, ip, now).0 == Ask(lim, ideal, ip, now).0
            && Refines(lim, Ask(lim, seen, ip, now).1, Ask(lim, ideal, ip, now).1, now)
  {
    SweepRefines(lim, clients, ideal, now);
    AskRefines(lim, Seen(clients, checks, maxClients, ip, now), ideal, ip, now);
  }

  /** A source that finds no room meets maxClients others, all seen within the retention time. */
  lemma NoRoomIff(clients: Buckets, checks: nat, maxClients: nat, ip: Addr, now: real)
    requires |clients| <= maxClients
    ensures Capped(clients, checks, maxClients, ip, now) <==>
            ip !in Kept(clients, now) && |Kept(clients, now)| >= maxClients
  {
    KeptSize(clients, now);
    if |Kept(clients, now)| >= maxClients {
      SameSize(Kept(clients, now).Keys, clients.Keys);
      assert |Kept(clients, now).Keys| == |Kept(clients, now)| && |clients.Keys| == |clients|;
    }
  }

  lemma SameSize(a: set<Addr>, b: set<Addr>)
    requires a <= b && |b| <= |a|
    ensures a == b
  {
    if x :| x in b && x !in a {
      Subset(a, b - {x});
    }
  }

  class SourceLimiter {
    const lim: Limits
    const maxClients: nat
    var clients: Buckets
    var checks: nat

    constructor (lim: Limits, maxClients: nat)
      ensures this.lim == lim && this.maxClients == maxClients && clients == map[] && checks == 0
    {
      this.lim, this.maxClients := lim, maxClients;
      clients, checks := map[], 0;
    }

    method RemoveIdle(now: real)
      modifies this`clients
      ensures clients == Kept(old(clients), now)
    {
      var todo := clients.Keys;
      while |todo| > 0
        invariant todo <= old(clients).Keys
        invariant clients == map ip | ip in old(clients) && (ip in todo || old(clients)[ip].lastSeen >= now - IDLE_RETENTION) :: old(clients)[ip]
        decreases |todo|
      {
        var ip :| ip in todo;
        if clients[ip].lastSeen < now - IDLE_RETENTION {
          clients := clients - {ip};
        }
        todo := todo - {ip};
      }
    }

    method Allow(ip: Addr, now: real) returns (ok: bool)
      requires |clients| <= maxClients
      modifies this
      ensures |clients| <= maxClients && checks == old(checks) + 1
      ensures var seen := Seen(old(clients), checks, maxClients, ip, now);
              if Capped(old(clients), checks, maxClients, ip, now) then !ok && clients == seen
              else (ok, clients) == Ask(lim, seen, ip, now)
    {
      checks := checks + 1;
      KeptSize(clients, now);
      if checks % SWEEP_INTERVAL == 0 {
        RemoveIdle(now);
      }
      if ip !in clients && |clients| >= maxClients {
        KeptTwice(old(clients), now);
        RemoveIdle(now);
        if |clients| >= maxClients {
          return false;
        }
      }
      var entry;
      if ip !in clients {
        entry := Bucket(lim.burst, now);
      } else {
        entry := clients[ip];
        entry := entry.(tokens := entry.tokens + Refill(lim, now - entry.lastSeen));
        if entry.tokens > lim.burst {
          entry := entry.(tokens := lim.burst);
        }
        entry := entry.(lastSeen := now);
      }
      if entry.tokens < 1.0 {
        AddSize(clients, ip, entry);
        clients := clients[ip := entry];
        return false;
      }
      entry := entry.(tokens := entry.tokens - 1.0);
      AddSize(clients, ip, entry);
      clients := clients[ip := entry];
      return true;
    }
  }

  /** The limiter on all queries together: one bucket, full until the first query. */
  class GlobalLimiter {
    const lim: Limits
    var tokens: real
    var lastSeen: Option<real>

    /** The bucket is the only one of a limiter that never forgets. */
    ghost predicate Is(ideal: Buckets, all: Addr)
      reads this
    {
      match lastSeen
      case None => tokens == lim.burst && ideal == map[]
      case Some(t) => ideal == map[all := Bucket(tokens, t)]
    }

    constructor (lim: Limits)
      ensures this.lim == lim && lastSeen == None && tokens == lim.burst
    {
      this.lim, tokens, lastSeen := lim, lim.burst, None;
    }

    method Allow(now: real, ghost ideal: Buckets, ghost all: Addr) returns (ok: bool)
      requires Is(ideal, all)
      modifies this
      ensures ok == Ask(lim, ideal, all, now).0 && Is(Ask(lim, ideal, all, now).1, all)
    {
      if lastSeen.None? {
        lastSeen := Some(now);
      } else {
        tokens := tokens + Refill(lim, now - lastSeen.value);
        if tokens > lim.burst {
          tokens := lim.burst;
        }
        lastSeen := Some(now);
      }
      if tokens < 1.0 {
        return false;
      }
      tokens := tokens - 1.0;
      return true;
    }
  }

  // ---- Runs of the limiter --------------------------------------------------

  datatype Limiter = Limiter(clients: Buckets, checks: nat)

  /** One check, as Allow makes it. */
  function Check(lim: Limits, maxClients: nat, s: Limiter, q: Query): (bool, Limiter) {
    var checks := s.checks + 1;
    var seen := Seen(s.clients, checks, maxClients, q.ip, q.now);
    if Capped(s.clients, checks, maxClients, q.ip, q.now) then (false, Limiter(seen, checks))
    else
      var (ok, clients) := Ask(lim, seen, q.ip, q.now);
      (ok, Limiter(clients, checks))
  }

  /** A new limiter after its first n queries. */
  function After(lim: Limits, maxClients: nat, queries: seq<Query>, n: nat): Limiter
    requires n <= |queries|
  {
    if n == 0 then Limiter(map[], 0) else Check(lim, maxClients, After(lim, maxClients, queries, n - 1), queries[n - 1]).1
  }

  function Decision(lim: Limits, maxClients: nat, queries: seq<Query>, n: nat): bool
    requires n < |queries|
  {
    Check(lim, maxClients, After(lim, maxClients, queries, n), queries[n]).0
  }

  function Decisions(lim: Limits, maxClients: nat, queries: seq<Query>): (r: seq<bool>)
    ensures |r| == |queries|
  {
    seq(|queries|, n requires 0 <= n < |queries| => Decision(lim, maxClients, queries, n))
  }

  /** What the limiter that never forgets has seen of the first n queries. */
  ghost function Ideal(lim: Limits, maxClients: nat, queries: seq<Query>, n: nat): Buckets
    requires n <= |queries|
  {
    if n == 0 then map[]
    else
      var before, q := Ideal(lim, maxClients, queries, n - 1), queries[n - 1];
      if CappedAt(lim, maxClients, queries, n - 1) then before else Ask(lim, before, q.ip, q.now).1
  }

  ghost predicate CappedAt(lim: Limits, maxClients: nat, queries: seq<Query>, n: nat)
    requires n < |queries|
  {
    var s := After(lim, maxClients, queries, n);
    Capped(s.clients, s.checks + 1, maxClients, queries[n].ip, queries[n].now)
  }

  lemma KeptSound(lim: Limits, clients: Buckets, checks: nat, maxClients: nat, ip: Addr, s: real, t: real)
    requires AllSound(lim, clients, s) && s <= t
    ensures AllSound(lim, Seen(clients, checks, maxClients, ip, t), t)
  {
  }

  /** Every bucket a run keeps is between empty and full, whether or not the limits are patient. */
  lemma {:induction false} TableSound(lim: Limits, maxClients: nat, queries: seq<Query>, n: nat)
    requires lim.Valid() && InTime(queries) && n < |queries|
    ensures AllSound(lim, After(lim, maxClients, queries, n).clients, queries[n].now)
    ensures AllSound(lim, After(lim, maxClients, queries, n + 1).clients, queries[n].now)
  {
    hide Seen, Capped, Ask;
    var s, q := After(lim, maxClients, queries, n), queries[n];
    if n > 0 {
      TableSound(lim, maxClients, queries, n - 1);
      assert queries[n - 1].now <= q.now;
    }
    KeptSound(lim, s.clients, s.checks + 1, maxClients, q.ip, q.now, q.now);
    AskSound(lim, Seen(s.clients, s.checks + 1, maxClients, q.ip, q.now), q.ip, q.now);
  }

  lemma {:induction false} RunRefines(lim: Limits, maxClients: nat, queries: seq<Query>, n: nat)
    requires lim.Valid() && lim.Patient() && InTime(queries) && n < |queries|
    ensures Refines(lim, After(lim, maxClients, queries, n).clients, Ideal(lim, maxClients, queries, n), queries[n].now)
  {
    hide Refines, Seen, Capped, Ask;
    if n == 0 {
      NothingSeen(lim, queries[0].now);
    } else {
      RunRefines(lim, maxClients, queries, n - 1);
      var s, q := After(lim, maxClients, queries, n - 1), queries[n - 1];
      CheckRefines(lim, s.clients, Ideal(lim, maxClients, queries, n - 1), s.checks + 1, maxClients, q.ip, q.now);
      RefinesLater(lim, After(lim, maxClients, queries, n).clients, Ideal(lim, maxClients, queries, n), q.now, queries[n].now);
    }
  }

  lemma NothingSeen(lim: Limits, now: real)
    ensures Refines(lim, map[], map[], now)
  {
  }

  /** Each decision is that of the limiter that never forgets, or a refusal for want of room. */
  lemma RunAnswers(lim: Limits, maxClients: nat, queries: seq<Query>, n: nat)
    requires lim.Valid() && lim.Patient() && InTime(queries) && n < |queries|
    ensures Answers(lim, queries[n], Decision(lim, maxClients, queries, n), CappedAt(lim, maxClients, queries, n),
                    Ideal(lim, maxClients, queries, n), Ideal(lim, maxClients, queries, n + 1))
  {
    hide Refines, Seen, Capped, Ask, InTime;
    RunRefines(lim, maxClients, queries, n);
    var s := After(lim, maxClients, queries, n);
    CheckRefines(lim, s.clients, Ideal(lim, maxClients, queries, n), s.checks + 1, maxClients, queries[n].ip, queries[n].now);
  }

  ghost function Ideals(lim: Limits, maxClients: nat, queries: seq<Query>): (r: seq<Buckets>)
    ensures |r| == |queries| + 1 && forall n :: 0 <= n <= |queries| ==> r[n] == Ideal(lim, maxClients, queries, n)
  {
    seq(|queries| + 1, n requires 0 <= n <= |queries| => Ideal(lim, maxClients, queries, n))
  }

  ghost function AllCapped(lim: Limits, maxClients: nat, queries: seq<Query>): (r: seq<bool>)
    ensures |r| == |queries| && forall n :: 0 <= n < |queries| ==> r[n] == CappedAt(lim, maxClients, queries, n)
  {
    seq(|queries|, n requires 0 <= n < |queries| => CappedAt(lim, maxClients, queries, n))
  }

  lemma RunFollows(lim: Limits, maxClients: nat, queries: seq<Query>)
    requires lim.Valid() && lim.Patient() && InTime(queries)
    ensures Follows(lim, queries, Decisions(lim, maxClients, queries), AllCapped(lim, maxClients, queries), Ideals(lim, maxClients, queries))
    ensures Ideals(lim, maxClients, queries)[0] == map[]
  {
    var oks, capped, states := Decisions(lim, maxClients, queries), AllCapped(lim, maxClients, queries), Ideals(lim, maxClients, queries);
    assert Ideal(lim, maxClients, queries, 0) == map[];
    assert forall n :: 0 <= n < |queries| ==> oks[n] == Decision(lim, maxClients, queries, n);
    hide Ideal, Ideals, AllCapped, Decisions, CappedAt, Decision, Answers, InTime;
    forall k, h | 0 <= k < |queries| && h == k + 1
      ensures Answers(lim, queries[k], oks[k], capped[k], states[k], states[h])
    {
      RunAnswers(lim, maxClients, queries, k);
    }
  }

  /** With patient limits every run keeps the window bound for every source. */
  lemma RunBounded(lim: Limits, maxClients: nat, queries: seq<Query>, ip: Addr, i: nat, j: nat)
    requires lim.Valid() && lim.Patient() && InTime(queries) && i < j <= |queries|
    ensures Admitted(queries, Decisions(lim, maxClients, queries), ip, i, j) <= lim.burst + Refill(lim, queries[j - 1].now - queries[i].now)
  {
    hide *;
    RunFollows(lim, maxClients, queries);
    WindowBound(lim, queries, Decisions(lim, maxClients, queries), AllCapped(lim, maxClients, queries), Ideals(lim, maxClients, queries), ip, i, j);
  }

  /** Putting queries to the limiter object gives the decisions of the run. */
  method AllowAll(lim: Limits, maxClients: nat, queries: seq<Query>) returns (oks: seq<bool>)
    ensures oks == Decisions(lim, maxClients, queries)
  {
    var limiter := new SourceLimiter(lim, maxClients);
    hide Seen, Capped, Ask;
    oks := [];
    for k := 0 to |queries|
      invariant limiter.lim == lim && limiter.maxClients == maxClients && |limiter.clients| <= maxClients
      invariant Limiter(limiter.clients, limiter.checks) == After(lim, maxClients, queries, k)
      invariant |oks| == k && forall n :: 0 <= n < k ==> oks[n] == Decision(lim, maxClients, queries, n)
    {
      var ok := limiter.Allow(queries[k].ip, queries[k].now);
      oks := oks + [ok];
    }
  }

  lemma KeptTwice(clients: Buckets, now: real)
    ensures Kept(Kept(clients, now), now) == Kept(clients, now)
  {
  }

  // ---- Runs of the limiter on all queries -----------------------------------------

  /** The queries at these times, as if all came from one source. */
  function Together(times: seq<real>, all: Addr): (r: seq<Query>)
    ensures |r| == |times| && forall i :: 0 <= i < |times| ==> r[i] == Query(all, times[i])
  {
    seq(|times|, i requires 0 <= i < |times| => Query(all, times[i]))
  }

  /** The limiter that never forgets, after its first n queries. */
  function Unforgetting(lim: Limits, queries: seq<Query>, n: nat): Buckets
    requires n <= |queries|
  {
    if n == 0 then map[] else Ask(lim, Unforgetting(lim, queries, n - 1), queries[n - 1].ip, queries[n - 1].now).1
  }

  function GlobalDecision(lim: Limits, queries: seq<Query>, n: nat): bool
    requires n < |queries|
  {
    Ask(lim, Unforgetting(lim, queries, n), queries[n].ip, queries[n].now).0
  }

  function GlobalDecisions(lim: Limits, queries: seq<Query>): (r: seq<bool>)
    ensures |r| == |queries|
  {
    seq(|queries|, n requires 0 <= n < |queries| => GlobalDecision(lim, queries, n))
  }

  /** Putting queries to the limiter object gives those decisions. */
  method AllowAllGlobally(lim: Limits, times: seq<real>, all: Addr) returns (oks: seq<bool>)
    ensures oks == GlobalDecisions(lim, Together(times, all))
  {
    var limiter := new GlobalLimiter(lim);
    ghost var queries := Together(times, all);
    hide Ask, Together;
    oks := [];
    for k := 0 to |times|
      invariant limiter.lim == lim && limiter.Is(Unforgetting(lim, queries, k), all)
      invariant |oks| == k && forall n :: 0 <= n < k ==> oks[n] == GlobalDecision(lim, queries, n)
    {
      var ok := limiter.Allow(times[k], Unforgetting(lim, queries, k), all);
      oks := oks + [ok];
    }
  }

  /** In any stretch of queries no more are admitted together than the burst plus what the rate refills meanwhile. */
  lemma GlobalBounded(lim: Limits, times: seq<real>, all: Addr, i: nat, j: nat)
    requires lim.Valid() && i < j <= |times| && forall k, h :: 0 <= k < h < |times| ==> times[k] <= times[h]
    ensures var queries := Together(times, all);
            Admitted(queries, GlobalDecisions(lim, queries), all, i, j) <= lim.burst + Refill(lim, times[j - 1] - times[i])
  {
    var queries := Together(times, all);
    var oks := GlobalDecisions(lim, queries);
    var states := seq(|queries| + 1, n requires 0 <= n <= |queries| => Unforgetting(lim, queries, n));
    var capped := seq(|queries|, n => false);
    assert states[0] == map[];
    hide Refill, Admitted, Ask, Together;
    forall k, h | 0 <= k < |queries| && h == k + 1
      ensures Answers(lim, queries[k], oks[k], capped[k], states[k], states[h])
    {
      assert oks[k] == GlobalDecision(lim, queries, k);
    }
    WindowBound(lim, queries, oks, capped, states, all, i, j);
  }
}
