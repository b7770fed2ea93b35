/**
 The DNS record cache: two tables during an online migration, cleanup in two
 phases, updates and lookups, against one map from (domain, family) to record.

 Times are nanoseconds. Each method below is one critical section of the
 controller's lock; the last part runs them in any interleaving.
 */
module DnsCache {
  import opened Basics

  type Domain = string
  type Time = int
  type IpAddr = int

  datatype Family = A | AAAA
  datatype IpRecord = IpRecord(ips: seq<IpAddr>, expire: Time, rcode: int)
  datatype Rec = Rec(a: Option<IpRecord>, aaaa: Option<IpRecord>)
  type Table = map<Domain, Rec>

  const SECOND := 1_000_000_000
  const MIN_SIZE_FOR_EMPTY_REBUILD := 512
  const SHRINK_ABSOLUTE_THRESHOLD := 10240
  const MIGRATION_BATCH_SIZE := 4096

  datatype Cache = Cache(ips: Table, dirty: Option<Table>, highWatermark: int)

  function Get(r: Rec, f: Family): Option<IpRecord> {
    if f.A? then r.a else r.aaaa
  }

  function InTable(t: Table, d: Domain, f: Family): Option<IpRecord> {
    if d in t then Get(t[d], f) else None
  }

  /** The abstract record, taken family by family from ips, else from dirtyips. */
  function Lookup(c: Cache, d: Domain, f: Family): Option<IpRecord> {
    if InTable(c.ips, d, f).Some? || c.dirty.None? then InTable(c.ips, d, f)
    else InTable(c.dirty.value, d, f)
  }

  ghost predicate SameRecords(c: Cache, c': Cache) {
    forall d, f :: Lookup(c', d, f) == Lookup(c, d, f)
  }

  // ---- Cleanup ----------------------------------------------------------

  /** serveExpiredTTL is kept as a non-positive number of seconds. */
  function Cutoff(now: Time, serveStale: bool, serveExpiredTTL: int): Time {
    if serveStale && serveExpiredTTL != 0 then now + serveExpiredTTL * SECOND else now
  }

  predicate Expired(r: Option<IpRecord>, cutoff: Time) {
    r.Some? && r.value.expire < cutoff
  }

  function Unexpired(r: Option<IpRecord>, cutoff: Time): Option<IpRecord> {
    if Expired(r, cutoff) then None else r
  }

  function CleanOne(t: Table, d: Domain, cutoff: Time): Table {
    if d !in t then t
    else
      var r := Rec(Unexpired(t[d].a, cutoff), Unexpired(t[d].aaaa, cutoff));
      if r == Rec(None, None) then t - {d} else t[d := r]
  }

  function Clean(t: Table, keys: seq<Domain>, cutoff: Time): Table {
    if keys == [] then t else CleanOne(Clean(t, keys[..|keys| - 1], cutoff), keys[|keys| - 1], cutoff)
  }

  /** Cleanup drops exactly the listed records that are expired when it writes. */
  lemma {:induction false} CleanDropsExactly(t: Table, keys: seq<Domain>, cutoff: Time, d: Domain, f: Family)
    ensures InTable(Clean(t, keys, cutoff), d, f) ==
            if d in keys then Unexpired(InTable(t, d, f), cutoff) else InTable(t, d, f)
    ensures d in Clean(t, keys, cutoff) ==> d in t
    ensures d in Clean(t, keys, cutoff) && d in keys ==> Clean(t, keys, cutoff)[d] != Rec(None, None)
    ensures d in t && d !in keys ==> d in Clean(t, keys, cutoff)
  {
    if keys != [] {
      var pre, last := keys[..|keys| - 1], keys[|keys| - 1];
      CleanDropsExactly(t, pre, cutoff, d, f);
      assert keys == pre + [last];
      assert forall g :: Get(Rec(None, None), g) == None;
    }
  }

  /** The shrink test, with the ratio 0.65 kept exact. */
  predicate Shrinks(highWatermark: int, size: int) {
    highWatermark - size > SHRINK_ABSOLUTE_THRESHOLD && 100 * (highWatermark - size) > 65 * highWatermark
  }

  /** The table is rebuilt once it is more than 10240 entries and more than 65 % below its peak. */
  lemma ShrinksIff(highWatermark: nat, size: nat)
    ensures Shrinks(highWatermark, size) <==>
            size + 10240 < highWatermark && (highWatermark - size) as real > 0.65 * highWatermark as real
  {
  }

  /** writeAndShrink. */
  function Write(c: Cache, keys: seq<Domain>, cutoff: Time): Cache {
    if c.dirty.Some? then c
    else
      var high := if |c.ips| > c.highWatermark then |c.ips| else c.highWatermark;
      var t := Clean(c.ips, keys, cutoff);
      if |t| == 0 then Cache(map[], None, if high >= MIN_SIZE_FOR_EMPTY_REBUILD then 0 else high)
      else if Shrinks(high, |t|) then Cache(map[], Some(t), |t|)
      else Cache(t, None, high)
  }

  /** When a cleanup rebuilds the table, and what peak it goes on from. */
  lemma WriteRebuildsIff(c: Cache, keys: seq<Domain>, cutoff: Time)
    requires c.dirty.None? && c.highWatermark >= 0
    ensures var c', left, peak := Write(c, keys, cutoff), |Clean(c.ips, keys, cutoff)|, Peak(c);
            && (c'.dirty.Some? <==> left > 0 && left + 10240 < peak && (peak - left) as real > 0.65 * peak as real)
            && (c'.dirty.Some? ==> c'.ips == map[] && c'.highWatermark == left)
            && (c'.dirty.None? ==> c'.highWatermark == if left == 0 && peak >= 512 then 0 else peak)
  {
    ShrinksIff(Peak(c), |Clean(c.ips, keys, cutoff)|);
    hide Clean, Shrinks;
  }

  /** The largest size seen. */
  function Peak(c: Cache): (r: int)
    ensures r >= |c.ips| && r >= c.highWatermark && (r == |c.ips| || r == c.highWatermark)
  {
    if |c.ips| > c.highWatermark then |c.ips| else c.highWatermark
  }

  /** Outside a migration, cleanup and shrink together drop exactly the listed expired records. */
  lemma WriteDropsExactly(c: Cache, keys: seq<Domain>, cutoff: Time, d: Domain, f: Family)
    requires c.dirty.None?
    ensures Lookup(Write(c, keys, cutoff), d, f) ==
            if d in keys then Unexpired(Lookup(c, d, f), cutoff) else Lookup(c, d, f)
  {
    CleanDropsExactly(c.ips, keys, cutoff, d, f);
    var t := Clean(c.ips, keys, cutoff);
    assert |t| == 0 ==> t == map[];
  }

  // ---- Migration --------------------------------------------------------

  function FlushOne(ips: Table, d: Domain, r: Rec): Table {
    if d in ips then
      ips[d := Rec(if ips[d].a.None? then r.a else ips[d].a, if ips[d].aaaa.None? then r.aaaa else ips[d].aaaa)]
    else ips[d := r]
  }

  /** A dirty key whose record has been carried over: ips alone now answers for it. */
  ghost predicate Carried(c: Cache, d: Domain)
    requires c.dirty.Some? && d in c.dirty.value
  {
    d in c.ips && forall f :: Get(c.dirty.value[d], f).Some? ==> Get(c.ips[d], f).Some?
  }

  lemma FlushOneRefines(c: Cache, d: Domain)
    requires c.dirty.Some? && d in c.dirty.value
    ensures var c' := c.(ips := FlushOne(c.ips, d, c.dirty.value[d]));
            && SameRecords(c, c') && Carried(c', d)
            && (forall x :: x in c.dirty.value && Carried(c, x) ==> Carried(c', x))
  {
  }

  function Flush(ips: Table, batch: seq<(Domain, Rec)>): Table {
    if batch == [] then ips
    else FlushOne(Flush(ips, batch[..|batch| - 1]), batch[|batch| - 1].0, batch[|batch| - 1].1)
  }

  /** A batch read off the dirty table. */
  ghost predicate FromDirty(c: Cache, batch: seq<(Domain, Rec)>) {
    c.dirty.Some? && forall i :: 0 <= i < |batch| ==> batch[i].0 in c.dirty.value && batch[i].1 == c.dirty.value[batch[i].0]
  }

  /** Any batch, in any order, leaves every record as it was and carries its keys over. */
  lemma {:induction false} FlushRefines(c: Cache, batch: seq<(Domain, Rec)>)
    requires FromDirty(c, batch)
    ensures var c' := c.(ips := Flush(c.ips, batch));
            && SameRecords(c, c')
            && (forall i :: 0 <= i < |batch| ==> Carried(c', batch[i].0))
            && (forall x :: x in c.dirty.value && Carried(c, x) ==> Carried(c', x))
  {
    if batch != [] {
      var pre := batch[..|batch| - 1];
      FlushRefines(c, pre);
      FlushOneRefines(c.(ips := Flush(c.ips, pre)), batch[|batch| - 1].0);
      forall i | 0 <= i < |batch|
        ensures Carried(c.(ips := Flush(c.ips, batch)), batch[i].0)
      {
        assert i < |pre| ==> batch[i] == pre[i];
      }
    }
  }

  /** Dropping dirtyips is invisible once every key is carried over. */
  lemma DropRefines(c: Cache)
    requires c.dirty.Some? && forall d :: d in c.dirty.value ==> Carried(c, d)
    ensures SameRecords(c, c.(dirty := None))
  {
  }

  // ---- Update and find --------------------------------------------------

  function Other(f: Family): Family {
    if f.A? then AAAA else A
  }

  function Updated(c: Cache, d: Domain, f: Family, rep: IpRecord): Cache {
    var other := InTable(c.ips, d, Other(f));
    c.(ips := c.ips[d := if f.A? then Rec(Some(rep), other) else Rec(other, Some(rep))])
  }

  /** An update changes the written family of its domain and nothing else, also during a migration. */
  lemma UpdateChangesOnlyItsFamily(c: Cache, d: Domain, f: Family, rep: IpRecord, x: Domain, g: Family)
    ensures Lookup(Updated(c, d, f, rep), x, g) == if x == d && g == f then Some(rep) else Lookup(c, x, g)
    ensures c.dirty.Some? && x in c.dirty.value && Carried(c, x) ==> Carried(Updated(c, d, f, rep), x)
  {
    assert f.A? || f.AAAA?;
  }

  function Find(c: Cache, d: Domain): Option<Rec> {
    if d in c.ips then Some(c.ips[d])
    else if c.dirty.Some? && d in c.dirty.value then Some(c.dirty.value[d])
    else None
  }

  function Found(c: Cache, d: Domain, f: Family): Option<IpRecord> {
    if Find(c, d).Some? then Get(Find(c, d).value, f) else None
  }

  /**
   findRecords never returns a value that is not the abstract one, and misses one exactly when
   ips holds the domain without that family while dirtyips still has it.
   */
  lemma FindIsSoundAndAlmostExact(c: Cache, d: Domain, f: Family)
    ensures Found(c, d, f).Some? ==> Found(c, d, f) == Lookup(c, d, f)
    ensures Found(c, d, f) != Lookup(c, d, f) <==>
            c.dirty.Some? && d in c.ips && InTable(c.ips, d, f).None? && InTable(c.dirty.value, d, f).Some?
  {
  }

  // ---- The controller ---------------------------------------------------

  class CacheController {
    const serveStale: bool
    const serveExpiredTTL: int
    const disableCache: bool
    var ips: Table
    var dirtyips: Option<Table>
    var highWatermark: int
    var closed: bool

    constructor (disableCache: bool, serveStale: bool, serveExpiredTTL: int)
      ensures State() == Cache(map[], None, 0) && !closed
      ensures this.disableCache == disableCache && this.serveStale == serveStale && this.serveExpiredTTL == serveExpiredTTL
    {
      this.disableCache, this.serveStale, this.serveExpiredTTL := disableCache, serveStale, serveExpiredTTL;
      ips, dirtyips, highWatermark, closed := map[], None, 0, false;
    }

    function State(): Cache
      reads this
    {
      Cache(ips, dirtyips, highWatermark)
    }

    /** First phase: the domains with an expired family; none while a migration is running. */
    method CollectExpiredKeys(now: Time) returns (keys: seq<Domain>)
      ensures dirtyips.Some? ==> keys == []
      ensures dirtyips.None? ==>
                forall d :: d in keys <==>
                  d in ips && exists f :: Expired(Get(ips[d], f), Cutoff(now, serveStale, serveExpiredTTL))
    {
      keys := [];
      if |ips| == 0 || dirtyips.Some? {
        return;
      }
      var cutoff := Cutoff(now, serveStale, serveExpiredTTL);
      var todo := ips.Keys;
      while todo != {}
        invariant todo <= ips.Keys
        invariant forall d :: d in keys <==> d in ips && d !in todo && (Expired(ips[d].a, cutoff) || Expired(ips[d].aaaa, cutoff))
      {
        var d :| d in todo;
        if Expired(ips[d].a, cutoff) || Expired(ips[d].aaaa, cutoff) {
          keys := keys + [d];
        }
        todo := todo - {d};
      }
      forall d | d in ips
        ensures (exists f :: Expired(Get(ips[d], f), cutoff)) <==> Expired(ips[d].a, cutoff) || Expired(ips[d].aaaa, cutoff)
      {
        assert Get(ips[d], A) == ips[d].a && Get(ips[d], AAAA) == ips[d].aaaa;
      }
    }

    /** Second phase: re-check under the write lock, drop, and start a migration when the table has shrunk enough. */
    method WriteAndShrink(expiredKeys: seq<Domain>, now: Time)
      modifies this
      ensures State() == Write(old(State()), expiredKeys, Cutoff(now, serveStale, serveExpiredTTL))
      ensures closed == old(closed)
    {
      if dirtyips.Some? {
        return;
      }
      if |ips| > highWatermark {
        highWatermark := |ips|;
      }
      var cutoff := Cutoff(now, serveStale, serveExpiredTTL);
      ghost var before := ips;
      for i := 0 to |expiredKeys|
        invariant ips == Clean(before, expiredKeys[..i], cutoff)
        invariant dirtyips.None? && closed == old(closed)
        invariant highWatermark == if |before| > old(highWatermark) then |before| else old(highWatermark)
      {
        assert expiredKeys[..i + 1][..i] == expiredKeys[..i];
        var d := expiredKeys[i];
        if d in ips {
          var rec := ips[d];
          if Expired(rec.a, cutoff) {
            rec := rec.(a := None);
          }
          if Expired(rec.aaaa, cutoff) {
            rec := rec.(aaaa := None);
          }
          if rec.a.None? && rec.aaaa.None? {
            ips := ips - {d};
          } else {
            ips := ips[d := rec];
          }
        }
      }
      assert expiredKeys[..|expiredKeys|] == expiredKeys;
      if |ips| == 0 {
        assert ips == map[];
        if highWatermark >= MIN_SIZE_FOR_EMPTY_REBUILD {
          ips, highWatermark := map[], 0;
        }
        return;
      }
      if Shrinks(highWatermark, |ips|) {
        dirtyips := Some(ips);
        ips := map[];
        highWatermark := |dirtyips.value|;
      }
    }

    method FlushBatch(batch: seq<(Domain, Rec)>)
      modifies this`ips
      ensures ips == Flush(old(ips), batch)
    {
      for i := 0 to |batch|
        invariant ips == Flush(old(ips), batch[..i])
      {
        assert batch[..i + 1][..i] == batch[..i];
        var (d, dirty) := batch[i];
        if d in ips {
          var cur := ips[d];
          ips := ips[d := Rec(if cur.a.None? then dirty.a else cur.a, if cur.aaaa.None? then dirty.aaaa else cur.aaaa)];
        } else {
          ips := ips[d := dirty];
        }
      }
      assert batch[..|batch|] == batch;
    }

    /** The whole migration, undisturbed: batches in the arbitrary order of the map, then the drop. */
    method Migrate()
      modifies this
      ensures SameRecords(old(State()), State()) && dirtyips.None?
      ensures highWatermark == old(highWatermark) && closed == old(closed)
    {
      if dirtyips.None? {
        return;
      }
      var dirty := dirtyips.value;
      var batch: seq<(Domain, Rec)> := [];
      var todo := dirty.Keys;
      while todo != {}
        invariant todo <= dirty.Keys && |batch| < MIGRATION_BATCH_SIZE
        invariant dirtyips == Some(dirty) && highWatermark == old(highWatermark) && closed == old(closed)
        invariant SameRecords(old(State()), State()) && FromDirty(State(), batch)
        invariant forall d :: d in dirty && d !in todo ==> Carried(State(), d) || (d, dirty[d]) in batch
      {
        var d :| d in todo;
        batch := batch + [(d, dirty[d])];
        todo := todo - {d};
        if |batch| >= MIGRATION_BATCH_SIZE {
          FlushRefines(State(), batch);
          FlushBatch(batch);
          batch := [];
        }
      }
      if |batch| > 0 {
        FlushRefines(State(), batch);
        FlushBatch(batch);
      }
      DropRefines(State());
      dirtyips := None;
    }

    /** Stores a reply, and returns the record of the other family for republication. */
    method UpdateRecord(d: Domain, f: Family, rep: IpRecord) returns (other: Option<IpRecord>)
      modifies this`ips
      ensures State() == if disableCache || closed then old(State()) else Updated(old(State()), d, f, rep)
      ensures other == if disableCache || closed then None else old(Lookup(State(), d, Other(f)))
    {
      other := None;
      if disableCache || closed {
        return;
      }
      var kept := None;
      if d in ips && Get(ips[d], Other(f)).Some? {
        kept := Get(ips[d], Other(f));
        other := kept;
      } else if dirtyips.Some? && d in dirtyips.value && Get(dirtyips.value[d], Other(f)).Some? {
        other := Get(dirtyips.value[d], Other(f));
      }
      ips := ips[d := if f.A? then Rec(Some(rep), kept) else Rec(kept, Some(rep))];
    }

    method FindRecords(d: Domain) returns (r: Option<Rec>)
      ensures r == Find(State(), d)
      ensures r.Some? ==> forall f :: Get(r.value, f).Some? ==> Get(r.value, f) == Lookup(State(), d, f)
      ensures dirtyips.None? ==> forall f :: Lookup(State(), d, f) == if r.Some? then Get(r.value, f) else None
    {
      r := None;
      if d in ips {
        r := Some(ips[d]);
      } else if dirtyips.Some? && d in dirtyips.value {
        r := Some(dirtyips.value[d]);
      }
    }
  }

  // ---- Every interleaving -----------------------------------------------

  /** The specification: one map. */
  type Spec = map<(Domain, Family), IpRecord>

  /** The controller with its migrating goroutine: the dirty keys it has yet to flush. */
  datatype System = System(c: Cache, todo: set<Domain>)

  datatype Event =
    | Update(d: Domain, f: Family, rep: IpRecord)
    | Cleanup(keys: seq<Domain>, cutoff: Time)
    | FlushSome(batch: seq<(Domain, Rec)>)
    | DropDirty

  ghost predicate Enabled(s: System, e: Event) {
    match e
    case Update(_, _, _) => true
    case Cleanup(_, _) => true
    case FlushSome(batch) => FromDirty(s.c, batch)
    case DropDirty => s.c.dirty.Some? && s.todo == {}
  }

  function Next(s: System, e: Event): System {
    match e
    case Update(d, f, rep) => s.(c := Updated(s.c, d, f, rep))
    case Cleanup(keys, cutoff) =>
      var c := Write(s.c, keys, cutoff);
      System(c, if s.c.dirty.None? && c.dirty.Some? then c.dirty.value.Keys else s.todo)
    case FlushSome(batch) => System(s.c.(ips := Flush(s.c.ips, batch)), s.todo - set i | 0 <= i < |batch| :: batch[i].0)
    case DropDirty => s.(c := s.c.(dirty := None))
  }

  /** Only updates and a cleanup outside a migration change the single map. */
  function SpecNext(m: Spec, e: Event, migrating: bool): Spec {
    match e
    case Update(d, f, rep) => m[(d, f) := rep]
    case Cleanup(keys, cutoff) =>
      if migrating then m else map k | k in m && !(k.0 in keys && m[k].expire < cutoff) :: m[k]
    case FlushSome(_) => m
    case DropDirty => m
  }

  function InSpec(m: Spec, d: Domain, f: Family): Option<IpRecord> {
    if (d, f) in m then Some(m[(d, f)]) else None
  }

  ghost predicate Refines(s: System, m: Spec) {
    && (forall d, f :: Lookup(s.c, d, f) == InSpec(m, d, f))
    && (s.c.dirty.Some? ==> forall d :: d in s.c.dirty.value && d !in s.todo ==> Carried(s.c, d))
  }

  lemma StepRefines(s: System, m: Spec, e: Event)
    requires Refines(s, m) && Enabled(s, e)
    ensures Refines(Next(s, e), SpecNext(m, e, s.c.dirty.Some?))
  {
    var s' := Next(s, e);
    var m' := SpecNext(m, e, s.c.dirty.Some?);
    match e
    case Update(d, f, rep) =>
      forall x, g
        ensures Lookup(s'.c, x, g) == InSpec(m', x, g)
        ensures s.c.dirty.Some? && x in s.c.dirty.value && Carried(s.c, x) ==> Carried(s'.c, x)
      {
        UpdateChangesOnlyItsFamily(s.c, d, f, rep, x, g);
      }
    case Cleanup(keys, cutoff) =>
      if s.c.dirty.None? {
        forall x, g
          ensures Lookup(s'.c, x, g) == InSpec(m', x, g)
        {
          WriteDropsExactly(s.c, keys, cutoff, x, g);
        }
      }
    case FlushSome(batch) =>
      FlushRefines(s.c, batch);
    case DropDirty =>
      DropRefines(s.c);
  }

  ghost predicate Run(s: System, evs: seq<Event>)
    decreases |evs|
  {
    evs == [] || (Enabled(s, evs[0]) && Run(Next(s, evs[0]), evs[1..]))
  }

  function Exec(s: System, evs: seq<Event>): System
    decreases |evs|
  {
    if evs == [] then s else Exec(Next(s, evs[0]), evs[1..])
  }

  function SpecExec(s: System, m: Spec, evs: seq<Event>): Spec
    decreases |evs|
  {
    if evs == [] then m else SpecExec(Next(s, evs[0]), SpecNext(m, evs[0], s.c.dirty.Some?), evs[1..])
  }

  /** Updates, cleanups, flush batches and the final drop, in any order, refine a single map. */
  lemma {:induction false} EveryRunRefines(s: System, m: Spec, evs: seq<Event>)
    requires Refines(s, m) && Run(s, evs)
    ensures Refines(Exec(s, evs), SpecExec(s, m, evs))
    decreases |evs|
  {
    if evs != [] {
      StepRefines(s, m, evs[0]);
      EveryRunRefines(Next(s, evs[0]), SpecNext(m, evs[0], s.c.dirty.Some?), evs[1..]);
    }
  }

  /** A migration still has to flush only keys of the old table. */
  ghost predicate TodoOk(s: System) {
    s.c.dirty.Some? ==> s.todo <= s.c.dirty.value.Keys
  }

  lemma {:induction false} RunKeepsTodo(s: System, evs: seq<Event>)
    requires TodoOk(s) && Run(s, evs)
    ensures TodoOk(Exec(s, evs))
    decreases |evs|
  {
    hide Clean, Shrinks, Flush;
    if evs != [] {
      RunKeepsTodo(Next(s, evs[0]), evs[1..]);
    }
  }

  function Firsts(batch: seq<(Domain, Rec)>): set<Domain> {
    set i | 0 <= i < |batch| :: batch[i].0
  }

  lemma {:induction false} ListAll(t: Table, keys: set<Domain>) returns (batch: seq<(Domain, Rec)>)
    requires keys <= t.Keys
    ensures forall i :: 0 <= i < |batch| ==> batch[i].0 in t && t[batch[i].0] == batch[i].1
    ensures keys == Firsts(batch)
  {
    if keys == {} {
      batch := [];
    } else {
      var d :| d in keys;
      var rest := ListAll(t, keys - {d});
      batch := [(d, t[d])] + rest;
      assert forall i :: 0 <= i < |rest| ==> batch[i + 1] == rest[i];
      forall x | x in keys
        ensures exists i :: 0 <= i < |batch| && batch[i].0 == x
      {
        if x == d {
          assert batch[0].0 == x;
        } else {
          assert x in Firsts(rest);
          var i :| 0 <= i < |rest| && rest[i].0 == x;
          assert batch[i + 1].0 == x;
        }
      }
    }
  }

  /** Whenever a migration is under way, flushing what is left lets the old table be dropped. */
  lemma MigrationCanEnd(evs: seq<Event>) returns (batch: seq<(Domain, Rec)>)
    requires Run(New(), evs) && Exec(New(), evs).c.dirty.Some?
    ensures var s := Exec(New(), evs);
            Enabled(s, FlushSome(batch)) && Enabled(Next(s, FlushSome(batch)), DropDirty)
  {
    var s := Exec(New(), evs);
    RunKeepsTodo(New(), evs);
    hide Run, Exec, Flush;
    batch := ListAll(s.c.dirty.value, s.todo);
  }

  function New(): System {
    System(Cache(map[], None, 0), {})
  }

  lemma EmptyRefines()
    ensures Refines(New(), map[])
  {
  }

  /** A new controller: whatever is done with it, its records are those of a single map that started out empty. */
  lemma NewControllerRefines(evs: seq<Event>)
    requires Run(New(), evs)
    ensures Refines(Exec(New(), evs), SpecExec(New(), map[], evs))
  {
    hide *;
    EmptyRefines();
    EveryRunRefines(New(), map[], evs);
  }
}
