/**
 queryIP's choice between a cache hit, a stale answer and a fetch, and that
 cleanup never changes it.
 */
module CacheQuery {
  import opened Basics
  import opened DnsCache

  const DEFAULT_TTL := 300

  datatype IpOption = IpOption(v4: bool, v6: bool)
  datatype Err = NoErr | RecordNotFound | RCode(code: int) | EmptyResponse | Combined(errs: seq<Err>)

  /** Seconds left, rounded up, also below zero. */
  function Ceil(left: Time): int {
    -((-left) / SECOND)
  }

  function GetIPs(r: Option<IpRecord>, now: Time): (seq<IpAddr>, int, Err) {
    if r.None? then ([], 0, RecordNotFound)
    else
      var ttl := Ceil(r.value.expire - now);
      if r.value.rcode != 0 then ([], ttl, RCode(r.value.rcode))
      else if |r.value.ips| == 0 then ([], ttl, EmptyResponse)
      else (r.value.ips, ttl, NoErr)
  }

  function Combine(errs: seq<Err>): Err {
    if errs == [] then NoErr else Combined(errs)
  }

  function Min(a: int, b: int): int {
    if a < b then a else b
  }

  /** merge without transport errors, as queryIP calls it. */
  function Merge(option: IpOption, rec4: Option<IpRecord>, rec6: Option<IpRecord>, now: Time): (seq<IpAddr>, int, Err) {
    var (ips4, ttl4, err4) := GetIPs(rec4, now);
    var (ips6, ttl6, err6) := GetIPs(rec6, now);
    if option.v4 && !option.v6 then (ips4, ttl4, err4)
    else if option.v6 && !option.v4 then (ips6, ttl6, err6)
    else if !option.v4 then ([], DEFAULT_TTL, NoErr)
    else
      var t4 := if rec4.Some? then Min(ttl4, DEFAULT_TTL) else DEFAULT_TTL;
      var ttl := if rec6.Some? then Min(ttl6, t4) else t4;
      var errs := (if ips4 == [] then [err4] else []) + (if ips6 == [] then [err6] else []);
      if ips4 + ips6 != [] then (ips4 + ips6, ttl, NoErr)
      else if |errs| == 2 && errs[0] == errs[1] then ([], ttl, errs[0])
      else ([], ttl, Combine(errs))
  }

  datatype Answer = Fetch | Hit(ips: seq<IpAddr>, ttl: int, err: Err) | Stale(ips: seq<IpAddr>, err: Err)

  function QueryIP(rec: Option<Rec>, option: IpOption, now: Time, serveStale: bool, serveExpiredTTL: int): Answer {
    if rec.None? then Fetch
    else if (option.v4 && rec.value.a.None?) || (option.v6 && rec.value.aaaa.None?) then Fetch
    else
      var (ips, ttl, err) := Merge(option, rec.value.a, rec.value.aaaa, now);
      if err == RecordNotFound then Fetch
      else if ttl > 0 then Hit(ips, ttl, err)
      else if serveStale && (serveExpiredTTL == 0 || serveExpiredTTL < ttl) then Stale(ips, err)
      else Fetch
  }

  // ---- What it answers, from the record's fields ------------------------------

  /** Every family that is asked for has a record. */
  predicate Present(rec: Rec, option: IpOption) {
    (option.v4 ==> rec.a.Some?) && (option.v6 ==> rec.aaaa.Some?)
  }

  /** The records asked for, A before AAAA. */
  function Asked(rec: Rec, option: IpOption): seq<IpRecord>
    requires Present(rec, option)
  {
    (if option.v4 then [rec.a.value] else []) + (if option.v6 then [rec.aaaa.value] else [])
  }

  /** t is left in whole seconds, rounded up. */
  ghost predicate RoundsUp(left: Time, t: int) {
    (t - 1) * 1_000_000_000 < left <= t * 1_000_000_000
  }

  /** t is the smallest time left among the records, and at most 300 seconds unless there is just one. */
  ghost predicate SmallestLeft(asked: seq<IpRecord>, now: Time, t: int) {
    && (forall i :: 0 <= i < |asked| ==> (t - 1) * 1_000_000_000 < asked[i].expire - now)
    && (|asked| != 1 ==> t <= 300)
    && ((|asked| != 1 && t == 300) || exists i :: 0 <= i < |asked| && RoundsUp(asked[i].expire - now, t))
  }

  /** The addresses of the records without an error code, in order. */
  function Addresses(asked: seq<IpRecord>): seq<IpAddr> {
    if asked == [] then []
    else (if asked[0].rcode == 0 then asked[0].ips else []) + Addresses(asked[1..])
  }

  /** Why a record has no addresses. */
  function Reason(r: IpRecord): Err {
    if r.rcode != 0 then RCode(r.rcode) else EmptyResponse
  }

  /** Addresses leave no error; without any, one common reason is given alone and different ones together. */
  ghost predicate Says(asked: seq<IpRecord>, err: Err) {
    if asked == [] || Addresses(asked) != [] then err == NoErr
    else if forall i :: 0 <= i < |asked| ==> Reason(asked[i]) == Reason(asked[0]) then err == Reason(asked[0])
    else err == Combined(seq(|asked|, i requires 0 <= i < |asked| => Reason(asked[i])))
  }

  lemma CeilIs(left: Time)
    ensures RoundsUp(left, Ceil(left))
  {
  }

  lemma OneFamily(r: IpRecord, now: Time)
    ensures GetIPs(Some(r), now).0 == Addresses([r]) && GetIPs(Some(r), now).1 == Ceil(r.expire - now)
    ensures Says([r], GetIPs(Some(r), now).2)
    ensures Addresses([r]) == [] ==> GetIPs(Some(r), now).2 == Reason(r)
  {
    assert [r][1..] == [];
  }

  lemma TwoFamilies(a: IpRecord, b: IpRecord, now: Time)
    ensures var (ips, ttl, err) := Merge(IpOption(true, true), Some(a), Some(b), now);
            && ips == Addresses([a, b]) && Says([a, b], err) && err != RecordNotFound
            && ttl == Min(300, Min(Ceil(a.expire - now), Ceil(b.expire - now)))
  {
    OneFamily(a, now);
    OneFamily(b, now);
    assert [a, b][1..] == [b];
    assert Addresses([a, b]) == Addresses([a]) + Addresses([b]);
    if Addresses([a, b]) == [] && Reason(a) != Reason(b) {
      assert seq(2, i requires 0 <= i < 2 => Reason([a, b][i])) == [Reason(a), Reason(b)];
      assert [a, b][1] == b;
    }
  }

  /** What merge gives for the records asked for. */
  lemma MergeIs(rec: Rec, option: IpOption, now: Time)
    requires Present(rec, option)
    ensures var (ips, ttl, err) := Merge(option, rec.a, rec.aaaa, now); var asked := Asked(rec, option);
            ips == Addresses(asked) && SmallestLeft(asked, now, ttl) && Says(asked, err) && err != RecordNotFound
  {
    var asked := Asked(rec, option);
    forall i | 0 <= i < |asked|
      ensures RoundsUp(asked[i].expire - now, Ceil(asked[i].expire - now))
    {
      CeilIs(asked[i].expire - now);
    }
    if option.v4 && option.v6 {
      assert asked == [rec.a.value, rec.aaaa.value];
      TwoFamilies(asked[0], asked[1], now);
      hide Merge, Ceil;
    } else if option.v4 || option.v6 {
      assert asked == [asked[0]];
      OneFamily(asked[0], now);
    }
  }

  /**
   The whole decision: a fetch for want of a record, or because what is there has run out and may not be
   served stale; otherwise the addresses of the families asked for, A before AAAA, with the smallest time left.
   */
  lemma QueryIPIs(rec: Option<Rec>, option: IpOption, now: Time, serveStale: bool, serveExpiredTTL: int) returns (t: int)
    ensures rec.None? || !Present(rec.value, option) ==> QueryIP(rec, option, now, serveStale, serveExpiredTTL) == Fetch
    ensures rec.Some? && Present(rec.value, option) ==>
              var r := QueryIP(rec, option, now, serveStale, serveExpiredTTL); var asked := Asked(rec.value, option);
              && SmallestLeft(asked, now, t)
              && (r.Hit? <==> t > 0)
              && (r.Stale? <==> t <= 0 && serveStale && (serveExpiredTTL == 0 || serveExpiredTTL < t))
              && (r.Hit? ==> r.ttl == t && r.ips == Addresses(asked) && Says(asked, r.err))
              && (r.Stale? ==> r.ips == Addresses(asked) && Says(asked, r.err))
  {
    t := 0;
    if rec.Some? && Present(rec.value, option) {
      MergeIs(rec.value, option, now);
      t := Merge(option, rec.value.a, rec.value.aaaa, now).1;
      hide Merge;
    }
  }

  // ---- Cleanup ---------------------------------------------------------------

  /** Rounding up keeps an integral bound. */
  lemma CeilBelow(left: Time, n: int)
    requires left < n * SECOND
    ensures Ceil(left) <= n
  {
  }

  /** Cleanup drops a record exactly if it could not be served any more even just before. */
  lemma DroppedIff(r: IpRecord, option: IpOption, written: Time, serveStale: bool, serveExpiredTTL: int)
    requires option.v4 != option.v6 && (serveStale ==> serveExpiredTTL < 0)
    ensures Expired(Some(r), Cutoff(written, serveStale, serveExpiredTTL)) <==>
            QueryIP(Some(Rec(Some(r), Some(r))), option, written - 1, serveStale, serveExpiredTTL) == Fetch
  {
    CeilIs(r.expire - (written - 1));
  }

  /** An enabled family that cleanup would drop leads to a fetch, at the cleanup and ever after. */
  lemma DroppedFamilyFetches(rec: Rec, option: IpOption, written: Time, now: Time, serveStale: bool, serveExpiredTTL: int)
    requires written <= now && (serveStale ==> serveExpiredTTL < 0)
    requires (option.v4 && Expired(rec.a, Cutoff(written, serveStale, serveExpiredTTL))) ||
             (option.v6 && Expired(rec.aaaa, Cutoff(written, serveStale, serveExpiredTTL)))
    ensures QueryIP(Some(rec), option, now, serveStale, serveExpiredTTL) == Fetch
  {
    var bound := if serveStale then serveExpiredTTL else 0;
    var dropped := if option.v4 && Expired(rec.a, Cutoff(written, serveStale, serveExpiredTTL)) then rec.a else rec.aaaa;
    CeilBelow(dropped.value.expire - now, bound);
  }

  /** Two records with the same enabled families get the same answer. */
  lemma OnlyEnabledFamiliesMatter(r: Rec, r': Rec, option: IpOption, now: Time, serveStale: bool, serveExpiredTTL: int)
    requires option.v4 ==> r.a == r'.a
    requires option.v6 ==> r.aaaa == r'.aaaa
    ensures QueryIP(Some(r), option, now, serveStale, serveExpiredTTL) == QueryIP(Some(r'), option, now, serveStale, serveExpiredTTL)
  {
  }

  /**
   Cleanup is invisible: for every list of keys collected earlier, every domain, every option that
   asks for a family, and every later time, queryIP answers as if nothing had been written.
   */
  lemma CleanupIsInvisible(c: Cache, keys: seq<Domain>, written: Time, now: Time, d: Domain, option: IpOption, serveStale: bool, serveExpiredTTL: int)
    requires c.dirty.None? && written <= now
    requires (option.v4 || option.v6) && (serveStale ==> serveExpiredTTL < 0)
    ensures QueryIP(Find(Write(c, keys, Cutoff(written, serveStale, serveExpiredTTL)), d), option, now, serveStale, serveExpiredTTL)
         == QueryIP(Find(c, d), option, now, serveStale, serveExpiredTTL)
  {
    var cutoff := Cutoff(written, serveStale, serveExpiredTTL);
    var c' := Write(c, keys, cutoff);
    var t := Clean(c.ips, keys, cutoff);
    assert |t| == 0 ==> t == map[];
    assert Find(c', d) == if d in t then Some(t[d]) else None;
    CleanDropsExactly(c.ips, keys, cutoff, d, A);
    CleanDropsExactly(c.ips, keys, cutoff, d, AAAA);
    if d in c.ips {
      var r := c.ips[d];
      if (option.v4 && Expired(r.a, cutoff)) || (option.v6 && Expired(r.aaaa, cutoff)) {
        DroppedFamilyFetches(r, option, written, now, serveStale, serveExpiredTTL);
      }
      if d in t {
        assert Get(t[d], A) == t[d].a && Get(t[d], AAAA) == t[d].aaaa;
        assert Get(r, A) == r.a && Get(r, AAAA) == r.aaaa;
        if (option.v4 ==> r.a == t[d].a) && (option.v6 ==> r.aaaa == t[d].aaaa) {
          OnlyEnabledFamiliesMatter(r, t[d], option, now, serveStale, serveExpiredTTL);
        }
      }
    }
  }

  ghost predicate SameAnswer(c: Cache, keys: seq<Domain>, written: Time, now: Time, d: Domain, option: IpOption, serveStale: bool, serveExpiredTTL: int) {
    QueryIP(Find(Write(c, keys, Cutoff(written, serveStale, serveExpiredTTL)), d), option, now, serveStale, serveExpiredTTL)
    == QueryIP(Find(c, d), option, now, serveStale, serveExpiredTTL)
  }

  ghost predicate Invisible(option: IpOption, serveStale: bool, serveExpiredTTL: int) {
    forall c: Cache, keys, written, now, d :: c.dirty.None? && written <= now ==>
      SameAnswer(c, keys, written, now, d, option, serveStale, serveExpiredTTL)
  }

  /** A cache with one record of both families that expires at the given time. */
  function OneRecord(expire: Time): Cache {
    var r := Some(IpRecord([1], expire, 0));
    Cache(map["x" := Rec(r, r)], None, 0)
  }

  lemma CleanupSeen(expire: Time, now: Time, option: IpOption, serveStale: bool, serveExpiredTTL: int)
    requires expire < Cutoff(0, serveStale, serveExpiredTTL) && 0 <= now
    requires QueryIP(Find(OneRecord(expire), "x"), option, now, serveStale, serveExpiredTTL) != Fetch
    ensures !Invisible(option, serveStale, serveExpiredTTL)
  {
    var cutoff := Cutoff(0, serveStale, serveExpiredTTL);
    var c := OneRecord(expire);
    assert ["x"][..0] == [] && Clean(c.ips, ["x"], cutoff) == CleanOne(c.ips, "x", cutoff);
    assert CleanOne(c.ips, "x", cutoff) == map[];
    assert !SameAnswer(c, ["x"], 0, now, "x", option, serveStale, serveExpiredTTL);
  }

  /**
   Cleanup is invisible to every lookup if and only if the lookup asks for some family and, when
   stale answers are served, the stale window is stored as a negative number of seconds.
   */
  lemma InvisibleIff(option: IpOption, serveStale: bool, serveExpiredTTL: int)
    ensures Invisible(option, serveStale, serveExpiredTTL) <==> (option.v4 || option.v6) && (serveStale ==> serveExpiredTTL < 0)
  {
    if (option.v4 || option.v6) && (serveStale ==> serveExpiredTTL < 0) {
      forall c: Cache, keys, written, now, d | c.dirty.None? && written <= now
        ensures SameAnswer(c, keys, written, now, d, option, serveStale, serveExpiredTTL)
      {
        CleanupIsInvisible(c, keys, written, now, d, option, serveStale, serveExpiredTTL);
      }
    } else if !option.v4 && !option.v6 {
      CleanupSeen(Cutoff(0, serveStale, serveExpiredTTL) - 1, 0, option, serveStale, serveExpiredTTL);
    } else if serveExpiredTTL == 0 {
      CleanupSeen(-1, 0, option, serveStale, serveExpiredTTL);
    } else {
      CleanupSeen(1, 0, option, serveStale, serveExpiredTTL);
    }
  }

  /** -int32(x) for a 32-bit unsigned x, with both conversions wrapping. */
  function StoredTtl(x: nat): int
    requires x < 0x1_0000_0000
  {
    var signed := if x < 0x8000_0000 then x else x - 0x1_0000_0000;
    if signed == -0x8000_0000 then -0x8000_0000 else -signed
  }

  /** It is the 32-bit number that cancels x. */
  lemma StoredTtlCancels(x: nat)
    requires x < 0x1_0000_0000
    ensures -2147483648 <= StoredTtl(x) <= 2147483647 && (StoredTtl(x) + x) % 4294967296 == 0
  {
  }

  /** The configured window keeps cleanup invisible exactly up to 2^31 seconds; beyond that the sign wraps. */
  lemma ConfiguredWindow(x: nat, option: IpOption)
    requires x < 0x1_0000_0000 && (option.v4 || option.v6)
    ensures Invisible(option, true, StoredTtl(x)) <==> 1 <= x <= 0x8000_0000
  {
    InvisibleIff(option, true, StoredTtl(x));
  }

  /** A record refreshed between the two phases survives; one that was not, and was collected, is gone. */
  lemma RefreshedRecordSurvives(c: Cache, keys: seq<Domain>, d: Domain, f: Family, rep: IpRecord, cutoff: Time)
    requires c.dirty.None?
    ensures Lookup(Write(Updated(c, d, f, rep), keys, cutoff), d, f) == if d in keys && rep.expire < cutoff then None else Some(rep)
  {
    WriteDropsExactly(Updated(c, d, f, rep), keys, cutoff, d, f);
    UpdateChangesOnlyItsFamily(c, d, f, rep, d, f);
  }

  /** Undisturbed, the two phases leave no record that was expired when the keys were collected. */
  lemma CleanupIsComplete(c: Cache, keys: seq<Domain>, collected: Time, cutoff: Time, d: Domain, f: Family)
    requires c.dirty.None? && collected <= cutoff
    requires forall x :: x in keys <==> x in c.ips && exists g :: Expired(Get(c.ips[x], g), collected)
    ensures !Expired(Lookup(Write(c, keys, cutoff), d, f), collected)
  {
    WriteDropsExactly(c, keys, cutoff, d, f);
    if Expired(Lookup(c, d, f), collected) {
      assert Expired(Get(c.ips[d], f), collected);
    }
  }
}
