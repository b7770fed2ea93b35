/**
 HeuristicMultiIPMatcher: several matchers over one address list, sharing lazily
 built views. A view holds the list of one family either by bucket or address by
 address; a matcher reads the view that suits its prefixes.
 */
module IpMulti {
  import opened Basics
  import opened IpSet
  import opened IpMatcher

  ghost predicate AllValid(ms: seq<Matcher>) {
    forall m :: m in ms ==> Valid(m)
  }

  predicate SomeHits(ms: seq<Matcher>, ip: RawIp) {
    exists m :: m in ms && Hits(m, ip)
  }

  method Match(ms: seq<Matcher>, ip: RawIp) returns (r: bool)
    requires AllValid(ms)
    ensures r == SomeHits(ms, ip)
  {
    if FromStd(ip).None? {
      return false;
    }
    for j := 0 to |ms|
      invariant forall m :: m in ms[..j] ==> !Hits(m, ip)
    {
      MatchAddrIsMembership(ms[j], FromStd(ip).value);
      if MatchAddr(ms[j], FromStd(ip).value) {
        assert ms[j] in ms && Hits(ms[j], ip);
        return true;
      }
    }
    assert ms[..|ms|] == ms;
    return false;
  }

  /** AnyMatch, whose bucket set is shared by all matchers, is: some address is accepted by some matcher. */
  method AnyMatch(ms: seq<Matcher>, ips: seq<RawIp>) returns (r: bool)
    requires AllValid(ms)
    ensures r <==> exists ip :: ip in ips && SomeHits(ms, ip)
  {
    if |ips| == 0 {
      return false;
    }
    if |ips| == 1 {
      r := Match(ms, ips[0]);
      return;
    }
    hide FromStd, PrefixKey, Accepts, MatchAddr;
    var buckets: set<Key> := {};
    for i := 0 to |ips|
      invariant forall x :: x in ips[..i] ==> !SomeHits(ms, x)
      invariant forall k :: k in buckets ==> exists x :: x in ips[..i] && PrefixKey(x) == Some(k)
    {
      var ip := ips[i];
      var hit;
      hit, buckets := AnyMatchOne(ms, ip, ips[..i], buckets);
      if hit {
        assert ip in ips;
        return true;
      }
      assert ips[..i + 1] == ips[..i] + [ip];
    }
    assert ips[..|ips|] == ips;
    return false;
  }

  /** The inner loop of AnyMatch; state is 0 before the key is known, 1 for a new bucket, else the family of a seen one. */
  method AnyMatchOne(ms: seq<Matcher>, ip: RawIp, ghost seen: seq<RawIp>, buckets0: set<Key>) returns (hit: bool, buckets: set<Key>)
    requires AllValid(ms)
    requires forall x :: x in seen ==> !SomeHits(ms, x)
    requires forall k :: k in buckets0 ==> exists x :: x in seen && PrefixKey(x) == Some(k)
    ensures hit == SomeHits(ms, ip)
    ensures forall k :: k in buckets ==> exists x :: x in seen + [ip] && PrefixKey(x) == Some(k)
  {
    hide FromStd, PrefixKey, Accepts, MatchAddr, AllValid;
    KeyIsBucket(ip);
    buckets := buckets0;
    assert forall x :: x in seen ==> x in seen + [ip];
    assert ip in seen + [ip];
    var state := 0;
    for j := 0 to |ms|
      invariant forall m :: m in ms[..j] ==> !Hits(m, ip)
      invariant state in {0, 1, 4, 6}
      invariant state != 0 ==> FromStd(ip).Some?
      invariant state == 0 ==> buckets == buckets0
      invariant buckets == buckets0 || (FromStd(ip).Some? && buckets == buckets0 + {PrefixKey(ip).value})
      invariant state in {4, 6} ==> PrefixKey(ip).value in buckets0 && state == (if FromStd(ip).value.family.F4? then 4 else 6)
    {
      var m := ms[j];
      assert ms[..j + 1] == ms[..j] + [m];
      assert Valid(m) by { EachValid(ms, j); }
      var heur4, heur6 := m.max4 <= 24, m.max6 <= 64;
      if state == 0 && (heur4 || heur6) {
        var key := PrefixKey(ip);
        if key.None? {
          return false, buckets;
        }
        if key.value in buckets {
          state := key.value[0];
        } else {
          buckets := buckets + {key.value};
          state := 1;
        }
      }
      if (heur4 && state == 4) || (heur6 && state == 6) {
        ghost var x :| x in seen && PrefixKey(x) == Some(PrefixKey(ip).value);
        SameKeySameAnswer(m, ip, x);
        continue;
      }
      if FromStd(ip).None? {
        return false, buckets;
      }
      MatchAddrIsMembership(m, FromStd(ip).value);
      if MatchAddr(m, FromStd(ip).value) {
        assert m in ms && Hits(m, ip);
        return true, buckets;
      }
    }
    assert ms[..|ms|] == ms;
    return false, buckets;
  }

  lemma EachValid(ms: seq<Matcher>, j: nat)
    requires AllValid(ms) && j < |ms|
    ensures Valid(ms[j])
  {
  }

  // ---- Matches ----------------------------------------------------------

  predicate InFamily(ip: RawIp, f: Family) {
    FromStd(ip).Some? && FromStd(ip).value.family == f
  }

  /** ipViews, one family of it. */
  datatype View = View(buckets: Option<map<Key, Addr>>, precise: Option<seq<Addr>>)

  ghost predicate BucketsOf(bk: map<Key, Addr>, ips: seq<RawIp>, f: Family) {
    && (forall ip :: ip in ips && InFamily(ip, f) ==> PrefixKey(ip).Some? && PrefixKey(ip).value in bk)
    && (forall k :: k in bk ==> exists ip :: ip in ips && InFamily(ip, f) && PrefixKey(ip) == Some(k) && FromStd(ip) == Some(bk[k]))
  }

  ghost predicate PreciseOf(ps: seq<Addr>, ips: seq<RawIp>, f: Family) {
    && (forall ip :: ip in ips && InFamily(ip, f) ==> FromStd(ip).value in ps)
    && (forall a :: a in ps ==> exists ip :: ip in ips && InFamily(ip, f) && FromStd(ip) == Some(a))
  }

  ghost predicate EveryIpValid(ips: seq<RawIp>) {
    forall ip :: ip in ips ==> IsValid(ip)
  }

  ghost predicate FamilyHits(m: Matcher, ips: seq<RawIp>, f: Family) {
    forall ip :: ip in ips && InFamily(ip, f) ==> Hits(m, ip)
  }

  lemma BucketsDecide(m: Matcher, bk: map<Key, Addr>, ips: seq<RawIp>, f: Family)
    requires Valid(m) && BucketsOf(bk, ips, f) && Coarse(m, f)
    ensures (forall k :: k in bk ==> Accepts(m, bk[k])) <==> FamilyHits(m, ips, f)
  {
    hide FromStd, PrefixKey, Accepts, Valid, Coarse;
    if !FamilyHits(m, ips, f) {
      var ip :| ip in ips && InFamily(ip, f) && !Hits(m, ip);
      var k := PrefixKey(ip).value;
      var y :| y in ips && InFamily(y, f) && PrefixKey(y) == Some(k) && FromStd(y) == Some(bk[k]);
      SameKeySameAnswer(m, ip, y);
    }
  }

  lemma PreciseDecides(m: Matcher, ps: seq<Addr>, ips: seq<RawIp>, f: Family)
    requires PreciseOf(ps, ips, f)
    ensures (forall a :: a in ps ==> Accepts(m, a)) <==> FamilyHits(m, ips, f)
  {
    hide FromStd, Accepts;
  }

  method FillBucketView(ips: seq<RawIp>, f: Family) returns (ok: bool, bk: map<Key, Addr>)
    ensures ok == EveryIpValid(ips)
    ensures ok ==> BucketsOf(bk, ips, f)
  {
    hide FromStd, PrefixKey;
    bk := map[];
    for i := 0 to |ips|
      invariant EveryIpValid(ips[..i]) && BucketsOf(bk, ips[..i], f)
    {
      var ip := ips[i];
      KeyIsBucket(ip);
      if PrefixKey(ip).None? {
        assert ip in ips;
        return false, bk;
      }
      assert ips[..i + 1] == ips[..i] + [ip];
      var k := PrefixKey(ip).value;
      if k[0] == (if f.F4? then 4 else 6) && k !in bk {
        bk := bk[k := FromStd(ip).value];
      }
    }
    assert ips[..|ips|] == ips;
    ok := true;
  }

  method FillPreciseView(ips: seq<RawIp>, f: Family) returns (ok: bool, ps: seq<Addr>)
    ensures ok == EveryIpValid(ips)
    ensures ok ==> PreciseOf(ps, ips, f)
  {
    hide FromStd, PrefixKey;
    ps := [];
    for i := 0 to |ips|
      invariant EveryIpValid(ips[..i]) && PreciseOf(ps, ips[..i], f)
    {
      var ip := ips[i];
      KeyIsBucket(ip);
      if PrefixKey(ip).None? {
        assert ip in ips;
        return false, ps;
      }
      assert ips[..i + 1] == ips[..i] + [ip];
      if PrefixKey(ip).value[0] == (if f.F4? then 4 else 6) {
        ps := ps + [FromStd(ip).value];
      }
    }
    assert ips[..|ips|] == ips;
    ok := true;
  }

  /** The shared views of one Matches call, filled on demand. */
  class Views {
    var v4: View
    var v6: View

    constructor ()
      ensures v4 == v6 == View(None, None)
    {
      v4, v6 := View(None, None), View(None, None);
    }

    /** Every view that exists describes the list, and a view exists only for an all-valid list. */
    ghost predicate Describes(ips: seq<RawIp>)
      reads this
    {
      ViewOk(v4, ips, F4) && ViewOk(v6, ips, F6)
    }

    /** ensureForMatcher: afterwards the views this matcher reads exist, unless the list holds an invalid slice. */
    method EnsureForMatcher(m: Matcher, ips: seq<RawIp>) returns (ok: bool)
      requires Describes(ips)
      modifies this
      ensures ok == EveryIpValid(ips)
      ensures ok ==> Describes(ips) && Ready(v4, m, F4) && Ready(v6, m, F6)
    {
      hide FromStd, PrefixKey, BucketsOf, PreciseOf, EveryIpValid;
      ok, v4 := Ensure(v4, m, ips, F4);
      if !ok {
        return;
      }
      ok, v6 := Ensure(v6, m, ips, F6);
    }
  }

  ghost predicate ViewOk(v: View, ips: seq<RawIp>, f: Family) {
    && (v.buckets.Some? ==> BucketsOf(v.buckets.value, ips, f) && EveryIpValid(ips))
    && (v.precise.Some? ==> PreciseOf(v.precise.value, ips, f) && EveryIpValid(ips))
  }

  predicate Ready(v: View, m: Matcher, f: Family) {
    if Coarse(m, f) then v.buckets.Some? else v.precise.Some?
  }

  method Ensure(v: View, m: Matcher, ips: seq<RawIp>, f: Family) returns (ok: bool, v': View)
    requires ViewOk(v, ips, f)
    ensures ok == EveryIpValid(ips)
    ensures ok ==> ViewOk(v', ips, f) && Ready(v', m, f)
  {
    hide BucketsOf, PreciseOf, EveryIpValid;
    if Ready(v, m, f) {
      return true, v;
    }
    v' := v;
    if Coarse(m, f) {
      var bk;
      ok, bk := FillBucketView(ips, f);
      v' := v.(buckets := Some(bk));
    } else {
      var ps;
      ok, ps := FillPreciseView(ips, f);
      v' := v.(precise := Some(ps));
    }
  }

  /** One family of one matcher, read off the view that suits it. */
  method FamilyMatches(m: Matcher, v: View, ips: seq<RawIp>, f: Family) returns (r: bool)
    requires Valid(m) && ViewOk(v, ips, f) && Ready(v, m, f)
    ensures r == FamilyHits(m, ips, f)
  {
    hide FromStd, PrefixKey, Accepts, MatchAddr, Valid, BucketsOf, PreciseOf, EveryIpValid, FamilyHits;
    if Coarse(m, f) {
      var bk := v.buckets.value;
      BucketsDecide(m, bk, ips, f);
      var todo := bk.Keys;
      while todo != {}
        invariant todo <= bk.Keys
        invariant forall k :: k in bk && k !in todo ==> Accepts(m, bk[k])
      {
        var k :| k in todo;
        MatchAddrIsMembership(m, bk[k]);
        if !MatchAddr(m, bk[k]) {
          return false;
        }
        todo := todo - {k};
      }
    } else {
      var ps := v.precise.value;
      PreciseDecides(m, ps, ips, f);
      for i := 0 to |ps|
        invariant forall a :: a in ps[..i] ==> Accepts(m, a)
      {
        MatchAddrIsMembership(m, ps[i]);
        if !MatchAddr(m, ps[i]) {
          return false;
        }
      }
      assert ps[..|ps|] == ps;
    }
    return true;
  }

  ghost predicate HitsAll(m: Matcher, ips: seq<RawIp>) {
    forall ip :: ip in ips ==> Hits(m, ip)
  }

  lemma FamiliesTogether(m: Matcher, ips: seq<RawIp>)
    requires EveryIpValid(ips)
    ensures HitsAll(m, ips) <==> FamilyHits(m, ips, F4) && FamilyHits(m, ips, F6)
  {
    hide Accepts;
  }

  /** Matches is: the list is non-empty and one matcher accepts every element, all of them valid. */
  method Matches(ms: seq<Matcher>, ips: seq<RawIp>) returns (r: bool)
    requires AllValid(ms)
    ensures r <==> ips != [] && exists m :: m in ms && HitsAll(m, ips)
  {
    if |ips| == 0 {
      return false;
    }
    hide FromStd, PrefixKey, Accepts, MatchAddr, BucketsOf, PreciseOf, Valid;
    if |ips| == 1 {
      assert ips == [ips[0]];
      r := Match(ms, ips[0]);
      return;
    }
    var views := new Views();
    for j := 0 to |ms|
      invariant views.Describes(ips)
      invariant forall m :: m in ms[..j] ==> !HitsAll(m, ips)
    {
      var m := ms[j];
      assert ms[..j + 1] == ms[..j] + [m];
      var ok := views.EnsureForMatcher(m, ips);
      if !ok {
        return false;
      }
      FamiliesTogether(m, ips);
      var matched := FamilyMatches(m, views.v4, ips, F4);
      if !matched {
        continue;
      }
      matched := FamilyMatches(m, views.v6, ips, F6);
      if matched {
        return true;
      }
    }
    assert ms[..|ms|] == ms;
    return false;
  }
}
