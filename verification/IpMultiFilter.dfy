/**
 HeuristicMultiIPMatcher.FilterIPs: matchers strike entries out of two
 independently marked views, and what is left of either view is unmatched.
 */
module IpMultiFilter {
  import opened Basics
  import opened IpSet
  import opened IpMatcher
  import opened IpMulti

  /** ipBucketViews, one family of it; a struck-out entry is None. */
  datatype FilterView = FilterView(buckets: Option<map<Key, Option<Bucket>>>, precise: Option<map<Addr, Option<RawIp>>>)

  /** Some matcher that reads the view of this kind (c: by bucket) accepts the address. */
  ghost predicate Taken(ms: seq<Matcher>, f: Family, c: bool, a: Addr) {
    exists m :: m in ms && Coarse(m, f) == c && Accepts(m, a)
  }

  ghost predicate HasKind(ms: seq<Matcher>, f: Family, c: bool) {
    exists m :: m in ms && Coarse(m, f) == c
  }

  ghost predicate BucketOk(b: Bucket, k: Key, ips: seq<RawIp>) {
    && (forall x :: x in b.ips <==> x in ips && PrefixKey(x) == Some(k))
    && (exists y :: y in ips && PrefixKey(y) == Some(k) && FromStd(y) == Some(b.rep))
  }

  /** The bucket view after the matchers `done`: a bucket is struck out exactly when a coarse one accepts it. */
  ghost predicate BucketsOk(bk: map<Key, Option<Bucket>>, ips: seq<RawIp>, f: Family, done: seq<Matcher>) {
    && (forall k :: k in bk ==> exists ip :: ip in ips && InFamily(ip, f) && PrefixKey(ip) == Some(k))
    && (forall k :: k in bk && bk[k].Some? ==> BucketOk(bk[k].value, k, ips))
    && (forall ip :: ip in ips && InFamily(ip, f) ==>
          && PrefixKey(ip).Some? && PrefixKey(ip).value in bk
          && (bk[PrefixKey(ip).value].None? <==> Taken(done, f, true, FromStd(ip).value)))
  }

  ghost predicate PreciseOk(pr: map<Addr, Option<RawIp>>, ips: seq<RawIp>, f: Family, done: seq<Matcher>) {
    && (forall a :: a in pr ==> exists ip :: ip in ips && InFamily(ip, f) && FromStd(ip) == Some(a))
    && (forall a :: a in pr && pr[a].Some? ==> pr[a].value in ips && FromStd(pr[a].value) == Some(a))
    && (forall ip :: ip in ips && InFamily(ip, f) ==>
          && FromStd(ip).value in pr
          && (pr[FromStd(ip).value].None? <==> Taken(done, f, false, FromStd(ip).value)))
  }

  ghost predicate ViewOk(v: FilterView, ips: seq<RawIp>, f: Family, done: seq<Matcher>) {
    && (v.buckets.Some? <==> HasKind(done, f, true))
    && (v.precise.Some? <==> HasKind(done, f, false))
    && (v.buckets.Some? ==> BucketsOk(v.buckets.value, ips, f, done))
    && (v.precise.Some? ==> PreciseOk(v.precise.value, ips, f, done))
  }

  predicate SameAddrIn(ip: RawIp, xs: seq<RawIp>) {
    exists x :: x in xs && FromStd(x) == FromStd(ip)
  }

  /** As a set of addresses, xs is exactly what some matcher accepts. */
  ghost predicate MatchedSide(ms: seq<Matcher>, ips: seq<RawIp>, xs: seq<RawIp>) {
    && (forall x :: x in xs ==> x in ips && SomeHits(ms, x))
    && (forall ip :: ip in ips && SomeHits(ms, ip) ==> SameAddrIn(ip, xs))
  }

  /** Left over in a view: a matcher of that kind exists and none of that kind accepts the address. */
  ghost predicate LeftIn(ms: seq<Matcher>, ip: RawIp, c: bool) {
    && FromStd(ip).Some?
    && HasKind(ms, FromStd(ip).value.family, c)
    && !Taken(ms, FromStd(ip).value.family, c, FromStd(ip).value)
  }

  ghost predicate LeftOver(ms: seq<Matcher>, ip: RawIp) {
    LeftIn(ms, ip, true) || LeftIn(ms, ip, false)
  }

  ghost predicate UnmatchedSide(ms: seq<Matcher>, ips: seq<RawIp>, xs: seq<RawIp>) {
    && (forall x :: x in xs ==> x in ips && LeftOver(ms, x))
    && (forall ip :: ip in ips && LeftOver(ms, ip) ==> SameAddrIn(ip, xs))
  }

  /** As a set of addresses, xs is exactly the valid addresses no matcher accepts. */
  ghost predicate ExactComplement(ms: seq<Matcher>, ips: seq<RawIp>, xs: seq<RawIp>) {
    && (forall x :: x in xs ==> x in ips && IsValid(x) && !SomeHits(ms, x))
    && (forall ip :: ip in ips && IsValid(ip) && !SomeHits(ms, ip) ==> SameAddrIn(ip, xs))
  }

  // ---- Filling the views ------------------------------------------------

  ghost predicate Untouched(bk: map<Key, Option<Bucket>>, ips: seq<RawIp>, f: Family) {
    && (forall k :: k in bk ==> exists ip :: ip in ips && InFamily(ip, f) && PrefixKey(ip) == Some(k))
    && (forall k :: k in bk ==> bk[k].Some? && BucketOk(bk[k].value, k, ips))
    && (forall ip :: ip in ips && InFamily(ip, f) ==> PrefixKey(ip).Some? && PrefixKey(ip).value in bk)
  }

  lemma UntouchedAdd(bk: map<Key, Option<Bucket>>, ips: seq<RawIp>, ip: RawIp, f: Family)
    requires Untouched(bk, ips, f) && InFamily(ip, f) && PrefixKey(ip).Some?
    ensures var k := PrefixKey(ip).value;
            var b := if k in bk then bk[k].value.(ips := bk[k].value.ips + [ip]) else Bucket(FromStd(ip).value, [ip]);
            Untouched(bk[k := Some(b)], ips + [ip], f)
  {
    hide FromStd, PrefixKey;
    var all := ips + [ip];
    var k := PrefixKey(ip).value;
    assert ip in all && forall x :: x in ips ==> x in all;
    if k !in bk {
      forall y | y in ips
        ensures PrefixKey(y) != Some(k)
      {
        if PrefixKey(y) == Some(k) {
          KeyIsBucket(ip);
          KeyIsBucket(y);
        }
      }
    }
  }

  lemma UntouchedSkip(bk: map<Key, Option<Bucket>>, ips: seq<RawIp>, ip: RawIp, f: Family)
    requires Untouched(bk, ips, f) && !InFamily(ip, f)
    ensures Untouched(bk, ips + [ip], f)
  {
    hide FromStd, PrefixKey;
    var all := ips + [ip];
    assert forall x :: x in ips ==> x in all;
    forall k | k in bk
      ensures PrefixKey(ip) != Some(k)
    {
      var y :| y in ips && InFamily(y, f) && PrefixKey(y) == Some(k);
      if PrefixKey(ip) == Some(k) {
        KeyIsBucket(ip);
        KeyIsBucket(y);
      }
    }
  }

  method FillBuckets(ips: seq<RawIp>, f: Family) returns (bk: map<Key, Option<Bucket>>)
    ensures Untouched(bk, ips, f)
  {
    hide FromStd, PrefixKey;
    bk := map[];
    for i := 0 to |ips|
      invariant Untouched(bk, ips[..i], f)
    {
      var ip := ips[i];
      assert ips[..i + 1] == ips[..i] + [ip];
      KeyIsBucket(ip);
      if PrefixKey(ip).Some? && PrefixKey(ip).value[0] == (if f.F4? then 4 else 6) {
        UntouchedAdd(bk, ips[..i], ip, f);
        var k := PrefixKey(ip).value;
        var b := if k in bk then bk[k].value.(ips := bk[k].value.ips + [ip]) else Bucket(FromStd(ip).value, [ip]);
        bk := bk[k := Some(b)];
      } else {
        UntouchedSkip(bk, ips[..i], ip, f);
      }
    }
    assert ips[..|ips|] == ips;
  }

  ghost predicate UntouchedPrecise(pr: map<Addr, Option<RawIp>>, ips: seq<RawIp>, f: Family) {
    && (forall a :: a in pr ==> pr[a].Some? && pr[a].value in ips && FromStd(pr[a].value) == Some(a) && a.family == f)
    && (forall ip :: ip in ips && InFamily(ip, f) ==> FromStd(ip).value in pr)
  }

  method FillPrecise(ips: seq<RawIp>, f: Family) returns (pr: map<Addr, Option<RawIp>>)
    ensures UntouchedPrecise(pr, ips, f)
  {
    hide FromStd, PrefixKey;
    pr := map[];
    for i := 0 to |ips|
      invariant UntouchedPrecise(pr, ips[..i], f)
    {
      var ip := ips[i];
      assert ips[..i + 1] == ips[..i] + [ip];
      KeyIsBucket(ip);
      if PrefixKey(ip).Some? && PrefixKey(ip).value[0] == (if f.F4? then 4 else 6) {
        pr := pr[FromStd(ip).value := Some(ip)];
      }
    }
    assert ips[..|ips|] == ips;
  }

  // ---- Striking out -----------------------------------------------------

  function StruckBy(m: Matcher, b: Option<Bucket>): bool {
    b.Some? && Accepts(m, b.value.rep)
  }

  method StrikeBuckets(m: Matcher, bk: map<Key, Option<Bucket>>) returns (bk': map<Key, Option<Bucket>>, got: seq<RawIp>)
    requires Valid(m)
    ensures bk'.Keys == bk.Keys
    ensures forall k :: k in bk ==> bk'[k] == if StruckBy(m, bk[k]) then None else bk[k]
    ensures forall x :: x in got <==> exists k :: k in bk && StruckBy(m, bk[k]) && x in bk[k].value.ips
  {
    hide Accepts, MatchAddr, Valid;
    bk', got := bk, [];
    var todo := bk.Keys;
    while todo != {}
      invariant todo <= bk.Keys && bk'.Keys == bk.Keys
      invariant forall k :: k in bk ==> bk'[k] == if k !in todo && StruckBy(m, bk[k]) then None else bk[k]
      invariant forall x :: x in got <==> exists k :: k in bk && k !in todo && StruckBy(m, bk[k]) && x in bk[k].value.ips
    {
      var k :| k in todo;
      if bk'[k].Some? {
        var b := bk'[k].value;
        MatchAddrIsMembership(m, b.rep);
        if MatchAddr(m, b.rep) {
          bk' := bk'[k := None];
          got := got + b.ips;
        }
      }
      todo := todo - {k};
    }
  }

  method StrikePrecise(m: Matcher, pr: map<Addr, Option<RawIp>>) returns (pr': map<Addr, Option<RawIp>>, got: seq<RawIp>)
    requires Valid(m)
    ensures pr'.Keys == pr.Keys
    ensures forall a :: a in pr ==> pr'[a] == if Accepts(m, a) then None else pr[a]
    ensures forall x :: x in got <==> exists a :: a in pr && Accepts(m, a) && pr[a] == Some(x)
  {
    hide Accepts, MatchAddr, Valid;
    pr', got := pr, [];
    var todo := pr.Keys;
    while todo != {}
      invariant todo <= pr.Keys && pr'.Keys == pr.Keys
      invariant forall a :: a in pr ==> pr'[a] == if a !in todo && Accepts(m, a) then None else pr[a]
      invariant forall x :: x in got <==> exists a :: a in pr && a !in todo && Accepts(m, a) && pr[a] == Some(x)
    {
      var a :| a in todo;
      if pr'[a].Some? {
        MatchAddrIsMembership(m, a);
        if MatchAddr(m, a) {
          got := got + [pr'[a].value];
          pr' := pr'[a := None];
        }
      }
      todo := todo - {a};
    }
  }

  // ---- One matcher ------------------------------------------------------

  lemma TakenSnoc(done: seq<Matcher>, m: Matcher, f: Family, c: bool)
    ensures HasKind(done + [m], f, c) <==> HasKind(done, f, c) || Coarse(m, f) == c
    ensures forall a :: Taken(done + [m], f, c, a) <==> Taken(done, f, c, a) || (Coarse(m, f) == c && Accepts(m, a))
  {
    hide Coarse, Accepts;
    var all := done + [m];
    assert m in all && forall x :: x in done ==> x in all;
  }

  /** What a matcher newly takes, and that nothing it accepts is missed. */
  ghost predicate Takes(m: Matcher, got: seq<RawIp>, ips: seq<RawIp>, f: Family, done: seq<Matcher>) {
    && (forall x :: x in got ==> x in ips && InFamily(x, f) && Hits(m, x))
    && (forall ip :: ip in ips && InFamily(ip, f) && Hits(m, ip) ==>
          SameAddrIn(ip, got) || Taken(done, f, Coarse(m, f), FromStd(ip).value))
  }

  ghost predicate Struck(m: Matcher, bk: map<Key, Option<Bucket>>, bk': map<Key, Option<Bucket>>) {
    bk'.Keys == bk.Keys && forall k :: k in bk ==> bk'[k] == if StruckBy(m, bk[k]) then None else bk[k]
  }

  ghost predicate StruckOut(m: Matcher, bk: map<Key, Option<Bucket>>, got: seq<RawIp>) {
    forall x :: x in got <==> exists k :: k in bk && StruckBy(m, bk[k]) && x in bk[k].value.ips
  }

  /** The representative of a bucket speaks for each of its slices. */
  lemma BucketSpeaks(m: Matcher, bk: map<Key, Option<Bucket>>, ips: seq<RawIp>, f: Family, done: seq<Matcher>, k: Key, ip: RawIp)
    requires Valid(m) && Coarse(m, f) && BucketsOk(bk, ips, f, done)
    requires k in bk && bk[k].Some? && ip in ips && PrefixKey(ip) == Some(k)
    ensures InFamily(ip, f) && Hits(m, ip) == StruckBy(m, bk[k])
  {
    hide FromStd, PrefixKey, Accepts, Valid, Coarse;
    var y :| y in ips && PrefixKey(y) == Some(k) && FromStd(y) == Some(bk[k].value.rep);
    var z :| z in ips && InFamily(z, f) && PrefixKey(z) == Some(k);
    KeyIsBucket(ip);
    KeyIsBucket(z);
    SameKeySameAnswer(m, ip, y);
  }

  lemma AfterStrikeBuckets(m: Matcher, bk: map<Key, Option<Bucket>>, bk': map<Key, Option<Bucket>>, ips: seq<RawIp>, f: Family, done: seq<Matcher>)
    requires Valid(m) && Coarse(m, f) && BucketsOk(bk, ips, f, done) && Struck(m, bk, bk')
    ensures BucketsOk(bk', ips, f, done + [m])
  {
    hide FromStd, PrefixKey, Accepts, Valid, Coarse, BucketOk, Taken, StruckBy;
    TakenSnoc(done, m, f, true);
    forall ip | ip in ips && InFamily(ip, f)
      ensures bk'[PrefixKey(ip).value].None? <==> Taken(done + [m], f, true, FromStd(ip).value)
    {
      var k := PrefixKey(ip).value;
      if bk[k].Some? {
        BucketSpeaks(m, bk, ips, f, done, k, ip);
      }
    }
  }

  lemma StruckOutTakes(m: Matcher, bk: map<Key, Option<Bucket>>, got: seq<RawIp>, ips: seq<RawIp>, f: Family, done: seq<Matcher>)
    requires Valid(m) && Coarse(m, f) && BucketsOk(bk, ips, f, done) && StruckOut(m, bk, got)
    ensures Takes(m, got, ips, f, done)
  {
    hide FromStd, PrefixKey, Accepts, Valid, Coarse, Taken;
    forall x | x in got
      ensures x in ips && InFamily(x, f) && Hits(m, x)
    {
      var k :| k in bk && StruckBy(m, bk[k]) && x in bk[k].value.ips;
      BucketSpeaks(m, bk, ips, f, done, k, x);
    }
    forall ip | ip in ips && InFamily(ip, f) && Hits(m, ip) && !Taken(done, f, true, FromStd(ip).value)
      ensures ip in got
    {
      BucketSpeaks(m, bk, ips, f, done, PrefixKey(ip).value, ip);
      assert ip in bk[PrefixKey(ip).value].value.ips;
    }
  }

  /** A matcher of the other kind leaves a view as it was. */
  lemma OtherKind(m: Matcher, ips: seq<RawIp>, f: Family, done: seq<Matcher>, bk: map<Key, Option<Bucket>>, pr: map<Addr, Option<RawIp>>)
    ensures !Coarse(m, f) && BucketsOk(bk, ips, f, done) ==> BucketsOk(bk, ips, f, done + [m])
    ensures Coarse(m, f) && PreciseOk(pr, ips, f, done) ==> PreciseOk(pr, ips, f, done + [m])
  {
    hide FromStd, PrefixKey, Accepts, Coarse, Taken, BucketOk;
    TakenSnoc(done, m, f, true);
    TakenSnoc(done, m, f, false);
  }

  /** A freshly filled view is right when no matcher so far reads that kind. */
  lemma FreshView(ips: seq<RawIp>, f: Family, done: seq<Matcher>, bk: map<Key, Option<Bucket>>, pr: map<Addr, Option<RawIp>>)
    ensures Untouched(bk, ips, f) && !HasKind(done, f, true) ==> BucketsOk(bk, ips, f, done)
    ensures UntouchedPrecise(pr, ips, f) && !HasKind(done, f, false) ==> PreciseOk(pr, ips, f, done)
  {
    hide FromStd, PrefixKey, Accepts, Coarse, BucketOk;
  }

  lemma AfterStrikePrecise(m: Matcher, pr: map<Addr, Option<RawIp>>, pr': map<Addr, Option<RawIp>>, got: seq<RawIp>, ips: seq<RawIp>, f: Family, done: seq<Matcher>)
    requires !Coarse(m, f) && PreciseOk(pr, ips, f, done)
    requires pr'.Keys == pr.Keys
    requires forall a :: a in pr ==> pr'[a] == if Accepts(m, a) then None else pr[a]
    requires forall x :: x in got <==> exists a :: a in pr && Accepts(m, a) && pr[a] == Some(x)
    ensures PreciseOk(pr', ips, f, done + [m]) && Takes(m, got, ips, f, done)
  {
    hide FromStd, Accepts, Coarse;
    TakenSnoc(done, m, f, false);
    forall x | x in got
      ensures x in ips && InFamily(x, f) && Hits(m, x)
    {
      var a :| a in pr && Accepts(m, a) && pr[a] == Some(x);
      var ip :| ip in ips && InFamily(ip, f) && FromStd(ip) == Some(a);
    }
    forall ip | ip in ips && InFamily(ip, f) && Hits(m, ip) && !Taken(done, f, false, FromStd(ip).value)
      ensures SameAddrIn(ip, got)
    {
      var a := FromStd(ip).value;
      assert pr[a].value in got;
    }
  }

  /** ensureForMatcher for one family: a view first needed here has not been struck by any earlier matcher. */
  method Ensure(v: FilterView, m: Matcher, ips: seq<RawIp>, f: Family, ghost done: seq<Matcher>) returns (v': FilterView)
    requires ViewOk(v, ips, f, done)
    ensures v'.buckets.Some? <==> HasKind(done, f, true) || Coarse(m, f)
    ensures v'.precise.Some? <==> HasKind(done, f, false) || !Coarse(m, f)
    ensures v'.buckets.Some? ==> BucketsOk(v'.buckets.value, ips, f, done)
    ensures v'.precise.Some? ==> PreciseOk(v'.precise.value, ips, f, done)
  {
    hide FromStd, PrefixKey, Accepts, Coarse, BucketsOk, PreciseOk, Untouched, UntouchedPrecise, HasKind;
    v' := v;
    if Coarse(m, f) && v.buckets.None? {
      var bk := FillBuckets(ips, f);
      FreshView(ips, f, done, bk, map[]);
      v' := v.(buckets := Some(bk));
    } else if !Coarse(m, f) && v.precise.None? {
      var pr := FillPrecise(ips, f);
      FreshView(ips, f, done, map[], pr);
      v' := v.(precise := Some(pr));
    }
  }

  method Apply(v: FilterView, m: Matcher, ips: seq<RawIp>, f: Family, ghost done: seq<Matcher>) returns (v': FilterView, got: seq<RawIp>)
    requires Valid(m) && ViewOk(v, ips, f, done)
    ensures ViewOk(v', ips, f, done + [m]) && Takes(m, got, ips, f, done)
  {
    hide FromStd, PrefixKey, Accepts, Coarse, Valid, StruckBy, Takes, BucketsOk, PreciseOk, HasKind, Taken;
    v' := Ensure(v, m, ips, f, done);
    TakenSnoc(done, m, f, true);
    TakenSnoc(done, m, f, false);
    var bk := if v'.buckets.Some? then v'.buckets.value else map[];
    var pr := if v'.precise.Some? then v'.precise.value else map[];
    OtherKind(m, ips, f, done, bk, pr);
    if Coarse(m, f) {
      var bk';
      bk', got := StrikeBuckets(m, bk);
      AfterStrikeBuckets(m, bk, bk', ips, f, done);
      StruckOutTakes(m, bk, got, ips, f, done);
      v' := v'.(buckets := Some(bk'));
    } else {
      var pr';
      pr', got := StrikePrecise(m, pr);
      AfterStrikePrecise(m, pr, pr', got, ips, f, done);
      v' := v'.(precise := Some(pr'));
    }
  }

  lemma HitsSnoc(done: seq<Matcher>, m: Matcher, ip: RawIp)
    ensures SomeHits(done + [m], ip) <==> SomeHits(done, ip) || Hits(m, ip)
  {
    hide Hits;
    assert m in done + [m] && forall x :: x in done ==> x in done + [m];
  }

  lemma MatchedSideStep(done: seq<Matcher>, m: Matcher, ips: seq<RawIp>, matched: seq<RawIp>, got4: seq<RawIp>, got6: seq<RawIp>)
    requires MatchedSide(done, ips, matched) && Takes(m, got4, ips, F4, done) && Takes(m, got6, ips, F6, done)
    ensures MatchedSide(done + [m], ips, matched + got4 + got6)
  {
    hide FromStd, Accepts, Coarse;
    var all := matched + got4 + got6;
    assert forall x :: x in matched || x in got4 || x in got6 <==> x in all;
    forall x
      ensures SomeHits(done + [m], x) <==> SomeHits(done, x) || Hits(m, x)
    {
      HitsSnoc(done, m, x);
    }
    forall ip | ip in ips && SomeHits(done + [m], ip)
      ensures SameAddrIn(ip, all)
    {
      if !SomeHits(done, ip) {
        assert InFamily(ip, F4) || InFamily(ip, F6);
      }
    }
  }

  // ---- What is left -----------------------------------------------------

  method DrainBuckets(bk: map<Key, Option<Bucket>>) returns (xs: seq<RawIp>)
    ensures forall x :: x in xs <==> exists k :: k in bk && bk[k].Some? && x in bk[k].value.ips
  {
    xs := [];
    var todo := bk.Keys;
    while todo != {}
      invariant todo <= bk.Keys
      invariant forall x :: x in xs <==> exists k :: k in bk && k !in todo && bk[k].Some? && x in bk[k].value.ips
    {
      var k :| k in todo;
      if bk[k].Some? {
        xs := xs + bk[k].value.ips;
      }
      todo := todo - {k};
    }
  }

  method DrainPrecise(pr: map<Addr, Option<RawIp>>) returns (xs: seq<RawIp>)
    ensures forall x :: x in xs <==> exists a :: a in pr && pr[a] == Some(x)
  {
    xs := [];
    var todo := pr.Keys;
    while todo != {}
      invariant todo <= pr.Keys
      invariant forall x :: x in xs <==> exists a :: a in pr && a !in todo && pr[a] == Some(x)
    {
      var a :| a in todo;
      if pr[a].Some? {
        xs := xs + [pr[a].value];
      }
      todo := todo - {a};
    }
  }

  /** xs lists, as a set of addresses, what one family's view of kind c has left. */
  ghost predicate Leaves(xs: seq<RawIp>, ms: seq<Matcher>, ips: seq<RawIp>, f: Family, c: bool) {
    && (forall x :: x in xs ==> x in ips && InFamily(x, f) && LeftIn(ms, x, c))
    && (forall ip :: ip in ips && InFamily(ip, f) && LeftIn(ms, ip, c) ==> SameAddrIn(ip, xs))
  }

  lemma BucketsLeave(bk: map<Key, Option<Bucket>>, xs: seq<RawIp>, ms: seq<Matcher>, ips: seq<RawIp>, f: Family)
    requires BucketsOk(bk, ips, f, ms) && HasKind(ms, f, true)
    requires forall x :: x in xs <==> exists k :: k in bk && bk[k].Some? && x in bk[k].value.ips
    ensures Leaves(xs, ms, ips, f, true)
  {
    hide FromStd, PrefixKey, Taken, HasKind;
    forall x | x in xs
      ensures x in ips && InFamily(x, f) && LeftIn(ms, x, true)
    {
      var k :| k in bk && bk[k].Some? && x in bk[k].value.ips;
      var z :| z in ips && InFamily(z, f) && PrefixKey(z) == Some(k);
      KeyIsBucket(x);
      KeyIsBucket(z);
    }
    forall ip | ip in ips && InFamily(ip, f) && LeftIn(ms, ip, true)
      ensures ip in xs
    {
      var k := PrefixKey(ip).value;
      assert bk[k].Some? && ip in bk[k].value.ips;
    }
  }

  lemma PreciseLeaves(pr: map<Addr, Option<RawIp>>, xs: seq<RawIp>, ms: seq<Matcher>, ips: seq<RawIp>, f: Family)
    requires PreciseOk(pr, ips, f, ms) && HasKind(ms, f, false)
    requires forall x :: x in xs <==> exists a :: a in pr && pr[a] == Some(x)
    ensures Leaves(xs, ms, ips, f, false)
  {
    hide FromStd, Taken, HasKind;
    forall x | x in xs
      ensures x in ips && InFamily(x, f) && LeftIn(ms, x, false)
    {
      var a :| a in pr && pr[a] == Some(x);
      var z :| z in ips && InFamily(z, f) && FromStd(z) == Some(a);
    }
    forall ip | ip in ips && InFamily(ip, f) && LeftIn(ms, ip, false)
      ensures SameAddrIn(ip, xs)
    {
      assert pr[FromStd(ip).value].value in xs;
    }
  }

  method Drain(v: FilterView, ghost ms: seq<Matcher>, ghost ips: seq<RawIp>, ghost f: Family) returns (inBuckets: seq<RawIp>, inPrecise: seq<RawIp>)
    requires ViewOk(v, ips, f, ms)
    ensures Leaves(inBuckets, ms, ips, f, true) && Leaves(inPrecise, ms, ips, f, false)
  {
    hide FromStd, PrefixKey, Taken, HasKind, BucketsOk, PreciseOk;
    inBuckets, inPrecise := [], [];
    if v.buckets.Some? {
      inBuckets := DrainBuckets(v.buckets.value);
      BucketsLeave(v.buckets.value, inBuckets, ms, ips, f);
    }
    if v.precise.Some? {
      inPrecise := DrainPrecise(v.precise.value);
      PreciseLeaves(v.precise.value, inPrecise, ms, ips, f);
    }
  }

  lemma AllLeft(ms: seq<Matcher>, ips: seq<RawIp>, b4: seq<RawIp>, p4: seq<RawIp>, b6: seq<RawIp>, p6: seq<RawIp>)
    requires Leaves(b4, ms, ips, F4, true) && Leaves(p4, ms, ips, F4, false)
    requires Leaves(b6, ms, ips, F6, true) && Leaves(p6, ms, ips, F6, false)
    ensures UnmatchedSide(ms, ips, b4 + p4 + b6 + p6)
  {
    hide FromStd, Taken, HasKind;
    var all := b4 + p4 + b6 + p6;
    assert forall x :: x in b4 || x in p4 || x in b6 || x in p6 <==> x in all;
    forall ip | ip in ips && LeftOver(ms, ip)
      ensures SameAddrIn(ip, all)
    {
      assert InFamily(ip, F4) || InFamily(ip, F6);
    }
  }

  /**
   FilterIPs: matched is, as a set of addresses, exactly what some matcher accepts; with two or
   more slices, unmatched is exactly what is left over in some view.
   */
  method FilterIPs(ms: seq<Matcher>, ips: seq<RawIp>) returns (matched: seq<RawIp>, unmatched: seq<RawIp>)
    requires AllValid(ms)
    ensures MatchedSide(ms, ips, matched)
    ensures |ips| >= 2 ==> UnmatchedSide(ms, ips, unmatched)
    ensures |ips| < 2 ==> ExactComplement(ms, ips, unmatched)
  {
    if |ips| == 0 {
      return [], [];
    }
    if |ips| == 1 {
      assert ips == [ips[0]];
      hide FromStd, Hits;
      if FromStd(ips[0]).None? {
        InvalidNeverHits(ms, ips[0]);
        return [], [];
      }
      var hit := IpMulti.Match(ms, ips[0]);
      assert ips[0] in ips && SameAddrIn(ips[0], ips);
      if hit {
        return ips, [];
      }
      return [], ips;
    }
    hide FromStd, Accepts, Coarse, Valid, BucketsOk, PreciseOk, Takes, MatchedSide, UnmatchedSide;
    matched := [];
    var v4, v6 := FilterView(None, None), FilterView(None, None);
    StartsEmpty(ips);
    for j := 0 to |ms|
      invariant ViewOk(v4, ips, F4, ms[..j]) && ViewOk(v6, ips, F6, ms[..j])
      invariant MatchedSide(ms[..j], ips, matched)
    {
      var m := ms[j];
      assert ms[..j + 1] == ms[..j] + [m];
      assert Valid(m) by { EachValid(ms, j); }
      var got4, got6;
      v4, got4 := Apply(v4, m, ips, F4, ms[..j]);
      v6, got6 := Apply(v6, m, ips, F6, ms[..j]);
      MatchedSideStep(ms[..j], m, ips, matched, got4, got6);
      matched := matched + got4 + got6;
    }
    assert ms[..|ms|] == ms;
    var b4, p4 := Drain(v4, ms, ips, F4);
    var b6, p6 := Drain(v6, ms, ips, F6);
    unmatched := b4 + p4 + b6 + p6;
    AllLeft(ms, ips, b4, p4, b6, p6);
  }

  lemma StartsEmpty(ips: seq<RawIp>)
    ensures ViewOk(FilterView(None, None), ips, F4, []) && ViewOk(FilterView(None, None), ips, F6, [])
    ensures MatchedSide([], ips, [])
  {
  }

  lemma InvalidNeverHits(ms: seq<Matcher>, ip: RawIp)
    requires FromStd(ip).None?
    ensures !SomeHits(ms, ip)
  {
  }

  // ---- When the two sides are a split -----------------------------------

  /** All matchers are on the same side of the 24 threshold, and of the 64 threshold. */
  ghost predicate SameSide(ms: seq<Matcher>) {
    forall f, m, n :: m in ms && n in ms ==> Coarse(m, f) == Coarse(n, f)
  }

  lemma HitOrLeft(ms: seq<Matcher>, ip: RawIp)
    requires ms != [] && IsValid(ip) && !SomeHits(ms, ip)
    ensures LeftOver(ms, ip)
  {
    hide Accepts, Coarse, FromStd;
    var f := FromStd(ip).value.family;
    assert ms[0] in ms && HasKind(ms, f, Coarse(ms[0], f));
  }

  lemma SameAddrSameFate(ms: seq<Matcher>, x: RawIp, y: RawIp)
    requires FromStd(x) == FromStd(y)
    ensures SomeHits(ms, x) == SomeHits(ms, y) && LeftOver(ms, x) == LeftOver(ms, y)
  {
    hide Accepts, Coarse, FromStd;
  }

  /**
   The unmatched side is the exact complement if and only if every accepted address of the list is
   accepted by a matcher of each kind that is present for its family.
   */
  lemma ComplementIff(ms: seq<Matcher>, ips: seq<RawIp>, unmatched: seq<RawIp>)
    requires ms != [] && UnmatchedSide(ms, ips, unmatched)
    ensures ExactComplement(ms, ips, unmatched) <==> forall ip :: ip in ips && SomeHits(ms, ip) ==> !LeftOver(ms, ip)
  {
    hide FromStd, LeftOver, SomeHits;
    forall ip | ip in ips && IsValid(ip) && !SomeHits(ms, ip)
      ensures LeftOver(ms, ip)
    {
      HitOrLeft(ms, ip);
    }
    if ip :| ip in ips && SomeHits(ms, ip) && LeftOver(ms, ip) {
      var x :| x in unmatched && FromStd(x) == FromStd(ip);
      SameAddrSameFate(ms, x, ip);
    } else {
      forall x | x in unmatched
        ensures IsValid(x)
      {
        LeftOverIsValid(ms, x);
      }
    }
  }

  lemma LeftOverIsValid(ms: seq<Matcher>, ip: RawIp)
    requires LeftOver(ms, ip)
    ensures IsValid(ip)
  {
  }

  /** Matchers on the same side of both thresholds split the list exactly. */
  lemma SameSideSplits(ms: seq<Matcher>, ips: seq<RawIp>, unmatched: seq<RawIp>)
    requires ms != [] && SameSide(ms) && UnmatchedSide(ms, ips, unmatched)
    ensures ExactComplement(ms, ips, unmatched)
  {
    hide Accepts, FromStd, Coarse, UnmatchedSide, ExactComplement;
    ComplementIff(ms, ips, unmatched);
    forall ip | ip in ips && SomeHits(ms, ip)
      ensures !LeftOver(ms, ip)
    {
      var m :| m in ms && Hits(m, ip);
      var f := FromStd(ip).value.family;
      assert Taken(ms, f, Coarse(m, f), FromStd(ip).value);
    }
  }

  /** 10.0.0.0/8, and 1.1.1.1/32: one matcher below the IPv4 threshold and one above it. */
  const MIXED: seq<Matcher> := [ Matcher([Prefix([10, 0, 0, 0], 8)], [], 8, 0xff, false),
                                 Matcher([Prefix([1, 1, 1, 1], 32)], [], 32, 0xff, false) ]

  const TEN: RawIp := [10, 0, 0, 1]

  lemma TenIsMatched()
    ensures SomeHits(MIXED, TEN)
  {
    assert Covers(MIXED[0].v4[0], TEN);
    assert MIXED[0] in MIXED && Hits(MIXED[0], TEN);
  }

  lemma TenIsLeft()
    ensures LeftIn(MIXED, TEN, false)
  {
    var a := FromStd(TEN).value;
    assert Bit([1, 1, 1, 1], 4) == 0 && Bit(TEN, 4) == 1;
    assert !Covers(MIXED[1].v4[0], TEN);
    assert !Accepts(MIXED[1], a);
    assert MIXED[1] in MIXED && HasKind(MIXED, F4, false);
  }

  /** On mixed sides an address comes back on both sides. */
  lemma MixedSidesOverlap(ips: seq<RawIp>, unmatched: seq<RawIp>)
    requires TEN in ips && UnmatchedSide(MIXED, ips, unmatched)
    ensures AllValid(MIXED)
    ensures SomeHits(MIXED, TEN) && SameAddrIn(TEN, unmatched)
  {
    TenIsMatched();
    TenIsLeft();
    hide SomeHits, LeftIn;
  }
}
