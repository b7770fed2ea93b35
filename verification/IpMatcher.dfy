/**
 HeuristicIPMatcher: AnyMatch, Matches and FilterIPs, which test one
 representative per /24 or /64 bucket, against plain per-address membership.
 */
module IpMatcher {
  import opened Basics
  import opened IpSet

  /** The slice is an address the matcher accepts. */
  predicate Hits(m: Matcher, ip: RawIp) {
    FromStd(ip).Some? && Accepts(m, FromStd(ip).value)
  }

  predicate IsValid(ip: RawIp) {
    FromStd(ip).Some?
  }

  method Match(m: Matcher, ip: RawIp) returns (r: bool)
    requires Valid(m)
    ensures r == Hits(m, ip)
  {
    match FromStd(ip)
    case None => r := false;
    case Some(a) => MatchAddrIsMembership(m, a); r := MatchAddr(m, a);
  }

  /** Two slices of one bucket get the same answer from a coarse matcher. */
  lemma SameKeySameAnswer(m: Matcher, x: RawIp, y: RawIp)
    requires Valid(m) && PrefixKey(x).Some? && PrefixKey(x) == PrefixKey(y) && Coarse(m, FromStd(x).value.family)
    ensures Hits(m, x) == Hits(m, y)
  {
    KeyIsBucket(x);
    KeyIsBucket(y);
    BucketIsUniform(m, FromStd(x).value, FromStd(y).value);
  }

  /** AnyMatch is: some valid address of the list is accepted. */
  method AnyMatch(m: Matcher, ips: seq<RawIp>) returns (r: bool)
    requires Valid(m)
    ensures r <==> exists ip :: ip in ips && Hits(m, ip)
  {
    if |ips| == 0 {
      return false;
    }
    if |ips| == 1 {
      r := Match(m, ips[0]);
      return;
    }
    var heur4, heur6 := m.max4 <= 24, m.max6 <= 64;
    var buckets: set<Key> := {};
    for i := 0 to |ips|
      invariant forall j :: 0 <= j < i ==> !Hits(m, ips[j])
      invariant forall k :: k in buckets ==> exists j :: 0 <= j < i && PrefixKey(ips[j]) == Some(k)
    {
      var ip := ips[i];
      KeyIsBucket(ip);
      var key := PrefixKey(ip);
      if key.None? {
        continue;
      }
      var heur := (key.value[0] == 4 && heur4) || (key.value[0] == 6 && heur6);
      if heur && key.value in buckets {
        ghost var j :| 0 <= j < i && PrefixKey(ips[j]) == key;
        SameKeySameAnswer(m, ip, ips[j]);
        continue;
      }
      MatchAddrIsMembership(m, FromStd(ip).value);
      if MatchAddr(m, FromStd(ip).value) {
        assert ip in ips;
        return true;
      }
      if heur {
        buckets := buckets + {key.value};
      }
    }
    return false;
  }

  /** Coarse addresses represented by bucket, the others listed one by one. */
  ghost predicate Represents(m: Matcher, ips: seq<RawIp>, buckets: map<Key, Addr>, precise: seq<Addr>) {
    && (forall ip :: ip in ips ==> IsValid(ip))
    && (forall ip :: ip in ips && Coarse(m, FromStd(ip).value.family) ==>
          PrefixKey(ip).Some? && PrefixKey(ip).value in buckets)
    && (forall ip :: ip in ips && !Coarse(m, FromStd(ip).value.family) ==> FromStd(ip).value in precise)
    && (forall k :: k in buckets ==> exists ip :: ip in ips && PrefixKey(ip) == Some(k) && FromStd(ip) == Some(buckets[k]))
    && (forall a :: a in precise ==> exists ip :: ip in ips && FromStd(ip) == Some(a))
  }

  /** The two views together decide the whole list. */
  lemma RepresentativesDecide(m: Matcher, ips: seq<RawIp>, buckets: map<Key, Addr>, precise: seq<Addr>)
    requires Valid(m) && Represents(m, ips, buckets, precise)
    ensures (forall k :: k in buckets ==> Accepts(m, buckets[k])) && (forall a :: a in precise ==> Accepts(m, a))
            <==> forall ip :: ip in ips ==> Hits(m, ip)
  {
    if forall ip :: ip in ips ==> Hits(m, ip) {
    } else {
      var ip :| ip in ips && !Hits(m, ip);
      if Coarse(m, FromStd(ip).value.family) {
        var k := PrefixKey(ip).value;
        var y :| y in ips && PrefixKey(y) == Some(k) && FromStd(y) == Some(buckets[k]);
        SameKeySameAnswer(m, ip, y);
      }
    }
  }

  /** Fills the buckets and the precise list; stops at the first invalid slice. */
  method Represent(m: Matcher, ips: seq<RawIp>) returns (ok: bool, buckets: map<Key, Addr>, precise: seq<Addr>)
    ensures ok <==> forall ip :: ip in ips ==> IsValid(ip)
    ensures ok ==> Represents(m, ips, buckets, precise)
  {
    var heur4, heur6 := m.max4 <= 24, m.max6 <= 64;
    buckets, precise := map[], [];
    for i := 0 to |ips|
      invariant Represents(m, ips[..i], buckets, precise)
    {
      var ip := ips[i];
      assert ips[..i + 1] == ips[..i] + [ip];
      KeyIsBucket(ip);
      var key := PrefixKey(ip);
      if key.None? {
        assert ip in ips && !IsValid(ip);
        return false, buckets, precise;
      }
      if (key.value[0] == 4 && heur4) || (key.value[0] == 6 && heur6) {
        if key.value !in buckets {
          buckets := buckets[key.value := FromStd(ip).value];
        }
      } else {
        precise := precise + [FromStd(ip).value];
      }
    }
    assert ips[..|ips|] == ips;
    ok := true;
  }

  /** Matches is: the list is non-empty and every element is a valid, accepted address. */
  method Matches(m: Matcher, ips: seq<RawIp>) returns (r: bool)
    requires Valid(m)
    ensures r <==> ips != [] && forall ip :: ip in ips ==> Hits(m, ip)
  {
    if |ips| == 0 {
      return false;
    }
    if |ips| == 1 {
      r := Match(m, ips[0]);
      return;
    }
    hide Accepts, FromStd, PrefixKey, MatchAddr, Represents;
    var ok, buckets, precise := Represent(m, ips);
    if !ok {
      return false;
    }
    RepresentativesDecide(m, ips, buckets, precise);
    var todo := buckets.Keys;
    while todo != {}
      invariant todo <= buckets.Keys
      invariant forall k :: k in buckets && k !in todo ==> Accepts(m, buckets[k])
    {
      var k :| k in todo;
      MatchAddrIsMembership(m, buckets[k]);
      if !MatchAddr(m, buckets[k]) {
        return false;
      }
      todo := todo - {k};
    }
    for i := 0 to |precise|
      invariant forall a :: a in precise[..i] ==> Accepts(m, a)
    {
      MatchAddrIsMembership(m, precise[i]);
      if !MatchAddr(m, precise[i]) {
        return false;
      }
    }
    assert precise[..|precise|] == precise;
    return true;
  }

  // ---- FilterIPs --------------------------------------------------------

  datatype Bucket = Bucket(rep: Addr, ips: seq<RawIp>)

  /** A valid slice whose family the matcher treats by bucket. */
  predicate CoarseIp(m: Matcher, ip: RawIp) {
    FromStd(ip).Some? && Coarse(m, FromStd(ip).value.family)
  }

  /** The slices of one bucket, in list order. */
  function OfKey(ips: seq<RawIp>, k: Key): seq<RawIp> {
    if ips == [] then []
    else OfKey(ips[..|ips| - 1], k) + (if PrefixKey(ips[|ips| - 1]) == Some(k) then [ips[|ips| - 1]] else [])
  }

  lemma {:induction false} OfKeyCount(ips: seq<RawIp>, k: Key, x: RawIp)
    ensures multiset(OfKey(ips, k))[x] == if PrefixKey(x) == Some(k) then multiset(ips)[x] else 0
  {
    if ips != [] {
      OfKeyCount(ips[..|ips| - 1], k, x);
      assert ips == ips[..|ips| - 1] + [ips[|ips| - 1]];
    }
  }

  /** The valid slices that must be tested one by one, in list order. */
  function Fine(m: Matcher, ips: seq<RawIp>): seq<RawIp> {
    if ips == [] then []
    else Fine(m, ips[..|ips| - 1]) + (if IsValid(ips[|ips| - 1]) && !CoarseIp(m, ips[|ips| - 1]) then [ips[|ips| - 1]] else [])
  }

  lemma {:induction false} FineCount(m: Matcher, ips: seq<RawIp>, x: RawIp)
    ensures multiset(Fine(m, ips))[x] == if IsValid(x) && !CoarseIp(m, x) then multiset(ips)[x] else 0
  {
    if ips != [] {
      FineCount(m, ips[..|ips| - 1], x);
      assert ips == ips[..|ips| - 1] + [ips[|ips| - 1]];
    }
  }

  /** The representative of key k is the address of a coarse slice with that key. */
  ghost predicate Represented(m: Matcher, ips: seq<RawIp>, k: Key, rep: Addr) {
    exists ip :: ip in ips && CoarseIp(m, ip) && PrefixKey(ip) == Some(k) && FromStd(ip) == Some(rep)
  }

  ghost predicate Opened(m: Matcher, ips: seq<RawIp>, buckets: map<Key, Bucket>) {
    forall ip :: ip in ips && CoarseIp(m, ip) ==> PrefixKey(ip).Some? && PrefixKey(ip).value in buckets
  }

  ghost predicate Filled(m: Matcher, ips: seq<RawIp>, k: Key, b: Bucket) {
    b.ips == OfKey(ips, k) && Represented(m, ips, k, b.rep)
  }

  /** Every coarse slice has its bucket, and a bucket holds the slices of its key in order. */
  ghost predicate Bucketed(m: Matcher, ips: seq<RawIp>, buckets: map<Key, Bucket>) {
    Opened(m, ips, buckets) && forall k :: k in buckets ==> Filled(m, ips, k, buckets[k])
  }

  lemma OfKeyAdd(ips: seq<RawIp>, ip: RawIp, k: Key)
    ensures OfKey(ips + [ip], k) == if PrefixKey(ip) == Some(k) then OfKey(ips, k) + [ip] else OfKey(ips, k)
  {
    assert (ips + [ip])[..|ips|] == ips;
  }

  lemma RepresentedAdd(m: Matcher, ips: seq<RawIp>, ip: RawIp, k: Key, rep: Addr)
    ensures Represented(m, ips, k, rep) ==> Represented(m, ips + [ip], k, rep)
    ensures CoarseIp(m, ip) && PrefixKey(ip) == Some(k) && FromStd(ip) == Some(rep) ==> Represented(m, ips + [ip], k, rep)
    ensures Represented(m, ips, k, rep) && PrefixKey(ip) == Some(k) ==> CoarseIp(m, ip)
  {
    hide PrefixKey, FromStd, CoarseIp;
    assert ip in ips + [ip];
    if Represented(m, ips, k, rep) {
      var y :| y in ips && CoarseIp(m, y) && PrefixKey(y) == Some(k) && FromStd(y) == Some(rep);
      assert y in ips + [ip];
      if PrefixKey(ip) == Some(k) {
        SameKeySameCoarse(m, ip, y);
      }
    }
  }

  lemma {:induction false} OfKeyAbsent(ips: seq<RawIp>, k: Key)
    requires forall ip :: ip in ips ==> PrefixKey(ip) != Some(k)
    ensures OfKey(ips, k) == []
  {
    if ips != [] {
      assert ips[|ips| - 1] in ips;
      OfKeyAbsent(ips[..|ips| - 1], k);
    }
  }

  lemma SameKeySameCoarse(m: Matcher, x: RawIp, y: RawIp)
    requires PrefixKey(x).Some? && PrefixKey(x) == PrefixKey(y)
    ensures CoarseIp(m, x) == CoarseIp(m, y)
  {
    KeyIsBucket(x);
    KeyIsBucket(y);
  }

  /** Appending a slice to its bucket, opening the bucket with it when it is the first. */
  function AddToBucket(buckets: map<Key, Bucket>, k: Key, a: Addr, ip: RawIp): map<Key, Bucket> {
    buckets[k := if k in buckets then buckets[k].(ips := buckets[k].ips + [ip]) else Bucket(a, [ip])]
  }

  lemma FilledAdd(m: Matcher, ips: seq<RawIp>, ip: RawIp, k: Key, b: Bucket)
    requires Filled(m, ips, k, b)
    ensures PrefixKey(ip) == Some(k) ==> CoarseIp(m, ip) && Filled(m, ips + [ip], k, b.(ips := b.ips + [ip]))
    ensures PrefixKey(ip) != Some(k) ==> Filled(m, ips + [ip], k, b)
  {
    hide PrefixKey, CoarseIp, OfKey, Represented;
    RepresentedAdd(m, ips, ip, k, b.rep);
    OfKeyAdd(ips, ip, k);
  }

  lemma FilledFirst(m: Matcher, ips: seq<RawIp>, ip: RawIp, k: Key, a: Addr, buckets: map<Key, Bucket>)
    requires Opened(m, ips, buckets) && k !in buckets
    requires CoarseIp(m, ip) && PrefixKey(ip) == Some(k) && FromStd(ip) == Some(a)
    ensures Filled(m, ips + [ip], k, Bucket(a, [ip]))
  {
    hide PrefixKey, FromStd, CoarseIp, OfKey;
    forall y | y in ips
      ensures PrefixKey(y) != Some(k)
    {
      if PrefixKey(y) == Some(k) {
        SameKeySameCoarse(m, ip, y);
      }
    }
    OfKeyAbsent(ips, k);
    OfKeyAdd(ips, ip, k);
    RepresentedAdd(m, ips, ip, k, a);
  }

  lemma OpenedAdd(m: Matcher, ips: seq<RawIp>, ip: RawIp, k: Key, buckets: map<Key, Bucket>, more: map<Key, Bucket>)
    requires Opened(m, ips, buckets) && PrefixKey(ip) == Some(k) && more.Keys == buckets.Keys + {k}
    ensures Opened(m, ips + [ip], more)
  {
    hide PrefixKey, CoarseIp;
  }

  lemma BucketedAdd(m: Matcher, ips: seq<RawIp>, ip: RawIp, buckets: map<Key, Bucket>)
    requires Bucketed(m, ips, buckets) && CoarseIp(m, ip) && PrefixKey(ip).Some? && FromStd(ip).Some?
    ensures Bucketed(m, ips + [ip], AddToBucket(buckets, PrefixKey(ip).value, FromStd(ip).value, ip))
  {
    hide PrefixKey, FromStd, CoarseIp, Filled, Opened;
    var k, a := PrefixKey(ip).value, FromStd(ip).value;
    OpenedAdd(m, ips, ip, k, buckets, AddToBucket(buckets, k, a, ip));
    if k !in buckets {
      FilledFirst(m, ips, ip, k, a, buckets);
    }
    forall k' | k' in buckets
      ensures Filled(m, ips + [ip], k', AddToBucket(buckets, k, a, ip)[k'])
    {
      FilledAdd(m, ips, ip, k', buckets[k']);
    }
  }

  lemma BucketedSkip(m: Matcher, ips: seq<RawIp>, ip: RawIp, buckets: map<Key, Bucket>)
    requires Bucketed(m, ips, buckets) && !CoarseIp(m, ip)
    ensures Bucketed(m, ips + [ip], buckets)
  {
    hide PrefixKey, FromStd, CoarseIp, Filled;
    forall k | k in buckets
      ensures Filled(m, ips + [ip], k, buckets[k])
    {
      FilledAdd(m, ips, ip, k, buckets[k]);
    }
  }

  method FillBuckets(m: Matcher, ips: seq<RawIp>) returns (buckets: map<Key, Bucket>, precise: seq<RawIp>)
    ensures Bucketed(m, ips, buckets)
    ensures precise == Fine(m, ips)
  {
    hide PrefixKey, FromStd, Bucketed;
    var heur4, heur6 := m.max4 <= 24, m.max6 <= 64;
    buckets, precise := map[], [];
    NothingBucketed(m);
    for i := 0 to |ips|
      invariant Bucketed(m, ips[..i], buckets)
      invariant precise == Fine(m, ips[..i])
    {
      var ip := ips[i];
      assert ips[..i + 1] == ips[..i] + [ip];
      assert ips[..i + 1][..i] == ips[..i];
      KeyIsBucket(ip);
      var key := PrefixKey(ip);
      if key.None? {
        BucketedSkip(m, ips[..i], ip, buckets);
        continue;
      }
      if (key.value[0] == 4 && !heur4) || (key.value[0] == 6 && !heur6) {
        BucketedSkip(m, ips[..i], ip, buckets);
        precise := precise + [ip];
        continue;
      }
      BucketedAdd(m, ips[..i], ip, buckets);
      buckets := AddToBucket(buckets, key.value, FromStd(ip).value, ip);
    }
    assert ips[..|ips|] == ips;
  }

  lemma NothingBucketed(m: Matcher)
    ensures Bucketed(m, [], map[])
  {
  }

  /** How often slice x belongs in a part that should hold exactly the slices with property p. */
  function Times(ips: seq<RawIp>, x: RawIp, p: bool): nat {
    if p then multiset(ips)[x] else 0
  }

  predicate Emitted(buckets: map<Key, Bucket>, todo: set<Key>, x: RawIp) {
    PrefixKey(x).Some? && PrefixKey(x).value in buckets && PrefixKey(x).value !in todo
  }

  /** A bucket holds all occurrences of its slices, and its representative answers for each of them. */
  lemma BucketContents(m: Matcher, ips: seq<RawIp>, buckets: map<Key, Bucket>, k: Key, x: RawIp)
    requires Valid(m) && Bucketed(m, ips, buckets) && k in buckets
    ensures multiset(buckets[k].ips)[x] == Times(ips, x, PrefixKey(x) == Some(k))
    ensures PrefixKey(x) == Some(k) ==> CoarseIp(m, x) && Hits(m, x) == MatchAddr(m, buckets[k].rep)
  {
    hide PrefixKey, FromStd, Coarse, Accepts, MatchAddr;
    OfKeyCount(ips, k, x);
    if PrefixKey(x) == Some(k) {
      var y :| y in ips && CoarseIp(m, y) && PrefixKey(y) == Some(k) && FromStd(y) == Some(buckets[k].rep);
      MatchAddrIsMembership(m, buckets[k].rep);
      SameKeySameCoarse(m, x, y);
      SameKeySameAnswer(m, x, y);
    }
  }

  /** A bucket is emitted as one piece, to the side its representative decides. */
  method EmitBuckets(m: Matcher, ips: seq<RawIp>, buckets: map<Key, Bucket>) returns (matched: seq<RawIp>, unmatched: seq<RawIp>)
    requires Valid(m) && Bucketed(m, ips, buckets)
    ensures forall x :: multiset(matched)[x] == Times(ips, x, Emitted(buckets, {}, x) && Hits(m, x))
    ensures forall x :: multiset(unmatched)[x] == Times(ips, x, Emitted(buckets, {}, x) && !Hits(m, x))
  {
    hide PrefixKey, FromStd, Bucketed, Hits, MatchAddr, CoarseIp, Valid;
    matched, unmatched := [], [];
    var todo := buckets.Keys;
    while todo != {}
      invariant todo <= buckets.Keys
      invariant forall x :: multiset(matched)[x] == Times(ips, x, Emitted(buckets, todo, x) && Hits(m, x))
      invariant forall x :: multiset(unmatched)[x] == Times(ips, x, Emitted(buckets, todo, x) && !Hits(m, x))
    {
      var k :| k in todo;
      var b := buckets[k];
      forall x
        ensures multiset(b.ips)[x] == Times(ips, x, PrefixKey(x) == Some(k))
        ensures PrefixKey(x) == Some(k) ==> Hits(m, x) == MatchAddr(m, b.rep)
      {
        BucketContents(m, ips, buckets, k, x);
      }
      if MatchAddr(m, b.rep) {
        matched := matched + b.ips;
      } else {
        unmatched := unmatched + b.ips;
      }
      todo := todo - {k};
    }
  }

  method EmitPrecise(m: Matcher, precise: seq<RawIp>) returns (matched: seq<RawIp>, unmatched: seq<RawIp>)
    requires Valid(m)
    ensures forall x :: multiset(matched)[x] == Times(precise, x, Hits(m, x))
    ensures forall x :: multiset(unmatched)[x] == Times(precise, x, IsValid(x) && !Hits(m, x))
  {
    hide Accepts, MatchAddr, FromStd;
    matched, unmatched := [], [];
    for i := 0 to |precise|
      invariant forall x :: multiset(matched)[x] == Times(precise[..i], x, Hits(m, x))
      invariant forall x :: multiset(unmatched)[x] == Times(precise[..i], x, IsValid(x) && !Hits(m, x))
    {
      assert precise[..i + 1] == precise[..i] + [precise[i]];
      if FromStd(precise[i]).None? {
        continue;
      }
      MatchAddrIsMembership(m, FromStd(precise[i]).value);
      if MatchAddr(m, FromStd(precise[i]).value) {
        matched := matched + [precise[i]];
      } else {
        unmatched := unmatched + [precise[i]];
      }
    }
    assert precise[..|precise|] == precise;
  }

  /**
   FilterIPs splits the valid slices of the list, each as often as it occurs, by per-address
   membership; invalid slices appear on neither side.
   */
  method FilterIPs(m: Matcher, ips: seq<RawIp>) returns (matched: seq<RawIp>, unmatched: seq<RawIp>)
    requires Valid(m)
    ensures forall x :: multiset(matched)[x] == Times(ips, x, Hits(m, x))
    ensures forall x :: multiset(unmatched)[x] == Times(ips, x, IsValid(x) && !Hits(m, x))
  {
    hide Accepts, PrefixKey, MatchAddr, Bucketed, FromStd;
    if |ips| == 0 {
      return [], [];
    }
    if |ips| == 1 {
      matched, unmatched := EmitPrecise(m, ips);
      return;
    }
    var buckets, precise := FillBuckets(m, ips);
    var inBuckets, outOfBuckets := EmitBuckets(m, ips, buckets);
    matched, unmatched := EmitPrecise(m, precise);
    matched, unmatched := inBuckets + matched, outOfBuckets + unmatched;
    forall x
      ensures Times(ips, x, IsValid(x)) == Times(ips, x, Emitted(buckets, {}, x)) + multiset(precise)[x]
      ensures Emitted(buckets, {}, x) ==> IsValid(x)
      ensures Emitted(buckets, {}, x) && x in ips ==> x !in precise
    {
      Partition(m, ips, buckets, x);
    }
  }

  /** Every valid slice is in a bucket or in the precise list, never in both. */
  lemma Partition(m: Matcher, ips: seq<RawIp>, buckets: map<Key, Bucket>, x: RawIp)
    requires Bucketed(m, ips, buckets)
    ensures Times(ips, x, IsValid(x)) == Times(ips, x, Emitted(buckets, {}, x)) + multiset(Fine(m, ips))[x]
    ensures Emitted(buckets, {}, x) ==> IsValid(x)
    ensures Emitted(buckets, {}, x) && x in ips ==> x !in Fine(m, ips)
  {
    hide PrefixKey, Coarse, FromStd;
    KeyIsBucket(x);
    FineCount(m, ips, x);
    if Emitted(buckets, {}, x) {
      var k := PrefixKey(x).value;
      var y :| y in ips && CoarseIp(m, y) && PrefixKey(y) == Some(k) && FromStd(y) == Some(buckets[k].rep);
      SameKeySameCoarse(m, x, y);
    }
  }
}
