/**
 Addresses, prefixes and the /24 and /64 bucket keys.

 An address list holds raw byte slices as Go's net.IP does; a slice that is not
 4 or 16 bytes long is invalid, and a 16-byte IPv4-mapped slice is IPv4. The IP
 set of a matcher is the finite list of prefixes the set reports.
 */
module IpSet {
  import opened Basics

  type Byte = x: int | 0 <= x < 256
  type RawIp = seq<Byte>
  type Key = seq<Byte>

  datatype Family = F4 | F6
  datatype Addr = Addr(family: Family, bytes: seq<Byte>)

  predicate Mapped(ip: RawIp) {
    && |ip| == 16
    && (forall i :: 0 <= i < 10 ==> ip[i] == 0)
    && ip[10] == 255 && ip[11] == 255
  }

  function To4(ip: RawIp): Option<seq<Byte>> {
    if |ip| == 4 then Some(ip)
    else if Mapped(ip) then Some(ip[12..])
    else None
  }

  function To16(ip: RawIp): Option<seq<Byte>> {
    if |ip| == 4 then Some(seq(10, i => 0) + [255, 255] + ip)
    else if |ip| == 16 then Some(ip)
    else None
  }

  /** netipx.FromStdIP: the address of a slice, IPv4-mapped forms unmapped. */
  function FromStd(ip: RawIp): Option<Addr> {
    if |ip| == 4 then Some(Addr(F4, ip))
    else if |ip| != 16 then None
    else if Mapped(ip) then Some(Addr(F4, ip[12..]))
    else Some(Addr(F6, ip))
  }

  /** Which address a slice is: four bytes, alone or behind the mapping prefix, an IPv4 one; any other sixteen an IPv6 one. */
  lemma FromStdIff(ip: RawIp, b: seq<Byte>)
    ensures FromStd(ip) == Some(Addr(F4, b)) <==> |b| == 4 && (ip == b || ip == [0, 0, 0, 0, 0, 0, 0, 0, 0, 0, 255, 255] + b)
    ensures FromStd(ip) == Some(Addr(F6, b)) <==> |b| == 16 && ip == b && b[..12] != [0, 0, 0, 0, 0, 0, 0, 0, 0, 0, 255, 255]
    ensures FromStd(ip).None? <==> |ip| != 4 && |ip| != 16
  {
    if |ip| == 16 {
      assert ip == ip[..12] + ip[12..];
      assert Mapped(ip) <==> ip[..12] == [0, 0, 0, 0, 0, 0, 0, 0, 0, 0, 255, 255] by {
        assert forall i :: 0 <= i < 12 ==> ip[i] == ip[..12][i];
      }
      var m := [0, 0, 0, 0, 0, 0, 0, 0, 0, 0, 255, 255] + b;
      if |b| == 4 && ip == m {
        assert m[..12] == [0, 0, 0, 0, 0, 0, 0, 0, 0, 0, 255, 255] && m[12..] == b;
      }
    }
  }

  /** Widening a slice to sixteen bytes keeps its address. */
  lemma To16KeepsAddress(ip: RawIp)
    ensures To16(ip).Some? <==> FromStd(ip).Some?
    ensures To16(ip).Some? ==> |To16(ip).value| == 16 && FromStd(To16(ip).value) == FromStd(ip)
  {
    if |ip| == 4 {
      assert To16(ip).value[12..] == ip;
    }
  }

  /** prefixKeyFromIP: nine bytes, the family and the first 24 or 64 bits. */
  function PrefixKey(ip: RawIp): Option<Key> {
    match To4(ip)
    case Some(b) => Some([4] + b[..3] + [0, 0, 0, 0, 0])
    case None =>
      match To16(ip)
      case Some(b) => Some([6] + b[..8])
      case None => None
  }

  predicate WellFormed(a: Addr) {
    |a.bytes| == if a.family.F4? then 4 else 16
  }

  function KeyOf(a: Addr): Key
    requires WellFormed(a)
  {
    if a.family.F4? then [4] + a.bytes[..3] + [0, 0, 0, 0, 0] else [6] + a.bytes[..8]
  }

  /** A slice has a key exactly when it is an address, and the key is that address's bucket. */
  lemma KeyIsBucket(ip: RawIp)
    ensures PrefixKey(ip).Some? <==> FromStd(ip).Some?
    ensures FromStd(ip).Some? ==> WellFormed(FromStd(ip).value) && PrefixKey(ip).value == KeyOf(FromStd(ip).value)
    ensures FromStd(ip).Some? ==> PrefixKey(ip).value[0] == if FromStd(ip).value.family.F4? then 4 else 6
  {
  }

  datatype Prefix = Prefix(bytes: seq<Byte>, bits: nat)

  const PLACE: seq<int> := [128, 64, 32, 16, 8, 4, 2, 1]

  /** Bit i of a big-endian byte string. */
  function Bit(b: seq<Byte>, i: nat): (r: int)
    requires i < 8 * |b|
    ensures 0 <= r < 2
  {
    (b[i / 8] / PLACE[i % 8]) % 2
  }

  predicate Covers(p: Prefix, b: seq<Byte>) {
    && |p.bytes| == |b| && p.bits <= 8 * |b|
    && forall i :: 0 <= i < p.bits ==> Bit(p.bytes, i) == Bit(b, i)
  }

  predicate InSet(ps: seq<Prefix>, b: seq<Byte>) {
    exists p :: p in ps && Covers(p, b)
  }

  /** A prefix of at most 8n bits cannot tell apart two strings with the same first n bytes. */
  lemma PrefixCannotSplit(p: Prefix, b: seq<Byte>, c: seq<Byte>, n: nat)
    requires |b| == |c| && n <= |b| && b[..n] == c[..n] && p.bits <= 8 * n
    ensures Covers(p, b) == Covers(p, c)
  {
    forall i | 0 <= i < p.bits
      ensures i < 8 * |b| && Bit(b, i) == Bit(c, i)
    {
      assert b[i / 8] == b[..n][i / 8] == c[..n][i / 8] == c[i / 8];
    }
  }

  // ---- A prefix is an interval of addresses ------------------------------------

  /** A byte string read as a big-endian number. */
  function Number(b: seq<Byte>): nat {
    if b == [] then 0 else 256 * Number(b[..|b| - 1]) + b[|b| - 1]
  }

  function Pow2(n: nat): (r: nat)
    ensures r > 0
  {
    if n == 0 then 1 else 2 * Pow2(n - 1)
  }

  function Quotient(n: nat, m: nat): (r: nat)
    requires m > 0
    ensures r * m <= n < r * m + m
  {
    n / m
  }

  /** The number that the first k bits make. */
  function Leading(b: seq<Byte>, k: nat): nat
    requires k <= 8 * |b|
  {
    Quotient(Number(b), Pow2(8 * |b| - k))
  }

  lemma QuotientIs(n: nat, m: nat, q: nat)
    requires m > 0 && q * m <= n < q * m + m
    ensures Quotient(n, m) == q
  {
    hide Quotient;
    var r := Quotient(n, m);
    if r < q {
      TimesGrows(r, q, m);
    } else if q < r {
      TimesGrows(q, r, m);
    }
  }

  lemma {:induction false} TimesGrows(a: nat, b: nat, m: nat)
    requires a < b
    ensures a * m + m <= b * m
    decreases b
  {
    if b > a + 1 {
      TimesGrows(a, b - 1, m);
    }
  }

  /** The last byte does not show in a quotient by a multiple of 256. */
  lemma QuotientByBytes(n: nat, x: Byte, m: nat)
    requires m > 0
    ensures Quotient(256 * n + x, 256 * m) == Quotient(n, m)
  {
    hide Quotient;
    var q := Quotient(n, m);
    assert q * (256 * m) == 256 * (q * m);
    QuotientIs(256 * n + x, 256 * m, q);
  }

  lemma QuotientHalves(x: nat, m: nat)
    requires m > 0
    ensures Quotient(x, 2 * m) == Quotient(x, m) / 2
  {
    hide Quotient;
    var d := Quotient(x, m);
    var h := d / 2;
    Doubled(h, m);
    assert d * m == (2 * h) * m + (d % 2) * m;
    assert h * (2 * m) == (2 * h) * m;
    QuotientIs(x, 2 * m, h);
  }

  lemma Doubled(p: nat, n: nat)
    ensures (2 * p) * n == 2 * (p * n)
  {
  }

  lemma {:induction false} Pow2Adds(m: nat, n: nat)
    ensures Pow2(m + n) == Pow2(m) * Pow2(n)
  {
    if m > 0 {
      Pow2Adds(m - 1, n);
      assert m + n - 1 == (m - 1) + n;
    }
  }

  lemma SmallPowers()
    ensures Pow2(0) == 1 && Pow2(1) == 2 && Pow2(2) == 4 && Pow2(3) == 8 && Pow2(4) == 16
    ensures Pow2(5) == 32 && Pow2(6) == 64 && Pow2(7) == 128 && Pow2(8) == 256
  {
    assert Pow2(2) == 4 && Pow2(4) == 16 && Pow2(6) == 64;
  }

  /** The bits of the bytes before the last do not depend on the last. */
  lemma LeadingInFront(b: seq<Byte>, k: nat)
    requires b != [] && k <= 8 * (|b| - 1)
    ensures Leading(b, k) == Leading(b[..|b| - 1], k)
  {
    var c := b[..|b| - 1];
    var w := 8 * |c| - k;
    assert 8 * |b| - k == 8 + w;
    Pow2Adds(8, w);
    SmallPowers();
    assert Number(b) == 256 * Number(c) + b[|c|];
    hide Quotient, Pow2, Number;
    QuotientByBytes(Number(c), b[|c|], Pow2(w));
  }

  lemma LeadingInLast(b: seq<Byte>, r: nat)
    requires b != [] && r <= 8
    ensures Leading(b, 8 * (|b| - 1) + r) == Pow2(r) * Number(b[..|b| - 1]) + Quotient(b[|b| - 1], Pow2(8 - r))
  {
    var n, x, m := Number(b[..|b| - 1]), b[|b| - 1], Pow2(8 - r);
    assert 8 * |b| - (8 * (|b| - 1) + r) == 8 - r;
    Pow2Adds(r, 8 - r);
    SmallPowers();
    assert Number(b) == 256 * n + x;
    hide Quotient, Pow2, Number;
    QuotientShifts(n, x, Pow2(r), m);
  }

  lemma QuotientShifts(n: nat, x: nat, p: nat, m: nat)
    requires p * m == 256
    ensures m > 0 && Quotient(256 * n + x, m) == p * n + Quotient(x, m)
  {
    hide Quotient;
    assert m > 0;
    var d := Quotient(x, m);
    assert (p * n + d) * m == (p * n) * m + d * m;
    assert (p * n) * m == n * (p * m);
    QuotientIs(256 * n + x, m, p * n + d);
  }

  /** Inside a byte, the next bit is its next binary digit. */
  lemma NextDigit(x: Byte, r: nat)
    requires r < 8
    ensures Quotient(x, Pow2(7 - r)) == 2 * Quotient(x, Pow2(8 - r)) + (x / PLACE[r]) % 2
  {
    PlaceIs(r);
    assert Pow2(8 - r) == 2 * Pow2(7 - r);
    assert Quotient(x, PLACE[r]) == x / PLACE[r];
    hide Quotient, Pow2;
    QuotientHalves(x, Pow2(7 - r));
  }

  lemma PlaceIs(r: nat)
    requires r < 8
    ensures PLACE[r] == Pow2(7 - r)
  {
    SmallPowers();
  }

  lemma BitOfLast(b: seq<Byte>, r: nat)
    requires b != [] && r < 8
    ensures Bit(b, 8 * (|b| - 1) + r) == (b[|b| - 1] / PLACE[r]) % 2
  {
    var k := 8 * (|b| - 1) + r;
    assert k / 8 == |b| - 1 && k % 8 == r;
  }

  lemma BitInLast(b: seq<Byte>, r: nat)
    requires b != [] && r < 8
    ensures Leading(b, 8 * (|b| - 1) + (r + 1)) == 2 * Leading(b, 8 * (|b| - 1) + r) + Bit(b, 8 * (|b| - 1) + r)
  {
    assert Pow2(r + 1) == 2 * Pow2(r);
    hide Leading, Quotient, Pow2, Number, Bit;
    var n, x := Number(b[..|b| - 1]), b[|b| - 1];
    LeadingInLast(b, r);
    LeadingInLast(b, r + 1);
    NextDigit(x, r);
    BitOfLast(b, r);
    Doubled(Pow2(r), n);
    assert 8 - (r + 1) == 7 - r;
  }

  /** Bit k is the last binary digit of the number that the first k + 1 bits make. */
  lemma {:induction false} BitIsDigit(b: seq<Byte>, k: nat)
    requires k < 8 * |b|
    ensures Leading(b, k + 1) == 2 * Leading(b, k) + Bit(b, k)
    decreases |b|
  {
    hide Leading;
    var c := b[..|b| - 1];
    if k < 8 * |c| {
      BitIsDigit(c, k);
      LeadingInFront(b, k);
      LeadingInFront(b, k + 1);
      assert c[k / 8] == b[k / 8];
    } else {
      BitInLast(b, k - 8 * |c|);
      assert 8 * (|b| - 1) + (k - 8 * |c|) == k && 8 * (|b| - 1) + (k - 8 * |c| + 1) == k + 1;
    }
  }

  lemma {:induction false} NumberBounded(b: seq<Byte>)
    ensures Number(b) < Pow2(8 * |b|)
  {
    if b != [] {
      NumberBounded(b[..|b| - 1]);
      Pow2Adds(8, 8 * (|b| - 1));
      SmallPowers();
    }
  }

  lemma {:induction false} SameLeading(b: seq<Byte>, c: seq<Byte>, k: nat)
    requires |b| == |c| && k <= 8 * |b|
    ensures Leading(b, k) == Leading(c, k) <==> forall i :: 0 <= i < k ==> Bit(b, i) == Bit(c, i)
  {
    hide Leading, Bit;
    if k == 0 {
      NoneLeading(b);
      NoneLeading(c);
    } else {
      SameLeading(b, c, k - 1);
      BitIsDigit(b, k - 1);
      BitIsDigit(c, k - 1);
    }
  }

  lemma NoneLeading(b: seq<Byte>)
    ensures Leading(b, 0) == 0
  {
    NumberBounded(b);
    QuotientIs(Number(b), Pow2(8 * |b|), 0);
  }

  /** A prefix covers the addresses of its length whose numbers agree with its own but for the bits after it. */
  lemma CoversIs(p: Prefix, b: seq<Byte>)
    ensures Covers(p, b) <==>
            |p.bytes| == |b| && p.bits <= 8 * |b| && Number(p.bytes) / Pow2(8 * |b| - p.bits) == Number(b) / Pow2(8 * |b| - p.bits)
  {
    if |p.bytes| == |b| && p.bits <= 8 * |b| {
      SameLeading(p.bytes, b, p.bits);
    }
  }

  /** So it is an interval of addresses. */
  lemma CoversIsInterval(p: Prefix, b: seq<Byte>)
    requires |p.bytes| == |b| && p.bits <= 8 * |b|
    ensures var size := Pow2(8 * |b| - p.bits); var low := Number(p.bytes) / size * size;
            Covers(p, b) <==> low <= Number(b) < low + size
  {
    CoversIs(p, b);
    var size := Pow2(8 * |b| - p.bits);
    SameQuotient(Number(p.bytes), Number(b), size);
    hide Covers, Pow2, Number;
  }

  lemma SameQuotient(m: nat, n: nat, size: nat)
    requires size > 0
    ensures m / size == n / size <==> m / size * size <= n < m / size * size + size
  {
    assert Quotient(m, size) == m / size && Quotient(n, size) == n / size;
    if m / size * size <= n < m / size * size + size {
      QuotientIs(n, size, m / size);
    }
  }

  // ---- Matchers -----------------------------------------------------------------

  /** What createFrom establishes about max. */
  ghost predicate MaxOk(ps: seq<Prefix>, max: int, width: int) {
    && (max == 0xff <==> ps == [])
    && (max <= width ==> forall p :: p in ps ==> p.bits <= width)
  }

  /** The longest prefix in the set, with the source's marks for an empty set and for a lone /0. */
  method MaxBits(ps: seq<Prefix>) returns (max: int)
    requires forall p :: p in ps ==> p.bits <= 128
    ensures max == 0xff <==> ps == []
    ensures max == 0xfe <==> ps != [] && forall p :: p in ps ==> p.bits == 0
    ensures max < 0xfe ==> (forall p :: p in ps ==> p.bits <= max) && (exists p :: p in ps && p.bits == max)
    ensures MaxOk(ps, max, 24) && MaxOk(ps, max, 64)
  {
    var has := false;
    max := 0;
    for i := 0 to |ps|
      invariant has <==> i > 0
      invariant 0 <= max <= 128
      invariant forall p :: p in ps[..i] ==> p.bits <= max
      invariant max > 0 ==> exists p :: p in ps[..i] && p.bits == max
    {
      has := true;
      if ps[i].bits > max {
        max := ps[i].bits;
      }
    }
    assert ps[..|ps|] == ps;
    if !has {
      max := 0xff;
    } else if max == 0 {
      max := 0xfe;
    }
  }

  /** HeuristicIPMatcher with `reverse` held fixed for the call. */
  datatype Matcher = Matcher(v4: seq<Prefix>, v6: seq<Prefix>, max4: int, max6: int, reverse: bool)

  ghost predicate Valid(m: Matcher) {
    MaxOk(m.v4, m.max4, 24) && MaxOk(m.v6, m.max6, 64)
  }

  function MatchAddr(m: Matcher, a: Addr): bool {
    if a.family.F4? then
      if m.max4 == 0xff then m.reverse else InSet(m.v4, a.bytes) != m.reverse
    else
      if m.max6 == 0xff then m.reverse else InSet(m.v6, a.bytes) != m.reverse
  }

  /** The specification: membership of the address in the union of prefixes, negated by `reverse`. */
  predicate Accepts(m: Matcher, a: Addr) {
    InSet(if a.family.F4? then m.v4 else m.v6, a.bytes) != m.reverse
  }

  /** A matcher whose prefixes of this family are all short enough for one representative per bucket. */
  predicate Coarse(m: Matcher, f: Family) {
    if f.F4? then m.max4 <= 24 else m.max6 <= 64
  }

  lemma MatchAddrIsMembership(m: Matcher, a: Addr)
    requires Valid(m)
    ensures MatchAddr(m, a) == Accepts(m, a)
  {
  }

  /** One representative decides its whole bucket. */
  lemma BucketIsUniform(m: Matcher, a: Addr, b: Addr)
    requires Valid(m) && WellFormed(a) && WellFormed(b) && KeyOf(a) == KeyOf(b) && Coarse(m, a.family)
    ensures a.family == b.family && Accepts(m, a) == Accepts(m, b)
  {
    var n := if a.family.F4? then 3 else 8;
    assert KeyOf(a)[0] == KeyOf(b)[0];
    assert a.bytes[..n] == KeyOf(a)[1..n + 1] == KeyOf(b)[1..n + 1] == b.bytes[..n];
    forall p | p in (if a.family.F4? then m.v4 else m.v6)
      ensures Covers(p, a.bytes) == Covers(p, b.bytes)
    {
      PrefixCannotSplit(p, a.bytes, b.bytes, n);
    }
  }
}
