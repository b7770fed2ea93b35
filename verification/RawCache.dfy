/**
 The raw response cache of the DNS inbound: a bounded least-recently-used
 table from queries, without their transaction ID, to whole responses whose
 TTLs are aged when they are served.
 */
module RawCache {
  import opened Basics

  type byte = x: int | 0 <= x < 256
  type uint32 = x: int | 0 <= x < 0x1_0000_0000

  /** Times and durations count nanoseconds. */
  const SECOND := 1_000_000_000

  datatype Resource = Resource(opt: bool, ttl: uint32, soaMinTTL: Option<uint32>, data: int)
  datatype Message = Message(id: int, truncated: bool, rcode: int, recursionDesired: bool, checkingDisabled: bool, questions: seq<int>,
                             answers: seq<Resource>, authorities: seq<Resource>, additionals: seq<Resource>)

  function All(m: Message): (r: seq<Resource>)
    ensures |r| == |m.answers| + |m.authorities| + |m.additionals|
    ensures forall x :: x in r <==> x in m.answers || x in m.authorities || x in m.additionals
  {
    m.answers + m.authorities + m.additionals
  }

  const RCODE_SUCCESS := 0
  const RCODE_NAME_ERROR := 3

  // ---- How long a response may be kept ----------------------------------

  /** A negative answer is bounded by its SOA minimum as well (section 5 of RFC 2308). */
  function Lifetime(r: Resource): uint32 {
    if r.soaMinTTL.Some? && r.soaMinTTL.value < r.ttl then r.soaMinTTL.value else r.ttl
  }

  /** ttl is the shortest lifetime among the resources other than OPT. */
  ghost predicate Shortest(rs: seq<Resource>, ttl: uint32) {
    && (exists i :: 0 <= i < |rs| && !rs[i].opt && Lifetime(rs[i]) == ttl)
    && (forall i :: 0 <= i < |rs| && !rs[i].opt ==> ttl <= Lifetime(rs[i]))
  }

  ghost predicate OnlyOpt(rs: seq<Resource>) {
    forall i :: 0 <= i < |rs| ==> rs[i].opt
  }

  method Visit(rs: seq<Resource>, ghost before: seq<Resource>, minTTL0: uint32, found0: bool) returns (minTTL: uint32, found: bool)
    requires if found0 then Shortest(before, minTTL0) else OnlyOpt(before) && minTTL0 == 0xFFFF_FFFF
    ensures if found then Shortest(before + rs, minTTL) else OnlyOpt(before + rs) && minTTL == 0xFFFF_FFFF
  {
    minTTL, found := minTTL0, found0;
    ghost var seen := before;
    assert before + rs[..0] == before;
    for k := 0 to |rs|
      invariant seen == before + rs[..k]
      invariant if found then Shortest(seen, minTTL) else OnlyOpt(seen) && minTTL == 0xFFFF_FFFF
    {
      ghost var was := seen;
      seen := seen + [rs[k]];
      assert seen[|was|] == rs[k] && forall i :: 0 <= i < |was| ==> seen[i] == was[i];
      if !rs[k].opt {
        var ttl := Lifetime(rs[k]);
        if ttl < minTTL {
          minTTL := ttl;
        }
        found := true;
      }
    }
    assert rs[..|rs|] == rs;
  }

  /** rawResponseTTL: nothing but OPT resources gives no TTL at all. */
  method RawResponseTTL(m: Message) returns (minTTL: uint32, found: bool)
    ensures found ==> Shortest(All(m), minTTL)
    ensures !found ==> OnlyOpt(All(m))
  {
    minTTL, found := Visit(m.answers, [], 0xFFFF_FFFF, false);
    assert [] + m.answers == m.answers;
    minTTL, found := Visit(m.authorities, m.answers, minTTL, found);
    minTTL, found := Visit(m.additionals, m.answers + m.authorities, minTTL, found);
  }

  lemma ShortestIsUnique(rs: seq<Resource>, a: uint32, b: uint32)
    requires Shortest(rs, a) && Shortest(rs, b)
    ensures a == b
  {
  }

  // ---- Ageing -------------------------------------------------------------

  function Aged(r: Resource, elapsed: uint32, remaining: uint32): Resource {
    if r.opt then r
    else
      var ttl := if r.ttl > elapsed then r.ttl - elapsed else 0;
      r.(ttl := if ttl > remaining then remaining else ttl)
  }

  function AgedAll(rs: seq<Resource>, elapsed: uint32, remaining: uint32): seq<Resource> {
    seq(|rs|, i requires 0 <= i < |rs| => Aged(rs[i], elapsed, remaining))
  }

  method AdjustResourceTTLs(resources: array<Resource>, elapsed: uint32, remaining: uint32)
    modifies resources
    ensures resources[..] == AgedAll(old(resources[..]), elapsed, remaining)
  {
    for i := 0 to resources.Length
      invariant forall k :: 0 <= k < i ==> resources[k] == Aged(old(resources[k]), elapsed, remaining)
      invariant forall k :: i <= k < resources.Length ==> resources[k] == old(resources[k])
    {
      if resources[i].opt {
        continue;
      }
      if resources[i].ttl > elapsed {
        resources[i] := resources[i].(ttl := resources[i].ttl - elapsed);
      } else {
        resources[i] := resources[i].(ttl := 0);
      }
      if resources[i].ttl > remaining {
        resources[i] := resources[i].(ttl := remaining);
      }
    }
  }

  /** Whole seconds in a duration, truncated toward zero and to 32 bits. */
  function Seconds(d: int): uint32 {
    (if d >= 0 then d / SECOND else -(-d / SECOND)) % 0x1_0000_0000
  }

  /** Whole seconds: truncated toward zero, and of a negative number its residue. */
  lemma SecondsIs(d: int) returns (q: int)
    ensures d >= 0 ==> q * 1_000_000_000 <= d < (q + 1) * 1_000_000_000
    ensures d <= 0 ==> (q - 1) * 1_000_000_000 < d <= q * 1_000_000_000
    ensures (Seconds(d) - q) % 0x1_0000_0000 == 0
  {
    q := if d >= 0 then d / SECOND else -(-d / SECOND);
  }

  /** No resource is served past the expiry of the entry. */
  lemma ServedInTime(r: Resource, stored: int, expires: int, now: int)
    requires now < expires && !r.opt
    ensures var ttl := Aged(r, Seconds(now - stored), Seconds(expires - now)).ttl;
            now + ttl * SECOND <= expires && ttl <= r.ttl
  {
    var d := expires - now;
    assert Seconds(d) <= d / SECOND;
    assert d / SECOND * SECOND <= d;
    var ttl := Aged(r, Seconds(now - stored), Seconds(d)).ttl;
    assert ttl * SECOND <= d;
  }

  // ---- The recency list, stated outright --------------------------------

  /** A query without its transaction ID. */
  datatype Key = Key(bytes: seq<byte>)
  datatype Entry = Entry(key: Key, response: seq<byte>, stored: int, expires: int, size: nat)

  /** Keys occur once. */
  ghost predicate Distinct(l: seq<Entry>) {
    forall i, j :: 0 <= i < j < |l| ==> l[i].key != l[j].key
  }

  function Find(l: seq<Entry>, key: Key): (r: Option<Entry>)
    ensures r.Some? ==> r.value in l && r.value.key == key
    ensures r.None? ==> forall e :: e in l ==> e.key != key
  {
    if l == [] then None else if l[0].key == key then Some(l[0]) else Find(l[1..], key)
  }

  function Delete(l: seq<Entry>, key: Key): seq<Entry> {
    if l == [] then [] else if l[0].key == key then Delete(l[1..], key) else [l[0]] + Delete(l[1..], key)
  }

  function Bytes(l: seq<Entry>): nat {
    if l == [] then 0 else l[0].size + Bytes(l[1..])
  }

  predicate Fits(l: seq<Entry>, max: nat, maxBytes: nat) {
    |l| <= max && Bytes(l) <= maxBytes
  }

  /** The longest front part of the list within both limits. */
  function Fit(l: seq<Entry>, max: nat, maxBytes: nat): (r: seq<Entry>)
    ensures r <= l && Fits(r, max, maxBytes)
    ensures forall n :: |r| < n <= |l| ==> !Fits(l[..n], max, maxBytes)
  {
    if Fits(l, max, maxBytes) then assert l[..|l|] == l; l
    else
      assert l != [];
      var r := Fit(l[..|l| - 1], max, maxBytes);
      assert forall n :: 0 <= n < |l| ==> l[..|l| - 1][..n] == l[..n];
      assert l[..|l|] == l;
      r
  }

  /** Storing puts an entry in front, in place of one with its key, and drops what no longer fits from the back. */
  function Push(l: seq<Entry>, e: Entry, max: nat, maxBytes: nat): seq<Entry> {
    Fit([e] + Delete(l, e.key), max, maxBytes)
  }

  /** Reading drops an expired entry and otherwise moves the entry to the front. */
  function Touch(l: seq<Entry>, key: Key, now: int): seq<Entry> {
    var f := Find(l, key);
    if f.None? then l
    else if now >= f.value.expires then Delete(l, key)
    else [f.value] + Delete(l, key)
  }

  lemma {:induction false} DeleteKeeps(l: seq<Entry>, key: Key)
    ensures forall e :: e in Delete(l, key) <==> e in l && e.key != key
  {
    if l != [] {
      DeleteKeeps(l[1..], key);
      assert l == [l[0]] + l[1..];
    }
  }

  lemma {:induction false} DeleteNothing(l: seq<Entry>, key: Key)
    requires forall e :: e in l ==> e.key != key
    ensures Delete(l, key) == l
  {
    if l != [] {
      DeleteNothing(l[1..], key);
    }
  }

  lemma {:induction false} DeleteDistinct(l: seq<Entry>, key: Key)
    requires Distinct(l)
    ensures Distinct(Delete(l, key))
  {
    if l != [] {
      DeleteDistinct(l[1..], key);
      DeleteKeeps(l[1..], key);
      var d := Delete(l[1..], key);
      assert forall i :: 0 <= i < |d| ==> d[i] in l[1..];
      assert forall e :: e in l[1..] ==> e.key != l[0].key;
    }
  }

  lemma {:induction false} DeleteBytes(l: seq<Entry>, key: Key)
    requires Distinct(l) && Find(l, key).Some?
    ensures Bytes(Delete(l, key)) == Bytes(l) - Find(l, key).value.size && |Delete(l, key)| == |l| - 1
  {
    if l[0].key == key {
      assert forall e :: e in l[1..] ==> e.key != key;
      DeleteNothing(l[1..], key);
    } else {
      DeleteBytes(l[1..], key);
    }
  }

  lemma {:induction false} DeleteLast(l: seq<Entry>)
    requires Distinct(l) && l != []
    ensures Delete(l, l[|l| - 1].key) == l[..|l| - 1]
  {
    if |l| == 1 {
      assert l == [l[0]];
    } else {
      DeleteLast(l[1..]);
      assert l[1..][..|l| - 2] == l[..|l| - 1][1..];
    }
  }

  lemma {:induction false} DeleteAt(l: seq<Entry>, i: nat)
    requires Distinct(l) && i < |l|
    ensures Delete(l, l[i].key) == l[..i] + l[i + 1..]
  {
    if i == 0 {
      assert forall e :: e in l[1..] ==> e.key != l[0].key;
      DeleteNothing(l[1..], l[0].key);
    } else {
      DeleteAt(l[1..], i - 1);
      assert l[1..][..i - 1] == l[..i][1..] && l[1..][i..] == l[i + 1..];
    }
  }

  /** Reading entry i: an expired one is taken out, any other comes to the front, and the rest keeps its order. */
  lemma TouchIs(l: seq<Entry>, i: nat, now: int)
    requires Distinct(l) && i < |l|
    ensures Touch(l, l[i].key, now) == (if now < l[i].expires then [l[i]] else []) + l[..i] + l[i + 1..]
  {
    FindIs(l, l[i]);
    DeleteAt(l, i);
    hide Delete;
  }

  /** Reading a key that is not there changes nothing. */
  lemma TouchMisses(l: seq<Entry>, key: Key, now: int)
    requires forall e :: e in l ==> e.key != key
    ensures Touch(l, key, now) == l
  {
  }

  /** Storing: the new entry, then the others in their order, as far as they fit. */
  lemma PushIs(l: seq<Entry>, e: Entry, max: nat, maxBytes: nat, i: nat)
    requires Distinct(l) && i <= |l| && (if i < |l| then l[i].key == e.key else forall d :: d in l ==> d.key != e.key)
    ensures var all, r := [e] + l[..i] + (if i < |l| then l[i + 1..] else []), Push(l, e, max, maxBytes);
            && r <= all && |r| <= max && Bytes(r) <= maxBytes
            && forall n :: |r| < n <= |all| ==> n > max || Bytes(all[..n]) > maxBytes
  {
    if i < |l| {
      DeleteAt(l, i);
      assert [e] + l[..i] + l[i + 1..] == [e] + (l[..i] + l[i + 1..]);
    } else {
      DeleteNothing(l, e.key);
      assert [e] + l[..i] + [] == [e] + l;
    }
    var all := [e] + Delete(l, e.key);
    hide Delete, Bytes;
    assert forall n :: |Fit(all, max, maxBytes)| < n <= |all| ==> !Fits(all[..n], max, maxBytes);
  }

  lemma LifetimeIs(r: Resource)
    ensures Lifetime(r) <= r.ttl && (r.soaMinTTL.Some? ==> Lifetime(r) <= r.soaMinTTL.value)
    ensures Lifetime(r) == r.ttl || r.soaMinTTL == Some(Lifetime(r))
  {
  }

  /** A stored entry is there afterwards, whatever had to go. */
  lemma StoredSurvives(l: seq<Entry>, e: Entry, max: nat, maxBytes: nat)
    requires max >= 1 && e.size <= maxBytes
    ensures Push(l, e, max, maxBytes) != [] && Push(l, e, max, maxBytes)[0] == e
    ensures Find(Push(l, e, max, maxBytes), e.key) == Some(e)
  {
    var all := [e] + Delete(l, e.key);
    assert all[..1] == [e];
    assert Bytes([e]) == e.size;
  }

  /** Storing changes no other key: what is left of it is what was there. */
  lemma OthersUnchanged(l: seq<Entry>, e: Entry, max: nat, maxBytes: nat, key: Key)
    requires Distinct(l) && key != e.key
    ensures Find(Push(l, e, max, maxBytes), key).Some? ==> Find(Push(l, e, max, maxBytes), key) == Find(l, key)
  {
    var f := Find(Push(l, e, max, maxBytes), key);
    if f.Some? {
      DeleteKeeps(l, e.key);
      assert f.value in l;
      FindIs(l, f.value);
    }
  }

  lemma {:induction false} FindIs(l: seq<Entry>, e: Entry)
    requires Distinct(l) && e in l
    ensures Find(l, e.key) == Some(e)
  {
    if l[0] != e {
      assert e in l[1..];
      FindIs(l[1..], e);
    }
  }

  /** An entry in use survives as long as fewer than max others are used after it and they fit beside it. */
  lemma {:induction false} FrontSurvives(l: seq<Entry>, max: nat, maxBytes: nat, n: nat)
    requires n <= |l| && n <= max && Bytes(l[..n]) <= maxBytes
    ensures n <= |Fit(l, max, maxBytes)|
  {
    assert Fits(l[..n], max, maxBytes);
  }
}
