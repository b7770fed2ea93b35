/**
 The cache as it is kept: an index from keys to list elements, the elements in
 recency order, and a running byte count. Elements are named by numbers.
 */
module RawTable {
  import opened Basics
  import opened RawCache

  /** The list without element x. */
  function Drop(s: seq<nat>, x: nat): seq<nat> {
    if s == [] then [] else if s[0] == x then Drop(s[1..], x) else [s[0]] + Drop(s[1..], x)
  }

  ghost predicate Once(s: seq<nat>) {
    forall i, j :: 0 <= i < j < |s| ==> s[i] != s[j]
  }

  lemma {:induction false} DropKeeps(s: seq<nat>, x: nat)
    ensures forall y :: y in Drop(s, x) <==> y in s && y != x
  {
    if s != [] {
      DropKeeps(s[1..], x);
      assert s == [s[0]] + s[1..];
    }
  }

  lemma {:induction false} DropNothing(s: seq<nat>, x: nat)
    requires x !in s
    ensures Drop(s, x) == s
  {
    if s != [] {
      DropNothing(s[1..], x);
    }
  }

  lemma {:induction false} DropOnce(s: seq<nat>, x: nat)
    requires Once(s) && x in s
    ensures Once(Drop(s, x)) && |Drop(s, x)| == |s| - 1
  {
    if s[0] == x {
      DropNothing(s[1..], x);
    } else {
      DropOnce(s[1..], x);
      DropKeeps(s[1..], x);
      assert s[0] !in Drop(s[1..], x);
    }
  }

  // ---- Index, elements and list agree ------------------------------------

  ghost predicate Listed(entries: map<Key, nat>, lru: seq<nat>, values: map<nat, Entry>) {
    forall x :: x in lru ==> x in values && values[x].key in entries && entries[values[x].key] == x
  }

  ghost predicate Known(entries: map<Key, nat>, lru: seq<nat>, values: map<nat, Entry>) {
    forall k :: k in entries ==> entries[k] in lru && entries[k] in values && values[entries[k]].key == k
  }

  ghost predicate Indexed(entries: map<Key, nat>, lru: seq<nat>, values: map<nat, Entry>) {
    Listed(entries, lru, values) && Known(entries, lru, values) && Once(lru) && |entries| == |lru|
  }

  function List(lru: seq<nat>, values: map<nat, Entry>): (r: seq<Entry>)
    requires forall x :: x in lru ==> x in values
    ensures |r| == |lru| && forall i :: 0 <= i < |lru| ==> r[i] == values[lru[i]]
  {
    seq(|lru|, i requires 0 <= i < |lru| => values[lru[i]])
  }

  lemma ListDistinct(entries: map<Key, nat>, lru: seq<nat>, values: map<nat, Entry>)
    requires Indexed(entries, lru, values)
    ensures Distinct(List(lru, values))
  {
    var l := List(lru, values);
    forall i, j | 0 <= i < j < |l|
      ensures l[i].key != l[j].key
    {
      assert lru[i] in lru && lru[j] in lru;
    }
  }

  lemma ListFind(entries: map<Key, nat>, lru: seq<nat>, values: map<nat, Entry>, key: Key)
    requires Indexed(entries, lru, values)
    ensures Find(List(lru, values), key) == if key in entries && entries[key] in values then Some(values[entries[key]]) else None
  {
    ListDistinct(entries, lru, values);
    var l := List(lru, values);
    if key in entries {
      var i :| 0 <= i < |lru| && lru[i] == entries[key];
      assert l[i] in l;
      FindIs(l, l[i]);
    } else {
      forall i | 0 <= i < |l|
        ensures l[i].key != key
      {
        assert lru[i] in lru;
      }
    }
  }

  lemma ListCons(x: nat, lru: seq<nat>, values: map<nat, Entry>)
    requires x in values && forall y :: y in lru ==> y in values
    ensures List([x] + lru, values) == [values[x]] + List(lru, values)
  {
  }

  lemma {:induction false} ListDrop(lru: seq<nat>, values: map<nat, Entry>, x: nat, key: Key)
    requires forall y :: y in lru ==> y in values && (values[y].key == key <==> y == x)
    ensures (forall y :: y in Drop(lru, x) ==> y in values) && List(Drop(lru, x), values) == Delete(List(lru, values), key)
  {
    DropKeeps(lru, x);
    if lru != [] {
      hide List;
      var h, t := lru[0], lru[1..];
      assert lru == [h] + t && forall y :: y in t ==> y in lru;
      ListDrop(t, values, x, key);
      ListCons(h, t, values);
      if h != x {
        ListCons(h, Drop(t, x), values);
      }
    }
  }

  ghost predicate Owns(entries: map<Key, nat>, lru: seq<nat>, values: map<nat, Entry>, x: nat, key: Key) {
    key in entries && entries[key] == x && x in lru && x in values && values[x].key == key
  }

  lemma OneOwner(entries: map<Key, nat>, lru: seq<nat>, values: map<nat, Entry>, x: nat, key: Key)
    requires Indexed(entries, lru, values) && Owns(entries, lru, values, x, key)
    ensures forall y :: y in lru ==> y in values && (values[y].key == key <==> y == x)
  {
  }

  lemma Unindexed(entries: map<Key, nat>, lru: seq<nat>, values: map<nat, Entry>, x: nat, key: Key, rest: seq<nat>)
    requires Indexed(entries, lru, values) && Owns(entries, lru, values, x, key)
    requires (forall y :: y in rest <==> y in lru && y != x) && Once(rest) && |rest| == |lru| - 1
    ensures Indexed(entries - {key}, rest, values)
  {
    assert (entries - {key}).Keys == entries.Keys - {key};
    assert |entries.Keys| == |entries| && |(entries - {key}).Keys| == |entries - {key}|;
  }

  /** Taking an element out of index and list deletes its key from the recency list. */
  lemma Removed(entries: map<Key, nat>, lru: seq<nat>, values: map<nat, Entry>, x: nat, key: Key)
    requires Indexed(entries, lru, values) && Owns(entries, lru, values, x, key)
    ensures Indexed(entries - {key}, Drop(lru, x), values)
    ensures List(Drop(lru, x), values) == Delete(List(lru, values), key)
  {
    hide Drop, List, Delete;
    OneOwner(entries, lru, values, x, key);
    ListDrop(lru, values, x, key);
    DropOnce(lru, x);
    DropKeeps(lru, x);
    Unindexed(entries, lru, values, x, key, Drop(lru, x));
  }

  lemma ListOther(lru: seq<nat>, values: map<nat, Entry>, x: nat, e: Entry)
    requires x !in lru && forall y :: y in lru ==> y in values
    ensures List(lru, values[x := e]) == List(lru, values)
    ensures List([x] + lru, values[x := e]) == [e] + List(lru, values)
  {
  }

  lemma Rearranged(entries: map<Key, nat>, lru: seq<nat>, values: map<nat, Entry>, x: nat, e: Entry, lru': seq<nat>)
    requires Indexed(entries, lru, values) && Owns(entries, lru, values, x, e.key)
    requires (forall y :: y in lru' <==> y in lru) && Once(lru') && |lru'| == |lru|
    ensures Indexed(entries, lru', values[x := e])
  {
  }

  /** Replacing an element's entry and moving it to the front. */
  lemma MovedToFront(entries: map<Key, nat>, lru: seq<nat>, values: map<nat, Entry>, x: nat, e: Entry)
    requires Indexed(entries, lru, values) && Owns(entries, lru, values, x, e.key)
    ensures Indexed(entries, [x] + Drop(lru, x), values[x := e])
    ensures List([x] + Drop(lru, x), values[x := e]) == [e] + Delete(List(lru, values), e.key)
  {
    hide Drop, List, Delete;
    OneOwner(entries, lru, values, x, e.key);
    ListDrop(lru, values, x, e.key);
    DropOnce(lru, x);
    DropKeeps(lru, x);
    ListOther(Drop(lru, x), values, x, e);
    Rearranged(entries, lru, values, x, e, [x] + Drop(lru, x));
  }

  lemma Added(entries: map<Key, nat>, lru: seq<nat>, values: map<nat, Entry>, x: nat, e: Entry)
    requires Indexed(entries, lru, values) && e.key !in entries && x !in lru
    ensures Indexed(entries[e.key := x], [x] + lru, values[x := e])
  {
    assert |entries[e.key := x]| == |entries| + 1 by {
      assert entries[e.key := x].Keys == entries.Keys + {e.key};
      assert |entries.Keys| == |entries| && |entries[e.key := x].Keys| == |entries[e.key := x]|;
    }
  }

  /** A new element at the front. */
  lemma PushedFront(entries: map<Key, nat>, lru: seq<nat>, values: map<nat, Entry>, x: nat, e: Entry)
    requires Indexed(entries, lru, values) && e.key !in entries && x !in lru
    ensures Indexed(entries[e.key := x], [x] + lru, values[x := e])
    ensures List([x] + lru, values[x := e]) == [e] + Delete(List(lru, values), e.key)
  {
    Added(entries, lru, values, x, e);
    hide Known, Once, Delete;
    ListOther(lru, values, x, e);
    var l := List(lru, values);
    forall i | 0 <= i < |l|
      ensures l[i].key != e.key
    {
      assert lru[i] in lru;
    }
    DeleteNothing(l, e.key);
  }

  // ---- Storing and serving --------------------------------------------------

  type Codec = seq<byte> -> Option<Message>

  function KeyOf(query: seq<byte>): Key
    requires |query| >= 12
  {
    Key(query[2..])
  }

  /** A response as it is stored: without its transaction ID. */
  function Anonymous(response: seq<byte>): (r: seq<byte>)
    requires |response| >= 12
    ensures |r| == |response| && forall i :: 0 <= i < |r| ==> r[i] == if i < 2 then 0 else response[i]
  {
    [0, 0] + response[2..]
  }

  function Min(a: int, b: int): int {
    if a < b then a else b
  }

  function Size(query: seq<byte>, response: seq<byte>): nat
    requires |query| >= 12
  {
    |query| - 2 + |response|
  }

  predicate Cacheable(unpack: Codec, maxBytes: nat, query: seq<byte>, response: seq<byte>) {
    && |response| >= 12 && |query| >= 12 && query[..2] == response[..2] && Size(query, response) <= maxBytes
    && var m := unpack(response);
       m.Some? && !m.value.truncated && (m.value.rcode == 0 || m.value.rcode == 3)
  }

  /** e is the entry for a response whose shortest lifetime is a positive ttl. */
  ghost predicate EntryFor(unpack: Codec, maxTTL: int, query: seq<byte>, response: seq<byte>, now: int, ttl: uint32, e: Entry)
    requires |query| >= 12 && |response| >= 12 && unpack(response).Some?
  {
    && Shortest(All(unpack(response).value), ttl) && ttl > 0
    && e == Entry(KeyOf(query), Anonymous(response), now, now + Min(ttl * SECOND, maxTTL), |query| - 2 + |response|)
  }

  /** The stored response readdressed to a query and aged to now. */
  function Served(unpack: Codec, e: Entry, query: seq<byte>, now: int): Option<Message> {
    var m, q := unpack(e.response), unpack(query);
    if m.None? || q.None? then None
    else
      Some(Readdressed(m.value, q.value, Seconds(now - e.stored), Seconds(e.expires - now)))
  }

  /** Clearing the first two bytes of w changes its transaction ID and nothing else: no name in it points there. */
  ghost predicate IdFirst(unpack: Codec, w: seq<byte>) {
    |w| >= 12 && unpack(w).Some? && unpack(Anonymous(w)) == Some(unpack(w).value.(id := 0))
  }

  lemma AgedConcat(a: seq<Resource>, b: seq<Resource>, elapsed: uint32, remaining: uint32)
    ensures AgedAll(a + b, elapsed, remaining) == AgedAll(a, elapsed, remaining) + AgedAll(b, elapsed, remaining)
  {
  }

  /** A message readdressed to a query, with its records aged. */
  function Readdressed(m: Message, q: Message, elapsed: uint32, remaining: uint32): Message {
    m.(id := q.id, recursionDesired := q.recursionDesired, checkingDisabled := q.checkingDisabled, questions := q.questions,
       answers := AgedAll(m.answers, elapsed, remaining), authorities := AgedAll(m.authorities, elapsed, remaining),
       additionals := AgedAll(m.additionals, elapsed, remaining))
  }

  /** m is b but for the header fields and questions, which are those of q, and for its records, which keep their sections. */
  predicate Answers(b: Message, q: Message, m: Message) {
    && m == b.(id := q.id, recursionDesired := q.recursionDesired, checkingDisabled := q.checkingDisabled, questions := q.questions,
               answers := m.answers, authorities := m.authorities, additionals := m.additionals)
    && |m.answers| == |b.answers| && |m.authorities| == |b.authorities| && |m.additionals| == |b.additionals|
  }

  lemma ReaddressedAll(m: Message, q: Message, elapsed: uint32, remaining: uint32)
    ensures All(Readdressed(m, q, elapsed, remaining)) == AgedAll(All(m), elapsed, remaining)
  {
    hide AgedAll;
    AgedConcat(m.answers, m.authorities, elapsed, remaining);
    AgedConcat(m.answers + m.authorities, m.additionals, elapsed, remaining);
  }

  lemma ServedIs(unpack: Codec, e: Entry, query: seq<byte>, now: int)
    requires unpack(e.response).Some? && unpack(query).Some?
    ensures var b, r := unpack(e.response).value, Served(unpack, e, query, now);
            r.Some? && Answers(b, unpack(query).value, r.value) && All(r.value) == AgedAll(All(b), Seconds(now - e.stored), Seconds(e.expires - now))
  {
    hide Seconds, All;
    ReaddressedAll(unpack(e.response).value, unpack(query).value, Seconds(now - e.stored), Seconds(e.expires - now));
  }

  lemma SameRecords(m: Message)
    ensures All(m.(id := 0)) == All(m)
  {
  }

  lemma WholeSeconds(stored: int, now: int, ttl: uint32)
    ensures stored <= now < stored + ttl * SECOND ==> Seconds(now - stored) == (now - stored) / SECOND
  {
    if stored <= now < stored + ttl * SECOND {
      var q := (now - stored) / SECOND;
      assert q * SECOND <= now - stored;
      assert q < ttl;
    }
  }

  /** A response that was stored: for which query, when, and its shortest lifetime. */
  datatype Deposit = Deposit(query: seq<byte>, response: seq<byte>, now: int, ttl: uint32)

  ghost predicate Origin(unpack: Codec, maxTTL: int, maxBytes: nat, p: Deposit, e: Entry) {
    Cacheable(unpack, maxBytes, p.query, p.response) && EntryFor(unpack, maxTTL, p.query, p.response, p.now, p.ttl, e)
  }

  /** Deposit k is the one that stored e, and the last one for its question. */
  ghost predicate LastDeposit(unpack: Codec, maxTTL: int, maxBytes: nat, deposits: seq<Deposit>, k: nat, e: Entry) {
    && k < |deposits| && Origin(unpack, maxTTL, maxBytes, deposits[k], e)
    && forall j :: k < j < |deposits| && |deposits[j].query| >= 12 ==> KeyOf(deposits[j].query) != e.key
  }

  ghost predicate Stored(unpack: Codec, maxTTL: int, maxBytes: nat, deposits: seq<Deposit>, e: Entry) {
    exists k: nat :: LastDeposit(unpack, maxTTL, maxBytes, deposits, k, e)
  }

  ghost predicate AllStored(unpack: Codec, maxTTL: int, maxBytes: nat, deposits: seq<Deposit>, l: seq<Entry>) {
    forall e :: e in l ==> Stored(unpack, maxTTL, maxBytes, deposits, e)
  }

  lemma OthersStored(unpack: Codec, maxTTL: int, maxBytes: nat, deposits: seq<Deposit>, d: Entry, p: Deposit)
    requires Stored(unpack, maxTTL, maxBytes, deposits, d) && |p.query| >= 12 && d.key != KeyOf(p.query)
    ensures Stored(unpack, maxTTL, maxBytes, deposits + [p], d)
  {
    hide Origin, KeyOf;
    var k: nat :| LastDeposit(unpack, maxTTL, maxBytes, deposits, k, d);
    assert LastDeposit(unpack, maxTTL, maxBytes, deposits + [p], k, d);
  }

  lemma PushStored(unpack: Codec, maxTTL: int, maxBytes: nat, deposits: seq<Deposit>, l: seq<Entry>, p: Deposit, e: Entry, max: nat)
    requires AllStored(unpack, maxTTL, maxBytes, deposits, l) && Origin(unpack, maxTTL, maxBytes, p, e)
    ensures AllStored(unpack, maxTTL, maxBytes, deposits + [p], Push(l, e, max, maxBytes))
  {
    assert LastDeposit(unpack, maxTTL, maxBytes, deposits + [p], |deposits|, e);
    assert Stored(unpack, maxTTL, maxBytes, deposits + [p], e);
    assert |p.query| >= 12 && e.key == KeyOf(p.query);
    hide Stored, Delete, Origin, KeyOf;
    DeleteKeeps(l, e.key);
    forall d | d in l && d.key != e.key
      ensures Stored(unpack, maxTTL, maxBytes, deposits + [p], d)
    {
      OthersStored(unpack, maxTTL, maxBytes, deposits, d, p);
    }
  }

  lemma TouchStored(unpack: Codec, maxTTL: int, maxBytes: nat, deposits: seq<Deposit>, l: seq<Entry>, key: Key, now: int)
    requires AllStored(unpack, maxTTL, maxBytes, deposits, l)
    ensures AllStored(unpack, maxTTL, maxBytes, deposits, Touch(l, key, now))
  {
    hide Stored, Delete;
    DeleteKeeps(l, key);
  }

  // ---- Freshness ----------------------------------------------------------------

  /** A record as served at now: only the TTL differs; it is as large as the time since storing and the expiry allow, and no larger. */
  ghost predicate InTime(stored: int, expires: int, now: int, r: Resource, served: Resource) {
    && served == r.(ttl := served.ttl)
    && (r.opt ==> served == r)
    && (!r.opt ==>
          && now + served.ttl * SECOND <= expires && served.ttl <= r.ttl
          && (stored <= now ==> served.ttl == 0 || served.ttl + (now - stored) / SECOND <= r.ttl)
          && (stored <= now ==> forall t: nat :: t + (now - stored) / SECOND <= r.ttl && now + t * SECOND <= expires ==> t <= served.ttl))
  }

  /** m answers q with the records of b, each of them in time. */
  ghost predicate FreshCopy(b: Message, q: Message, e: Entry, now: int, m: Message) {
    && Answers(b, q, m) && |All(m)| == |All(b)|
    && forall i :: 0 <= i < |All(m)| ==> InTime(e.stored, e.expires, now, All(b)[i], All(m)[i])
  }

  /** r is a fresh copy of what p stored in e, or nothing where the stored bytes do not parse. */
  ghost predicate CopyOf(unpack: Codec, p: Deposit, e: Entry, q: Message, now: int, r: Option<Message>) {
    && (r.Some? <==> unpack(e.response).Some?)
    && (r.Some? ==> FreshCopy(unpack(e.response).value, q, e, now, r.value))
    && (IdFirst(unpack, p.response) ==> r.Some? && FreshCopy(unpack(p.response).value, q, e, now, r.value))
  }

  /** What a lookup returns that found f: nothing, or a copy of the response that was stored last for the question. */
  ghost predicate Fresh(unpack: Codec, maxTTL: int, maxBytes: nat, deposits: seq<Deposit>, f: Option<Entry>, query: seq<byte>, now: int, r: Option<Message>) {
    if f.None? || now >= f.value.expires || unpack(query).None? then r.None?
    else exists k: nat :: LastDeposit(unpack, maxTTL, maxBytes, deposits, k, f.value) && CopyOf(unpack, deposits[k], f.value, unpack(query).value, now, r)
  }

  /** No larger TTL would do. */
  lemma LargestTtl(stored: int, expires: int, ttl: uint32, now: int, r: Resource)
    requires stored <= now < expires <= stored + ttl * SECOND && !r.opt
    ensures var served := Aged(r, Seconds(now - stored), Seconds(expires - now));
            forall t: nat :: t + (now - stored) / SECOND <= r.ttl && now + t * SECOND <= expires ==> t <= served.ttl
  {
    var left := expires - now;
    assert left / SECOND <= ttl && Seconds(left) == left / SECOND;
    WholeSeconds(stored, now, ttl);
    forall t: nat | t + (now - stored) / SECOND <= r.ttl && now + t * SECOND <= expires
      ensures t <= left / SECOND
    {
    }
  }

  lemma AgedInTime(stored: int, expires: int, ttl: uint32, now: int, r: Resource)
    requires now < expires <= stored + ttl * SECOND
    ensures InTime(stored, expires, now, r, Aged(r, Seconds(now - stored), Seconds(expires - now)))
  {
    if !r.opt {
      WholeSeconds(stored, now, ttl);
      ServedInTime(r, stored, expires, now);
      if stored <= now {
        WholeSeconds(now, expires, 0xFFFF_FFFF);
        LargestTtl(stored, expires, ttl, now, r);
      }
    }
  }

  /**
   What is served of an unexpired entry that p stored: a fresh copy of the stored bytes, which end when the
   shortest lifetime in p's response or the maximum does. It is a copy of p's response unless a name in that
   points at the transaction ID.
   */
  lemma ServedIsFresh(unpack: Codec, maxTTL: int, maxBytes: nat, p: Deposit, e: Entry, query: seq<byte>, now: int)
    requires Origin(unpack, maxTTL, maxBytes, p, e) && now < e.expires
    ensures e.stored == p.now && e.expires == p.now + Min(p.ttl * SECOND, maxTTL) && Shortest(All(unpack(p.response).value), p.ttl)
    ensures Served(unpack, e, query, now).Some? <==> unpack(e.response).Some? && unpack(query).Some?
    ensures Served(unpack, e, query, now).Some? ==>
              FreshCopy(unpack(e.response).value, unpack(query).value, e, now, Served(unpack, e, query, now).value)
    ensures unpack(query).Some? && IdFirst(unpack, p.response) ==>
              && Served(unpack, e, query, now).Some?
              && FreshCopy(unpack(p.response).value, unpack(query).value, e, now, Served(unpack, e, query, now).value)
  {
    assert e.response == Anonymous(p.response);
    if unpack(e.response).Some? && unpack(query).Some? {
      ServedIs(unpack, e, query, now);
      var b := unpack(e.response).value;
      SameRecords(unpack(p.response).value);
      hide Served, Seconds, KeyOf, Anonymous, All, Cacheable, Shortest;
      forall i | 0 <= i < |All(b)|
        ensures InTime(e.stored, e.expires, now, All(b)[i], Aged(All(b)[i], Seconds(now - e.stored), Seconds(e.expires - now)))
      {
        AgedInTime(e.stored, e.expires, p.ttl, now, All(b)[i]);
      }
    }
  }

  lemma StoredIsFresh(unpack: Codec, maxTTL: int, maxBytes: nat, deposits: seq<Deposit>, e: Entry, query: seq<byte>, now: int)
    requires Stored(unpack, maxTTL, maxBytes, deposits, e)
    ensures Fresh(unpack, maxTTL, maxBytes, deposits, Some(e), query, now, if now < e.expires then Served(unpack, e, query, now) else None)
    ensures Fresh(unpack, maxTTL, maxBytes, deposits, None, query, now, None)
  {
    hide Origin, FreshCopy, IdFirst;
    var k: nat :| LastDeposit(unpack, maxTTL, maxBytes, deposits, k, e);
    if now < e.expires {
      ServedIsFresh(unpack, maxTTL, maxBytes, deposits[k], e, query, now);
    }
  }

  /** So no record of the response is served beyond its own lifetime either. */
  lemma HitIsFresh(unpack: Codec, maxTTL: int, maxBytes: nat, p: Deposit, e: Entry, query: seq<byte>, now: int, i: nat)
    requires Origin(unpack, maxTTL, maxBytes, p, e) && now < e.expires && unpack(query).Some? && IdFirst(unpack, p.response)
    requires i < |All(unpack(p.response).value)| && !All(unpack(p.response).value)[i].opt
    ensures var r, m := All(unpack(p.response).value)[i], Served(unpack, e, query, now);
            && m.Some? && i < |All(m.value)| && All(m.value)[i] == r.(ttl := All(m.value)[i].ttl)
            && now + All(m.value)[i].ttl * SECOND <= p.now + Min(Lifetime(r) * SECOND, maxTTL)
  {
    ServedIsFresh(unpack, maxTTL, maxBytes, p, e, query, now);
    hide Served, All, IdFirst, Origin;
  }

  /** Query, response and time determine the entry. */
  lemma EntryIsUnique(unpack: Codec, maxTTL: int, query: seq<byte>, response: seq<byte>, now: int, s: uint32, d: Entry, t: uint32, e: Entry)
    requires |query| >= 12 && |response| >= 12 && unpack(response).Some?
    requires EntryFor(unpack, maxTTL, query, response, now, s, d) && EntryFor(unpack, maxTTL, query, response, now, t, e)
    ensures s == t && d == e
  {
    ShortestIsUnique(All(unpack(response).value), s, t);
  }

  method AgeSection(rs: seq<Resource>, elapsed: uint32, remaining: uint32) returns (r: seq<Resource>)
    ensures r == AgedAll(rs, elapsed, remaining)
  {
    var a := new Resource[|rs|](i requires 0 <= i < |rs| => rs[i]);
    assert a[..] == rs;
    AdjustResourceTTLs(a, elapsed, remaining);
    return a[..];
  }

  /** The index is right, the byte count is the list's, and element names below next are used up. */
  ghost predicate TableOk(entries: map<Key, nat>, lru: seq<nat>, values: map<nat, Entry>, bytes: int, next: nat) {
    && Indexed(entries, lru, values)
    && bytes == Bytes(List(lru, values))
    && forall x :: x in lru ==> x < next
  }

  lemma RemoveOk(entries: map<Key, nat>, lru: seq<nat>, values: map<nat, Entry>, bytes: int, next: nat, x: nat)
    requires TableOk(entries, lru, values, bytes, next) && x in lru
    ensures x in values && TableOk(entries - {values[x].key}, Drop(lru, x), values, bytes - values[x].size, next)
    ensures List(Drop(lru, x), values) == Delete(List(lru, values), values[x].key)
  {
    var key := values[x].key;
    Removed(entries, lru, values, x, key);
    ListFind(entries, lru, values, key);
    ListDistinct(entries, lru, values);
    DropKeeps(lru, x);
    hide Indexed, Delete, List, Drop, Bytes;
    DeleteBytes(List(lru, values), key);
  }

  lemma FrontOk(entries: map<Key, nat>, lru: seq<nat>, values: map<nat, Entry>, bytes: int, next: nat, e: Entry)
    requires TableOk(entries, lru, values, bytes, next) && e.key in entries
    ensures var x := entries[e.key];
            && x in values && TableOk(entries, [x] + Drop(lru, x), values[x := e], bytes - values[x].size + e.size, next)
            && List([x] + Drop(lru, x), values[x := e]) == [e] + Delete(List(lru, values), e.key)
  {
    var x := entries[e.key];
    MovedToFront(entries, lru, values, x, e);
    ListFind(entries, lru, values, e.key);
    ListDistinct(entries, lru, values);
    DropKeeps(lru, x);
    hide Indexed, Delete, List, Drop;
    DeleteBytes(List(lru, values), e.key);
  }

  lemma BytesFront(e: Entry, l: seq<Entry>)
    ensures Bytes([e] + l) == e.size + Bytes(l)
  {
  }

  lemma NotListed(entries: map<Key, nat>, lru: seq<nat>, values: map<nat, Entry>, key: Key)
    requires Indexed(entries, lru, values) && key !in entries
    ensures Delete(List(lru, values), key) == List(lru, values)
  {
    ListFind(entries, lru, values, key);
    hide Indexed, List;
    DeleteNothing(List(lru, values), key);
  }

  lemma NewOk(entries: map<Key, nat>, lru: seq<nat>, values: map<nat, Entry>, bytes: int, next: nat, e: Entry)
    requires TableOk(entries, lru, values, bytes, next) && e.key !in entries
    ensures TableOk(entries[e.key := next], [next] + lru, values[next := e], bytes + e.size, next + 1)
    ensures List([next] + lru, values[next := e]) == [e] + Delete(List(lru, values), e.key)
  {
    hide Delete, Bytes, Once, Known;
    PushedFront(entries, lru, values, next, e);
    NotListed(entries, lru, values, e.key);
    BytesFront(e, List(lru, values));
    hide Indexed, Listed, List;
  }

  /** What the code can see of the limits. */
  lemma LimitsSeen(entries: map<Key, nat>, lru: seq<nat>, values: map<nat, Entry>, bytes: int, next: nat)
    requires TableOk(entries, lru, values, bytes, next)
    ensures |entries| == |List(lru, values)| == |lru| && bytes == Bytes(List(lru, values))
    ensures lru != [] ==> lru[|lru| - 1] in values && values[lru[|lru| - 1]] == List(lru, values)[|lru| - 1]
    ensures Distinct(List(lru, values))
  {
    ListDistinct(entries, lru, values);
    assert lru != [] ==> lru[|lru| - 1] in lru;
  }

  class Cache {
    const max: nat
    const maxTTL: int
    const maxBytes: nat
    const unpack: Codec
    var entries: map<Key, nat>
    var lru: seq<nat>
    var values: map<nat, Entry>
    var bytes: int
    var next: nat

    ghost var deposits: seq<Deposit>  // what has been stored, oldest first

    ghost predicate Core()
      reads this
    {
      TableOk(entries, lru, values, bytes, next)
    }

    ghost function Contents(): seq<Entry>
      requires Core()
      reads this
    {
      List(lru, values)
    }

    ghost predicate Valid()
      reads this
    {
      && Core() && max >= 1 && Fits(Contents(), max, maxBytes)
      && AllStored(unpack, maxTTL, maxBytes, deposits, Contents())
    }

    constructor (max: nat, maxTTL: int, maxBytes: nat, unpack: Codec)
      requires max >= 1
      ensures Valid() && Contents() == [] && deposits == []
      ensures this.max == max && this.maxTTL == maxTTL && this.maxBytes == maxBytes && this.unpack == unpack
    {
      this.max, this.maxTTL, this.maxBytes, this.unpack := max, maxTTL, maxBytes, unpack;
      entries, lru, values, bytes, next, deposits := map[], [], map[], 0, 0, [];
    }

    method RemoveElement(x: nat)
      requires Core() && x in lru
      modifies this`entries, this`lru, this`bytes
      ensures Core() && x in values && Contents() == Delete(old(Contents()), values[x].key)
    {
      RemoveOk(entries, lru, values, bytes, next, x);
      hide TableOk, Delete, List, Drop, Bytes;
      var e := values[x];
      entries := entries - {e.key};
      bytes := bytes - e.size;
      lru := Drop(lru, x);
    }

    /** What the code can see of the limits. */
    lemma Seen()
      requires Core()
      ensures |entries| == |Contents()| == |lru| && bytes == Bytes(Contents())
      ensures lru != [] ==> lru[|lru| - 1] in values && values[lru[|lru| - 1]] == Contents()[|lru| - 1]
      ensures Distinct(Contents())
    {
      LimitsSeen(entries, lru, values, bytes, next);
    }

    /** Drops elements from the back until both limits hold. */
    method Evict()
      requires Core()
      modifies this`entries, this`lru, this`bytes
      ensures Core() && Contents() == Fit(old(Contents()), max, maxBytes)
    {
      hide *;
      ghost var all := Contents();
      ghost var l := all;
      Seen();
      while |entries| > max || bytes > maxBytes
        invariant Core() && Contents() == l && Fit(l, max, maxBytes) == Fit(all, max, maxBytes)
        invariant |entries| == |l| == |lru| && bytes == Bytes(l)
        decreases |lru|
      {
        Seen();
        NothingFits(l, max, maxBytes);
        DeleteLast(l);
        l := l[..|l| - 1];
        RemoveElement(lru[|lru| - 1]);
        Seen();
      }
      AllFits(l, max, maxBytes);
    }

    method Replace(e: Entry)
      requires Core() && e.key in entries
      modifies this`lru, this`values, this`bytes
      ensures Core() && Contents() == [e] + Delete(old(Contents()), e.key)
    {
      FrontOk(entries, lru, values, bytes, next, e);
      hide TableOk, Delete, List, Drop;
      var x := entries[e.key];
      bytes := bytes - values[x].size;
      values := values[x := e];
      bytes := bytes + e.size;
      lru := [x] + Drop(lru, x);
    }

    method PushFront(e: Entry)
      requires Core() && e.key !in entries
      modifies this`entries, this`lru, this`values, this`bytes, this`next
      ensures Core() && Contents() == [e] + Delete(old(Contents()), e.key)
    {
      NewOk(entries, lru, values, bytes, next, e);
      hide TableOk, Delete, List, Drop;
      lru, values := [next] + lru, values[next := e];
      entries := entries[e.key := next];
      bytes, next := bytes + e.size, next + 1;
    }

    /** Replaces the entry of its key, or adds one, in front of the list. */
    method Store(e: Entry)
      requires Core()
      modifies this`entries, this`lru, this`values, this`bytes, this`next
      ensures Core() && Contents() == [e] + Delete(old(Contents()), e.key)
    {
      hide *;
      if e.key in entries {
        Replace(e);
      } else {
        PushFront(e);
      }
    }

    /** put: a cacheable response with a positive lifetime becomes the most recent entry; anything else changes nothing. */
    method Put(query: seq<byte>, response: seq<byte>, now: int) returns (ghost kept: Option<Entry>, ghost ttl: uint32)
      requires Valid()
      modifies this
      ensures Valid()
      ensures kept.None? ==>
                && Contents() == old(Contents()) && deposits == old(deposits)
                && (Cacheable(unpack, maxBytes, query, response) ==>
                      OnlyOpt(All(unpack(response).value)) || Shortest(All(unpack(response).value), 0))
      ensures kept.Some? ==>
                && Cacheable(unpack, maxBytes, query, response)
                && EntryFor(unpack, maxTTL, query, response, now, ttl, kept.value)
                && Contents() == Push(old(Contents()), kept.value, max, maxBytes)
                && deposits == old(deposits) + [Deposit(query, response, now, ttl)]
      ensures kept.Some? ==> forall t, e :: EntryFor(unpack, maxTTL, query, response, now, t, e) ==> e == kept.value
    {
      kept, ttl := None, 0;
      if |response| < 12 || |query| < 12 || query[..2] != response[..2] {
        return;
      }
      var message := unpack(response);
      if message.None? || message.value.truncated || (message.value.rcode != RCODE_SUCCESS && message.value.rcode != RCODE_NAME_ERROR) {
        return;
      }
      var life, found := RawResponseTTL(message.value);
      if !found || life == 0 {
        return;
      }
      if |query| - 2 + |response| > maxBytes {
        return;
      }
      var e := Entry(KeyOf(query), Anonymous(response), now, now + Min(life * SECOND, maxTTL), Size(query, response));
      kept, ttl := Some(e), life;
      OnlyEntry(query, response, now, ttl, e);
      PushStored(unpack, maxTTL, maxBytes, deposits, Contents(), Deposit(query, response, now, ttl), e, max);
      hide Cacheable, EntryFor, Delete, Fit, List, TableOk, AllStored;
      deposits := deposits + [Deposit(query, response, now, ttl)];
      Store(e);
      Evict();
    }

    lemma OnlyEntry(query: seq<byte>, response: seq<byte>, now: int, ttl: uint32, e: Entry)
      requires Cacheable(unpack, maxBytes, query, response) && EntryFor(unpack, maxTTL, query, response, now, ttl, e)
      ensures Origin(unpack, maxTTL, maxBytes, Deposit(query, response, now, ttl), e)
      ensures forall t, d :: EntryFor(unpack, maxTTL, query, response, now, t, d) ==> d == e
    {
      forall t, d | EntryFor(unpack, maxTTL, query, response, now, t, d)
        ensures d == e
      {
        EntryIsUnique(unpack, maxTTL, query, response, now, t, d, ttl, e);
      }
    }

    /**
     get: an unexpired entry of the key is served, aged, and becomes the most recent; an expired
     one is dropped. A message that does not parse is served as a miss. What is served is a fresh copy
     of the response that was stored last for the question.
     */
    method Get(query: seq<byte>, now: int) returns (r: Option<Message>)
      requires Valid()
      modifies this
      ensures Valid() && deposits == old(deposits)
      ensures |query| < 12 ==> r.None? && Contents() == old(Contents())
      ensures |query| >= 12 ==> Contents() == Touch(old(Contents()), KeyOf(query), now)
      ensures |query| >= 12 ==>
                var f := Find(old(Contents()), KeyOf(query));
                r == if f.Some? && now < f.value.expires then Served(unpack, f.value, query, now) else None
      ensures |query| >= 12 ==> Fresh(unpack, maxTTL, maxBytes, deposits, Find(old(Contents()), KeyOf(query)), query, now, r)
    {
      if |query| < 12 {
        return None;
      }
      var key := KeyOf(query);
      hide Core, Contents, Fits, Delete, Served, Distinct, KeyOf, Stored, Fresh;
      Sees(key);
      if key !in entries {
        return None;
      }
      Seen();
      TouchFits(Contents(), key, now, max, maxBytes);
      TouchStored(unpack, maxTTL, maxBytes, deposits, Contents(), key, now);
      var x := entries[key];
      var e := values[x];
      if now >= e.expires {
        RemoveElement(x);
        return None;
      }
      StoredIsFresh(unpack, maxTTL, maxBytes, deposits, e, query, now);
      MoveToFront(x);
      r := Serve(e, query, now);
    }

    lemma Sees(key: Key)
      requires Core()
      ensures key !in entries ==> Find(Contents(), key).None?
      ensures key in entries ==> entries[key] in lru && entries[key] in values && values[entries[key]].key == key
      ensures key in entries ==> Find(Contents(), key) == Some(values[entries[key]])
    {
      ListFind(entries, lru, values, key);
    }

    method MoveToFront(x: nat)
      requires Core() && x in lru
      modifies this`lru
      ensures Core() && x in values && Contents() == [values[x]] + Delete(old(Contents()), values[x].key)
    {
      FrontOk(entries, lru, values, bytes, next, values[x]);
      hide TableOk, List, Delete, Drop;
      assert values[x := values[x]] == values;
      lru := [x] + Drop(lru, x);
    }

    method Serve(e: Entry, query: seq<byte>, now: int) returns (r: Option<Message>)
      ensures r == Served(unpack, e, query, now)
    {
      var m, q := unpack(e.response), unpack(query);
      if m.None? || q.None? {
        return None;
      }
      var elapsed, remaining := Seconds(now - e.stored), Seconds(e.expires - now);
      var answers := AgeSection(m.value.answers, elapsed, remaining);
      var authorities := AgeSection(m.value.authorities, elapsed, remaining);
      var additionals := AgeSection(m.value.additionals, elapsed, remaining);
      r := Some(m.value.(id := q.value.id, recursionDesired := q.value.recursionDesired, checkingDisabled := q.value.checkingDisabled,
                         questions := q.value.questions, answers := answers, authorities := authorities, additionals := additionals));
    }
  }

  /** Reading never takes more room. */
  lemma TouchFits(l: seq<Entry>, key: Key, now: int, max: nat, maxBytes: nat)
    requires Distinct(l) && Fits(l, max, maxBytes)
    ensures Fits(Touch(l, key, now), max, maxBytes)
  {
    if Find(l, key).Some? {
      DeleteBytes(l, key);
      BytesFront(Find(l, key).value, Delete(l, key));
    }
  }

  lemma AllFits(l: seq<Entry>, max: nat, maxBytes: nat)
    requires |l| <= max && Bytes(l) <= maxBytes
    ensures Fit(l, max, maxBytes) == l
  {
  }

  lemma NothingFits(l: seq<Entry>, max: nat, maxBytes: nat)
    requires |l| > max || Bytes(l) > maxBytes
    ensures l != [] && Fit(l, max, maxBytes) == Fit(l[..|l| - 1], max, maxBytes)
  {
  }
}
