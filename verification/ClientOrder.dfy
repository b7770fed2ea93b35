/**
 Which upstream clients a domain is asked at, and in which order: clients
 whose rules match come first, the fallback clients after them, and a client
 marked finalQuery ends the list. The order is memoized per domain.
 */
module ClientOrder {
  import opened Basics

  datatype Client = Client(finalQuery: bool, skipFallback: bool)

  /** infos gives for each domain rule the index of the client it belongs to. */
  datatype Config = Config(clients: seq<Client>, infos: seq<nat>, disableFallback: bool, disableFallbackIfMatch: bool) {
    ghost predicate Valid() {
      && Ascending(infos)
      && forall k :: 0 <= k < |infos| ==> infos[k] < |clients|
    }
  }

  ghost predicate Ascending(s: seq<nat>) {
    forall i, j :: 0 <= i < j < |s| ==> s[i] <= s[j]
  }

  // ---- Rules to clients --------------------------------------------------

  /** A client index is kept in 16 bits. */
  function Narrow(i: nat): nat {
    i % 0x1_0000
  }

  function Copies(x: nat, n: nat): (r: seq<nat>)
    ensures |r| == n && forall k :: 0 <= k < n ==> r[k] == x
  {
    seq(n, _ => x)
  }

  /** The owners of the rules of the first n clients, in order: client i, kept as index(i), owns rules[i] of them. */
  function RuleTable(rules: seq<nat>, n: nat, index: nat -> nat): seq<nat>
    requires n <= |rules|
  {
    if n == 0 then [] else RuleTable(rules, n - 1, index) + Copies(index(n - 1), rules[n - 1])
  }

  lemma {:induction false} RuleTableSize(rules: seq<nat>, n: nat, index: nat -> nat, other: nat -> nat)
    requires n <= |rules|
    ensures |RuleTable(rules, n, index)| == |RuleTable(rules, n, other)|
  {
    if n > 0 {
      RuleTableSize(rules, n - 1, index, other);
    }
  }

  /** The table names the true owner of every rule exactly if no client from 65536 on has rules. */
  lemma {:induction false} RuleTableTrueIff(rules: seq<nat>, n: nat)
    requires n <= |rules|
    ensures RuleTable(rules, n, Narrow) == RuleTable(rules, n, i => i) <==> forall i :: 0x1_0000 <= i < n ==> rules[i] == 0
  {
    if n > 0 {
      RuleTableTrueIff(rules, n - 1);
      RuleTableSize(rules, n - 1, Narrow, i => i);
      var a, b := RuleTable(rules, n - 1, Narrow), RuleTable(rules, n - 1, i => i);
      var x, y := Copies(Narrow(n - 1), rules[n - 1]), Copies(n - 1, rules[n - 1]);
      assert (a + x)[..|a|] == a && (b + y)[..|b|] == b && (a + x)[|a|..] == x && (b + y)[|b|..] == y;
      assert x == y <==> rules[n - 1] == 0 || n - 1 < 0x1_0000 by {
        if rules[n - 1] > 0 {
          assert x[0] == Narrow(n - 1) && y[0] == n - 1;
        }
      }
    }
  }

  lemma {:induction false} RuleTableSorted(rules: seq<nat>, n: nat)
    requires n <= |rules| <= 0x1_0000
    ensures Ascending(RuleTable(rules, n, Narrow))
    ensures forall k :: 0 <= k < |RuleTable(rules, n, Narrow)| ==> RuleTable(rules, n, Narrow)[k] < n
  {
    if n > 0 {
      RuleTableSorted(rules, n - 1);
      SortedCopies(RuleTable(rules, n - 1, Narrow), n - 1, rules[n - 1]);
      assert Narrow(n - 1) == n - 1;
      hide Ascending, Narrow, Copies;
    }
  }

  lemma SortedCopies(s: seq<nat>, x: nat, n: nat)
    requires Ascending(s) && forall k :: 0 <= k < |s| ==> s[k] < x
    ensures Ascending(s + Copies(x, n)) && forall k :: 0 <= k < |s + Copies(x, n)| ==> (s + Copies(x, n))[k] < x + 1
  {
    hide Copies;
  }

  lemma {:induction false} CopiesCount(before: seq<nat>, x: nat, n: nat, i: nat)
    ensures multiset(before + Copies(x, n))[i] == multiset(before)[i] + if i == x then n else 0
  {
    if n > 0 {
      CopiesCount(before, x, n - 1, i);
      assert before + Copies(x, n) == before + Copies(x, n - 1) + [x];
    } else {
      assert before + Copies(x, n) == before;
    }
  }

  lemma {:induction false} RuleTableCounts(rules: seq<nat>, n: nat, i: nat)
    requires n <= |rules| <= 0x1_0000
    ensures multiset(RuleTable(rules, n, Narrow))[i] == if i < n then rules[i] else 0
  {
    if n > 0 {
      assert Narrow(n - 1) == n - 1;
      RuleTableCounts(rules, n - 1, i);
      CopiesCount(RuleTable(rules, n - 1, Narrow), n - 1, rules[n - 1], i);
      hide Copies, Narrow;
    }
  }

  /** The rule table built while the clients are created: rules[i] entries for client i. */
  method MatcherInfos(rules: seq<nat>) returns (infos: seq<nat>)
    ensures infos == RuleTable(rules, |rules|, Narrow)
    ensures |rules| <= 0x1_0000 ==> Ascending(infos) && forall i :: 0 <= i < |rules| ==> multiset(infos)[i] == rules[i]
    ensures |rules| <= 0x1_0000 ==> forall k :: 0 <= k < |infos| ==> infos[k] < |rules|
  {
    infos := [];
    for i := 0 to |rules|
      invariant infos == RuleTable(rules, i, Narrow)
    {
      ghost var before := infos;
      for n := 0 to rules[i]
        invariant infos == before + Copies(Narrow(i), n)
      {
        infos := infos + [Narrow(i)];
      }
    }
    if |rules| <= 0x1_0000 {
      RuleTableSorted(rules, |rules|);
      forall i | 0 <= i < |rules|
        ensures multiset(infos)[i] == rules[i]
      {
        RuleTableCounts(rules, |rules|, i);
      }
    }
  }

  // ---- The order, stated outright ---------------------------------------

  /** The clients below n that are in s, in configuration order. */
  function InOrder(n: nat, s: set<nat>): seq<nat> {
    if n == 0 then [] else InOrder(n - 1, s) + if n - 1 in s then [n - 1] else []
  }

  /** A list of clients up to and including its first final one. */
  function Cut(clients: seq<Client>, r: seq<nat>): seq<nat>
    requires forall i :: 0 <= i < |r| ==> r[i] < |clients|
  {
    if r == [] then []
    else if clients[r[0]].finalQuery then [r[0]]
    else [r[0]] + Cut(clients, r[1..])
  }

  /** The clients with a matching rule. */
  ghost function Matched(cfg: Config, matches: seq<nat>): set<nat>
    requires forall m :: m in matches ==> m < |cfg.infos|
  {
    set m | m in matches :: cfg.infos[m]
  }

  function Eligible(cfg: Config, matched: set<nat>): set<nat> {
    set c | 0 <= c < |cfg.clients| && !cfg.clients[c].skipFallback && c !in matched
  }

  function Candidates(cfg: Config, matched: set<nat>): (r: seq<nat>)
    ensures forall i :: 0 <= i < |r| ==> r[i] < |cfg.clients|
  {
    var n := |cfg.clients|;
    InOrderBelow(n, matched);
    InOrderBelow(n, Eligible(cfg, matched));
    InOrder(n, matched) +
    if cfg.disableFallback || (cfg.disableFallbackIfMatch && InOrder(n, matched) != []) then [] else InOrder(n, Eligible(cfg, matched))
  }

  /** Matched clients, then fallback clients, both in configuration order, cut at the first final client; failing all, the first client. */
  function Order(cfg: Config, matched: set<nat>): seq<nat> {
    var r := Cut(cfg.clients, Candidates(cfg, matched));
    if r == [] && cfg.clients != [] then [0] else r
  }

  lemma {:induction false} InOrderBelow(n: nat, s: set<nat>)
    ensures forall x :: x in InOrder(n, s) <==> x < n && x in s
    ensures forall i, j :: 0 <= i < j < |InOrder(n, s)| ==> InOrder(n, s)[i] < InOrder(n, s)[j]
    ensures forall i :: 0 <= i < |InOrder(n, s)| ==> InOrder(n, s)[i] < n && InOrder(n, s)[i] in s
  {
    if n > 0 {
      InOrderBelow(n - 1, s);
    }
  }

  lemma {:induction false} InOrderPrefix(m: nat, n: nat, s: set<nat>)
    requires m <= n
    ensures InOrder(m, s) <= InOrder(n, s)
  {
    if m < n {
      InOrderPrefix(m, n - 1, s);
    }
  }

  /** Nothing of s between b and c: the next entry is c. */
  lemma {:induction false} NextInOrder(b: nat, c: nat, s: set<nat>)
    requires b <= c && c in s && forall x :: b <= x < c ==> x !in s
    ensures InOrder(c + 1, s) == InOrder(b, s) + [c]
  {
    Gap(b, c, s);
  }

  lemma {:induction false} Gap(b: nat, c: nat, s: set<nat>)
    requires b <= c && forall x :: b <= x < c ==> x !in s
    ensures InOrder(c, s) == InOrder(b, s)
  {
    if b < c {
      Gap(b, c - 1, s);
    }
  }

  ghost predicate NoneFinal(clients: seq<Client>, r: seq<nat>) {
    forall i :: 0 <= i < |r| ==> r[i] < |clients| && !clients[r[i]].finalQuery
  }

  ghost predicate EndsFinal(clients: seq<Client>, r: seq<nat>) {
    && r != [] && NoneFinal(clients, r[..|r| - 1])
    && r[|r| - 1] < |clients| && clients[r[|r| - 1]].finalQuery
  }

  /** Up to its first final client a list is kept; without one, all of it is. */
  lemma {:induction false} CutIs(clients: seq<Client>, r: seq<nat>, k: nat)
    requires (forall i :: 0 <= i < |r| ==> r[i] < |clients|) && k <= |r| && NoneFinal(clients, r[..k])
    ensures k == |r| ==> Cut(clients, r) == r
    ensures k < |r| && clients[r[k]].finalQuery ==> Cut(clients, r) == r[..k + 1]
  {
    if k > 0 {
      assert !clients[r[..k][0]].finalQuery;
      assert r[1..][..k - 1] == r[..k][1..];
      CutIs(clients, r[1..], k - 1);
      assert [r[0]] + r[1..] == r;
      assert k < |r| ==> [r[0]] + r[1..][..k] == r[..k + 1];
    } else if r != [] {
      assert r[..1] == [r[0]];
    }
  }

  // ---- sortClientsForDomain ----------------------------------------------

  ghost predicate Marks(used: seq<bool>, r: seq<nat>) {
    forall c :: 0 <= c < |used| ==> (used[c] <==> c in r)
  }

  /** What sorting the matched rules returns. */
  ghost predicate SortedForm(matches: seq<nat>, sorted: seq<nat>) {
    Ascending(sorted) && multiset(sorted) == multiset(matches)
  }

  /** The clients of the sorted rules, one entry per rule. */
  function Owners(cfg: Config, sorted: seq<nat>): (r: seq<nat>)
    requires forall k :: 0 <= k < |sorted| ==> sorted[k] < |cfg.infos|
    ensures |r| == |sorted| && forall k :: 0 <= k < |sorted| ==> r[k] == cfg.infos[sorted[k]]
  {
    seq(|sorted|, k requires 0 <= k < |sorted| => cfg.infos[sorted[k]])
  }

  lemma SortedInRange(cfg: Config, matches: seq<nat>, sorted: seq<nat>)
    requires SortedForm(matches, sorted) && forall m :: m in matches ==> m < |cfg.infos|
    ensures forall k :: 0 <= k < |sorted| ==> sorted[k] < |cfg.infos| && sorted[k] in matches
  {
    forall k | 0 <= k < |sorted|
      ensures sorted[k] in matches
    {
      assert sorted[k] in multiset(sorted);
    }
  }

  lemma OwnersAre(cfg: Config, matches: seq<nat>, sorted: seq<nat>)
    requires cfg.Valid() && SortedForm(matches, sorted) && forall m :: m in matches ==> m < |cfg.infos|
    requires forall k :: 0 <= k < |sorted| ==> sorted[k] < |cfg.infos| && sorted[k] in matches
    ensures Ascending(Owners(cfg, sorted))
    ensures forall c :: c in Matched(cfg, matches) <==> c in Owners(cfg, sorted)
  {
    var owners := Owners(cfg, sorted);
    forall i, j | 0 <= i < j < |owners|
      ensures owners[i] <= owners[j]
    {
      assert sorted[i] <= sorted[j];
    }
    forall c | c in Matched(cfg, matches)
      ensures c in owners
    {
      var m :| m in matches && cfg.infos[m] == c;
      assert m in multiset(matches);
      var t :| 0 <= t < |sorted| && sorted[t] == m;
      assert owners[t] == c;
    }
  }

  lemma NextOwner(owners: seq<nat>, s: set<nat>, k: nat, b: nat)
    requires Ascending(owners) && (forall c :: c in s <==> c in owners) && k < |owners| && b <= owners[k]
    requires forall t :: 0 <= t < k ==> owners[t] < b
    ensures InOrder(owners[k] + 1, s) == InOrder(b, s) + [owners[k]]
  {
    forall x | b <= x < owners[k]
      ensures x !in s
    {
      assert forall t :: 0 <= t < |owners| ==> owners[t] != x;
    }
    NextInOrder(b, owners[k], s);
  }

  /** The owners of the first k rules have been taken: they are the matched clients below b, none of them final. */
  ghost predicate Taken(clients: seq<Client>, owners: seq<nat>, matched: set<nat>, k: nat, b: nat, r: seq<nat>, used: seq<bool>) {
    && b <= |clients| && r == InOrder(b, matched) && NoneFinal(clients, r)
    && |used| == |clients| && Marks(used, r)
    && (forall t :: 0 <= t < k <= |owners| ==> owners[t] < b)
    && (b > 0 ==> 0 < k <= |owners| && owners[k - 1] == b - 1)
  }

  lemma Mark(used: seq<bool>, r: seq<nat>, c: nat)
    requires Marks(used, r) && c < |used|
    ensures Marks(used[c := true], r + [c])
  {
  }

  lemma Member(n: nat, s: set<nat>, x: nat)
    ensures x in InOrder(n, s) <==> x < n && x in s
  {
    InOrderBelow(n, s);
  }

  /** The owner of the next rule has been used already exactly if it is the one taken last. */
  lemma UsedOwner(clients: seq<Client>, owners: seq<nat>, matched: set<nat>, k: nat, b: nat, r: seq<nat>, used: seq<bool>)
    requires Ascending(owners) && (forall c :: c in matched <==> c in owners) && k < |owners| && owners[k] < |clients|
    requires Taken(clients, owners, matched, k, b, r, used)
    ensures |used| == |clients|
    ensures used[owners[k]] ==> owners[k] == b - 1
    ensures !used[owners[k]] ==> b <= owners[k]
  {
    hide InOrder, NoneFinal;
    var c := owners[k];
    Member(b, matched, c);
    assert c in owners;
    assert b > 0 ==> owners[k - 1] <= owners[k];
  }

  lemma TakeNext(clients: seq<Client>, owners: seq<nat>, matched: set<nat>, k: nat, b: nat, r: seq<nat>, used: seq<bool>)
    requires Ascending(owners) && (forall c :: c in matched <==> c in owners) && k < |owners| && owners[k] < |clients|
    requires Taken(clients, owners, matched, k, b, r, used)
    ensures |used| == |clients|
    ensures used[owners[k]] ==> Taken(clients, owners, matched, k + 1, b, r, used)
    ensures !used[owners[k]] ==>
              var c := owners[k];
              && r + [c] == InOrder(c + 1, matched) && Marks(used[c := true], r + [c]) && NoneFinal(clients, r)
              && (!clients[c].finalQuery ==> Taken(clients, owners, matched, k + 1, c + 1, r + [c], used[c := true]))
  {
    hide InOrder, Marks;
    UsedOwner(clients, owners, matched, k, b, r, used);
    if !used[owners[k]] {
      Mark(used, r, owners[k]);
      NextOwner(owners, matched, k, b);
    }
  }

  lemma TookAll(clients: seq<Client>, owners: seq<nat>, matched: set<nat>, b: nat, r: seq<nat>, used: seq<bool>)
    requires (forall c :: c in matched <==> c in owners) && Taken(clients, owners, matched, |owners|, b, r, used)
    ensures r == InOrder(|clients|, matched) && NoneFinal(clients, r) && |used| == |clients| && Marks(used, r)
  {
    Gap(b, |clients|, matched);
  }

  /** The clients of the matched rules, in order, stopping at a final one. */
  method TakeMatched(cfg: Config, ghost matches: seq<nat>, sorted: seq<nat>) returns (r: seq<nat>, used: seq<bool>, final: bool)
    requires cfg.Valid() && SortedForm(matches, sorted) && forall m :: m in matches ==> m < |cfg.infos|
    ensures |used| == |cfg.clients| && Marks(used, r)
    ensures !final ==> r == InOrder(|cfg.clients|, Matched(cfg, matches)) && NoneFinal(cfg.clients, r)
    ensures final ==> r <= InOrder(|cfg.clients|, Matched(cfg, matches)) && EndsFinal(cfg.clients, r)
  {
    ghost var matched := Matched(cfg, matches);
    SortedInRange(cfg, matches, sorted);
    OwnersAre(cfg, matches, sorted);
    ghost var owners := Owners(cfg, sorted);
    r, used := [], seq(|cfg.clients|, _ => false);
    ghost var b: nat := 0;
    assert Taken(cfg.clients, owners, matched, 0, b, r, used);
    hide Matched, SortedForm, Owners, InOrder, Taken, Marks, NoneFinal;
    for k := 0 to |sorted|
      invariant |used| == |cfg.clients| && Taken(cfg.clients, owners, matched, k, b, r, used)
    {
      var c := cfg.infos[sorted[k]];
      TakeNext(cfg.clients, owners, matched, k, b, r, used);
      if !used[c] {
        ghost var before := r;
        used, r := used[c := true], r + [c];
        b := c + 1;
        if cfg.clients[c].finalQuery {
          InOrderPrefix(b, |cfg.clients|, matched);
          assert r[..|r| - 1] == before;
          return r, used, true;
        }
      }
    }
    TookAll(cfg.clients, owners, matched, b, r, used);
    final := false;
  }

  lemma InOrderStep(n: nat, s: set<nat>)
    ensures InOrder(0, s) == []
    ensures InOrder(n + 1, s) == InOrder(n, s) + if n in s then [n] else []
  {
  }

  /** The eligible clients below idx have been added, none of them final. */
  ghost predicate Added(cfg: Config, eligible: set<nat>, first: seq<nat>, idx: nat, r: seq<nat>) {
    r == first + InOrder(idx, eligible) && NoneFinal(cfg.clients, r)
  }

  lemma AddNext(cfg: Config, eligible: set<nat>, first: seq<nat>, idx: nat, r: seq<nat>)
    requires Added(cfg, eligible, first, idx, r) && idx < |cfg.clients|
    ensures idx !in eligible ==> Added(cfg, eligible, first, idx + 1, r)
    ensures idx in eligible && !cfg.clients[idx].finalQuery ==> Added(cfg, eligible, first, idx + 1, r + [idx])
    ensures idx in eligible && cfg.clients[idx].finalQuery ==>
              EndsFinal(cfg.clients, r + [idx]) && r + [idx] <= first + InOrder(|cfg.clients|, eligible)
  {
    InOrderStep(idx, eligible);
    hide InOrder;
    if idx in eligible {
      assert r + [idx] == first + InOrder(idx + 1, eligible);
      InOrderPrefix(idx + 1, |cfg.clients|, eligible);
      assert (r + [idx])[..|r|] == r;
    }
  }

  lemma AddNone(cfg: Config, eligible: set<nat>, first: seq<nat>)
    requires NoneFinal(cfg.clients, first)
    ensures Added(cfg, eligible, first, 0, first)
  {
    assert first + [] == first;
  }

  /** The unused clients that take part in fallback, in order, stopping at a final one. */
  method TakeFallback(cfg: Config, ghost matched: set<nat>, first: seq<nat>, used0: seq<bool>) returns (r: seq<nat>)
    requires first == InOrder(|cfg.clients|, matched) && NoneFinal(cfg.clients, first)
    requires |used0| == |cfg.clients| && Marks(used0, first)
    ensures var all := first + InOrder(|cfg.clients|, Eligible(cfg, matched));
            (NoneFinal(cfg.clients, r) && r == all) || (EndsFinal(cfg.clients, r) && r <= all)
  {
    var n, used := |cfg.clients|, used0;
    ghost var eligible := Eligible(cfg, matched);
    r := first;
    forall c | 0 <= c < n
      ensures used[c] <==> c in matched
    {
      Member(n, matched, c);
    }
    AddNone(cfg, eligible, first);
    hide InOrder, Marks, NoneFinal, EndsFinal;
    for idx := 0 to n
      invariant Added(cfg, eligible, first, idx, r)
      invariant |used| == n && forall c :: idx <= c < n ==> (used[c] <==> c in matched)
    {
      AddNext(cfg, eligible, first, idx, r);
      hide Added;
      if used[idx] || cfg.clients[idx].skipFallback {
        continue;
      }
      used, r := used[idx := true], r + [idx];
      if cfg.clients[idx].finalQuery {
        return;
      }
    }
  }

  lemma CutAtFinal(clients: seq<Client>, r: seq<nat>, all: seq<nat>)
    requires (forall i :: 0 <= i < |all| ==> all[i] < |clients|) && r <= all
    requires (NoneFinal(clients, r) && r == all) || EndsFinal(clients, r)
    ensures Cut(clients, all) == r
  {
    if NoneFinal(clients, r) && r == all {
      assert all[..|all|] == all;
      CutIs(clients, all, |all|);
    } else {
      assert all[..|r| - 1] == r[..|r| - 1];
      CutIs(clients, all, |r| - 1);
    }
  }

  /** sortClientsForDomain for the rules that match the domain; without a domain matcher there are none. */
  method SortClientsForDomain(cfg: Config, ghost matches: seq<nat>, sorted: seq<nat>) returns (r: seq<nat>)
    requires cfg.Valid() && SortedForm(matches, sorted) && forall m :: m in matches ==> m < |cfg.infos|
    ensures r == Order(cfg, Matched(cfg, matches))
  {
    ghost var matched := Matched(cfg, matches);
    ghost var all := Candidates(cfg, matched);
    var used, final;
    r, used, final := TakeMatched(cfg, matches, sorted);
    hide Matched, SortedForm, InOrder, Marks, NoneFinal, EndsFinal, Cut;
    var hasMatch := r != [];
    if final {
      CutAtFinal(cfg.clients, r, all);
      FinalNotEmpty(cfg.clients, r);
      return;
    }
    if !(cfg.disableFallback || (cfg.disableFallbackIfMatch && hasMatch)) {
      r := TakeFallback(cfg, matched, r, used);
    }
    CutAtFinal(cfg.clients, r, all);
    if |r| == 0 && |cfg.clients| > 0 {
      r := [0];
    }
  }

  lemma FinalNotEmpty(clients: seq<Client>, r: seq<nat>)
    requires EndsFinal(clients, r)
    ensures r != []
  {
  }

  // ---- What the order promises ---------------------------------------------

  lemma {:induction false} CutIsPrefix(clients: seq<Client>, r: seq<nat>)
    requires forall i :: 0 <= i < |r| ==> r[i] < |clients|
    ensures Cut(clients, r) <= r && (r != [] ==> Cut(clients, r) != [])
    ensures (NoneFinal(clients, Cut(clients, r)) && Cut(clients, r) == r) || EndsFinal(clients, Cut(clients, r))
  {
    if r != [] && !clients[r[0]].finalQuery {
      CutIsPrefix(clients, r[1..]);
      var t := Cut(clients, r[1..]);
      assert t != [] ==> ([r[0]] + t)[..|t|] == [r[0]] + t[..|t| - 1];
    }
  }

  /** Matched clients lead, fallback clients follow, each part in configuration order and no client twice. */
  lemma OrderIsTwoRuns(cfg: Config, matched: set<nat>) returns (m: nat)
    ensures var r := Order(cfg, matched);
            && m <= |r|
            && (forall i :: 0 <= i < |r| ==> r[i] < |cfg.clients| && (i < m <==> r[i] in matched))
            && (forall i, j :: 0 <= i < j < m || m <= i < j < |r| ==> r[i] < r[j])
            && (forall i :: m <= i < |r| ==> !cfg.clients[r[i]].skipFallback || r == [0])
  {
    var n, all, r := |cfg.clients|, Candidates(cfg, matched), Order(cfg, matched);
    CandidatesAreTwoRuns(cfg, matched);
    CutIsPrefix(cfg.clients, all);
    m := if |r| < |InOrder(n, matched)| then |r| else |InOrder(n, matched)|;
    if all == [] {
      if r != [] {
        NoCandidates(cfg, matched);
      }
    }
    hide Candidates, Cut, InOrder, Eligible;
  }

  lemma NoCandidates(cfg: Config, matched: set<nat>)
    requires Candidates(cfg, matched) == [] && cfg.clients != []
    ensures 0 !in matched && InOrder(|cfg.clients|, matched) == []
  {
    Member(|cfg.clients|, matched, 0);
  }

  lemma CandidatesAreTwoRuns(cfg: Config, matched: set<nat>)
    ensures var all, m := Candidates(cfg, matched), |InOrder(|cfg.clients|, matched)|;
            && m <= |all|
            && (forall i :: 0 <= i < |all| ==> (i < m <==> all[i] in matched))
            && (forall i, j :: 0 <= i < j < m || m <= i < j < |all| ==> all[i] < all[j])
            && (forall i :: m <= i < |all| ==> !cfg.clients[all[i]].skipFallback)
  {
    InOrderBelow(|cfg.clients|, matched);
    InOrderBelow(|cfg.clients|, Eligible(cfg, matched));
    hide InOrder;
  }

  lemma NoClientTwice(cfg: Config, matched: set<nat>)
    ensures forall i, j :: 0 <= i < j < |Order(cfg, matched)| ==> Order(cfg, matched)[i] != Order(cfg, matched)[j]
  {
    var m := OrderIsTwoRuns(cfg, matched);
  }

  /** Some client is asked whenever there is one, and only the last one asked can be final. */
  lemma FinalEndsOrder(cfg: Config, matched: set<nat>)
    ensures Order(cfg, matched) == [] <==> cfg.clients == []
    ensures forall i :: 0 <= i < |Order(cfg, matched)| - 1 ==> Order(cfg, matched)[i] < |cfg.clients| && !cfg.clients[Order(cfg, matched)[i]].finalQuery
  {
    var all := Candidates(cfg, matched);
    var r := Cut(cfg.clients, all);
    CutIsPrefix(cfg.clients, all);
    forall i | 0 <= i < |r| - 1
      ensures r[i] < |cfg.clients| && !cfg.clients[r[i]].finalQuery
    {
      assert r[..|r| - 1][i] == r[i];
    }
  }

  /** An order that does not end in a final client leaves out no matched client, and no fallback client unless fallback is off. */
  lemma NothingLeftOut(cfg: Config, matched: set<nat>, c: nat)
    requires cfg.clients != [] && c < |cfg.clients|
    requires var r := Order(cfg, matched); r != [] && r[|r| - 1] < |cfg.clients| && !cfg.clients[r[|r| - 1]].finalQuery
    ensures c in matched ==> c in Order(cfg, matched)
    ensures !cfg.disableFallback && !(cfg.disableFallbackIfMatch && exists d :: d in matched && d < |cfg.clients|) ==>
              cfg.clients[c].skipFallback || c in Order(cfg, matched)
  {
    var n := |cfg.clients|;
    CutIsPrefix(cfg.clients, Candidates(cfg, matched));
    Member(n, matched, c);
    Member(n, Eligible(cfg, matched), c);
    if InOrder(n, matched) != [] {
      InOrderBelow(n, matched);
      assert InOrder(n, matched)[0] in matched;
    }
  }

  /** Fallback is on: neither switched off nor overruled by a match. */
  ghost predicate FallbackOn(cfg: Config, matched: set<nat>) {
    !cfg.disableFallback && !(cfg.disableFallbackIfMatch && exists d :: d in matched && d < |cfg.clients|)
  }

  /** Who may be asked: the matched clients, and with fallback on those that do not refuse it. */
  lemma CandidateIff(cfg: Config, matched: set<nat>, c: nat)
    ensures c in Candidates(cfg, matched) <==>
            c < |cfg.clients| && (c in matched || (FallbackOn(cfg, matched) && !cfg.clients[c].skipFallback))
  {
    var n := |cfg.clients|;
    InOrderBelow(n, matched);
    Member(n, Eligible(cfg, matched), c);
    assert InOrder(n, matched) != [] <==> exists d :: d in matched && d < n by {
      if InOrder(n, matched) != [] {
        assert InOrder(n, matched)[0] in matched;
      }
    }
    hide InOrder;
  }

  /** A client is asked only if it may be, except that the first one is when nobody may be. */
  lemma OnlyCandidatesAreAsked(cfg: Config, matched: set<nat>, c: nat)
    requires c in Order(cfg, matched)
    ensures c < |cfg.clients|
    ensures || c in matched || (FallbackOn(cfg, matched) && !cfg.clients[c].skipFallback)
            || (Order(cfg, matched) == [0] && forall d: nat :: d < |cfg.clients| ==> d !in matched && (!FallbackOn(cfg, matched) || cfg.clients[d].skipFallback))
  {
    hide FallbackOn, Cut, Candidates;
    CutIsPrefix(cfg.clients, Candidates(cfg, matched));
    CandidateIff(cfg, matched, c);
    if c !in Candidates(cfg, matched) {
      forall d: nat | d < |cfg.clients|
        ensures d !in matched && (!FallbackOn(cfg, matched) || cfg.clients[d].skipFallback)
      {
        CandidateIff(cfg, matched, d);
      }
    }
  }

  // ---- The memo --------------------------------------------------------------

  const SORT_CLIENT_CACHE_CAP := 4096

  /** The rules that match a lower-cased domain, as the domain matcher reports them and as sorting leaves them. */
  datatype Matcher = Matcher(matches: string -> seq<nat>, sorted: string -> seq<nat>) {
    ghost predicate Valid(cfg: Config) {
      forall key :: SortedForm(matches(key), sorted(key)) && forall m :: m in matches(key) ==> m < |cfg.infos|
    }
  }

  /** The per-domain memo. Its two locked sections may interleave with other callers'; each keeps Valid on its own. */
  class Sorter {
    const cfg: Config
    const matcher: Matcher
    var cache: map<string, seq<nat>>

    ghost predicate Valid()
      reads this
    {
      && cfg.Valid() && matcher.Valid(cfg) && |cache| <= 4096
      && forall key :: key in cache ==> cache[key] == Uncached(key)
    }

    ghost function Uncached(key: string): seq<nat>
      requires matcher.Valid(cfg)
    {
      Order(cfg, Matched(cfg, matcher.matches(key)))
    }

    constructor (cfg: Config, matcher: Matcher)
      requires cfg.Valid() && matcher.Valid(cfg)
      ensures Valid() && this.cfg == cfg && this.matcher == matcher && cache == map[]
    {
      this.cfg, this.matcher := cfg, matcher;
      cache := map[];
    }

    method Cached(key: string) returns (r: Option<seq<nat>>)
      requires Valid()
      ensures r.Some? <==> key in cache
      ensures r.Some? ==> r.value == Uncached(key)
    {
      r := if key in cache then Some(cache[key]) else None;
    }

    method Remember(key: string, clients: seq<nat>)
      requires Valid() && clients == Uncached(key)
      modifies this
      ensures Valid() && key in cache
      ensures old(|cache|) < 4096 ==> cache == old(cache)[key := clients]
      ensures old(|cache|) >= 4096 ==> cache == map[key := clients]
    {
      hide Order, Matched, SortedForm;
      if |cache| >= SORT_CLIENT_CACHE_CAP {
        cache := map[];
      }
      Grows(cache, key, clients);
      cache := cache[key := clients];
    }

    /** sortClients: whatever the memo holds, the answer is the order computed afresh for the lower-cased domain. */
    method SortClients(domain: string) returns (r: seq<nat>)
      requires Valid()
      modifies this
      ensures Valid() && r == Uncached(Lower(domain))
      ensures old(Lower(domain) in cache) ==> cache == old(cache)
    {
      var key := Lower(domain);
      var cached := Cached(key);
      if cached.Some? {
        return cached.value;
      }
      r := SortClientsForDomain(cfg, matcher.matches(key), matcher.sorted(key));
      Remember(key, r);
    }
  }

  lemma Grows(m: map<string, seq<nat>>, k: string, v: seq<nat>)
    ensures |m[k := v]| <= |m| + 1
  {
    assert m[k := v].Keys == m.Keys + {k};
    assert |m.Keys| == |m| && |m[k := v].Keys| == |m[k := v]|;
  }
}
