/**
 Serial and parallel queries over an ordered list of upstream clients. In
 parallel mode replies arrive in any order, adjacent clients with one policy
 race as a group, and groups are honoured in order.
 */
module QueryRace {
  import opened Basics

  type IpAddr = int

  /** Other stands for every error that is neither of the two the merge singles out. */
  datatype Err = RecordNotFound | EmptyResponse | Other(id: int)
  datatype Reply = Reply(ips: seq<IpAddr>, ttl: nat, err: Option<Err>)
  datatype Failure = Empty | Wrapped(err: Err) | WrappedAll(errs: seq<Err>)
  datatype Outcome = Answer(ips: seq<IpAddr>, ttl: nat) | Failed(failure: Failure) | Cancelled

  // ---- Merging errors ---------------------------------------------------

  /** The errors with something to say: all but "record not found". */
  function Real(errs: seq<Err>): seq<Err> {
    if errs == [] then []
    else Real(errs[..|errs| - 1]) + (if errs[|errs| - 1].RecordNotFound? then [] else [errs[|errs| - 1]])
  }

  /** One common real error is reported, differing ones are reported together, none at all as not found. */
  function Merged(errs: seq<Err>): Failure {
    var said := Real(errs);
    if errs == [] then Empty
    else if exists i :: 0 <= i < |said| && said[i] != said[0] then WrappedAll(errs)
    else if said == [] then Wrapped(RecordNotFound)
    else if said[0].EmptyResponse? then Empty
    else Wrapped(said[0])
  }

  lemma {:induction false} RealGrows(errs: seq<Err>, k: nat)
    requires k <= |errs|
    ensures Real(errs[..k]) <= Real(errs)
    decreases |errs| - k
  {
    if k < |errs| {
      RealGrows(errs, k + 1);
      assert errs[..k + 1][..k] == errs[..k];
    } else {
      assert errs[..k] == errs;
    }
  }

  lemma {:induction false} RealIs(errs: seq<Err>)
    ensures forall e :: e in Real(errs) <==> e in errs && !e.RecordNotFound?
  {
    if errs != [] {
      RealIs(errs[..|errs| - 1]);
      assert errs == errs[..|errs| - 1] + [errs[|errs| - 1]];
    }
  }

  /** Two errors that differ, and both have something to say. */
  ghost predicate Differ(errs: seq<Err>) {
    exists d, e :: d in errs && e in errs && d != e && d != RecordNotFound && e != RecordNotFound
  }

  /** What the failure says, over the errors themselves: differing ones are reported together and in order. */
  lemma MergedAllIff(errs: seq<Err>)
    ensures Merged(errs).WrappedAll? <==> Differ(errs)
    ensures Differ(errs) ==> Merged(errs) == WrappedAll(errs)
  {
    RealIs(errs);
    var said := Real(errs);
    if i :| 0 <= i < |said| && said[i] != said[0] {
      assert said[i] in said && said[0] in said;
    }
  }

  /** One common error is reported itself, also among upstreams that found no record. */
  lemma MergedOneIff(errs: seq<Err>, e: Err)
    requires e.Other?
    ensures Merged(errs) == Wrapped(e) <==> e in errs && forall d :: d in errs ==> d == e || d == RecordNotFound
  {
    RealIs(errs);
    var said := Real(errs);
    assert forall i :: 0 <= i < |said| ==> said[i] in said;
    if Merged(errs) == Wrapped(e) {
      forall d | d in errs && d != RecordNotFound
        ensures d == e
      {
        var i :| 0 <= i < |said| && said[i] == d;
      }
    }
  }

  /** "Record not found" is reported exactly if that is all there is to report. */
  lemma MergedNotFoundIff(errs: seq<Err>)
    ensures Merged(errs) == Wrapped(RecordNotFound) <==> errs != [] && forall d :: d in errs ==> d == RecordNotFound
    ensures Merged(errs) != Wrapped(EmptyResponse)
  {
    RealIs(errs);
    var said := Real(errs);
    assert said != [] ==> said[0] in said;
    assert forall d :: d in errs && d != RecordNotFound ==> d in said;
    hide Real;
  }

  method MergeQueryErrors(errs: seq<Err>) returns (r: Failure)
    ensures r == Merged(errs)
  {
    if |errs| == 0 {
      return Empty;
    }
    var noRNF: Option<Err> := None;
    for k := 0 to |errs|
      invariant var said := Real(errs[..k]);
                if said == [] then noRNF == None else noRNF == Some(said[0]) && forall i :: 0 <= i < |said| ==> said[i] == said[0]
    {
      assert errs[..k + 1][..k] == errs[..k];
      if errs[k].RecordNotFound? {
        continue;
      } else if noRNF.None? {
        noRNF := Some(errs[k]);
      } else if errs[k] != noRNF.value {
        RealGrows(errs, k + 1);
        assert Real(errs[..k + 1])[|Real(errs[..k])|] == errs[k];
        assert Real(errs)[|Real(errs[..k])|] == errs[k] && Real(errs)[0] == noRNF.value;
        return WrappedAll(errs);
      }
    }
    assert errs[..|errs|] == errs;
    if noRNF == Some(EmptyResponse) {
      return Empty;
    }
    return Wrapped(if noRNF.None? then RecordNotFound else noRNF.value);
  }

  // ---- Groups -----------------------------------------------------------

  datatype Group = Group(start: nat, end: nat)

  /** Where group g begins; past the last group, the number of clients. */
  function StartOf(groups: seq<Group>, n: nat, g: nat): nat {
    if g < |groups| then groups[g].start else n
  }

  ghost predicate Tiles(groups: seq<Group>, n: nat) {
    && (groups == [] ==> n == 0)
    && (groups != [] ==> groups[0].start == 0 && groups[|groups| - 1].end + 1 == n)
    && (forall g :: 0 <= g < |groups| ==> groups[g].start <= groups[g].end)
    && (forall g, h :: 0 <= g && h == g + 1 < |groups| ==> groups[g].end + 1 == groups[h].start)
  }

  ghost predicate Labels(groups: seq<Group>, groupOf: seq<nat>) {
    forall i :: 0 <= i < |groupOf| ==> groupOf[i] < |groups| && groups[groupOf[i]].start <= i <= groups[groupOf[i]].end
  }

  ghost predicate Follows(policies: seq<int>, groupOf: seq<nat>)
    requires |groupOf| == |policies|
  {
    forall i, j :: 0 <= i && j == i + 1 < |policies| ==> (groupOf[i] == groupOf[j] <==> policies[i] == policies[j])
  }

  /** The groups tile the client list, and neighbours share a group exactly when they share a policy. */
  ghost predicate Groups(policies: seq<int>, groups: seq<Group>, groupOf: seq<nat>) {
    && |groupOf| == |policies|
    && Tiles(groups, |policies|) && Labels(groups, groupOf) && Follows(policies, groupOf)
  }

  lemma CloseTiles(groups: seq<Group>, s: nat, e: nat)
    requires Tiles(groups, s) && s <= e
    ensures Tiles(groups + [Group(s, e)], e + 1)
  {
  }

  lemma CloseFollows(policies: seq<int>, groups: seq<Group>, groupOf: seq<nat>, s: nat, e: nat)
    requires s <= e < |policies| && |groupOf| == s && Labels(groups, groupOf) && Follows(policies[..s], groupOf)
    requires s > 0 ==> policies[s - 1] != policies[s]
    requires forall k, l :: s <= k && l == k + 1 <= e ==> policies[k] == policies[l]
    ensures Follows(policies[..e + 1], groupOf + seq(e + 1 - s, _ => |groups|))
  {
    var ps, of := policies[..e + 1], groupOf + seq(e + 1 - s, _ => |groups|);
    forall i, j | 0 <= i && j == i + 1 < |ps|
      ensures of[i] == of[j] <==> ps[i] == ps[j]
    {
      if j < s {
        assert policies[..s][i] == ps[i] && policies[..s][j] == ps[j];
      }
    }
  }

  /** Closing the run s..e as one group extends the tiling of the first s clients to the first e + 1. */
  lemma CloseGroup(policies: seq<int>, groups: seq<Group>, groupOf: seq<nat>, s: nat, e: nat)
    requires s <= e < |policies| && Groups(policies[..s], groups, groupOf)
    requires s > 0 ==> policies[s - 1] != policies[s]
    requires forall k, l :: s <= k && l == k + 1 <= e ==> policies[k] == policies[l]
    ensures Groups(policies[..e + 1], groups + [Group(s, e)], groupOf + seq(e + 1 - s, _ => |groups|))
  {
    hide Tiles, Follows;
    CloseTiles(groups, s, e);
    CloseFollows(policies, groups, groupOf, s, e);
  }

  method MakeGroups(policies: seq<int>) returns (groups: seq<Group>, groupOf: seq<nat>)
    ensures Groups(policies, groups, groupOf)
  {
    hide Groups;
    var n := |policies|;
    groups, groupOf := [], [];
    assert Groups(policies[..0], groups, groupOf) by { NoGroups(policies[..0]); }
    if n == 0 {
      assert policies[..0] == policies;
      return;
    }
    var s, e := 0, 0;
    for i := 1 to n
      invariant s <= e == i - 1 && Groups(policies[..s], groups, groupOf)
      invariant s > 0 ==> policies[s - 1] != policies[s]
      invariant forall k, l :: s <= k && l == k + 1 <= e ==> policies[k] == policies[l]
    {
      if policies[i - 1] == policies[i] {
        e := i;
      } else {
        CloseGroup(policies, groups, groupOf, s, e);
        groupOf := groupOf + seq(e + 1 - s, _ => |groups|);
        groups := groups + [Group(s, e)];
        s, e := i, i;
      }
    }
    CloseGroup(policies, groups, groupOf, s, e);
    groupOf := groupOf + seq(e + 1 - s, _ => |groups|);
    groups := groups + [Group(s, e)];
    assert policies[..n] == policies;
  }

  lemma NoGroups(policies: seq<int>)
    requires policies == []
    ensures Groups(policies, [], [])
  {
  }

  // ---- Parallel query ---------------------------------------------------

  predicate Success(r: Reply) {
    r.err.None? && |r.ips| > 0
  }

  function ErrorOf(r: Reply): Err {
    if r.err.Some? then r.err.value else EmptyResponse
  }

  /** The errors of the first m clients, in client order. */
  function ErrorsOf(replies: seq<Reply>, m: nat): seq<Err>
    requires m <= |replies|
  {
    seq(m, i requires 0 <= i < m => ErrorOf(replies[i]))
  }

  ghost predicate Arrived(results: seq<Option<Reply>>, replies: seq<Reply>, arrived: set<nat>) {
    && |results| == |replies|
    && forall i :: 0 <= i < |replies| ==> results[i] == if i in arrived then Some(replies[i]) else None
  }

  ghost function Missing(g: Group, arrived: set<nat>): set<nat> {
    set i | g.start <= i <= g.end && i !in arrived
  }

  ghost predicate Pending(groups: seq<Group>, pending: seq<int>, arrived: set<nat>) {
    |pending| == |groups| && forall g :: 0 <= g < |groups| ==> pending[g] == |Missing(groups[g], arrived)|
  }

  /** The first m clients have all replied without success. */
  ghost predicate Cleared(replies: seq<Reply>, arrived: set<nat>, m: nat)
    requires m <= |replies|
  {
    forall i :: 0 <= i < m ==> i in arrived && !Success(replies[i])
  }

  ghost predicate NoSuccessYet(replies: seq<Reply>, g: Group, arrived: set<nat>)
    requires g.end < |replies|
  {
    forall i :: g.start <= i <= g.end && i in arrived ==> !Success(replies[i])
  }

  /** j is the first arrived success of group g. */
  ghost predicate Wins(replies: seq<Reply>, g: Group, arrived: set<nat>, j: nat)
    requires g.end < |replies|
  {
    && g.start <= j <= g.end && j in arrived && Success(replies[j])
    && forall i :: g.start <= i < j && i in arrived ==> !Success(replies[i])
  }

  lemma GroupBounds(policies: seq<int>, groups: seq<Group>, groupOf: seq<nat>, g: nat)
    requires Groups(policies, groups, groupOf) && g < |groups|
    ensures groups[g].start <= groups[g].end < |policies| && groups[g].end + 1 == StartOf(groups, |policies|, g + 1) <= |policies|
    decreases |groups| - g
  {
    if g + 1 < |groups| {
      GroupBounds(policies, groups, groupOf, g + 1);
    }
  }

  method FirstSuccess(ghost replies: seq<Reply>, ghost arrived: set<nat>, results: seq<Option<Reply>>, g: Group) returns (j: Option<nat>)
    requires Arrived(results, replies, arrived) && g.start <= g.end < |replies|
    ensures j.Some? ==> Wins(replies, g, arrived, j.value) && results[j.value] == Some(replies[j.value])
    ensures j.None? ==> NoSuccessYet(replies, g, arrived)
  {
    for k := g.start to g.end + 1
      invariant forall i :: g.start <= i < k && i in arrived ==> !Success(replies[i])
    {
      if results[k].Some? && Success(results[k].value) {
        return Some(k);
      }
    }
    j := None;
  }

  /** Appends the errors of a group all of whose clients have replied. */
  method CollectErrors(ghost replies: seq<Reply>, ghost arrived: set<nat>, results: seq<Option<Reply>>, g: Group, errs0: seq<Err>) returns (errs: seq<Err>)
    requires Arrived(results, replies, arrived) && g.start <= g.end < |replies| && Missing(g, arrived) == {}
    requires errs0 == ErrorsOf(replies, g.start)
    ensures errs == ErrorsOf(replies, g.end + 1)
    ensures forall i :: g.start <= i <= g.end ==> i in arrived
  {
    errs := errs0;
    for j := g.start to g.end + 1
      invariant forall i :: g.start <= i < j ==> i in arrived
      invariant errs == ErrorsOf(replies, j)
    {
      assert j !in Missing(g, arrived);
      errs := errs + [ErrorOf(results[j].value)];
    }
  }

  /** The scan after each arrival: report a winner of the current group, or move past groups that have all failed. */
  method Settle(ghost policies: seq<int>, ghost groupOf: seq<nat>, ghost replies: seq<Reply>, ghost arrived: set<nat>,
                groups: seq<Group>, results: seq<Option<Reply>>, pending: seq<int>, nextGroup0: nat, errs0: seq<Err>)
    returns (winner: Option<nat>, nextGroup: nat, errs: seq<Err>)
    requires Groups(policies, groups, groupOf) && |replies| == |policies| && nextGroup0 <= |groups|
    requires Arrived(results, replies, arrived) && Pending(groups, pending, arrived)
    requires Done(groups, replies, arrived, nextGroup0, errs0)
    ensures nextGroup0 <= nextGroup <= |groups| && Done(groups, replies, arrived, nextGroup, errs)
    ensures nextGroup < |groups| ==> groups[nextGroup].end < |replies|
    ensures winner.Some? ==> nextGroup < |groups| && Wins(replies, groups[nextGroup], arrived, winner.value)
    ensures winner.Some? ==> winner.value < |results| && results[winner.value] == Some(replies[winner.value])
    ensures winner.None? && nextGroup < |groups| ==>
              Missing(groups[nextGroup], arrived) != {} && NoSuccessYet(replies, groups[nextGroup], arrived)
  {
    nextGroup, errs := nextGroup0, errs0;
    while nextGroup < |groups|
      invariant nextGroup0 <= nextGroup <= |groups| && Done(groups, replies, arrived, nextGroup, errs)
      decreases |groups| - nextGroup
    {
      var g := groups[nextGroup];
      GroupBounds(policies, groups, groupOf, nextGroup);
      winner := FirstSuccess(replies, arrived, results, g);
      if winner.Some? || pending[nextGroup] > 0 {
        return;
      }
      errs := CollectErrors(replies, arrived, results, g, errs);
      nextGroup := nextGroup + 1;
    }
    winner := None;
  }

  /** Every group before g has replied in full and failed, and errs lists their errors in client order. */
  ghost predicate Done(groups: seq<Group>, replies: seq<Reply>, arrived: set<nat>, g: nat, errs: seq<Err>) {
    var m := StartOf(groups, |replies|, g);
    m <= |replies| && Cleared(replies, arrived, m) && errs == ErrorsOf(replies, m)
  }

  /** Everything parallelQuery knows before it takes the next arrival. */
  ghost predicate Waiting(policies: seq<int>, groups: seq<Group>, groupOf: seq<nat>, replies: seq<Reply>, arrived: set<nat>,
                          results: seq<Option<Reply>>, pending: seq<int>, nextGroup: nat, errs: seq<Err>) {
    && |replies| == |policies| && nextGroup <= |groups|
    && Arrived(results, replies, arrived) && Pending(groups, pending, arrived)
    && Done(groups, replies, arrived, nextGroup, errs)
    && (nextGroup < |groups| ==>
          && groups[nextGroup].end < |replies|
          && Missing(groups[nextGroup], arrived) != {} && NoSuccessYet(replies, groups[nextGroup], arrived))
  }

  lemma PendingArrival(policies: seq<int>, groups: seq<Group>, groupOf: seq<nat>, pending: seq<int>, arrived: set<nat>, x: nat)
    requires Groups(policies, groups, groupOf) && Pending(groups, pending, arrived) && x < |policies| && x !in arrived
    ensures Pending(groups, pending[groupOf[x] := pending[groupOf[x]] - 1], arrived + {x})
  {
    var arrived' := arrived + {x};
    forall g | 0 <= g < |groups|
      ensures |Missing(groups[g], arrived')| == |Missing(groups[g], arrived)| - if g == groupOf[x] then 1 else 0
    {
      if g == groupOf[x] {
        assert Missing(groups[g], arrived') == Missing(groups[g], arrived) - {x};
      } else {
        GroupsDisjoint(policies, groups, groupOf, g, x);
        assert Missing(groups[g], arrived') == Missing(groups[g], arrived);
      }
    }
  }

  lemma Ordered(policies: seq<int>, groups: seq<Group>, groupOf: seq<nat>, g: nat, h: nat)
    requires Groups(policies, groups, groupOf) && g < h < |groups|
    ensures groups[g].end < groups[h].start
    decreases h - g
  {
    if g + 1 < h {
      Ordered(policies, groups, groupOf, g + 1, h);
    }
  }

  lemma GroupsDisjoint(policies: seq<int>, groups: seq<Group>, groupOf: seq<nat>, g: nat, x: nat)
    requires Groups(policies, groups, groupOf) && g < |groups| && x < |policies| && g != groupOf[x]
    ensures !(groups[g].start <= x <= groups[g].end)
  {
    if g < groupOf[x] {
      Ordered(policies, groups, groupOf, g, groupOf[x]);
    } else {
      Ordered(policies, groups, groupOf, groupOf[x], g);
    }
  }

  /** The clients whose replies are among the first k arrivals. */
  ghost function Among(order: seq<nat>, k: nat): set<nat>
    requires k <= |order|
  {
    set i | 0 <= i < k :: order[i]
  }

  /** Each client replies exactly once. */
  ghost predicate ArrivalOrder(order: seq<nat>, n: nat) {
    && |order| == n
    && (forall i :: 0 <= i < n ==> order[i] < n)
    && (forall i, j :: 0 <= i < j < n ==> order[i] != order[j])
    && (forall i :: 0 <= i < n ==> i in order)
  }

  /** Clients i <= j of one unbroken run of a policy. */
  ghost predicate Peers(policies: seq<int>, i: nat, j: nat) {
    i <= j < |policies| && forall k :: i <= k <= j ==> policies[k] == policies[i]
  }

  /**
   With the first k arrivals the race is decided for client j: it succeeded, every client of an
   earlier policy group has replied and failed, and no arrived peer before it succeeded.
   */
  ghost predicate Decided(policies: seq<int>, replies: seq<Reply>, order: seq<nat>, k: nat, j: nat)
    requires |replies| == |policies| && k <= |order|
  {
    && j < |policies| && j in Among(order, k) && Success(replies[j])
    && (forall i :: 0 <= i < j && !Peers(policies, i, j) ==> i in Among(order, k) && !Success(replies[i]))
    && (forall i :: 0 <= i < j && Peers(policies, i, j) && i in Among(order, k) ==> !Success(replies[i]))
  }

  lemma GroupOrder(policies: seq<int>, groups: seq<Group>, groupOf: seq<nat>, i: nat, j: nat)
    requires Groups(policies, groups, groupOf) && i <= j < |policies|
    ensures groupOf[i] <= groupOf[j]
  {
    if groupOf[j] < groupOf[i] {
      Ordered(policies, groups, groupOf, groupOf[j], groupOf[i]);
    }
  }

  lemma {:induction false} PeersShareGroup(policies: seq<int>, groups: seq<Group>, groupOf: seq<nat>, i: nat, j: nat)
    requires Groups(policies, groups, groupOf) && i <= j < |policies|
    ensures Peers(policies, i, j) <==> groupOf[i] == groupOf[j]
    decreases j - i
  {
    hide Tiles, Labels;
    if i < j {
      PeersShareGroup(policies, groups, groupOf, i, j - 1);
      GroupOrder(policies, groups, groupOf, i, j - 1);
      GroupOrder(policies, groups, groupOf, j - 1, j);
      assert groupOf[j - 1] == groupOf[j] <==> policies[j - 1] == policies[j];
    }
  }

  lemma InGroup(policies: seq<int>, groups: seq<Group>, groupOf: seq<nat>, g: nat, i: nat)
    requires Groups(policies, groups, groupOf) && g < |groups| && i < |policies|
    ensures groups[g].start <= i <= groups[g].end <==> groupOf[i] == g
    ensures i < groups[g].start <==> groupOf[i] < g
  {
    if groupOf[i] < g {
      Ordered(policies, groups, groupOf, groupOf[i], g);
    } else if g < groupOf[i] {
      Ordered(policies, groups, groupOf, g, groupOf[i]);
    }
  }

  lemma Label(policies: seq<int>, groups: seq<Group>, groupOf: seq<nat>, i: nat)
    requires Groups(policies, groups, groupOf) && i < |policies|
    ensures i < |groupOf| && groupOf[i] < |groups|
  {
  }

  /** A winner of the current group decides the race. */
  lemma WinnerDecides(policies: seq<int>, groups: seq<Group>, groupOf: seq<nat>, replies: seq<Reply>, order: seq<nat>, k: nat, g: nat, j: nat)
    requires Groups(policies, groups, groupOf) && |replies| == |policies| && k <= |order|
    requires g < |groups| && groups[g].end < |replies| && groups[g].start <= groups[g].end
    requires Cleared(replies, Among(order, k), groups[g].start) && Wins(replies, groups[g], Among(order, k), j)
    ensures Decided(policies, replies, order, k, j)
  {
    hide Groups, Success, Among;
    InGroup(policies, groups, groupOf, g, j);
    forall i | 0 <= i < j
      ensures Peers(policies, i, j) <==> i >= groups[g].start
    {
      InGroup(policies, groups, groupOf, g, i);
      PeersShareGroup(policies, groups, groupOf, i, j);
      GroupOrder(policies, groups, groupOf, i, j);
    }
  }

  /** While the current group is open and without success, nothing is decided. */
  lemma WaitingIsUndecided(policies: seq<int>, groups: seq<Group>, groupOf: seq<nat>, replies: seq<Reply>, order: seq<nat>, k: nat,
                           results: seq<Option<Reply>>, pending: seq<int>, nextGroup: nat, errs: seq<Err>, j: nat)
    requires Groups(policies, groups, groupOf) && k <= |order|
    requires Waiting(policies, groups, groupOf, replies, Among(order, k), results, pending, nextGroup, errs)
    ensures !Decided(policies, replies, order, k, j)
  {
    hide Groups, Success, Among, Arrived, Pending, ErrorsOf;
    if j < |policies| && nextGroup < |groups| {
      InGroup(policies, groups, groupOf, nextGroup, j);
      Label(policies, groups, groupOf, j);
      if nextGroup < groupOf[j] {
        var i :| i in Missing(groups[nextGroup], Among(order, k));
        InGroup(policies, groups, groupOf, nextGroup, i);
        InGroup(policies, groups, groupOf, groupOf[j], i);
        InGroup(policies, groups, groupOf, groupOf[j], j);
        PeersShareGroup(policies, groups, groupOf, i, j);
      }
    }
  }

  /** The last arrival closes the last group. */
  lemma AllArrived(policies: seq<int>, groups: seq<Group>, groupOf: seq<nat>, replies: seq<Reply>, order: seq<nat>,
                   results: seq<Option<Reply>>, pending: seq<int>, nextGroup: nat, errs: seq<Err>)
    requires Groups(policies, groups, groupOf) && ArrivalOrder(order, |policies|)
    requires Waiting(policies, groups, groupOf, replies, Among(order, |order|), results, pending, nextGroup, errs)
    ensures errs == ErrorsOf(replies, |replies|) && forall i :: 0 <= i < |replies| ==> !Success(replies[i])
  {
    if nextGroup < |groups| {
      NoneMissing(order, |policies|, groups[nextGroup]);
    }
  }

  lemma NoneMissing(order: seq<nat>, n: nat, g: Group)
    requires ArrivalOrder(order, n) && g.end < n
    ensures Missing(g, Among(order, |order|)) == {}
  {
    forall i | g.start <= i <= g.end
      ensures i in Among(order, |order|)
    {
      assert i in order;
    }
  }

  /** One arrival: record it, then settle what it settles. */
  method OnArrival(ghost policies: seq<int>, groups: seq<Group>, groupOf: seq<nat>, replies: seq<Reply>, order: seq<nat>, k: nat,
                   results0: seq<Option<Reply>>, pending0: seq<int>, nextGroup0: nat, errs0: seq<Err>)
    returns (winner: Option<nat>, results: seq<Option<Reply>>, pending: seq<int>, nextGroup: nat, errs: seq<Err>)
    requires Groups(policies, groups, groupOf) && ArrivalOrder(order, |policies|) && k < |order|
    requires Waiting(policies, groups, groupOf, replies, Among(order, k), results0, pending0, nextGroup0, errs0)
    ensures |replies| == |policies|
    ensures winner.Some? ==> Decided(policies, replies, order, k + 1, winner.value)
    ensures winner.Some? ==> winner.value < |results| && results[winner.value] == Some(replies[winner.value])
    ensures winner.None? ==> Waiting(policies, groups, groupOf, replies, Among(order, k + 1), results, pending, nextGroup, errs)
  {
    hide Groups, Success, Among, Waiting, Decided, Arrived, Pending, Missing, Wins, NoSuccessYet, ErrorsOf, Cleared;
    var x := order[k];
    Arrives(policies, groups, groupOf, replies, order, k, results0, pending0, nextGroup0, errs0);
    results := results0[x := Some(replies[x])];
    pending := pending0[groupOf[x] := pending0[groupOf[x]] - 1];
    winner, nextGroup, errs := Settle(policies, groupOf, replies, Among(order, k + 1), groups, results, pending, nextGroup0, errs0);
    if winner.Some? {
      GroupBounds(policies, groups, groupOf, nextGroup);
      WinnerDecides(policies, groups, groupOf, replies, order, k + 1, nextGroup, winner.value);
    } else {
      StillWaiting(policies, groups, groupOf, replies, Among(order, k + 1), results, pending, nextGroup, errs);
    }
  }

  /** Nothing is decided by fewer than used arrivals. */
  ghost predicate Open(policies: seq<int>, replies: seq<Reply>, order: seq<nat>, used: nat)
    requires |replies| == |policies| && used <= |order| + 1
  {
    forall k, j :: 0 <= k < used && k <= |order| ==> !Decided(policies, replies, order, k, j)
  }

  /**
   The outcome of a race that is not cancelled, whatever the arrival order: the answer of the client
   the race is first decided for, or, where no client succeeds, the merged errors in client order.
   */
  ghost predicate RaceResult(policies: seq<int>, replies: seq<Reply>, order: seq<nat>, r: Outcome, used: nat, from: nat)
    requires |replies| == |policies|
  {
    && used <= |order| && Open(policies, replies, order, used)
    && match r
       case Answer(ips, ttl) => Decided(policies, replies, order, used, from) && ips == replies[from].ips && ttl == replies[from].ttl
       case Failed(failure) => (forall i :: 0 <= i < |replies| ==> !Success(replies[i])) && failure == Merged(ErrorsOf(replies, |replies|))
       case Cancelled => false
  }

  lemma StartsOpen(policies: seq<int>, replies: seq<Reply>, order: seq<nat>)
    requires |replies| == |policies|
    ensures Open(policies, replies, order, 0)
  {
  }

  lemma StaysOpen(policies: seq<int>, groups: seq<Group>, groupOf: seq<nat>, replies: seq<Reply>, order: seq<nat>, k: nat,
                  results: seq<Option<Reply>>, pending: seq<int>, nextGroup: nat, errs: seq<Err>)
    requires Groups(policies, groups, groupOf) && |replies| == |policies| && k <= |order|
    requires Waiting(policies, groups, groupOf, replies, Among(order, k), results, pending, nextGroup, errs)
    requires Open(policies, replies, order, k)
    ensures Open(policies, replies, order, k + 1)
  {
    hide Groups, Waiting, Decided, Among;
    forall j
      ensures !Decided(policies, replies, order, k, j)
    {
      WaitingIsUndecided(policies, groups, groupOf, replies, order, k, results, pending, nextGroup, errs, j);
    }
  }

  lemma AnswerIsResult(policies: seq<int>, replies: seq<Reply>, order: seq<nat>, used: nat, from: nat)
    requires |replies| == |policies| && used <= |order| && Open(policies, replies, order, used)
    requires Decided(policies, replies, order, used, from)
    ensures from < |replies| && RaceResult(policies, replies, order, Answer(replies[from].ips, replies[from].ttl), used, from)
  {
  }

  lemma FailureIsResult(policies: seq<int>, replies: seq<Reply>, order: seq<nat>)
    requires |replies| == |policies| && Open(policies, replies, order, |order|)
    requires forall i :: 0 <= i < |replies| ==> !Success(replies[i])
    ensures RaceResult(policies, replies, order, Failed(Merged(ErrorsOf(replies, |replies|))), |order|, 0)
  {
  }

  method Prepare(policies: seq<int>, ghost replies: seq<Reply>, ghost order: seq<nat>)
    returns (groups: seq<Group>, groupOf: seq<nat>, results: seq<Option<Reply>>, pending: seq<int>)
    requires |replies| == |policies|
    ensures Groups(policies, groups, groupOf)
    ensures Waiting(policies, groups, groupOf, replies, Among(order, 0), results, pending, 0, [])
  {
    groups, groupOf := MakeGroups(policies);
    results := seq(|policies|, _ => None);
    pending := [];
    for g := 0 to |groups|
      invariant |pending| == g && forall h :: 0 <= h < g ==> pending[h] == groups[h].end - groups[h].start + 1
    {
      pending := pending + [groups[g].end - groups[g].start + 1];
    }
    StartsWaiting(policies, groups, groupOf, replies, order, results, pending);
  }

  /**
   parallelQuery for one arrival order. An answer is returned at the first arrival that decides the
   race and is that of the deciding client; without any success the errors are merged in client
   order; a cancelled context is seen only if the race is still open.
   */
  method ParallelQuery(policies: seq<int>, replies: seq<Reply>, order: seq<nat>, cancelAt: Option<nat>)
    returns (r: Outcome, used: nat, from: nat)
    requires |replies| == |policies| && ArrivalOrder(order, |policies|)
    ensures !r.Cancelled? ==> RaceResult(policies, replies, order, r, used, from)
    ensures r.Cancelled? ==> cancelAt == Some(used) && used < |order| && Open(policies, replies, order, used + 1)
  {
    var n := |policies|;
    assert |order| == n;
    hide Groups, Success, Among, Waiting, Decided, ErrorsOf, Merged, ArrivalOrder, Open, RaceResult;
    assert Open(policies, replies, order, 0) by { StartsOpen(policies, replies, order); }
    var groups, groupOf, results, pending := Prepare(policies, replies, order);
    var nextGroup, errs := 0, [];
    for k := 0 to n
      invariant Waiting(policies, groups, groupOf, replies, Among(order, k), results, pending, nextGroup, errs)
      invariant Open(policies, replies, order, k)
    {
      StaysOpen(policies, groups, groupOf, replies, order, k, results, pending, nextGroup, errs);
      if cancelAt == Some(k) {
        return Cancelled, k, 0;
      }
      var winner;
      winner, results, pending, nextGroup, errs := OnArrival(policies, groups, groupOf, replies, order, k, results, pending, nextGroup, errs);
      if winner.Some? {
        var reply := results[winner.value].value;
        AnswerIsResult(policies, replies, order, k + 1, winner.value);
        return Answer(reply.ips, reply.ttl), k + 1, winner.value;
      }
    }
    AllArrived(policies, groups, groupOf, replies, order, results, pending, nextGroup, errs);
    var f := MergeQueryErrors(errs);
    FailureIsResult(policies, replies, order);
    return Failed(f), n, 0;
  }

  lemma StartsWaiting(policies: seq<int>, groups: seq<Group>, groupOf: seq<nat>, replies: seq<Reply>, order: seq<nat>, results: seq<Option<Reply>>, pending: seq<int>)
    requires Groups(policies, groups, groupOf) && |replies| == |policies|
    requires results == seq(|policies|, _ => None)
    requires |pending| == |groups| && forall g :: 0 <= g < |groups| ==> pending[g] == groups[g].end - groups[g].start + 1
    ensures Waiting(policies, groups, groupOf, replies, Among(order, 0), results, pending, 0, [])
  {
    hide Tiles, Labels, Follows;
    assert Among(order, 0) == {};
    forall g | 0 <= g < |groups|
      ensures pending[g] == |Missing(groups[g], {})|
    {
      assert groups[g].start <= groups[g].end by { GroupBounds(policies, groups, groupOf, g); }
      NothingArrived(groups[g]);
    }
    if groups != [] {
      GroupBounds(policies, groups, groupOf, 0);
      assert groups[0].start in Missing(groups[0], {});
    }
    assert StartOf(groups, |replies|, 0) == 0 by { FirstStart(policies, groups, groupOf); }
  }

  lemma FirstStart(policies: seq<int>, groups: seq<Group>, groupOf: seq<nat>)
    requires Groups(policies, groups, groupOf)
    ensures StartOf(groups, |policies|, 0) == 0
  {
  }

  lemma {:induction false} NothingArrived(g: Group)
    requires g.start <= g.end
    ensures |Missing(g, {})| == g.end - g.start + 1
    decreases g.end - g.start
  {
    if g.start == g.end {
      assert Missing(g, {}) == {g.start};
    } else {
      NothingArrived(Group(g.start, g.end - 1));
      assert Missing(g, {}) == Missing(Group(g.start, g.end - 1), {}) + {g.end};
    }
  }

  /** Recording the next reply keeps the tables right; Settle then moves on from there. */
  lemma Arrives(policies: seq<int>, groups: seq<Group>, groupOf: seq<nat>, replies: seq<Reply>, order: seq<nat>, k: nat,
                results: seq<Option<Reply>>, pending: seq<int>, nextGroup: nat, errs: seq<Err>)
    requires Groups(policies, groups, groupOf) && ArrivalOrder(order, |policies|) && k < |order|
    requires Waiting(policies, groups, groupOf, replies, Among(order, k), results, pending, nextGroup, errs)
    ensures var x := order[k]; var arrived := Among(order, k + 1);
            && |results| == |policies| == |groupOf| == |replies| && |pending| == |groups| && groupOf[x] < |groups| && nextGroup <= |groups|
            && Arrived(results[x := Some(replies[x])], replies, arrived)
            && Pending(groups, pending[groupOf[x] := pending[groupOf[x]] - 1], arrived)
            && Done(groups, replies, arrived, nextGroup, errs)
  {
    var x := order[k];
    assert Among(order, k + 1) == Among(order, k) + {x};
    PendingArrival(policies, groups, groupOf, pending, Among(order, k), x);
  }

  lemma StillWaiting(policies: seq<int>, groups: seq<Group>, groupOf: seq<nat>, replies: seq<Reply>, arrived: set<nat>,
                     results: seq<Option<Reply>>, pending: seq<int>, nextGroup: nat, errs: seq<Err>)
    requires |replies| == |policies| && nextGroup <= |groups|
    requires Arrived(results, replies, arrived) && Pending(groups, pending, arrived) && Done(groups, replies, arrived, nextGroup, errs)
    requires nextGroup < |groups| ==>
               && groups[nextGroup].end < |replies|
               && Missing(groups[nextGroup], arrived) != {} && NoSuccessYet(replies, groups[nextGroup], arrived)
    ensures Waiting(policies, groups, groupOf, replies, arrived, results, pending, nextGroup, errs)
  {
  }

  // ---- Serial queries ---------------------------------------------------

  /** A client reports addresses or an error, never both. */
  ghost predicate Clean(replies: seq<Reply>) {
    forall i :: 0 <= i < |replies| ==> (replies[i].err.Some? ==> replies[i].ips == [])
  }

  /** j is the first client with addresses among those that are asked. */
  ghost predicate First(replies: seq<Reply>, skip: seq<bool>, j: nat)
    requires |skip| == |replies|
  {
    && j < |replies| && !skip[j] && replies[j].ips != []
    && forall i :: 0 <= i < j ==> skip[i] || replies[i].ips == []
  }

  /** The errors of the clients among the first m that are asked, in client order. */
  function AskedErrors(replies: seq<Reply>, skip: seq<bool>, m: nat): seq<Err>
    requires m <= |replies| == |skip|
  {
    if m == 0 then []
    else AskedErrors(replies, skip, m - 1) + (if skip[m - 1] then [] else [ErrorOf(replies[m - 1])])
  }

  /** What the serial query returns when it is not cancelled. */
  ghost predicate SerialResult(replies: seq<Reply>, skip: seq<bool>, r: Outcome)
    requires |skip| == |replies|
  {
    match r
    case Answer(ips, ttl) => exists j: nat :: First(replies, skip, j) && ips == replies[j].ips && ttl == replies[j].ttl
    case Failed(failure) => (forall j: nat :: !First(replies, skip, j)) && failure == Merged(AskedErrors(replies, skip, |replies|))
    case Cancelled => false
  }

  /** serialQuery; skip marks the FakeDNS clients that are passed over, cancelAt the client before which the context ends. */
  method SerialQuery(replies: seq<Reply>, skip: seq<bool>, cancelAt: Option<nat>) returns (r: Outcome)
    requires |skip| == |replies|
    ensures r.Cancelled? ==> cancelAt.Some? && cancelAt.value < |replies| && forall j: nat :: j < cancelAt.value ==> !First(replies, skip, j)
    ensures !r.Cancelled? ==> SerialResult(replies, skip, r)
    ensures !r.Cancelled? && cancelAt.Some? && cancelAt.value < |replies| ==> exists j: nat :: j < cancelAt.value && First(replies, skip, j)
  {
    hide Merged;
    var errs := [];
    for k := 0 to |replies|
      invariant errs == AskedErrors(replies, skip, k)
      invariant forall i :: 0 <= i < k ==> skip[i] || replies[i].ips == []
      invariant cancelAt.Some? ==> k <= cancelAt.value || |replies| <= cancelAt.value
    {
      if cancelAt == Some(k) {
        return Cancelled;
      }
      if !skip[k] {
        if replies[k].ips != [] {
          assert First(replies, skip, k);
          return Answer(replies[k].ips, replies[k].ttl);
        }
        errs := errs + [ErrorOf(replies[k])];
      }
    }
    var f := MergeQueryErrors(errs);
    r := Failed(f);
  }

  // ---- Serial against parallel -------------------------------------------

  /** In parallel mode a skipped client answers at once with an empty response. */
  function Asked(replies: seq<Reply>, skip: seq<bool>): (r: seq<Reply>)
    requires |skip| == |replies|
    ensures |r| == |replies|
  {
    seq(|replies|, i requires 0 <= i < |replies| => if skip[i] then Reply([], 0, Some(EmptyResponse)) else replies[i])
  }

  ghost predicate AdjacentDiffer(policies: seq<int>) {
    forall i, j :: 0 <= i < j < |policies| && j == i + 1 ==> policies[i] != policies[j]
  }

  lemma {:induction false} NothingSkipped(replies: seq<Reply>, skip: seq<bool>, m: nat)
    requires m <= |replies| == |skip| && forall i :: 0 <= i < |skip| ==> !skip[i]
    ensures AskedErrors(replies, skip, m) == ErrorsOf(replies, m)
  {
    if m > 0 {
      NothingSkipped(replies, skip, m - 1);
    }
  }

  /** Parallel and serial mode succeed together, and the parallel winner is a policy peer of the serial one, at or after it. */
  lemma ParallelSucceedsLikeSerial(policies: seq<int>, replies: seq<Reply>, skip: seq<bool>, order: seq<nat>, p: Outcome, used: nat, from: nat, s: Outcome)
    requires |skip| == |replies| == |policies| && Clean(replies)
    requires RaceResult(policies, Asked(replies, skip), order, p, used, from) && SerialResult(replies, skip, s)
    ensures p.Answer? <==> s.Answer?
    ensures p.Answer? ==> exists j: nat :: First(replies, skip, j) && Peers(policies, j, from)
  {
    var asked := Asked(replies, skip);
    assert forall i :: 0 <= i < |replies| ==> (Success(asked[i]) <==> !skip[i] && replies[i].ips != []);
    hide Merged, ErrorsOf, AskedErrors;
    if p.Answer? {
      assert Success(asked[from]);
      var j := FirstAsked(replies, skip, from);
      assert Success(asked[j]);
      if j < from && !Peers(policies, j, from) {
        assert false;
      }
      assert Peers(policies, j, from);
    }
    if s.Answer? {
      var j: nat :| First(replies, skip, j) && s.ips == replies[j].ips && s.ttl == replies[j].ttl;
      assert Success(asked[j]);
    }
  }

  lemma {:induction false} FirstAsked(replies: seq<Reply>, skip: seq<bool>, m: nat) returns (j: nat)
    requires |skip| == |replies| && m < |replies| && !skip[m] && replies[m].ips != []
    ensures j <= m && First(replies, skip, j)
    decreases m
  {
    if i :| 0 <= i < m && !skip[i] && replies[i].ips != [] {
      j := FirstAsked(replies, skip, i);
    } else {
      j := m;
    }
  }

  lemma NotPeers(policies: seq<int>, i: nat, j: nat)
    requires AdjacentDiffer(policies) && i < j < |policies|
    ensures !Peers(policies, i, j)
  {
    var h := i + 1;
    assert policies[i] != policies[h];
  }

  /** With no two adjacent clients of one policy, and none skipped, arrival order is invisible: parallel mode is serial mode. */
  lemma ParallelIsSerial(policies: seq<int>, replies: seq<Reply>, skip: seq<bool>, order: seq<nat>, p: Outcome, used: nat, from: nat, s: Outcome)
    requires |skip| == |replies| == |policies| && Clean(replies) && AdjacentDiffer(policies)
    requires forall i :: 0 <= i < |skip| ==> !skip[i]
    requires RaceResult(policies, replies, order, p, used, from) && SerialResult(replies, skip, s)
    ensures p == s
  {
    assert Asked(replies, skip) == replies;
    ParallelSucceedsLikeSerial(policies, replies, skip, order, p, used, from, s);
    if p.Answer? {
      var j: nat :| First(replies, skip, j) && Peers(policies, j, from);
      if j < from {
        NotPeers(policies, j, from);
      }
    } else {
      NothingSkipped(replies, skip, |replies|);
    }
  }

  /** After a skipped client the modes report one failure exactly if the serial one is the empty response. */
  lemma SkippingShowsInErrors(policies: seq<int>, replies: seq<Reply>, skip: seq<bool>, order: seq<nat>, p: Outcome, used: nat, from: nat, s: Outcome, x: nat)
    requires |skip| == |replies| == |policies| && Clean(replies) && x < |skip| && skip[x]
    requires RaceResult(policies, Asked(replies, skip), order, p, used, from) && SerialResult(replies, skip, s)
    requires s.Failed?
    ensures p == s <==> s.failure == Empty
  {
    ParallelSucceedsLikeSerial(policies, replies, skip, order, p, used, from, s);
    var n, all := |replies|, ErrorsOf(Asked(replies, skip), |replies|);
    var asked := AskedErrors(replies, skip, n);
    SkippedAdds(replies, skip, n, x);
    assert all[x] == EmptyResponse;
    MergedEmptyIff(all);
    MergedEmptyIff(asked);
    MergedWith(all);
  }

  /** The parallel error list holds the serial one and an empty response for each skipped client. */
  lemma {:induction false} SkippedAdds(replies: seq<Reply>, skip: seq<bool>, m: nat, x: nat)
    requires m <= |replies| == |skip|
    ensures forall e :: e in AskedErrors(replies, skip, m) ==> e in ErrorsOf(Asked(replies, skip), m)
    ensures forall e :: e in ErrorsOf(Asked(replies, skip), m) ==> e in AskedErrors(replies, skip, m) || e == EmptyResponse
    ensures |AskedErrors(replies, skip, m)| <= m
    ensures x < m && skip[x] ==> |AskedErrors(replies, skip, m)| < m
  {
    if m > 0 {
      SkippedAdds(replies, skip, m - 1, x);
      assert ErrorsOf(Asked(replies, skip), m) == ErrorsOf(Asked(replies, skip), m - 1) + [ErrorOf(Asked(replies, skip)[m - 1])];
    }
  }

  /** Errors merge to the empty response when there are none, or an empty response and nothing else real. */
  lemma MergedEmptyIff(errs: seq<Err>)
    ensures Merged(errs) == Empty <==> errs == [] || (EmptyResponse in errs && forall e :: e in errs ==> !e.Other?)
  {
    RealIs(errs);
    var said := Real(errs);
    if said != [] {
      assert said[0] in said;
    }
  }

  lemma MergedWith(errs: seq<Err>)
    requires EmptyResponse in errs
    ensures Merged(errs) == Empty || Merged(errs) == WrappedAll(errs)
  {
    RealIs(errs);
    var said := Real(errs);
    var i :| 0 <= i < |said| && said[i] == EmptyResponse;
  }

  /** Where two adjacent clients share a policy, some replies in some order make the two modes answer differently. */
  lemma PeersCanOvertake(policies: seq<int>, i: nat) returns (replies: seq<Reply>, skip: seq<bool>, order: seq<nat>)
    requires i + 1 < |policies| && policies[i] == policies[i + 1]
    ensures |replies| == |skip| == |policies| && Clean(replies) && ArrivalOrder(order, |policies|)
    ensures forall k :: 0 <= k < |skip| ==> !skip[k]
    ensures forall p, used: nat, from: nat, s ::
              RaceResult(policies, replies, order, p, used, from) && SerialResult(replies, skip, s) ==> p != s
  {
    var n, h := |policies|, i + 1;
    replies := seq(n, k => if k == i then Reply([1], 1, None) else if k == h then Reply([2], 1, None) else Reply([], 0, Some(EmptyResponse)));
    skip := seq(n, _ => false);
    order := seq(n, k => if k == i then h else if k == h then i else k);
    Swapped(order, n, i, h);
    Overtakes(policies, replies, order, i, h);
    assert First(replies, skip, i);
    forall p, used: nat, from: nat, s | RaceResult(policies, replies, order, p, used, from) && SerialResult(replies, skip, s)
      ensures p != s
    {
      SerialTakesFirst(replies, skip, s, i);
      OvertakenWins(policies, replies, order, p, used, from, i, h);
    }
  }

  lemma SerialTakesFirst(replies: seq<Reply>, skip: seq<bool>, s: Outcome, i: nat)
    requires |skip| == |replies| && SerialResult(replies, skip, s) && First(replies, skip, i)
    ensures s == Answer(replies[i].ips, replies[i].ttl)
  {
    hide Merged, AskedErrors;
    if s.Answer? {
      var j: nat :| First(replies, skip, j) && s.ips == replies[j].ips && s.ttl == replies[j].ttl;
      assert j == i;
    }
  }

  /** A race decided for h before i arrives is not won by i. */
  lemma OvertakenWins(policies: seq<int>, replies: seq<Reply>, order: seq<nat>, p: Outcome, used: nat, from: nat, i: nat, h: nat)
    requires |replies| == |policies| && RaceResult(policies, replies, order, p, used, from) && i < h < |replies| && h <= |order|
    requires Decided(policies, replies, order, h, h) && i !in Among(order, h)
    requires forall k :: 0 <= k < |replies| ==> (Success(replies[k]) <==> k == i || k == h)
    ensures p == Answer(replies[h].ips, replies[h].ttl)
  {
    hide Merged, ErrorsOf, Success;
    assert used <= h;
    assert Among(order, used) <= Among(order, h);
  }

  lemma Swapped(order: seq<nat>, n: nat, i: nat, h: nat)
    requires i < h < n && h == i + 1 && |order| == n
    requires forall k :: 0 <= k < n ==> order[k] == if k == i then h else if k == h then i else k
    ensures ArrivalOrder(order, n)
    ensures i !in Among(order, h) && forall j :: 0 <= j < n && (j < i || j == h) ==> j in Among(order, h)
  {
    forall j | 0 <= j < n
      ensures j in order
    {
      assert order[if j == i then h else if j == h then i else j] == j;
    }
    forall j | 0 <= j < n && (j < i || j == h)
      ensures j in Among(order, h)
    {
      assert order[if j == h then i else j] == j;
    }
  }

  lemma Overtakes(policies: seq<int>, replies: seq<Reply>, order: seq<nat>, i: nat, h: nat)
    requires |replies| == |policies| && i < h < |policies| && h == i + 1 && policies[i] == policies[h] && h <= |order|
    requires forall k :: 0 <= k < |replies| ==> (Success(replies[k]) <==> k == i || k == h)
    requires i !in Among(order, h) && forall j :: 0 <= j < |policies| && (j < i || j == h) ==> j in Among(order, h)
    ensures Decided(policies, replies, order, h, h)
  {
    hide Among;
    assert Peers(policies, i, h);
  }
}
