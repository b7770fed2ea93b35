/**
 Reading the answer to an address query: the response has to answer the very
 question that was asked, the CNAME records have to form one chain from the
 queried name, and only addresses at the end of the chain are taken.
 */
module CnameChase {
  import opened Basics

  datatype Name = Name(text: string)

  /** Names are compared without regard to letter case. */
  function Fold(n: Name): Name {
    Name(Lower(n.text))
  }

  type uint32 = x: int | 0 <= x < 0x1_0000_0000

  const TYPE_CNAME := 5
  const DEFAULT_TTL := 300
  const MAX_INT32 := 0x7FFF_FFFF

  datatype Body = Cname(target: Name) | Address(ip: int) | OtherBody
  datatype Answer = Answer(name: Name, rrClass: int, kind: int, ttl: uint32, body: Body)
  datatype Question = Question(name: Name, rrClass: int, kind: int)
  datatype Request = Request(id: int, opCode: int, question: Question)
  datatype Response = Response(response: bool, id: int, opCode: int, questions: seq<Question>, answers: seq<Answer>)

  datatype Error = NotAResponse | IdMismatch | OpCodeMismatch | NoQuestion | QuestionMismatch | UnexpectedQuestions | ConflictingTargets | CnameLoop
  datatype Result = Ok(ips: seq<int>, ttl: nat) | Err(error: Error)

  /** Decoding gives a CNAME record a CNAME body. */
  ghost predicate Decoded(answers: seq<Answer>) {
    forall i :: 0 <= i < |answers| && answers[i].kind == 5 ==> answers[i].body.Cname?
  }

  predicate IsAlias(a: Answer, rrClass: int) {
    a.rrClass == rrClass && a.kind == 5 && a.body.Cname?
  }

  // ---- The alias table ------------------------------------------------------

  type Table = map<Name, Answer>

  /** Two records of the class name different targets for one owner. */
  ghost predicate Conflicting(answers: seq<Answer>, rrClass: int) {
    exists i, j :: 0 <= i < j < |answers| && Clash(answers[i], answers[j], rrClass)
  }

  predicate Clash(a: Answer, b: Answer, rrClass: int) {
    IsAlias(a, rrClass) && IsAlias(b, rrClass) && Fold(a.name) == Fold(b.name) && Fold(a.body.target) != Fold(b.body.target)
  }

  /** For each owner its last alias record. */
  ghost predicate LastAliases(answers: seq<Answer>, rrClass: int, t: Table) {
    && (forall x :: x in t ==> exists i :: 0 <= i < |answers| && IsLast(answers, rrClass, x, i) && t[x] == answers[i])
    && (forall i :: 0 <= i < |answers| && IsAlias(answers[i], rrClass) ==> Fold(answers[i].name) in t)
  }

  ghost predicate IsLast(answers: seq<Answer>, rrClass: int, x: Name, i: nat)
    requires i < |answers|
  {
    && IsAlias(answers[i], rrClass) && Fold(answers[i].name) == x
    && forall j :: i < j < |answers| && IsAlias(answers[j], rrClass) ==> Fold(answers[j].name) != x
  }

  /** In a table without clashes every record of an owner names the table's target. */
  ghost predicate Agrees(answers: seq<Answer>, rrClass: int, t: Table) {
    forall i :: 0 <= i < |answers| && IsAlias(answers[i], rrClass) ==>
      var x := Fold(answers[i].name);
      x in t && t[x].body.Cname? && Fold(t[x].body.target) == Fold(answers[i].body.target)
  }

  lemma AddAlias(answers: seq<Answer>, rrClass: int, t: Table, a: Answer)
    requires LastAliases(answers, rrClass, t) && IsAlias(a, rrClass)
    ensures LastAliases(answers + [a], rrClass, t[Fold(a.name) := a])
  {
    hide Fold;
    var all, t' := answers + [a], t[Fold(a.name) := a];
    forall x | x in t'
      ensures exists i :: 0 <= i < |all| && IsLast(all, rrClass, x, i) && t'[x] == all[i]
    {
      if x == Fold(a.name) {
        assert IsLast(all, rrClass, x, |answers|);
      } else {
        var i :| 0 <= i < |answers| && IsLast(answers, rrClass, x, i) && t[x] == answers[i];
        assert all[i] == answers[i];
        assert IsLast(all, rrClass, x, i);
      }
    }
  }

  lemma SkipAnswer(answers: seq<Answer>, rrClass: int, t: Table, a: Answer)
    requires LastAliases(answers, rrClass, t) && Agrees(answers, rrClass, t) && !IsAlias(a, rrClass)
    ensures LastAliases(answers + [a], rrClass, t) && Agrees(answers + [a], rrClass, t)
  {
    hide Fold;
    var all := answers + [a];
    forall x | x in t
      ensures exists i :: 0 <= i < |all| && IsLast(all, rrClass, x, i) && t[x] == all[i]
    {
      var i :| 0 <= i < |answers| && IsLast(answers, rrClass, x, i) && t[x] == answers[i];
      assert all[i] == answers[i];
      assert IsLast(all, rrClass, x, i);
    }
  }

  lemma NotConflicting(answers: seq<Answer>, rrClass: int, t: Table)
    requires Agrees(answers, rrClass, t)
    ensures !Conflicting(answers, rrClass)
  {
    hide Fold;
  }

  method BuildAliases(answers: seq<Answer>, rrClass: int) returns (t: Table, conflict: bool)
    requires Decoded(answers)
    ensures conflict <==> Conflicting(answers, rrClass)
    ensures !conflict ==> LastAliases(answers, rrClass, t) && Agrees(answers, rrClass, t)
  {
    t := map[];
    for k := 0 to |answers|
      invariant LastAliases(answers[..k], rrClass, t) && Agrees(answers[..k], rrClass, t)
    {
      var a := answers[k];
      assert answers[..k + 1] == answers[..k] + [a];
      if a.rrClass != rrClass || a.kind != TYPE_CNAME {
        SkipAnswer(answers[..k], rrClass, t, a);
        continue;
      }
      var owner := Fold(a.name);
      if owner in t && Fold(t[owner].body.target) != Fold(a.body.target) {
        ClashFound(answers, rrClass, t, k);
        return t, true;
      }
      AddAlias(answers[..k], rrClass, t, a);
      AddAgrees(answers[..k], rrClass, t, a);
      t := t[owner := a];
    }
    assert answers[..|answers|] == answers;
    NotConflicting(answers, rrClass, t);
    conflict := false;
  }

  lemma AddAgrees(answers: seq<Answer>, rrClass: int, t: Table, a: Answer)
    requires Agrees(answers, rrClass, t) && IsAlias(a, rrClass)
    requires Fold(a.name) in t ==> t[Fold(a.name)].body.Cname? && Fold(t[Fold(a.name)].body.target) == Fold(a.body.target)
    ensures Agrees(answers + [a], rrClass, t[Fold(a.name) := a])
  {
    hide Fold;
  }

  lemma ClashFound(answers: seq<Answer>, rrClass: int, t: Table, k: nat)
    requires k < |answers| && LastAliases(answers[..k], rrClass, t) && IsAlias(answers[k], rrClass)
    requires Fold(answers[k].name) in t && (t[Fold(answers[k].name)].body.Cname? ==> Fold(t[Fold(answers[k].name)].body.target) != Fold(answers[k].body.target))
    ensures Conflicting(answers, rrClass)
  {
    hide Fold;
    var x := Fold(answers[k].name);
    var i :| 0 <= i < k && IsLast(answers[..k], rrClass, x, i) && t[x] == answers[..k][i];
    assert answers[i] == answers[..k][i];
    assert Clash(answers[i], answers[k], rrClass);
  }

  // ---- TTLs --------------------------------------------------------------

  /** A TTL as the cache can hold it. */
  function Clamp(v: uint32): nat {
    if v == 0 then 1 else if v > MAX_INT32 then MAX_INT32 else v
  }

  /** The nearest value that is at least one and fits a signed 32-bit number. */
  lemma ClampIsNearest(v: uint32, w: int)
    ensures 1 <= Clamp(v) <= 2147483647
    ensures 1 <= w <= 2147483647 ==> (if v < Clamp(v) then Clamp(v) - v else v - Clamp(v)) <= (if v < w then w - v else v - w)
  {
  }

  /** includeTTL: the smallest clamped TTL so far. */
  function Include(smallest: Option<nat>, v: uint32): Option<nat> {
    if smallest.None? || Clamp(v) < smallest.value then Some(Clamp(v)) else smallest
  }

  /** ttl is the smallest of some clamped TTLs, or the default where there are none. */
  ghost predicate Smallest(ttls: seq<uint32>, ttl: nat) {
    if ttls == [] then ttl == 300
    else (forall i :: 0 <= i < |ttls| ==> ttl <= Clamp(ttls[i])) && exists i :: 0 <= i < |ttls| && ttl == Clamp(ttls[i])
  }

  ghost predicate Tracks(ttls: seq<uint32>, smallest: Option<nat>) {
    (smallest.None? <==> ttls == []) && (smallest.Some? ==> Smallest(ttls, smallest.value))
  }

  lemma IncludeTracks(ttls: seq<uint32>, smallest: Option<nat>, v: uint32)
    requires Tracks(ttls, smallest)
    ensures Tracks(ttls + [v], Include(smallest, v))
  {
    var all, m := ttls + [v], Include(smallest, v).value;
    assert all[|ttls|] == v;
    if smallest.Some? {
      var i :| 0 <= i < |ttls| && smallest.value == Clamp(ttls[i]);
      assert all[i] == ttls[i];
    }
  }

  // ---- Following the chain -------------------------------------------------

  ghost predicate AllAliases(t: Table) {
    forall x :: x in t ==> t[x].body.Cname?
  }

  function Next(t: Table, x: Name): Name
    requires x in t && t[x].body.Cname?
  {
    Fold(t[x].body.target)
  }

  ghost predicate Linked(t: Table, x: Name, y: Name)
    requires AllAliases(t)
  {
    x in t && y == Next(t, x)
  }

  function TtlOf(t: Table, x: Name): uint32 {
    if x in t then t[x].ttl else 0
  }

  /** c starts at x and each name but the last is an alias of the next. */
  ghost predicate Chain(t: Table, x: Name, c: seq<Name>)
    requires AllAliases(t)
  {
    && c != [] && c[0] == x
    && forall k, h :: 0 <= k && h == k + 1 < |c| ==> Linked(t, c[k], c[h])
  }

  /** The chain from x comes to no end: whatever it reaches is an alias again. */
  ghost predicate Endless(t: Table, x: Name)
    requires AllAliases(t)
  {
    forall c :: Chain(t, x, c) ==> c[|c| - 1] in t
  }

  /** The TTLs of the aliases along a chain. */
  ghost function ChainTtls(t: Table, c: seq<Name>): seq<uint32>
    requires c != []
  {
    seq(|c| - 1, k requires 0 <= k < |c| - 1 => TtlOf(t, c[k]))
  }

  lemma {:induction false} StaysInside(t: Table, s: set<Name>, c: seq<Name>)
    requires AllAliases(t) && c != [] && Chain(t, c[0], c) && c[0] in s
    requires forall x :: x in s ==> x in t && Next(t, x) in s
    ensures c[|c| - 1] in s
  {
    hide Next;
    if |c| > 1 {
      var d := c[..|c| - 1];
      forall k, h | 0 <= k && h == k + 1 < |d|
        ensures Linked(t, d[k], d[h])
      {
        assert Linked(t, c[k], c[h]);
      }
      StaysInside(t, s, d);
      var k, h := |c| - 2, |c| - 1;
      assert Linked(t, c[k], c[h]);
    }
  }

  /** A set of aliases whose targets lie in the set makes the chain endless. */
  lemma ClosedIsEndless(t: Table, s: set<Name>, x: Name)
    requires AllAliases(t) && x in s && forall y :: y in s ==> y in t && Next(t, y) in s
    ensures Endless(t, x)
  {
    forall c | Chain(t, x, c)
      ensures c[|c| - 1] in t
    {
      StaysInside(t, s, c);
    }
  }

  /** The chain from x reaches some name twice. */
  ghost predicate Repeats(t: Table, x: Name)
    requires AllAliases(t)
  {
    exists c, i, j :: Chain(t, x, c) && Twice(c, i, j)
  }

  ghost predicate Twice(c: seq<Name>, i: nat, j: nat) {
    i < j < |c| && c[i] == c[j]
  }

  lemma RepeatIsEndless(t: Table, x: Name, c: seq<Name>, i: nat, j: nat)
    requires AllAliases(t) && Chain(t, x, c) && Twice(c, i, j)
    ensures Endless(t, x)
  {
    hide Next, Endless;
    var s := set k | 0 <= k < j :: c[k];
    forall y | y in s
      ensures y in t && Next(t, y) in s
    {
      var k :| 0 <= k < j && y == c[k];
      var h := k + 1;
      assert Linked(t, c[k], c[h]);
      assert c[if h < j then h else i] in s;
    }
    assert c[0] in s;
    ClosedIsEndless(t, s, x);
  }

  /** The names a chain has been at before its last. */
  ghost function Before(c: seq<Name>): set<Name> {
    set k | 0 <= k < |c| - 1 :: c[k]
  }

  lemma BeforeGrows(c: seq<Name>, y: Name)
    requires c != []
    ensures Before(c + [y]) == Before(c) + {c[|c| - 1]}
  {
    var d := c + [y];
    assert forall k :: 0 <= k < |c| ==> d[k] == c[k];
    forall z | z in Before(c) + {c[|c| - 1]}
      ensures z in Before(d)
    {
      var k :| 0 <= k < |c| && z == c[k];
      assert d[k] == z;
    }
  }

  lemma BeenTwice(t: Table, x: Name, c: seq<Name>)
    requires AllAliases(t) && Chain(t, x, c) && c[|c| - 1] in Before(c)
    ensures Repeats(t, x)
  {
    var i :| 0 <= i < |c| - 1 && c[i] == c[|c| - 1];
    assert Twice(c, i, |c| - 1);
  }

  /** With finitely many aliases an endless chain comes back to a name it has been at. */
  lemma {:induction false} EndlessRepeats(t: Table, x: Name, c: seq<Name>)
    requires AllAliases(t) && Endless(t, x) && Chain(t, x, c) && Before(c) <= t.Keys
    ensures Repeats(t, x)
    decreases |t.Keys - Before(c)|
  {
    hide Next, Chain, Before, Repeats;
    ChainStart(t, x, c);
    var last := c[|c| - 1];
    if last in Before(c) {
      BeenTwice(t, x, c);
    } else {
      ExtendChain(t, c);
      Fewer(t.Keys, Before(c), last);
      BeforeGrows(c, Next(t, last));
      EndlessRepeats(t, x, c + [Next(t, last)]);
    }
  }

  lemma ChainStart(t: Table, x: Name, c: seq<Name>)
    requires AllAliases(t) && Chain(t, x, c)
    ensures c != [] && c[0] == x
  {
  }

  /** A chain comes to no end exactly if it reaches some name twice. */
  lemma EndlessIffRepeats(t: Table, x: Name)
    requires AllAliases(t)
    ensures Endless(t, x) <==> Repeats(t, x)
  {
    if Endless(t, x) {
      assert Chain(t, x, [x]);
      EndlessRepeats(t, x, [x]);
    }
    if Repeats(t, x) {
      var c, i, j :| Chain(t, x, c) && Twice(c, i, j);
      RepeatIsEndless(t, x, c, i, j);
    }
  }

  lemma ExtendChain(t: Table, c: seq<Name>)
    requires AllAliases(t) && c != [] && Chain(t, c[0], c) && c[|c| - 1] in t
    ensures Chain(t, c[0], c + [Next(t, c[|c| - 1])])
    ensures ChainTtls(t, c + [Next(t, c[|c| - 1])]) == ChainTtls(t, c) + [t[c[|c| - 1]].ttl]
  {
    hide Next;
    var d := c + [Next(t, c[|c| - 1])];
    forall k, h | 0 <= k && h == k + 1 < |d|
      ensures Linked(t, d[k], d[h])
    {
      if h < |c| {
        assert Linked(t, c[k], c[h]);
      }
    }
  }

  /** The visited names are those of the chain, and every one but the last has been followed. */
  ghost predicate Followed(t: Table, x: Name, c: seq<Name>, visited: set<Name>)
    requires AllAliases(t)
  {
    && Chain(t, x, c) && visited <= t.Keys
    && (forall y :: y in visited ==> Next(t, y) in visited || Next(t, y) == c[|c| - 1])
    && (visited == {} ==> |c| == 1) && (visited != {} ==> x in visited)
  }

  lemma FollowOne(t: Table, x: Name, c: seq<Name>, visited: set<Name>)
    requires AllAliases(t) && Followed(t, x, c, visited) && c[|c| - 1] in t
    ensures Followed(t, x, c + [Next(t, c[|c| - 1])], visited + {c[|c| - 1]})
  {
    hide Next;
    ExtendChain(t, c);
  }

  lemma LoopIsEndless(t: Table, x: Name, c: seq<Name>, visited: set<Name>)
    requires AllAliases(t) && Followed(t, x, c, visited) && c[|c| - 1] in visited
    ensures Endless(t, x)
  {
    hide Next;
    ClosedIsEndless(t, visited, x);
  }

  /** Follows aliases from x to a name that has none, or finds that the chain is endless. */
  method Follow(t: Table, x: Name) returns (end: Option<Name>, smallest: Option<nat>, ghost c: seq<Name>)
    requires AllAliases(t)
    ensures end.None? <==> Endless(t, x)
    ensures c != []
    ensures end.Some? ==> Chain(t, x, c) && c[|c| - 1] == end.value && end.value !in t && Tracks(ChainTtls(t, c), smallest)
  {
    var owner, visited: set<Name> := x, {};
    c, smallest := [x], None;
    assert Followed(t, x, c, visited) && ChainTtls(t, c) == [];
    hide Followed, Chain, Tracks, ChainTtls, Include, Next, Fold, Endless;
    while true
      invariant Followed(t, x, c, visited) && c != [] && c[|c| - 1] == owner && visited <= t.Keys
      invariant c[0] == x && Chain(t, x, c) && Tracks(ChainTtls(t, c), smallest)
      decreases |t.Keys - visited|
    {
      if owner in visited {
        LoopIsEndless(t, x, c, visited);
        return None, smallest, c;
      }
      if owner !in t {
        EndsHere(t, x, c);
        return Some(owner), smallest, c;
      }
      FollowOne(t, x, c, visited);
      ExtendChain(t, c);
      IncludeTracks(ChainTtls(t, c), smallest, t[owner].ttl);
      assert t.Keys - (visited + {owner}) < t.Keys - visited by { assert owner in t.Keys - visited; }
      Fewer(t.Keys, visited, owner);
      visited := visited + {owner};
      smallest := Include(smallest, t[owner].ttl);
      owner := Next(t, owner);
      c := c + [owner];
    }
  }

  lemma EndsHere(t: Table, x: Name, c: seq<Name>)
    requires AllAliases(t) && Chain(t, x, c) && c[|c| - 1] !in t
    ensures !Endless(t, x)
  {
  }

  lemma Fewer(keys: set<Name>, visited: set<Name>, x: Name)
    requires x in keys && x !in visited
    ensures |keys - (visited + {x})| < |keys - visited|
  {
    assert keys - (visited + {x}) == (keys - visited) - {x};
  }

  // ---- The whole response -----------------------------------------------------

  /** The response is to this request and repeats its one question. */
  predicate Matches(req: Request, resp: Response) {
    && resp.response && resp.id == req.id && resp.opCode == req.opCode
    && |resp.questions| == 1
    && Fold(resp.questions[0].name) == Fold(req.question.name)
    && resp.questions[0].kind == req.question.kind && resp.questions[0].rrClass == req.question.rrClass
  }

  predicate SameQuestion(a: Question, b: Question) {
    Fold(a.name) == Fold(b.name) && a.kind == b.kind && a.rrClass == b.rrClass
  }

  /** An address record of the question's class and type at the end of the chain. */
  predicate Used(a: Answer, q: Question, end: Name) {
    a.rrClass == q.rrClass && a.kind == q.kind && Fold(a.name) == end && a.body.Address?
  }

  /** The used records in the order of the response. */
  function Selected(answers: seq<Answer>, q: Question, end: Name): (r: seq<Answer>)
    ensures forall i :: 0 <= i < |r| ==> Used(r[i], q, end)
  {
    if answers == [] then []
    else Selected(answers[..|answers| - 1], q, end) + if Used(answers[|answers| - 1], q, end) then [answers[|answers| - 1]] else []
  }

  /** Exactly the used records are selected, as often as they occur. */
  lemma {:induction false} SelectedIs(answers: seq<Answer>, q: Question, end: Name, a: Answer)
    ensures multiset(Selected(answers, q, end))[a] == if Used(a, q, end) then multiset(answers)[a] else 0
  {
    if answers != [] {
      SelectedIs(answers[..|answers| - 1], q, end, a);
      assert answers == answers[..|answers| - 1] + [answers[|answers| - 1]];
    }
  }

  function Ips(answers: seq<Answer>): seq<int>
    requires forall i :: 0 <= i < |answers| ==> answers[i].body.Address?
  {
    seq(|answers|, i requires 0 <= i < |answers| => answers[i].body.ip)
  }

  function Ttls(answers: seq<Answer>): seq<uint32> {
    seq(|answers|, i requires 0 <= i < |answers| => answers[i].ttl)
  }

  method Collect(answers: seq<Answer>, q: Question, end: Name, smallest0: Option<nat>, ghost ttls: seq<uint32>) returns (ips: seq<int>, smallest: Option<nat>)
    requires Tracks(ttls, smallest0) && Fold(end) == end
    ensures ips == Ips(Selected(answers, q, end)) && Tracks(ttls + Ttls(Selected(answers, q, end)), smallest)
  {
    ips, smallest := [], smallest0;
    assert ttls + Ttls(Selected(answers[..0], q, end)) == ttls;
    hide Tracks, Selected, Include, Ips, Ttls;
    assert ips == Ips(Selected(answers[..0], q, end)) by { NoneSelected(answers, q, end); }
    for k := 0 to |answers|
      invariant ips == Ips(Selected(answers[..k], q, end))
      invariant Tracks(ttls + Ttls(Selected(answers[..k], q, end)), smallest)
    {
      var a := answers[k];
      SelectNext(answers, q, end, k);
      if a.rrClass != q.rrClass || a.kind != q.kind || Fold(a.name) != Fold(end) || !a.body.Address? {
        continue;
      }
      ghost var before := Selected(answers[..k], q, end);
      AddUsed(before, ttls, a);
      IncludeTracks(ttls + Ttls(before), smallest, a.ttl);
      ips := ips + [a.body.ip];
      smallest := Include(smallest, a.ttl);
    }
    assert answers[..|answers|] == answers;
  }

  lemma NoneSelected(answers: seq<Answer>, q: Question, end: Name)
    ensures Ips(Selected(answers[..0], q, end)) == []
  {
  }

  lemma SelectNext(answers: seq<Answer>, q: Question, end: Name, k: nat)
    requires k < |answers|
    ensures Selected(answers[..k + 1], q, end) == if Used(answers[k], q, end) then Selected(answers[..k], q, end) + [answers[k]] else Selected(answers[..k], q, end)
  {
    assert answers[..k + 1][..k] == answers[..k];
  }

  lemma AddUsed(used: seq<Answer>, ttls: seq<uint32>, a: Answer)
    requires (forall i :: 0 <= i < |used| ==> used[i].body.Address?) && a.body.Address?
    ensures Ips(used + [a]) == Ips(used) + [a.body.ip]
    ensures ttls + Ttls(used + [a]) == ttls + Ttls(used) + [a.ttl]
  {
  }

  lemma FoldTwice(n: Name)
    ensures Fold(Fold(n)) == Fold(n)
  {
    assert Lower(Lower(n.text)) == Lower(n.text);
  }

  method CheckQuestion(req: Request, resp: Response) returns (e: Option<Error>)
    ensures e.None? <==> Matches(req, resp)
    ensures e.Some? ==> !e.value.ConflictingTargets? && !e.value.CnameLoop?
  {
    if !resp.response {
      return Some(NotAResponse);
    }
    if resp.id != req.id {
      return Some(IdMismatch);
    }
    if resp.opCode != req.opCode {
      return Some(OpCodeMismatch);
    }
    if |resp.questions| == 0 {
      return Some(NoQuestion);
    }
    if !SameQuestion(resp.questions[0], req.question) {
      return Some(QuestionMismatch);
    }
    if |resp.questions| > 1 {
      return Some(UnexpectedQuestions);
    }
    return None;
  }

  lemma TableAliases(answers: seq<Answer>, rrClass: int, t: Table)
    requires LastAliases(answers, rrClass, t)
    ensures AllAliases(t)
  {
  }

  /**
   parseResponseForRequest on a decoded response. It succeeds exactly when the response is to the
   request, no two aliases clash and the chain from the question ends; it then returns the
   addresses at the end, in order, with the smallest TTL of the chain and of those addresses.
   */
  method ParseResponse(req: Request, resp: Response) returns (r: Result, ghost t: Table, ghost c: seq<Name>)
    requires Decoded(resp.answers)
    ensures Matches(req, resp) && !Conflicting(resp.answers, req.question.rrClass) ==>
              LastAliases(resp.answers, req.question.rrClass, t) && AllAliases(t)
    ensures r == Err(ConflictingTargets) <==> Matches(req, resp) && Conflicting(resp.answers, req.question.rrClass)
    ensures r == Err(CnameLoop) <==>
              Matches(req, resp) && !Conflicting(resp.answers, req.question.rrClass) && Endless(t, Fold(req.question.name))
    ensures r.Ok? <==> Matches(req, resp) && !Conflicting(resp.answers, req.question.rrClass) && !Endless(t, Fold(req.question.name))
    ensures r.Ok? ==>
              && Chain(t, Fold(req.question.name), c) && c[|c| - 1] !in t
              && r.ips == Ips(Selected(resp.answers, req.question, c[|c| - 1]))
              && Smallest(ChainTtls(t, c) + Ttls(Selected(resp.answers, req.question, c[|c| - 1])), r.ttl)
  {
    t, c := map[], [];
    hide Matches, Conflicting, LastAliases, AllAliases, Endless, Chain, Selected, Fold;
    var refusal := CheckQuestion(req, resp);
    if refusal.Some? {
      return Err(refusal.value), t, c;
    }
    var q := req.question;
    var aliases, conflict := BuildAliases(resp.answers, q.rrClass);
    t := aliases;
    if conflict {
      return Err(ConflictingTargets), t, c;
    }
    TableAliases(resp.answers, q.rrClass, aliases);
    var end, smallest;
    end, smallest, c := Follow(aliases, Fold(q.name));
    if end.None? {
      return Err(CnameLoop), t, c;
    }
    ChainFolded(aliases, q.name, c);
    var ips;
    ips, smallest := Collect(resp.answers, q, end.value, smallest, ChainTtls(aliases, c));
    return Ok(ips, if smallest.Some? then smallest.value else DEFAULT_TTL), t, c;
  }

  lemma ChainFolded(t: Table, n: Name, c: seq<Name>)
    requires AllAliases(t) && Chain(t, Fold(n), c)
    ensures Fold(c[|c| - 1]) == c[|c| - 1]
  {
    hide Fold;
    if |c| == 1 {
      FoldTwice(n);
    } else {
      var k, h := |c| - 2, |c| - 1;
      assert Linked(t, c[k], c[h]);
      FoldTwice(t[c[k]].body.target);
    }
  }
}
