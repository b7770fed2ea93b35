/**
 One batch of the nftables writer: coalesce the updates of a batch, hand the
 distinct ones to the kernel, and remember what it confirmed.
 */
module NftFlush {
  import opened Basics

  datatype SetRef = SetRef(name: string, ipVersion: nat)

  /** A set element; its key names it within the set. */
  datatype Element = Element(target: SetRef, key: seq<int>)

  /** Timeouts and times count nanoseconds. */
  datatype Update = Update(element: Element, timeout: int)

  /** Error texts are told apart by a number; BLANK is the empty text. */
  type Text = int
  const BLANK: Text := 0
  const INVALID_RESULT_COUNT: Text := 1
  const EMPTY_WRITE_RESULT: Text := 2

  datatype WriteResult = WriteResult(err: Option<Text>, applied: bool, existing: bool)

  type Expiries = map<Element, int>

  const MAX_KNOWN_ELEMENTS := 65536

  // ---- Coalescing -----------------------------------------------------------

  /** The element is known to be in its set beyond now. */
  predicate Live(known: Expiries, e: Element, now: int) {
    e in known && known[e] > now
  }

  ghost predicate Once(unique: seq<Update>) {
    forall i, j :: 0 <= i < j < |unique| ==> unique[i].element != unique[j].element
  }

  /** The element of c is submitted for at least as long as c asks. */
  ghost predicate Submitted(unique: seq<Update>, c: Update) {
    exists i :: 0 <= i < |unique| && unique[i].element == c.element && unique[i].timeout >= c.timeout
  }

  /** Every update of the batch is live or submitted. */
  ghost predicate Covered(raw: seq<Update>, known: Expiries, now: int, unique: seq<Update>) {
    forall k :: 0 <= k < |raw| ==> Live(known, raw[k].element, now) || Submitted(unique, raw[k])
  }

  /** Nothing is submitted that the batch does not hold, with that very timeout, or that is live. */
  ghost predicate Needed(raw: seq<Update>, known: Expiries, now: int, unique: seq<Update>) {
    forall i :: 0 <= i < |unique| ==> unique[i] in raw && !Live(known, unique[i].element, now)
  }

  ghost predicate Coalesced(raw: seq<Update>, known: Expiries, now: int, unique: seq<Update>) {
    Once(unique) && Covered(raw, known, now, unique) && Needed(raw, known, now, unique) && |unique| <= |raw|
  }

  ghost predicate IndexOk(indices: map<Element, nat>, unique: seq<Update>) {
    && (forall e :: e in indices ==> indices[e] < |unique| && unique[indices[e]].element == e)
    && (forall i :: 0 <= i < |unique| ==> unique[i].element in indices && indices[unique[i].element] == i)
  }

  lemma AddLive(raw: seq<Update>, known: Expiries, now: int, unique: seq<Update>, c: Update)
    requires Coalesced(raw, known, now, unique) && Live(known, c.element, now)
    ensures Coalesced(raw + [c], known, now, unique)
  {
    hide Submitted, Once;
  }

  lemma AddNew(raw: seq<Update>, known: Expiries, now: int, unique: seq<Update>, indices: map<Element, nat>, c: Update)
    requires Coalesced(raw, known, now, unique) && IndexOk(indices, unique)
    requires !Live(known, c.element, now) && c.element !in indices
    ensures Coalesced(raw + [c], known, now, unique + [c])
    ensures IndexOk(indices[c.element := |unique|], unique + [c])
  {
    assert IndexOk(indices[c.element := |unique|], unique + [c]);
    assert Once(unique + [c]) by { hide Covered, Needed; }
    hide Live, IndexOk, Once;
    assert Submitted(unique + [c], c) by { assert (unique + [c])[|unique|] == c; }
    forall k | 0 <= k < |raw|
      ensures Submitted(unique, raw[k]) ==> Submitted(unique + [c], raw[k])
    {
      SubmittedMore(unique, unique + [c], raw[k]);
    }
    hide Submitted;
    assert Needed(raw + [c], known, now, unique + [c]);
  }

  /** Submitting more, or for longer, keeps what is submitted. */
  lemma SubmittedMore(unique: seq<Update>, more: seq<Update>, c: Update)
    requires |unique| <= |more| && forall i :: 0 <= i < |unique| ==> more[i].element == unique[i].element && more[i].timeout >= unique[i].timeout
    ensures Submitted(unique, c) ==> Submitted(more, c)
  {
    if Submitted(unique, c) {
      var i :| 0 <= i < |unique| && unique[i].element == c.element && unique[i].timeout >= c.timeout;
      assert more[i].element == c.element;
    }
  }

  /** The longer of two updates of one element stands for both. */
  function Longer(unique: seq<Update>, n: nat, c: Update): (r: seq<Update>)
    requires n < |unique| && unique[n].element == c.element
    ensures |r| == |unique| && forall i :: 0 <= i < |r| ==> r[i].element == unique[i].element && r[i].timeout >= unique[i].timeout
    ensures r[n].timeout >= c.timeout && forall i :: 0 <= i < |r| ==> r[i] == unique[i] || r[i] == c
  {
    if c.timeout > unique[n].timeout then unique[n := c] else unique
  }

  lemma AddAgain(raw: seq<Update>, known: Expiries, now: int, unique: seq<Update>, n: nat, c: Update)
    requires Coalesced(raw, known, now, unique) && n < |unique| && unique[n].element == c.element
    ensures Coalesced(raw + [c], known, now, Longer(unique, n, c))
  {
    var all := Longer(unique, n, c);
    assert !Live(known, c.element, now);
    hide Live, Longer;
    assert Once(all);
    hide Once;
    assert Needed(raw + [c], known, now, all);
    hide Needed;
    assert Submitted(all, c) by { assert all[n].element == c.element; }
    forall k | 0 <= k < |raw|
      ensures Submitted(unique, raw[k]) ==> Submitted(all, raw[k])
    {
      SubmittedMore(unique, all, raw[k]);
    }
    hide Submitted;
  }

  lemma IndexFinds(indices: map<Element, nat>, unique: seq<Update>, e: Element)
    requires IndexOk(indices, unique) && e in indices
    ensures indices[e] < |unique| && unique[indices[e]].element == e
    ensures forall u: Update :: u.element == e ==> IndexOk(indices, unique[indices[e] := u])
  {
  }

  /** The first half of flush: one update per element, with the longest timeout asked for. */
  method Coalesce(raw: seq<Update>, known: Expiries, now: int) returns (unique: seq<Update>, duplicates: nat)
    ensures Coalesced(raw, known, now, unique) && duplicates == |raw| - |unique|
  {
    unique, duplicates := [], 0;
    var indices: map<Element, nat> := map[];
    assert Coalesced(raw[..0], known, now, unique) && IndexOk(indices, unique);
    hide Coalesced, IndexOk;
    for k := 0 to |raw|
      invariant Coalesced(raw[..k], known, now, unique) && IndexOk(indices, unique) && duplicates == k - |unique|
    {
      var c := raw[k];
      assert raw[..k + 1] == raw[..k] + [c];
      if c.element in known && known[c.element] > now {
        AddLive(raw[..k], known, now, unique, c);
        duplicates := duplicates + 1;
        continue;
      }
      if c.element in indices {
        var n := indices[c.element];
        IndexFinds(indices, unique, c.element);
        AddAgain(raw[..k], known, now, unique, n, c);
        if c.timeout > unique[n].timeout {
          unique := unique[n := unique[n].(timeout := c.timeout)];
        }
        duplicates := duplicates + 1;
        continue;
      }
      AddNew(raw[..k], known, now, unique, indices, c);
      indices := indices[c.element := |unique|];
      unique := unique + [c];
    }
    assert raw[..|raw|] == raw;
  }

  // ---- Recording ------------------------------------------------------------

  predicate Confirmed(r: WriteResult) {
    r.err.None? && (r.applied || r.existing)
  }

  /** The expiries after the confirmed ones among the first n results. */
  function Remembered(known: Expiries, unique: seq<Update>, results: seq<WriteResult>, now: int, n: nat): Expiries
    requires n <= |results| == |unique|
  {
    if n == 0 then known
    else
      var before := Remembered(known, unique, results, now, n - 1);
      if Confirmed(results[n - 1]) then before[unique[n - 1].element := now + unique[n - 1].timeout] else before
  }

  /** An element is remembered after a batch as the kernel confirmed it, and otherwise as before. */
  lemma {:induction false} RememberedIs(known: Expiries, unique: seq<Update>, results: seq<WriteResult>, now: int, n: nat, e: Element)
    requires n <= |results| == |unique| && Once(unique)
    ensures forall i :: 0 <= i < n && unique[i].element == e && Confirmed(results[i]) ==>
              e in Remembered(known, unique, results, now, n) && Remembered(known, unique, results, now, n)[e] == now + unique[i].timeout
    ensures (forall i :: 0 <= i < n && unique[i].element == e ==> !Confirmed(results[i])) ==>
              (e in Remembered(known, unique, results, now, n) <==> e in known) &&
              (e in known ==> Remembered(known, unique, results, now, n)[e] == known[e])
  {
    if n > 0 {
      RememberedIs(known, unique, results, now, n - 1, e);
    }
  }

  datatype Tally = Tally(applied: nat, existing: nat, errors: nat)

  /** How many of the first n results are of each kind. */
  function Count(results: seq<WriteResult>, n: nat): (t: Tally)
    requires n <= |results|
    ensures t.applied + t.existing + t.errors == n
  {
    if n == 0 then Tally(0, 0, 0)
    else
      var t, r := Count(results, n - 1), results[n - 1];
      if !Confirmed(r) then t.(errors := t.errors + 1)
      else if r.applied then t.(applied := t.applied + 1)
      else t.(existing := t.existing + 1)
  }

  /** The results without an error that say applied. */
  function Applied(results: seq<WriteResult>, n: nat): set<int>
    requires n <= |results|
  {
    set i | 0 <= i < n && results[i].err.None? && results[i].applied
  }

  /** Those that say existing alone. */
  function Existing(results: seq<WriteResult>, n: nat): set<int>
    requires n <= |results|
  {
    set i | 0 <= i < n && results[i].err.None? && !results[i].applied && results[i].existing
  }

  lemma {:induction false} AppliedCount(results: seq<WriteResult>, n: nat)
    requires n <= |results|
    ensures Count(results, n).applied == |Applied(results, n)|
  {
    if n > 0 {
      AppliedCount(results, n - 1);
      var before, r := Applied(results, n - 1), results[n - 1];
      assert n - 1 !in before;
      assert Applied(results, n) == if r.err.None? && r.applied then before + {n - 1} else before;
    }
  }

  lemma {:induction false} ExistingCount(results: seq<WriteResult>, n: nat)
    requires n <= |results|
    ensures Count(results, n).existing == |Existing(results, n)|
  {
    if n > 0 {
      ExistingCount(results, n - 1);
      var before, r := Existing(results, n - 1), results[n - 1];
      assert n - 1 !in before;
      assert Existing(results, n) == if r.err.None? && !r.applied && r.existing then before + {n - 1} else before;
    }
  }

  /** An error outweighs the rest, and applied outweighs existing. */
  lemma CountIs(results: seq<WriteResult>, n: nat)
    requires n <= |results|
    ensures Count(results, n).applied == |Applied(results, n)| && Count(results, n).existing == |Existing(results, n)|
  {
    AppliedCount(results, n);
    ExistingCount(results, n);
  }

  /** A result that is neither an error nor confirmed counts as an error with a message of its own. */
  function Message(r: WriteResult): Text {
    match r.err
    case Some(m) => m
    case None => EMPTY_WRITE_RESULT
  }

  /** Some write failed with this message. */
  ghost predicate Failed(results: seq<WriteResult>, n: nat, message: Text)
    requires n <= |results|
  {
    exists i :: 0 <= i < n && !Confirmed(results[i]) && Message(results[i]) == message
  }

  predicate Fails(r: WriteResult, m: Text) {
    !Confirmed(r) && Message(r) == m
  }

  /** The texts of the failed writes among the first n, each once. */
  function Failures(results: seq<WriteResult>, n: nat): seq<Text>
    requires n <= |results|
  {
    if n == 0 then []
    else
      var before, m := Failures(results, n - 1), Message(results[n - 1]);
      if !Confirmed(results[n - 1]) && m != BLANK && m !in before then before + [m] else before
  }

  /** Some write failed with a before any failed with b. */
  ghost predicate FailsFirst(results: seq<WriteResult>, n: nat, a: Text, b: Text)
    requires n <= |results|
  {
    exists p :: 0 <= p < n && Fails(results[p], a) && forall q :: 0 <= q <= p ==> !Fails(results[q], b)
  }

  lemma {:induction false} FailuresHold(results: seq<WriteResult>, n: nat)
    requires n <= |results|
    ensures forall i :: 0 <= i < n && Fails(results[i], Message(results[i])) && Message(results[i]) != BLANK ==> Message(results[i]) in Failures(results, n)
    ensures forall m :: m in Failures(results, n) ==> exists i :: 0 <= i < n && Fails(results[i], m)
  {
    hide Message;
    if n > 0 {
      FailuresHold(results, n - 1);
    }
  }

  /** They are listed in the order in which they first occur. */
  lemma {:induction false} FailuresInOrder(results: seq<WriteResult>, n: nat, i: nat, j: nat)
    requires n <= |results| && i < j < |Failures(results, n)|
    ensures FailsFirst(results, n, Failures(results, n)[i], Failures(results, n)[j])
  {
    hide Message;
    var before := Failures(results, n - 1);
    var a, b := Failures(results, n)[i], Failures(results, n)[j];
    if j < |before| {
      FailuresInOrder(results, n - 1, i, j);
      var p :| 0 <= p < n - 1 && Fails(results[p], a) && forall q :: 0 <= q <= p ==> !Fails(results[q], b);
      assert FailsFirst(results, n, a, b);
    } else {
      FailuresHold(results, n - 1);
      assert a in before && b !in before && b != BLANK;
      var p :| 0 <= p < n - 1 && Fails(results[p], a);
      forall q | 0 <= q <= p
        ensures !Fails(results[q], b)
      {
      }
      assert FailsFirst(results, n, a, b);
    }
  }

  method Record(unique: seq<Update>, results: seq<WriteResult>, known0: Expiries, now: int) returns (known: Expiries, tally: Tally, failures: seq<Text>)
    requires |results| == |unique|
    ensures known == Remembered(known0, unique, results, now, |unique|)
    ensures tally == Count(results, |results|)
    ensures failures == Failures(results, |results|)
    ensures forall m :: m in failures <==> m != BLANK && Failed(results, |results|, m)
  {
    hide Message;
    known, tally, failures := known0, Tally(0, 0, 0), [];
    for k := 0 to |results|
      invariant known == Remembered(known0, unique, results, now, k)
      invariant tally == Count(results, k) && failures == Failures(results, k)
      invariant forall m :: m in failures <==> m != BLANK && Failed(results, k, m)
    {
      var r := results[k];
      FailedNext(results, k);
      if r.err.None? && r.applied {
        known := known[unique[k].element := now + unique[k].timeout];
        tally := tally.(applied := tally.applied + 1);
      } else if r.err.None? && r.existing {
        known := known[unique[k].element := now + unique[k].timeout];
        tally := tally.(existing := tally.existing + 1);
      } else {
        tally := tally.(errors := tally.errors + 1);
        var message := Message(r);
        if message != BLANK && message !in failures {
          failures := failures + [message];
        }
      }
    }
  }

  lemma FailedNext(results: seq<WriteResult>, n: nat)
    requires n < |results|
    ensures forall m :: Failed(results, n + 1, m) <==> Failed(results, n, m) || (!Confirmed(results[n]) && Message(results[n]) == m)
  {
    hide Message;
    forall m
      ensures Failed(results, n + 1, m) <==> Failed(results, n, m) || (!Confirmed(results[n]) && Message(results[n]) == m)
    {
      if Failed(results, n, m) {
        var i :| 0 <= i < n && !Confirmed(results[i]) && Message(results[i]) == m;
        assert Failed(results, n + 1, m);
      }
    }
  }

  // ---- Bounding what is remembered -------------------------------------------

  ghost predicate Within(a: Expiries, b: Expiries) {
    forall e :: e in a ==> e in b && a[e] == b[e]
  }

  function Unexpired(known: Expiries, now: int): Expiries {
    map e | e in known && known[e] > now :: known[e]
  }

  lemma RemoveOne(known: Expiries, e: Element)
    requires e in known
    ensures |known - {e}| == |known| - 1
  {
    assert (known - {e}).Keys == known.Keys - {e};
    assert |(known - {e}).Keys| == |known - {e}| && |known.Keys| == |known|;
  }

  lemma Smaller(a: Expiries, b: Expiries)
    requires Within(a, b)
    ensures |a| <= |b|
  {
    SmallerSet(a.Keys, b.Keys);
    assert |a.Keys| == |a| && |b.Keys| == |b|;
  }

  lemma {:induction false} SmallerSet(a: set<Element>, b: set<Element>)
    requires a <= b
    ensures |a| <= |b|
  {
    if a != {} {
      var x :| x in a;
      SmallerSet(a - {x}, b - {x});
    }
  }

  method DropExpired(known0: Expiries, now: int) returns (known: Expiries)
    ensures known == Unexpired(known0, now)
  {
    known := known0;
    var todo := known.Keys;
    while todo != {}
      invariant todo <= known0.Keys
      invariant known == map e | e in known0 && (e in todo || known0[e] > now) :: known0[e]
      decreases |todo|
    {
      var e :| e in todo;
      if known[e] <= now {
        known := known - {e};
      }
      todo := todo - {e};
    }
  }

  /** Above the bound expired elements go first and live ones only as far as needed; below it nothing does. */
  method Trim(known0: Expiries, now: int) returns (known: Expiries)
    ensures |known| <= 65536 && Within(known, known0)
    ensures |known0| <= 65536 ==> known == known0
    ensures |known0| > 65536 && |Unexpired(known0, now)| <= 65536 ==> known == Unexpired(known0, now)
    ensures |Unexpired(known0, now)| > 65536 ==> |known| == 65536 && Within(known, Unexpired(known0, now))
  {
    known := known0;
    Smaller(Unexpired(known0, now), known0);
    if |known| > MAX_KNOWN_ELEMENTS {
      known := DropExpired(known, now);
      ghost var live := known;
      while |known| > MAX_KNOWN_ELEMENTS
        invariant Within(known, live) && (|live| <= MAX_KNOWN_ELEMENTS ==> known == live)
        invariant |live| > MAX_KNOWN_ELEMENTS ==> |known| >= MAX_KNOWN_ELEMENTS
        decreases |known|
      {
        assert |known.Keys| == |known|;
        var e :| e in known.Keys;
        RemoveOne(known, e);
        known := known - {e};
      }
    }
  }

  lemma {:induction false} RememberedWithin(a: Expiries, b: Expiries, unique: seq<Update>, results: seq<WriteResult>, now: int, n: nat)
    requires n <= |results| == |unique| && Within(a, b)
    ensures Within(Remembered(a, unique, results, now, n), Remembered(b, unique, results, now, n))
  {
    if n > 0 {
      RememberedWithin(a, b, unique, results, now, n - 1);
    }
  }

  lemma WithinTrans(a: Expiries, b: Expiries, c: Expiries)
    requires Within(a, b) && Within(b, c)
    ensures Within(a, c)
  {
  }
}
