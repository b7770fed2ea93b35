/**
 The asynchronous nftables writer. Results are queued without blocking, one
 worker collects them into batches, and Close lets the worker drain the queue.
 Each method but Close is one step of a producer or of the worker, whose batches
 are steps of their own; the steps of different goroutines may come in any order.
 */
module NftWriter {
  import opened Basics
  import opened NftFlush

  // ---- What an answer asks to be written ------------------------------------

  const SECOND := 1_000_000_000

  /** Other is an address of neither length. */
  datatype Ip = V4(bytes: seq<int>) | V6(bytes: seq<int>) | Other

  predicate Unsafe(ip: Ip) {
    match ip
    case V4(b) => b != [] && (b[0] == 0 || b[0] == 127)
    case V6(b) => |b| == 16 && (forall i :: 0 <= i < 15 ==> b[i] == 0) && (b[15] == 0 || b[15] == 1)
    case Other => false
  }

  predicate Fits(ip: Ip, ref: SetRef) {
    (ip.V4? && ref.ipVersion == 4) || (ip.V6? && ref.ipVersion != 4)
  }

  function UpdateFor(ip: Ip, ref: SetRef, ttlSeconds: nat): Update
    requires Fits(ip, ref)
  {
    Update(Element(ref, ip.bytes), if ttlSeconds == 0 then SECOND else ttlSeconds * SECOND)
  }

  /** u writes a safe address of the answer to a set of its family. */
  ghost predicate AsksFor(refs: seq<SetRef>, ips: seq<Ip>, ttlSeconds: nat, u: Update) {
    && u.element.target in refs
    && exists ip :: ip in ips && !Unsafe(ip) && Writes(ip, u, ttlSeconds)
  }

  /** u writes the bytes of ip to a set of its family, for the TTL and at least for one second. */
  predicate Writes(ip: Ip, u: Update, ttlSeconds: nat) {
    && (if u.element.target.ipVersion == 4 then ip.V4? else ip.V6?)
    && u.element.key == ip.bytes
    && u.timeout == if ttlSeconds > 1 then ttlSeconds * 1_000_000_000 else 1_000_000_000
  }

  /** Unsafe are 0.0.0.0/8, 127.0.0.0/8, :: and ::1. */
  lemma UnsafeIs(ip: Ip)
    ensures ip.V4? && |ip.bytes| == 4 ==> (Unsafe(ip) <==> ip.bytes[0] == 0 || ip.bytes[0] == 127)
    ensures ip.V6? && |ip.bytes| == 16 ==> (Unsafe(ip) <==> ip.bytes == seq(16, _ => 0) || ip.bytes == seq(16, i => if i == 15 then 1 else 0))
    ensures ip.Other? ==> !Unsafe(ip)
  {
    if ip.V6? && |ip.bytes| == 16 && Unsafe(ip) {
      assert ip.bytes == seq(16, i => if i == 15 then ip.bytes[15] else 0);
    }
  }

  /** The updates for one address: one for each set of its family, none if it is unsafe. */
  function ForIp(refs: seq<SetRef>, ip: Ip, ttlSeconds: nat): seq<Update> {
    if refs == [] || Unsafe(ip) then []
    else
      var last := refs[|refs| - 1];
      ForIp(refs[..|refs| - 1], ip, ttlSeconds) + if Fits(ip, last) then [UpdateFor(ip, last, ttlSeconds)] else []
  }

  /** The updates for an answer, address by address. */
  function ForIps(refs: seq<SetRef>, ips: seq<Ip>, ttlSeconds: nat): seq<Update> {
    if ips == [] then [] else ForIps(refs, ips[..|ips| - 1], ttlSeconds) + ForIp(refs, ips[|ips| - 1], ttlSeconds)
  }

  lemma {:induction false} ForIpIs(refs: seq<SetRef>, ip: Ip, ttlSeconds: nat, u: Update)
    ensures u in ForIp(refs, ip, ttlSeconds) <==>
            !Unsafe(ip) && u.element.target in refs && Writes(ip, u, ttlSeconds)
  {
    if refs != [] {
      ForIpIs(refs[..|refs| - 1], ip, ttlSeconds, u);
      assert refs == refs[..|refs| - 1] + [refs[|refs| - 1]];
    }
  }

  /** Exactly the safe addresses are written, each to the sets of its family. */
  lemma {:induction false} ForIpsIs(refs: seq<SetRef>, ips: seq<Ip>, ttlSeconds: nat, u: Update)
    ensures u in ForIps(refs, ips, ttlSeconds) <==> AsksFor(refs, ips, ttlSeconds, u)
  {
    if ips != [] {
      ForIpsIs(refs, ips[..|ips| - 1], ttlSeconds, u);
      ForIpIs(refs, ips[|ips| - 1], ttlSeconds, u);
      assert ips == ips[..|ips| - 1] + [ips[|ips| - 1]];
    }
  }

  lemma {:induction false} NoTargets(ips: seq<Ip>, ttlSeconds: nat)
    ensures ForIps([], ips, ttlSeconds) == []
  {
    if ips != [] {
      NoTargets(ips[..|ips| - 1], ttlSeconds);
    }
  }

  method BuildUpdates(refs: seq<SetRef>, ips: seq<Ip>, ttlSeconds: nat) returns (updates: seq<Update>, filtered: nat)
    ensures updates == ForIps(refs, ips, ttlSeconds)
    ensures filtered == |set i | 0 <= i < |ips| && Unsafe(ips[i])|
  {
    updates, filtered := [], 0;
    for k := 0 to |ips|
      invariant updates == ForIps(refs, ips[..k], ttlSeconds)
      invariant filtered == |set i | 0 <= i < k && Unsafe(ips[i])|
    {
      assert ips[..k + 1][..k] == ips[..k];
      assert (set i | 0 <= i < k + 1 && Unsafe(ips[i])) == (set i | 0 <= i < k && Unsafe(ips[i])) + if Unsafe(ips[k]) then {k} else {};
      if Unsafe(ips[k]) {
        filtered := filtered + 1;
        continue;
      }
      ghost var before := updates;
      for j := 0 to |refs|
        invariant updates == before + ForIp(refs[..j], ips[k], ttlSeconds)
      {
        assert refs[..j + 1][..j] == refs[..j];
        if Fits(ips[k], refs[j]) {
          updates := updates + [UpdateFor(ips[k], refs[j], ttlSeconds)];
        }
      }
      assert refs[..|refs|] == refs;
    }
    assert ips[..|ips|] == ips;
  }

  // ---- Conservation, on values -----------------------------------------------

  function Concat(batches: seq<seq<Update>>): seq<Update> {
    if batches == [] then [] else Concat(batches[..|batches| - 1]) + batches[|batches| - 1]
  }

  lemma ConcatAdd(batches: seq<seq<Update>>, b: seq<Update>)
    ensures Concat(batches + [b]) == Concat(batches) + b
  {
    assert (batches + [b])[..|batches|] == batches;
  }

  lemma {:induction false} ConcatFirst(batches: seq<seq<Update>>)
    requires batches != []
    ensures Concat(batches) == batches[0] + Concat(batches[1..])
  {
    if |batches| > 1 {
      ConcatFirst(batches[..|batches| - 1]);
      assert batches[..|batches| - 1][1..] == batches[1..][..|batches| - 2];
    } else {
      assert batches[..0] == [];
    }
  }

  /** Everything accepted is flushed, pending or queued, in the order it was accepted. */
  ghost predicate Conserved(accepted: seq<Update>, flushed: seq<seq<Update>>, pending: seq<Update>, queue: seq<seq<Update>>) {
    accepted == Concat(flushed) + pending + Concat(queue)
  }

  ghost predicate BatchesFit(flushed: seq<seq<Update>>, batchSize: nat) {
    forall i :: 0 <= i < |flushed| ==> 1 <= |flushed[i]| <= batchSize
  }

  ghost predicate FlowOk(batchSize: nat, accepted: seq<Update>, flushed: seq<seq<Update>>, pending: seq<Update>, queue: seq<seq<Update>>) {
    Conserved(accepted, flushed, pending, queue) && BatchesFit(flushed, batchSize)
  }

  ghost function Flushed(flushed: seq<seq<Update>>): nat {
    |Concat(flushed)|
  }

  lemma Accept(batchSize: nat, accepted: seq<Update>, flushed: seq<seq<Update>>, pending: seq<Update>, queue: seq<seq<Update>>, item: seq<Update>)
    requires FlowOk(batchSize, accepted, flushed, pending, queue)
    ensures FlowOk(batchSize, accepted + item, flushed, pending, queue + [item])
  {
    hide BatchesFit;
    ConcatAdd(queue, item);
  }

  lemma Dequeue(batchSize: nat, accepted: seq<Update>, flushed: seq<seq<Update>>, pending: seq<Update>, queue: seq<seq<Update>>)
    requires FlowOk(batchSize, accepted, flushed, pending, queue) && queue != []
    ensures FlowOk(batchSize, accepted, flushed, pending + queue[0], queue[1..])
  {
    hide BatchesFit;
    ConcatFirst(queue);
  }

  lemma FlushSome(batchSize: nat, accepted: seq<Update>, flushed: seq<seq<Update>>, pending: seq<Update>, queue: seq<seq<Update>>, n: nat)
    requires FlowOk(batchSize, accepted, flushed, pending, queue) && 1 <= n <= |pending| && n <= batchSize
    ensures FlowOk(batchSize, accepted, flushed + [pending[..n]], pending[n..], queue)
    ensures Flushed(flushed + [pending[..n]]) == Flushed(flushed) + n
  {
    ConcatAdd(flushed, pending[..n]);
    assert pending[..n] + pending[n..] == pending;
  }

  // ---- The writer ------------------------------------------------------------

  /**
   Where the worker is: in its select, flushing full batches after an item, flushing everything after
   the timer, taking the rest of the queue after Close, flushing that, or gone.
   */
  datatype Stage = Waiting | Filling | Emptying | Draining | Leaving | Exited {
    predicate Flushing() {
      Filling? || Emptying? || Leaving?
    }
  }

  class Writer {
    const batchSize: nat
    const queueSize: nat
    const targetsByTag: map<string, seq<SetRef>>

    var closed: bool
    var queue: seq<seq<Update>>
    var queued: int
    var dropped: nat
    var filtered: nat

    // The worker's own.
    var pending: seq<Update>
    var timer: bool
    var stage: Stage
    var known: Expiries
    var knownGeneration: nat

    var applied: nat
    var existing: nat
    var deduplicated: nat
    var errors: nat

    var probeGeneration: nat
    var probed: bool
    var probeHealthy: bool
    var writeHealthy: bool
    var ready: bool
    var lastError: seq<Text>  // the texts of the errors reported last

    ghost var accepted: seq<Update>
    ghost var flushed: seq<seq<Update>>
    ghost var confirmed: Expiries  // the expiries the kernel confirmed since the probe the worker last noticed

    /** Nothing is lost or repeated, and no batch is too large. */
    ghost predicate Flow()
      reads this`accepted, this`flushed, this`pending, this`queue, this`queued
    {
      batchSize >= 1 && FlowOk(batchSize, accepted, flushed, pending, queue) && queued == |queue| <= queueSize
    }

    /** Each flushed update is counted once. */
    ghost predicate Counted()
      reads this`flushed, this`applied, this`existing, this`deduplicated, this`errors
    {
      applied + existing + deduplicated + errors == Flushed(flushed)
    }

    /** The worker remembers a bounded number of elements, all as the kernel confirmed them. */
    ghost predicate Memory()
      reads this`known, this`confirmed, this`knownGeneration, this`probeGeneration
    {
      |known| <= 65536 && Within(known, confirmed) && knownGeneration <= probeGeneration
    }

    ghost predicate Health()
      reads this`ready, this`probeHealthy, this`writeHealthy, this`lastError
    {
      (ready <==> probeHealthy && writeHealthy) && (ready ==> lastError == [])
    }

    ghost predicate Sound()
      reads this
    {
      Flow() && Counted() && Memory() && Health()
    }

    /** The timer runs whenever something waits for it, and a worker that leaves has missed nothing. */
    ghost predicate Staged()
      reads this`stage, this`pending, this`queue, this`timer, this`closed
    {
      match stage
      case Waiting => |pending| < batchSize && (pending != [] ==> timer)
      case Filling => !timer
      case Emptying => !timer
      case Draining => !timer && closed
      case Leaving => !timer && closed && queue == []
      case Exited => !timer && closed && queue == [] && pending == []
    }

    /** Between any two steps. */
    ghost predicate Valid()
      reads this
    {
      Sound() && Staged()
    }

    /** The worker's flush is not over yet. */
    predicate More()
      reads this`stage, this`pending
    {
      stage.Flushing() && (|pending| >= batchSize || (!stage.Filling? && |pending| > 0))
    }

    /** Everything accepted is flushed, in order, and counted once. */
    ghost predicate Done()
      reads this`flushed, this`accepted, this`applied, this`existing, this`deduplicated, this`errors
    {
      Concat(flushed) == accepted && applied + existing + deduplicated + errors == |accepted|
    }

    constructor (batchSize: nat, queueSize: nat, targetsByTag: map<string, seq<SetRef>>)
      requires batchSize >= 1
      ensures Valid() && !closed && stage == Waiting && accepted == [] && flushed == [] && !ready && !probed && lastError == []
      ensures dropped == filtered == 0 && probeGeneration == knownGeneration == 0 && known == map[] && !timer
      ensures this.batchSize == batchSize && this.queueSize == queueSize && this.targetsByTag == targetsByTag
    {
      this.batchSize, this.queueSize, this.targetsByTag := batchSize, queueSize, targetsByTag;
      closed, queue, queued, dropped, filtered := false, [], 0, 0, 0;
      pending, timer, stage, known, knownGeneration := [], false, Waiting, map[], 0;
      applied, existing, deduplicated, errors := 0, 0, 0, 0;
      probeGeneration, probed, probeHealthy, writeHealthy, ready, lastError := 0, false, false, true, false, [];
      accepted, flushed, confirmed := [], [], map[];
    }

    // ---- Producers, Probe and Close ------------------------------------------

    /** Emit: the updates of one answer are accepted whole, or dropped whole when the queue is full; after Close nothing is. */
    method Emit(tag: string, ips: seq<Ip>, ttlSeconds: nat) returns (ghost sent: seq<Update>)
      requires Valid()
      modifies this`queue, this`queued, this`dropped, this`filtered, this`accepted
      ensures Valid() && accepted == old(accepted) + sent && (closed ==> queue == old(queue))
      ensures sent != [] ==> !closed && tag in targetsByTag && sent == ForIps(targetsByTag[tag], ips, ttlSeconds)
      ensures dropped == old(dropped) || (dropped == old(dropped) + 1 && !closed && sent == [] && |queue| == queueSize)
      ensures filtered == old(filtered) + if tag in targetsByTag && targetsByTag[tag] != [] then |set i | 0 <= i < |ips| && Unsafe(ips[i])| else 0
      ensures sent == [] && dropped == old(dropped) && !closed && tag in targetsByTag ==> ForIps(targetsByTag[tag], ips, ttlSeconds) == []
    {
      sent := [];
      if tag !in targetsByTag || |targetsByTag[tag]| == 0 || |ips| == 0 {
        if tag in targetsByTag && |targetsByTag[tag]| == 0 {
          NoTargets(ips, ttlSeconds);
        }
        return;
      }
      var updates, unsafe := BuildUpdates(targetsByTag[tag], ips, ttlSeconds);
      hide ForIps, Flow, Counted, Memory, Health;
      filtered := filtered + unsafe;
      if |updates| == 0 {
        return;
      }
      sent := Enqueue(updates);
    }

    /** The locked part of Emit. */
    method Enqueue(updates: seq<Update>) returns (ghost sent: seq<Update>)
      requires Valid() && updates != []
      modifies this`queue, this`queued, this`dropped, this`accepted
      ensures Valid() && accepted == old(accepted) + sent && (closed ==> queue == old(queue))
      ensures sent == if !closed && old(|queue|) < queueSize then updates else []
      ensures dropped == if !closed && sent == [] then old(dropped) + 1 else old(dropped)
      ensures dropped != old(dropped) ==> |queue| == queueSize
    {
      sent := [];
      if closed {
        return;
      }
      Accept(batchSize, accepted, flushed, pending, queue, updates);
      hide FlowOk, Counted, Memory, Health;
      if |queue| < queueSize {
        sent := updates;
        queue, queued := queue + [updates], queued + 1;
        accepted := accepted + updates;
      } else {
        dropped := dropped + 1;
      }
    }

    method RecordProbeHealth(ok: bool, message: Text)
      modifies this`probed, this`probeHealthy, this`ready, this`lastError
      ensures Health() && probed && probeHealthy == ok && (!ok ==> lastError == [message]) && (ok && !ready ==> lastError == old(lastError))
    {
      probed, probeHealthy := true, ok;
      if !ok {
        lastError := [message];
      }
      ready := probeHealthy && writeHealthy;
      if ready {
        lastError := [];
      }
    }

    /** Probe: success makes the worker forget what it knows before its next batch. */
    method Probe() returns (ok: bool)
      requires Valid()
      modifies this`probeGeneration, this`probed, this`probeHealthy, this`ready, this`lastError
      ensures Valid() && probed && probeHealthy == ok
      ensures ok ==> probeGeneration == old(probeGeneration) + 1 && knownGeneration < probeGeneration
      ensures !ok ==> probeGeneration == old(probeGeneration)
    {
      hide Flow, Counted, Health, Within;
      ok := *;
      if ok {
        probeGeneration := probeGeneration + 1;
      }
      var message: Text := *;
      RecordProbeHealth(ok, message);
    }

    /** The locked part of Close: from here on nothing is accepted and the worker may drain and leave. */
    method Shut()
      requires Valid()
      modifies this`closed
      ensures Valid() && closed
    {
      hide Flow, Counted, Memory, Health;
      closed := true;
    }

    // ---- The worker ------------------------------------------------------------

    method RecordWriteHealth(failures: seq<Text>)
      modifies this`writeHealthy, this`ready, this`lastError
      ensures Health() && writeHealthy == (failures == []) && (failures != [] ==> lastError == failures)
    {
      writeHealthy := failures == [];
      if !writeHealthy {
        lastError := failures;
      }
      ready := probeHealthy && writeHealthy;
      if ready {
        lastError := [];
      }
    }

    /**
     flush: each update of the batch is counted exactly once, as applied, already there,
     failed or redundant, and is redundant only if another of the batch stands for it or the kernel has
     confirmed its element beyond now.
     */
    method Flush(raw: seq<Update>) returns (ghost w: Written)
      requires Memory() && Health()
      modifies this`known, this`confirmed, this`applied, this`existing, this`deduplicated, this`errors, this`writeHealthy, this`ready, this`lastError
      ensures Memory() && Health()
      ensures applied + existing + deduplicated + errors == old(applied + existing + deduplicated + errors) + |raw|
      ensures var t := Count(w.results, |w.results|);
              && applied == old(applied) + t.applied && existing == old(existing) + t.existing && errors == old(errors) + t.errors
              && deduplicated == old(deduplicated) + |raw| - |w.unique|
      ensures Wrote(raw, old(known), w) && confirmed == After(old(confirmed), w)
      ensures w.unique != [] && !writeHealthy ==> lastError == Failures(w.results, |w.results|)
      ensures w.unique != [] ==> (writeHealthy <==> forall m :: Failed(w.results, |w.results|, m) ==> m == BLANK)
    {
      hide Wrote, After, Within, Failed, Count, Received, Health, Failures;
      var clock: int := *;
      var reply: seq<WriteResult> := *;
      var submit, duplicates, answer, updated, tally, failures;
      submit, duplicates, answer, updated, tally, failures := Write(raw, known, confirmed, clock, reply);
      w := Written(clock, submit, answer);
      deduplicated := deduplicated + duplicates;
      applied, existing, errors := applied + tally.applied, existing + tally.existing, errors + tally.errors;
      if |submit| > 0 {
        RecordWriteHealth(failures);
      }
      known, confirmed := updated, After(confirmed, w);
    }

    /** The worker forgets what it knows once a probe has succeeded since it last looked. */
    method Forget()
      requires Memory()
      modifies this`known, this`confirmed, this`knownGeneration
      ensures Memory() && knownGeneration == probeGeneration
      ensures old(knownGeneration) < probeGeneration ==> known == map[] && confirmed == map[]
    {
      if probeGeneration != knownGeneration {
        known, confirmed := map[], map[];
        knownGeneration := probeGeneration;
      }
    }

    method WriteBatch(raw: seq<Update>)
      requires Memory() && Health()
      modifies this`known, this`confirmed, this`knownGeneration, this`applied, this`existing, this`deduplicated, this`errors,
               this`writeHealthy, this`ready, this`lastError
      ensures Memory() && Health() && knownGeneration == probeGeneration
      ensures applied + existing + deduplicated + errors == old(applied + existing + deduplicated + errors) + |raw|
    {
      hide *;
      Forget();
      ghost var w := Flush(raw);
    }

    method WritePending(n: nat)
      requires Sound() && 1 <= n <= |pending| && n <= batchSize
      modifies this`pending, this`flushed, this`known, this`confirmed, this`knownGeneration, this`applied, this`existing, this`deduplicated, this`errors,
               this`writeHealthy, this`ready, this`lastError
      ensures Sound() && knownGeneration == probeGeneration
      ensures pending == old(pending[n..]) && flushed == old(flushed) + [old(pending[..n])]
    {
      FlushSome(batchSize, accepted, flushed, pending, queue, n);
      hide FlowOk, Flushed, Memory, Health;
      WriteBatch(pending[..n]);
      flushed := flushed + [pending[..n]];
      pending := pending[n..];
    }

    /** One pass of the flush loop: the next batch in order, as large as it may be. */
    method FlushBatch()
      requires Valid() && More()
      modifies this`pending, this`flushed, this`known, this`confirmed, this`knownGeneration, this`applied, this`existing, this`deduplicated, this`errors,
               this`writeHealthy, this`ready, this`lastError
      ensures Valid() && knownGeneration == probeGeneration
      ensures var n := if old(|pending|) < batchSize then old(|pending|) else batchSize;
              1 <= n && pending == old(pending[n..]) && flushed == old(flushed) + [old(pending[..n])]
    {
      hide FlowOk, Counted, Memory, Health;
      WritePending(if |pending| < batchSize then |pending| else batchSize);
    }

    /** The end of the flush loop: after an item less than a batch is pending and the timer runs for it, otherwise nothing is pending. */
    method FlushEnd()
      requires Valid() && stage.Flushing() && !More()
      modifies this`stage, this`timer
      ensures Valid() && stage == if old(stage.Leaving?) then Exited else Waiting
      ensures |pending| < batchSize && (!old(stage.Filling?) ==> pending == []) && timer == (pending != [])
      ensures stage == Exited ==> Done()
    {
      hide FlowOk, Counted, Memory, Health, Done;
      if stage.Leaving? {
        AllFlushed();
        stage := Exited;
      } else {
        timer, stage := |pending| > 0, Waiting;
      }
    }

    /** A queued result: with a full batch the worker flushes, otherwise the timer runs. */
    method OnItem()
      requires Valid() && stage == Waiting && queue != []
      modifies this`queue, this`queued, this`pending, this`timer, this`stage
      ensures Valid() && queue == old(queue[1..]) && pending == old(pending) + old(queue[0])
      ensures stage == if |pending| >= batchSize then Filling else Waiting
    {
      TakeItem();
      hide Flow, Counted, Memory, Health;
      if |pending| >= batchSize {
        timer, stage := false, Filling;
      } else {
        timer := true;
      }
    }

    method TakeItem()
      requires Sound() && queue != []
      modifies this`queue, this`queued, this`pending
      ensures Sound() && queue == old(queue[1..]) && pending == old(pending) + old(queue[0])
    {
      Dequeue(batchSize, accepted, flushed, pending, queue);
      hide FlowOk, Counted, Memory, Health;
      pending, queue, queued := pending + queue[0], queue[1..], queued - 1;
    }

    /** The flush timer: the worker flushes everything. */
    method OnTimer()
      requires Valid() && stage == Waiting && timer
      modifies this`timer, this`stage
      ensures Valid() && stage == Emptying
    {
      hide Flow, Counted, Memory, Health;
      timer, stage := false, Emptying;
    }

    method OnDone()
      requires Valid() && stage == Waiting && closed
      modifies this`timer, this`stage
      ensures Valid() && stage == Draining
    {
      hide Flow, Counted, Memory, Health;
      timer, stage := false, Draining;
    }

    /** One pass of the drain loop: the next result, or the last flush once there is none. */
    method Drain()
      requires Valid() && stage == Draining
      modifies this`queue, this`queued, this`pending, this`stage
      ensures Valid()
      ensures if old(queue) == [] then stage == Leaving && queue == [] && pending == old(pending)
              else stage == Draining && queue == old(queue[1..]) && pending == old(pending) + old(queue[0])
    {
      if queue != [] {
        TakeItem();
        hide Flow, Counted, Memory, Health;
      } else {
        hide Flow, Counted, Memory, Health;
        stage := Leaving;
      }
    }

    lemma AllFlushed()
      requires Flow() && Counted() && pending == [] && queue == []
      ensures Done()
    {
      assert Concat(queue) == [];
    }

    lemma ExitedIsDone()
      requires Valid() && stage == Exited
      ensures Done()
    {
      AllFlushed();
    }

    // ---- Close and the worker -------------------------------------------------

    /** How far the worker is from its end once queue and pending are settled. */
    function Rank(): nat
      reads this`stage, this`timer
    {
      match stage
      case Filling => 6
      case Waiting => if timer then 5 else 3
      case Emptying => 4
      case Draining => 2
      case Leaving => 1
      case Exited => 0
    }

    /** Any step of the worker after Close, whichever ready case its select picks: each brings its end nearer. */
    method Work()
      requires Valid() && closed && stage != Exited
      modifies this`queue, this`queued, this`timer, this`stage, this`pending, this`flushed, this`known, this`confirmed, this`knownGeneration, this`applied, this`existing, this`deduplicated, this`errors,
               this`writeHealthy, this`ready, this`lastError
      ensures Valid()
      ensures |queue| < old(|queue|) || (queue == old(queue) && (|pending| < old(|pending|) || (pending == old(pending) && Rank() < old(Rank()))))
    {
      hide Sound, Done;
      if stage.Waiting? {
        if {
          case queue != [] => OnItem();
          case timer => OnTimer();
          case closed => OnDone();
        }
      } else if stage.Draining? {
        Drain();
      } else if More() {
        FlushBatch();
      } else {
        FlushEnd();
      }
    }

    /** Whatever producers and probes do meanwhile; after Close it is nothing to the worker. */
    method Meanwhile()
      requires Valid() && closed
      modifies this`queue, this`queued, this`dropped, this`filtered, this`accepted,
               this`probeGeneration, this`probed, this`probeHealthy, this`ready, this`lastError
      ensures Valid() && queue == old(queue) && accepted == old(accepted)
    {
      hide Sound, Staged;
      var n: nat :| n >= 0;
      for i := 0 to n
        invariant Valid() && queue == old(queue) && accepted == old(accepted)
      {
        if * {
          var ok := Probe();
        } else {
          var tag: string, ips: seq<Ip>, ttlSeconds: nat := *, *, *;
          ghost var sent := Emit(tag, ips, ttlSeconds);
        }
      }
    }

    /** Close: it returns, whatever runs meanwhile, and then everything ever accepted has been flushed, in order, and counted once. */
    method Close()
      requires Valid()
      modifies this
      ensures Valid() && closed && stage == Exited && Done() && accepted == old(accepted)
    {
      hide Sound, Staged, Done;
      Shut();
      while stage != Exited
        invariant Valid() && closed && accepted == old(accepted)
        decreases |queue|, |pending|, Rank()
      {
        Meanwhile();
        Work();
      }
      ExitedIsDone();
    }
  }

  /** What one batch did: which updates it submitted at which time, and what the kernel said. */
  datatype Written = Written(now: int, unique: seq<Update>, results: seq<WriteResult>)

  ghost predicate Wrote(raw: seq<Update>, known: Expiries, w: Written) {
    Coalesced(raw, known, w.now, w.unique) && |w.results| == |w.unique|
  }

  ghost function After(confirmed: Expiries, w: Written): Expiries {
    if |w.results| == |w.unique| then Remembered(confirmed, w.unique, w.results, w.now, |w.unique|) else confirmed
  }

  /** What a reply to n submitted updates counts as: a wrong number of results makes every one an error. */
  function Received(reply: seq<WriteResult>, n: nat): (r: seq<WriteResult>)
    ensures |r| == n
  {
    if n == 0 then [] else if |reply| == n then reply else seq(n, _ => WriteResult(Some(INVALID_RESULT_COUNT), false, false))
  }

  lemma {:induction false} AllErrors(results: seq<WriteResult>, n: nat)
    requires n <= |results| && forall i :: 0 <= i < n ==> results[i].err.Some?
    ensures Count(results, n) == Tally(0, 0, n)
  {
    if n > 0 {
      AllErrors(results, n - 1);
    }
  }

  /** flush without its counters: a batch is coalesced, submitted and recorded, whatever the kernel replies. */
  method Write(raw: seq<Update>, known: Expiries, ghost confirmed: Expiries, now: int, reply: seq<WriteResult>)
    returns (submit: seq<Update>, duplicates: nat, answer: seq<WriteResult>, updated: Expiries, tally: Tally, failures: seq<Text>)
    requires |known| <= 65536 && Within(known, confirmed)
    ensures Wrote(raw, known, Written(now, submit, answer))
    ensures answer == Received(reply, |submit|) && tally == Count(answer, |answer|) && duplicates == |raw| - |submit|
    ensures |reply| != |submit| ==> tally == Tally(0, 0, |submit|)
    ensures |updated| <= 65536 && Within(updated, After(confirmed, Written(now, submit, answer)))
    ensures failures == Failures(answer, |answer|)
    ensures failures == [] <==> forall m :: Failed(answer, |answer|, m) ==> m == BLANK
  {
    submit, duplicates := Coalesce(raw, known, now);
    if |submit| == 0 {
      answer, updated, tally, failures := [], known, Tally(0, 0, 0), [];
      NoFailures(answer, failures);
      return;
    }
    answer := reply;
    if |answer| != |submit| {
      answer := seq(|submit|, _ => WriteResult(Some(INVALID_RESULT_COUNT), false, false));
      AllErrors(answer, |submit|);
    }
    updated, tally, failures := Record(submit, answer, known, now);
    RememberedWithin(known, confirmed, submit, answer, now, |submit|);
    NoFailures(answer, failures);
    hide Coalesced, Remembered, Within, Failed;
    var kept := Trim(updated, now);
    WithinTrans(kept, updated, After(confirmed, Written(now, submit, answer)));
    updated := kept;
  }

  lemma NoFailures(results: seq<WriteResult>, failures: seq<Text>)
    requires forall m :: m in failures ==> m != BLANK && Failed(results, |results|, m)
    requires forall m :: m != BLANK && Failed(results, |results|, m) ==> m in failures
    ensures failures == [] <==> forall m :: Failed(results, |results|, m) ==> m == BLANK
  {
    if failures != [] {
      assert failures[0] in failures;
      assert Failed(results, |results|, failures[0]) && failures[0] != BLANK;
    }
  }
}
