/**
 Sniffing the first bytes of a TCP connection for the domain it is meant for,
 and replaying those bytes afterwards. The bytes arrive in segments of any size.
 */
module Sniffer {
  import opened Basics
  import opened TlsRecords

  // ---- HTTP headers -----------------------------------------------------------

  predicate EndAt(d: Bytes, i: nat) {
    i + 3 < |d| && d[i] == 13 && d[i + 1] == 10 && d[i + 2] == 13 && d[i + 3] == 10
  }

  /** Where the header block ends: at the first empty line. */
  function HeaderEnd(d: Bytes, from: nat): (r: Option<nat>)
    ensures r.Some? ==> from <= r.value && EndAt(d, r.value) && forall k :: from <= k < r.value ==> !EndAt(d, k)
    ensures r.None? ==> forall k :: from <= k ==> !EndAt(d, k)
    decreases |d| - from
  {
    if from >= |d| then None else if EndAt(d, from) then Some(from) else HeaderEnd(d, from + 1)
  }

  predicate HasEnd(d: Bytes) {
    HeaderEnd(d, 0).Some?
  }

  lemma EndAtIs(d: Bytes, i: nat)
    ensures EndAt(d, i) <==> i + 4 <= |d| && d[i..i + 4] == [13, 10, 13, 10]
  {
    if i + 4 <= |d| {
      assert d[i..i + 4] == [d[i], d[i + 1], d[i + 2], d[i + 3]];
    }
  }

  method ContainsHeaderEnd(data: Bytes) returns (r: bool)
    ensures r <==> exists i :: EndAt(data, i)
    ensures r <==> HasEnd(data)
  {
    for i := 0 to |data|
      invariant forall k :: 0 <= k < i ==> !EndAt(data, k)
    {
      if EndAt(data, i) {
        return true;
      }
    }
    return false;
  }

  /** More bytes leave the header block as it is. */
  lemma HeaderStays(d: Bytes, n: nat)
    requires n <= |d| && HasEnd(d[..n])
    ensures HeaderEnd(d, 0) == HeaderEnd(d[..n], 0)
  {
    var i := HeaderEnd(d[..n], 0).value;
    assert EndAt(d, i);
    forall k | 0 <= k < i
      ensures !EndAt(d, k)
    {
      assert !EndAt(d[..n], k);
    }
  }

  // ---- Request methods ----------------------------------------------------------

  function Ascii(s: string): (r: Bytes)
    ensures |r| == |s|
  {
    seq(|s|, i requires 0 <= i < |s| => s[i] as int % 256)
  }

  const METHODS: seq<string> := ["GET ", "POST ", "PUT ", "DELETE ", "HEAD ", "OPTIONS ", "CONNECT ", "PATCH "]

  function FoldByte(b: byte): byte {
    if 65 <= b <= 90 then b + 32 else b
  }

  /** As far as they go, d and m are the same up to letter case. */
  predicate Agree(d: Bytes, m: Bytes) {
    forall i :: 0 <= i < |d| && i < |m| ==> FoldByte(d[i]) == FoldByte(m[i])
  }

  predicate MethodPrefix(d: Bytes) {
    exists k :: 0 <= k < |METHODS| && Agree(d, Ascii(METHODS[k]))
  }

  /** What is no request any more stays none. */
  lemma MethodPrefixShorter(d: Bytes, n: nat)
    requires n <= |d| && MethodPrefix(d)
    ensures MethodPrefix(d[..n])
  {
    var k :| 0 <= k < |METHODS| && Agree(d, Ascii(METHODS[k]));
    assert Agree(d[..n], Ascii(METHODS[k]));
  }

  /** The first eight bytes decide. */
  lemma EightBytesDecide(d: Bytes)
    requires |d| >= 8 && MethodPrefix(d[..8])
    ensures MethodPrefix(d)
  {
    var k :| 0 <= k < |METHODS| && Agree(d[..8], Ascii(METHODS[k]));
    assert |METHODS[k]| <= 8;
    forall i | 0 <= i < |d| && i < |Ascii(METHODS[k])|
      ensures FoldByte(d[i]) == FoldByte(Ascii(METHODS[k])[i])
    {
      assert d[..8][i] == d[i];
    }
  }

  predicate NeedsMore(d: Bytes, maxBytes: nat, ended: bool) {
    d == [] || (if d[0] == HANDSHAKE then |d| < maxBytes else MethodPrefix(d) && |d| < maxBytes && !ended)
  }

  method SniffNeedsMore(data: Bytes, maxBytes: nat) returns (r: bool)
    ensures r <==> NeedsMore(data, maxBytes, HasEnd(data))
  {
    if |data| == 0 {
      return true;
    }
    if data[0] == HANDSHAKE {
      return |data| < maxBytes;
    }
    for k := 0 to |METHODS|
      invariant forall j :: 0 <= j < k ==> !Agree(data, Ascii(METHODS[j]))
    {
      if Agree(data, Ascii(METHODS[k])) {
        var ended := ContainsHeaderEnd(data);
        return |data| < maxBytes && !ended;
      }
    }
    return false;
  }

  // ---- What is said of the bytes so far ---------------------------------------

  /** The parsers of a ClientHello body and of a header block. */
  datatype Parsers = Parsers(hello: Bytes -> string, host: Bytes -> string)
  datatype Verdict = Found(domain: string, protocol: string) | Stop | More

  function Tls(ps: Parsers, maxBytes: nat, d: Bytes): Verdict {
    var c := Complete(d);
    var s := SniffTls(ps.hello, d[..c]);
    if c > 0 && s.host != "" then Found(s.host, "tls")
    else if c > 0 && !s.needMore then Stop
    else if |d| < maxBytes then More else Stop
  }

  function Http(ps: Parsers, maxBytes: nat, d: Bytes): Verdict {
    if HasEnd(d) then
      var host := SniffHost(ps, d);
      if host != "" then Found(host, "http") else Stop
    else if MethodPrefix(d) && |d| < maxBytes then More else Stop
  }

  function SniffHost(ps: Parsers, d: Bytes): string {
    match HeaderEnd(d, 0)
    case Some(i) => ps.host(d[..i])
    case None => ""
  }

  /** The verdict on the bytes read so far, however they were read. */
  function Judged(ps: Parsers, maxBytes: nat, d: Bytes): Verdict {
    if d == [] then More else if d[0] == HANDSHAKE then Tls(ps, maxBytes, d) else Http(ps, maxBytes, d)
  }

  function Answer(v: Verdict): (string, string) {
    if v.Found? then (v.domain, v.protocol) else ("", "")
  }

  // ---- What the verdict is --------------------------------------------------------

  /** Bytes agree up to letter case exactly if they are equal or the two cases of one letter. */
  lemma FoldByteIff(b: byte, c: byte)
    ensures FoldByte(b) == FoldByte(c) <==> b == c || (65 <= b <= 90 && c == b + 32) || (65 <= c <= 90 && b == c + 32)
  {
  }

  /** A header block is judged by its host, and bytes without one by whether they may become a request within the limit. */
  lemma HttpVerdict(ps: Parsers, maxBytes: nat, d: Bytes, i: nat)
    requires d != [] && d[0] != 22
    ensures EndAt(d, i) && (forall k :: 0 <= k < i ==> !EndAt(d, k)) ==>
              Judged(ps, maxBytes, d) == if ps.host(d[..i]) != "" then Found(ps.host(d[..i]), "http") else Stop
    ensures (forall k :: 0 <= k < |d| ==> !EndAt(d, k)) ==>
              Judged(ps, maxBytes, d) == if MethodPrefix(d) && |d| < maxBytes then More else Stop
  {
    assert forall k: nat :: EndAt(d, k) ==> k < |d|;
    hide EndAt, MethodPrefix;
    var f := HeaderEnd(d, 0);
    hide HeaderEnd;
  }

  /** The eight methods: their bytes, or a beginning of them, may become a request. */
  lemma MethodPrefixIff(d: Bytes)
    ensures MethodPrefix(d) <==>
            || Agree(d, Ascii("GET ")) || Agree(d, Ascii("POST ")) || Agree(d, Ascii("PUT ")) || Agree(d, Ascii("DELETE "))
            || Agree(d, Ascii("HEAD ")) || Agree(d, Ascii("OPTIONS ")) || Agree(d, Ascii("CONNECT ")) || Agree(d, Ascii("PATCH "))
  {
    hide Agree, Ascii;
    assert METHODS[0] == "GET " && METHODS[1] == "POST " && METHODS[2] == "PUT " && METHODS[3] == "DELETE ";
    assert METHODS[4] == "HEAD " && METHODS[5] == "OPTIONS " && METHODS[6] == "CONNECT " && METHODS[7] == "PATCH ";
  }

  /** The records of a message are whole at the front of whatever follows, and settle what is said of it. */
  lemma HelloSettles(hello: Bytes -> string, body: Bytes, fs: seq<Bytes>, tail: Bytes)
    requires 34 <= |body| <= 1048576 && Fragments(fs) && fs != [] && Hello(body) <= Join(fs)
    ensures var d := Records(fs) + tail;
            d[0] == 22 && Complete(d) > 0 && SniffTls(hello, d[..Complete(d)]) == Sniffed(hello(body), false)
  {
    var r := Records(fs);
    var d := r + tail;
    FirstFramed(fs[0], Records(fs[1..]));
    assert r != [] && r[0] == 22;
    FramedIsRead(hello, body, fs);
    RecordsAreWhole(fs);
    hide Records, Hello, Join, Reassemble, Whole, Complete;
    Fronts(r, tail, |r|);
    CompleteIsLongest(d, |r|);
    Fronts(r, tail, Complete(d));
    ReassembleSettles(hello, d[..Complete(d)], [], |r|);
  }

  lemma Fronts(r: Bytes, tail: Bytes, c: nat)
    requires r != [] && |r| <= c <= |r + tail|
    ensures (r + tail)[..|r|] == r && (r + tail)[..c][..|r|] == r && (r + tail)[..c][0] == r[0] == (r + tail)[0]
  {
  }

  lemma PartAsksForMore(hello: Bytes -> string, body: Bytes, fs: seq<Bytes>)
    requires 34 <= |body| <= 1048576 && Fragments(fs) && fs != [] && Join(fs) < Hello(body)
    ensures var r := Records(fs);
            r != [] && r[0] == 22 && r[..Complete(r)] == r && SniffTls(hello, r) == Sniffed("", true)
  {
    var r := Records(fs);
    FirstFramed(fs[0], Records(fs[1..]));
    FramedIsRead(hello, body, fs);
    RecordsAreWhole(fs);
    hide Records, Hello, Join, Reassemble, Whole, Complete, SniffTls;
    assert r[..|r|] == r;
    CompleteIsLongest(r, |r|);
  }

  /** A whole ClientHello, however cut into records and whatever follows it, gives its host; a part of one asks for more. */
  lemma TlsVerdict(ps: Parsers, maxBytes: nat, body: Bytes, fs: seq<Bytes>, tail: Bytes)
    requires 34 <= |body| <= 1048576 && Fragments(fs) && fs != []
    ensures Hello(body) <= Join(fs) ==>
              Judged(ps, maxBytes, Records(fs) + tail) == if ps.hello(body) != "" then Found(ps.hello(body), "tls") else Stop
    ensures Join(fs) < Hello(body) && |Records(fs)| < maxBytes ==> Judged(ps, maxBytes, Records(fs)) == More
  {
    hide Records, Hello, Join, Complete, SniffTls;
    if Hello(body) <= Join(fs) {
      HelloSettles(ps.hello, body, fs, tail);
    }
    if Join(fs) < Hello(body) {
      PartAsksForMore(ps.hello, body, fs);
    }
  }

  // ---- Segments do not matter ------------------------------------------------

  /** A run of reads can end at n of the first whole bytes: the verdict is in, or there is nothing more to read. */
  predicate EndsAt(ps: Parsers, maxBytes: nat, d: Bytes, n: nat) {
    1 <= n <= |d| && (n == |d| || !Judged(ps, maxBytes, d[..n]).More?)
  }

  /** For TLS, whatever the segments, the answer is that for all the bytes at once. */
  lemma TlsSegmentsDoNotMatter(ps: Parsers, maxBytes: nat, d: Bytes, n: nat)
    requires EndsAt(ps, maxBytes, d, n) && d[0] == HANDSHAKE && |d| <= maxBytes
    ensures Answer(Judged(ps, maxBytes, d[..n])) == Answer(Judged(ps, maxBytes, d))
  {
    var e := d[..n];
    if n < |d| {
      ScanOn(d, n);
      var c, c' := Complete(e), Complete(d);
      assert c > 0;
      assert d[..c'][..c] == e[..c];
      HostIsFinal(ps.hello, e[..c], []);
      ReassembleSettles(ps.hello, d[..c'], [], c);
    } else {
      assert e == d;
    }
  }

  /** A header block with a host holds a request line. */
  ghost predicate NeedsLine(ps: Parsers) {
    forall h :: ps.host(h) != "" ==> |h| >= 5
  }

  lemma HttpEndsAlike(ps: Parsers, maxBytes: nat, d: Bytes, n: nat)
    requires EndsAt(ps, maxBytes, d, n) && d[0] != HANDSHAKE && |d| <= maxBytes
    requires MethodPrefix(d) || !Judged(ps, maxBytes, d).Found?
    ensures Answer(Judged(ps, maxBytes, d[..n])) == Answer(Judged(ps, maxBytes, d))
  {
    var e := d[..n];
    if n == |d| {
      assert e == d;
    } else if HasEnd(e) {
      HeaderStays(d, n);
      var i := HeaderEnd(e, 0).value;
      assert d[..i] == e[..i];
    } else if MethodPrefix(d) {
      MethodPrefixShorter(d, n);
    }
  }

  /**
   For anything else the answer is the same for all segments exactly if it is none for all the
   bytes at once, or the bytes start like one of the methods.
   */
  lemma HttpSegmentsDoNotMatterIff(ps: Parsers, maxBytes: nat, d: Bytes)
    requires NeedsLine(ps) && d != [] && d[0] != HANDSHAKE && |d| <= maxBytes
    ensures (forall n: nat :: EndsAt(ps, maxBytes, d, n) ==> Answer(Judged(ps, maxBytes, d[..n])) == Answer(Judged(ps, maxBytes, d)))
            <==> MethodPrefix(d) || !Judged(ps, maxBytes, d).Found?
  {
    if MethodPrefix(d) || !Judged(ps, maxBytes, d).Found? {
      forall n: nat | EndsAt(ps, maxBytes, d, n)
        ensures Answer(Judged(ps, maxBytes, d[..n])) == Answer(Judged(ps, maxBytes, d))
      {
        HttpEndsAlike(ps, maxBytes, d, n);
      }
    } else {
      EightBytesAreNone(ps, maxBytes, d);
    }
  }

  lemma EightBytesAreNone(ps: Parsers, maxBytes: nat, d: Bytes)
    requires NeedsLine(ps) && d != [] && d[0] != HANDSHAKE && |d| <= maxBytes
    requires !MethodPrefix(d) && Judged(ps, maxBytes, d).Found?
    ensures EndsAt(ps, maxBytes, d, 8) && Answer(Judged(ps, maxBytes, d[..8])) != Answer(Judged(ps, maxBytes, d))
  {
    var i := HeaderEnd(d, 0).value;
    assert |d[..i]| >= 5;
    if HasEnd(d[..8]) {
      HeaderStays(d, 8);
    }
    if MethodPrefix(d[..8]) {
      EightBytesDecide(d);
    }
  }

  // ---- The read loop ----------------------------------------------------------

  const READ_SIZE := 4096

  /** One read of the connection: how many bytes it would give and whether it reports an error. */
  datatype Read = Read(n: nat, failed: bool)

  function Least(a: nat, b: nat): nat {
    if a < b then a else b
  }

  /** Before a read: nothing has been decided, and for TLS the whole records have been counted. */
  ghost predicate Reading(ps: Parsers, maxBytes: nat, data: Bytes, parsed: nat) {
    && Judged(ps, maxBytes, data).More?
    && parsed == if data != [] && data[0] == HANDSHAKE then Complete(data) else 0
  }

  /** Counting only the new bytes, and parsing only when a record was completed, misses nothing. */
  lemma CountOn(ps: Parsers, maxBytes: nat, data: Bytes, parsed: nat, more: Bytes)
    requires Reading(ps, maxBytes, data, parsed) && more != [] && (data + more)[0] == HANDSHAKE
    ensures parsed <= |data| && Complete(data + more) == parsed + Complete((data + more)[parsed..])
    ensures Complete(data + more) == parsed ==> Tls(ps, maxBytes, data + more) == if |data + more| < maxBytes then More else Stop
  {
    var all := data + more;
    assert all[..|data|] == data;
    ScanOn(all, |data|);
    if data != [] {
      assert all[..parsed] == data[..parsed];
    }
  }

  /** One round of the loop after some bytes came in. */
  method Consider(ps: Parsers, maxBytes: nat, ghost before: Bytes, parsed0: nat, data: Bytes) returns (v: Verdict, parsed: nat)
    requires before < data && Reading(ps, maxBytes, before, parsed0)
    ensures v == Judged(ps, maxBytes, data)
    ensures v.More? ==> Reading(ps, maxBytes, data, parsed)
  {
    parsed := parsed0;
    ghost var more := data[|before|..];
    assert before + more == data;
    if data[0] == HANDSHAKE {
      CountOn(ps, maxBytes, before, parsed0, more);
      var counted := CompleteTLSRecordBytes(data[parsed..]);
      var complete := parsed + counted;
      if complete > parsed {
        parsed := complete;
        var s := SniffSNIWithStatus(ps.hello, data[..complete]);
        if s.host != "" {
          return Found(s.host, "tls"), parsed;
        } else if !s.needMore {
          return Stop, parsed;
        }
      }
    } else {
      var ended := ContainsHeaderEnd(data);
      if ended {
        var host := SniffHost(ps, data);
        return if host != "" then Found(host, "http") else Stop, parsed;
      }
    }
    var needsMore := SniffNeedsMore(data, maxBytes);
    v := if needsMore then More else Stop;
  }

  /** The bytes of one read: no more than asked for, than fit the limit, and than there are. */
  function Size(maxBytes: nat, stream: Bytes, n: nat, r: Read): (m: nat)
    requires n <= |stream| && n <= maxBytes
    ensures n + m <= |stream| && n + m <= maxBytes
  {
    Least(r.n, Least(Least(READ_SIZE, maxBytes - n), |stream| - n))
  }

  /** How many bytes a run has consumed when it ends, n of them before read k, and whether an error cut it short. */
  function Consumed(ps: Parsers, maxBytes: nat, stream: Bytes, arrivals: seq<Read>, k: nat, n: nat): (r: (nat, bool))
    requires k <= |arrivals| && n <= |stream| && n <= maxBytes
    ensures n <= r.0 <= |stream| && r.0 <= maxBytes
    decreases |arrivals| - k
  {
    if n == maxBytes then (n, false)
    else if k == |arrivals| then (n, true)
    else
      var m := n + Size(maxBytes, stream, n, arrivals[k]);
      if m > n && !Judged(ps, maxBytes, stream[..m]).More? then (m, false)
      else if arrivals[k].failed then (m, true)
      else Consumed(ps, maxBytes, stream, arrivals, k + 1, m)
  }

  /**
   SniffMetadata on a connection that delivers stream in the given reads; data is what it consumed.
   The answer is the verdict on those bytes, and it is cut short only by a read error.
   */
  method SniffMetadata(ps: Parsers, enabled: bool, maxBytes: nat, stream: Bytes, arrivals: seq<Read>)
    returns (domain: string, protocol: string, data: Bytes, cut: bool)
    ensures !enabled ==> data == [] && domain == "" && protocol == ""
    ensures enabled ==> (|data|, cut) == Consumed(ps, maxBytes, stream, arrivals, 0, 0)
    ensures data <= stream && |data| <= maxBytes
    ensures enabled ==> (domain, protocol) == Answer(Judged(ps, maxBytes, data)) == Answered(ps, maxBytes, stream, arrivals)
    ensures enabled && !cut ==> |data| == maxBytes || !Judged(ps, maxBytes, data).More?
  {
    domain, protocol, data, cut := "", "", [], false;
    if !enabled {
      return;
    }
    var v;
    v, data, cut := ReadLoop(ps, maxBytes, stream, arrivals);
    assert data == stream[..|data|];
    if v.Found? {
      domain, protocol := v.domain, v.protocol;
    }
  }

  /** After k reads the run is still undecided on data. */
  ghost predicate InLoop(ps: Parsers, maxBytes: nat, stream: Bytes, arrivals: seq<Read>, k: nat, data: Bytes, parsed: nat) {
    && k <= |arrivals| && data <= stream && |data| <= maxBytes && Reading(ps, maxBytes, data, parsed)
    && Consumed(ps, maxBytes, stream, arrivals, k, |data|) == Consumed(ps, maxBytes, stream, arrivals, 0, 0)
  }

  /** The run has ended with this verdict. */
  ghost predicate Ended(ps: Parsers, maxBytes: nat, stream: Bytes, arrivals: seq<Read>, v: Verdict, data: Bytes, cut: bool) {
    && (|data|, cut) == Consumed(ps, maxBytes, stream, arrivals, 0, 0)
    && data <= stream && |data| <= maxBytes && v == Judged(ps, maxBytes, data)
    && (!cut ==> |data| == maxBytes || !v.More?)
  }

  lemma OutOfReads(ps: Parsers, maxBytes: nat, stream: Bytes, arrivals: seq<Read>, k: nat, data: Bytes, parsed: nat)
    requires InLoop(ps, maxBytes, stream, arrivals, k, data, parsed) && (k == |arrivals| || |data| == maxBytes)
    ensures Ended(ps, maxBytes, stream, arrivals, More, data, |data| < maxBytes)
  {
    ReadStep(ps, maxBytes, stream, arrivals, k, data, parsed);
  }

  method ReadLoop(ps: Parsers, maxBytes: nat, stream: Bytes, arrivals: seq<Read>) returns (v: Verdict, data: Bytes, cut: bool)
    ensures Ended(ps, maxBytes, stream, arrivals, v, data, cut)
  {
    data, cut, v := [], false, More;
    var parsed := 0;
    NothingRead(ps, maxBytes);
    assert InLoop(ps, maxBytes, stream, arrivals, 0, data, parsed);
    assert forall k, d, p :: InLoop(ps, maxBytes, stream, arrivals, k, d, p) ==> |d| <= maxBytes;
    hide *;
    for k := 0 to |arrivals|
      invariant InLoop(ps, maxBytes, stream, arrivals, k, data, parsed) && !cut && v.More?
    {
      if |data| == maxBytes {
        OutOfReads(ps, maxBytes, stream, arrivals, k, data, parsed);
        return;
      }
      v, parsed, data, cut := ReadNext(ps, maxBytes, stream, arrivals, k, data, parsed);
      if cut || !v.More? {
        return;
      }
    }
    OutOfReads(ps, maxBytes, stream, arrivals, |arrivals|, data, parsed);
    cut := |data| < maxBytes;
  }

  /** A pass of the loop: a verdict ends it, and so does a failed read. */
  method ReadNext(ps: Parsers, maxBytes: nat, stream: Bytes, arrivals: seq<Read>, k: nat, data0: Bytes, parsed0: nat)
    returns (v: Verdict, parsed: nat, data: Bytes, cut: bool)
    requires InLoop(ps, maxBytes, stream, arrivals, k, data0, parsed0) && |data0| < maxBytes && k < |arrivals|
    ensures if cut || !v.More? then Ended(ps, maxBytes, stream, arrivals, v, data, cut)
            else InLoop(ps, maxBytes, stream, arrivals, k + 1, data, parsed)
  {
    hide Consumed, Reading, Judged, Size;
    ReadStep(ps, maxBytes, stream, arrivals, k, data0, parsed0);
    v, parsed, data := ReadOnce(ps, maxBytes, stream, arrivals[k], data0, parsed0);
    cut := v.More? && arrivals[k].failed;
  }

  /** One read and what is made of it; a read without bytes decides nothing. */
  method ReadOnce(ps: Parsers, maxBytes: nat, stream: Bytes, r: Read, data0: Bytes, parsed0: nat) returns (v: Verdict, parsed: nat, data: Bytes)
    requires data0 <= stream && |data0| <= maxBytes && Reading(ps, maxBytes, data0, parsed0)
    ensures data == stream[..|data0| + Size(maxBytes, stream, |data0|, r)] && v == Judged(ps, maxBytes, data)
    ensures v.More? ==> Reading(ps, maxBytes, data, parsed)
  {
    var n := Size(maxBytes, stream, |data0|, r);
    hide Size, Judged;
    data := data0 + stream[|data0|..|data0| + n];
    assert data == stream[..|data0| + n];
    if n > 0 {
      v, parsed := Consider(ps, maxBytes, data0, parsed0, data);
    } else {
      assert data == data0;
      v, parsed := More, parsed0;
    }
  }

  lemma ReadStep(ps: Parsers, maxBytes: nat, stream: Bytes, arrivals: seq<Read>, k: nat, data: Bytes, parsed: nat)
    requires k <= |arrivals| && data <= stream && |data| <= maxBytes && Reading(ps, maxBytes, data, parsed)
    ensures Judged(ps, maxBytes, data) == More
    ensures k == |arrivals| || |data| == maxBytes ==> Consumed(ps, maxBytes, stream, arrivals, k, |data|) == (|data|, |data| < maxBytes)
    ensures k < |arrivals| && |data| < maxBytes ==>
              var m := |data| + Size(maxBytes, stream, |data|, arrivals[k]);
              Consumed(ps, maxBytes, stream, arrivals, k, |data|) ==
              if !Judged(ps, maxBytes, stream[..m]).More? then (m, false)
              else if arrivals[k].failed then (m, true)
              else Consumed(ps, maxBytes, stream, arrivals, k + 1, m)
  {
    assert stream[..|data|] == data;
  }

  /** The run was not cut short of anything: it has decided, or has had all the bytes it may read. */
  predicate Ran(ps: Parsers, maxBytes: nat, stream: Bytes, arrivals: seq<Read>) {
    var (n, cut) := Consumed(ps, maxBytes, stream, arrivals, 0, 0);
    !cut || n == Least(|stream|, maxBytes)
  }

  /** What SniffMetadata answers for a stream in these reads. */
  function Answered(ps: Parsers, maxBytes: nat, stream: Bytes, arrivals: seq<Read>): (string, string) {
    Answer(Judged(ps, maxBytes, stream[..Consumed(ps, maxBytes, stream, arrivals, 0, 0).0]))
  }

  lemma {:induction false} EndsDecided(ps: Parsers, maxBytes: nat, stream: Bytes, arrivals: seq<Read>, k: nat, n: nat)
    requires k <= |arrivals| && n <= |stream| && n <= maxBytes
    ensures var (m, cut) := Consumed(ps, maxBytes, stream, arrivals, k, n);
            !cut ==> m == maxBytes || (m > n && !Judged(ps, maxBytes, stream[..m]).More?)
    decreases |arrivals| - k
  {
    hide Judged, Size;
    if n < maxBytes && k < |arrivals| {
      EndsDecided(ps, maxBytes, stream, arrivals, k + 1, n + Size(maxBytes, stream, n, arrivals[k]));
    }
  }

  /** A run that was not cut short ends where a verdict on all the readable bytes may be read off. */
  lemma RanEndsAt(ps: Parsers, maxBytes: nat, stream: Bytes, arrivals: seq<Read>)
    requires stream != [] && maxBytes > 0 && Ran(ps, maxBytes, stream, arrivals)
    ensures var d, n := stream[..Least(|stream|, maxBytes)], Consumed(ps, maxBytes, stream, arrivals, 0, 0).0;
            EndsAt(ps, maxBytes, d, n) && d[..n] == stream[..n]
  {
    hide Judged, Consumed;
    var d, n := stream[..Least(|stream|, maxBytes)], Consumed(ps, maxBytes, stream, arrivals, 0, 0).0;
    assert d[..n] == stream[..n];
    EndsDecided(ps, maxBytes, stream, arrivals, 0, 0);
  }

  /** TLS: however the stream is cut into reads, the answer is that for all the readable bytes at once. */
  lemma EveryTlsSegmentation(ps: Parsers, maxBytes: nat, stream: Bytes, arrivals: seq<Read>)
    requires stream != [] && stream[0] == HANDSHAKE && Ran(ps, maxBytes, stream, arrivals)
    ensures Answered(ps, maxBytes, stream, arrivals) == Answer(Judged(ps, maxBytes, stream[..Least(|stream|, maxBytes)]))
  {
    var d, n := stream[..Least(|stream|, maxBytes)], Consumed(ps, maxBytes, stream, arrivals, 0, 0).0;
    if maxBytes > 0 {
      RanEndsAt(ps, maxBytes, stream, arrivals);
      TlsSegmentsDoNotMatter(ps, maxBytes, d, n);
    } else {
      assert stream[..n] == d;
    }
  }

  /** Two runs over one TLS stream agree. */
  lemma TlsRunsAgree(ps: Parsers, maxBytes: nat, stream: Bytes, one: seq<Read>, two: seq<Read>)
    requires stream != [] && stream[0] == HANDSHAKE && Ran(ps, maxBytes, stream, one) && Ran(ps, maxBytes, stream, two)
    ensures Answered(ps, maxBytes, stream, one) == Answered(ps, maxBytes, stream, two)
  {
    EveryTlsSegmentation(ps, maxBytes, stream, one);
    EveryTlsSegmentation(ps, maxBytes, stream, two);
  }

  /** Whatever the reads, the answer is that for all the readable bytes at once. */
  ghost predicate SegmentFree(ps: Parsers, maxBytes: nat, stream: Bytes) {
    forall arrivals :: Ran(ps, maxBytes, stream, arrivals) ==>
      Answered(ps, maxBytes, stream, arrivals) == Answer(Judged(ps, maxBytes, stream[..Least(|stream|, maxBytes)]))
  }

  /**
   Anything else: the answer is the same for all reads exactly if all the readable bytes at once
   give none, or they start like one of the methods.
   */
  lemma EveryHttpSegmentationIff(ps: Parsers, maxBytes: nat, stream: Bytes)
    requires NeedsLine(ps) && (stream == [] || stream[0] != HANDSHAKE)
    ensures var d := stream[..Least(|stream|, maxBytes)];
            SegmentFree(ps, maxBytes, stream) <==> MethodPrefix(d) || !Judged(ps, maxBytes, d).Found?
  {
    var d := stream[..Least(|stream|, maxBytes)];
    if d == [] {
      NothingRead(ps, maxBytes);
      assert forall arrivals :: stream[..Consumed(ps, maxBytes, stream, arrivals, 0, 0).0] == d;
    } else if MethodPrefix(d) || !Judged(ps, maxBytes, d).Found? {
      HttpSegmentsDoNotMatterIff(ps, maxBytes, d);
      forall arrivals | Ran(ps, maxBytes, stream, arrivals)
        ensures Answered(ps, maxBytes, stream, arrivals) == Answer(Judged(ps, maxBytes, d))
      {
        RanEndsAt(ps, maxBytes, stream, arrivals);
        assert EndsAt(ps, maxBytes, d, Consumed(ps, maxBytes, stream, arrivals, 0, 0).0);
      }
    } else {
      EightBytesAreNone(ps, maxBytes, d);
      EightFirst(ps, maxBytes, stream);
    }
  }

  /** A first read of eight bytes that are no request ends the run there. */
  lemma EightFirst(ps: Parsers, maxBytes: nat, stream: Bytes)
    requires var d := stream[..Least(|stream|, maxBytes)];
             |d| >= 8 && !Judged(ps, maxBytes, d[..8]).More? && Answer(Judged(ps, maxBytes, d[..8])) != Answer(Judged(ps, maxBytes, d))
    ensures !SegmentFree(ps, maxBytes, stream)
  {
    hide Judged;
    var d, arrivals := stream[..Least(|stream|, maxBytes)], [Read(8, false)];
    assert d[..8] == stream[..8];
    assert Consumed(ps, maxBytes, stream, arrivals, 0, 0) == (8, false);
    assert Ran(ps, maxBytes, stream, arrivals);
  }

  lemma NothingRead(ps: Parsers, maxBytes: nat)
    ensures Reading(ps, maxBytes, [], 0)
  {
  }

  // ---- Replaying ---------------------------------------------------------------

  /** A connection whose first bytes were read ahead; rest is what the connection itself has still to deliver. */
  class PrependConn {
    var buf: Bytes
    var rest: Bytes

    constructor (buf: Bytes, rest: Bytes)
      ensures this.buf == buf && this.rest == rest
    {
      this.buf, this.rest := buf, rest;
    }

    /** Read: the stream goes on exactly where it stopped. */
    method Read(size: nat) returns (b: Bytes)
      modifies this
      ensures |b| <= size && b + (buf + rest) == old(buf + rest)
      ensures old(buf) != [] && size > 0 ==> b != []
    {
      var n: nat;
      if |buf| > 0 {
        n := Least(size, |buf|);
        b, buf := buf[..n], buf[n..];
      } else {
        n := *;
        n := Least(n, Least(size, |rest|));
        b, rest := rest[..n], rest[n..];
      }
    }

    /**
     WriteTo: whatever the writer takes of each write, what it has received and what is still
     to come are together the stream; without an error all of it has been written.
     */
    method WriteTo(sink0: Bytes) returns (sink: Bytes, ok: bool)
      modifies this
      ensures sink + (buf + rest) == sink0 + old(buf + rest)
      ensures ok ==> buf == [] && rest == []
    {
      sink := sink0;
      while |buf| > 0
        invariant sink + (buf + rest) == sink0 + old(buf + rest) && rest == old(rest)
        decreases |buf|
      {
        var n: nat, failed: bool := *, *;
        n := Least(n, |buf|);
        assert buf[..n] + buf[n..] == buf;
        sink, buf := sink + buf[..n], buf[n..];
        if failed || n == 0 {
          return sink, false;
        }
      }
      var n: nat := *;
      n := Least(n, |rest|);
      ok := n == |rest|;
      assert rest[..n] + rest[n..] == rest;
      sink, rest := sink + rest[..n], rest[n..];
    }
  }

  /** Sniffing loses nothing: the wrapped connection delivers the stream from its first byte. */
  method SniffAndReplay(ps: Parsers, maxBytes: nat, stream: Bytes, arrivals: seq<Read>) returns (conn: PrependConn, domain: string)
    ensures fresh(conn) && conn.buf + conn.rest == stream && |conn.buf| <= maxBytes
    ensures domain == Answer(Judged(ps, maxBytes, conn.buf)).0
  {
    var protocol, data, cut;
    domain, protocol, data, cut := SniffMetadata(ps, true, maxBytes, stream, arrivals);
    conn := new PrependConn(data, stream[|data|..]);
  }
}
