/**
 TLS records as the sniffers see them: how far a byte string consists of whole
 records, and the reassembly of a ClientHello from handshake records.
 */
module TlsRecords {
  type byte = x: int | 0 <= x < 256
  type Bytes = seq<byte>

  const HANDSHAKE: byte := 0x16
  const CLIENT_HELLO: byte := 1
  const MAX_RECORD := 18432
  const MAX_HANDSHAKE := 0x10_0000

  /** The payload length a record header announces. */
  function RecordLen(d: Bytes): nat
    requires |d| >= 5
  {
    (d[3] as int) * 256 + d[4] as int
  }

  // ---- Whole records -------------------------------------------------------

  predicate StartsWhole(d: Bytes) {
    |d| >= 5 && 5 + RecordLen(d) <= |d|
  }

  /** d is a sequence of whole records. */
  predicate Whole(d: Bytes)
    decreases |d|
  {
    d == [] || (StartsWhole(d) && Whole(d[5 + RecordLen(d)..]))
  }

  /** How many bytes of whole records d starts with. */
  function Complete(d: Bytes): (n: nat)
    ensures n <= |d|
    decreases |d|
  {
    if StartsWhole(d) then 5 + RecordLen(d) + Complete(d[5 + RecordLen(d)..]) else 0
  }

  /** Whole records are counted to the last one, and to no byte beyond. */
  lemma {:induction false} CompleteIsLongest(d: Bytes, m: nat)
    requires m <= |d|
    ensures Whole(d[..Complete(d)])
    ensures Whole(d[..m]) ==> m <= Complete(d)
    decreases |d|
  {
    if StartsWhole(d) {
      var k := 5 + RecordLen(d);
      var rest := d[k..];
      CompleteIsLongest(rest, if m >= k then m - k else 0);
      var whole := d[..Complete(d)];
      assert whole[..5] == d[..5] && whole[k..] == rest[..Complete(rest)];
      if m >= k {
        assert d[..m][..5] == d[..5] && d[..m][k..] == rest[..m - k];
      }
    }
  }

  /** Whole records at the front are whole in a longer string too. */
  lemma FirstRecord(d: Bytes, p: nat)
    requires p <= |d| && StartsWhole(d[..p])
    ensures StartsWhole(d) && RecordLen(d) == RecordLen(d[..p])
  {
    assert d[..p][3] == d[3] && d[..p][4] == d[4];
  }

  lemma {:induction false} WholeFront(d: Bytes, c: nat)
    requires c <= |d| && Whole(d[..c])
    ensures Complete(d) == c + Complete(d[c..])
    decreases |d|
  {
    if c == 0 {
      assert d[0..] == d;
    } else {
      FirstRecord(d, c);
      var k := 5 + RecordLen(d);
      assert d[k..][..c - k] == d[..c][k..];
      WholeFront(d[k..], c - k);
      assert d[k..][c - k..] == d[c..];
    }
  }

  /** Scanning on from the records already counted gives the count of the whole. */
  lemma ScanOn(d: Bytes, p: nat)
    requires p <= |d|
    ensures Complete(d[..p]) <= p && Complete(d) == Complete(d[..p]) + Complete(d[Complete(d[..p])..])
  {
    hide Whole, Complete;
    CompleteIsLongest(d[..p], 0);
    var c := Complete(d[..p]);
    assert d[..p][..c] == d[..c];
    WholeFront(d, c);
  }

  method CompleteTLSRecordBytes(data: Bytes) returns (complete: nat)
    ensures complete == Complete(data)
  {
    complete := 0;
    while |data| - complete >= 5
      invariant complete <= |data| && complete + Complete(data[complete..]) == Complete(data)
      decreases |data| - complete
    {
      var end := complete + 5 + ((data[complete + 3] as int) * 256 + data[complete + 4] as int);
      if end > |data| {
        break;
      }
      assert data[complete..][end - complete..] == data[end..];
      complete := end;
    }
  }

  // ---- The ClientHello ---------------------------------------------------------

  /** What a parser says of the bytes it has: a host name or none, and whether more bytes could change that. */
  datatype Sniffed = Sniffed(host: string, needMore: bool)

  function HandshakeLen(h: Bytes): nat
    requires |h| >= 4
  {
    (h[1] as int) * 65536 + (h[2] as int) * 256 + h[3] as int
  }

  /** What the handshake bytes collected so far decide, if anything. */
  function Judge(hello: Bytes -> string, h: Bytes): Sniffed {
    if |h| >= 1 && h[0] != CLIENT_HELLO then Sniffed("", false)
    else if |h| < 4 then Sniffed("", true)
    else if HandshakeLen(h) < 34 || HandshakeLen(h) > MAX_HANDSHAKE then Sniffed("", false)
    else if |h| >= 4 + HandshakeLen(h) then Sniffed(hello(h[4..4 + HandshakeLen(h)]), false)
    else Sniffed("", true)
  }

  /** Reassembly: record by record until the handshake decides, the records run out, or something is no handshake record. */
  function Reassemble(hello: Bytes -> string, d: Bytes, h: Bytes): Sniffed
    decreases |d|
  {
    if |d| < 5 then Sniffed("", true)
    else if d[0] != HANDSHAKE || RecordLen(d) == 0 || RecordLen(d) > MAX_RECORD then Sniffed("", false)
    else if !StartsWhole(d) then Sniffed("", true)
    else
      var k := 5 + RecordLen(d);
      var h' := h + d[5..k];
      if !Judge(hello, h').needMore then Judge(hello, h') else Reassemble(hello, d[k..], h')
  }

  /** Once reassembly needs no more bytes, more bytes do not change what it says. */
  lemma {:induction false} ReassembleSettles(hello: Bytes -> string, d: Bytes, h: Bytes, p: nat)
    requires p <= |d| && !Reassemble(hello, d[..p], h).needMore
    ensures Reassemble(hello, d, h) == Reassemble(hello, d[..p], h)
    decreases |d|
  {
    hide Judge;
    var e := d[..p];
    assert e[..5] == d[..5];
    if StartsWhole(e) {
      var k := 5 + RecordLen(e);
      assert e[5..k] == d[5..k];
      assert d[k..][..p - k] == e[k..];
      if e[0] == HANDSHAKE && 0 < RecordLen(e) <= MAX_RECORD && Judge(hello, h + e[5..k]).needMore {
        ReassembleSettles(hello, d[k..], h + e[5..k], p - k);
      }
    }
  }

  /** What the TLS sniffer says of a byte string. */
  function SniffTls(hello: Bytes -> string, d: Bytes): Sniffed {
    if d == [] then Sniffed("", true) else if d[0] != HANDSHAKE then Sniffed("", false) else Reassemble(hello, d, [])
  }

  /** A host name is only given when nothing more is needed. */
  lemma {:induction false} HostIsFinal(hello: Bytes -> string, d: Bytes, h: Bytes)
    ensures Reassemble(hello, d, h).needMore ==> Reassemble(hello, d, h).host == ""
    decreases |d|
  {
    if StartsWhole(d) {
      var k := 5 + RecordLen(d);
      HostIsFinal(hello, d[k..], h + d[5..k]);
    }
  }

  /** The shortcut for a ClientHello that fits the first record. */
  predicate FitsFirstRecord(d: Bytes) {
    && StartsWhole(d) && 0 < RecordLen(d) <= MAX_RECORD
    && var payload := d[5..5 + RecordLen(d)];
       |payload| >= 4 && payload[0] == CLIENT_HELLO && HandshakeLen(payload) >= 34 && 4 + HandshakeLen(payload) <= |payload|
  }

  lemma ShortcutAgrees(hello: Bytes -> string, d: Bytes)
    requires d != [] && d[0] == HANDSHAKE && FitsFirstRecord(d)
    ensures var payload := d[5..5 + RecordLen(d)];
            SniffTls(hello, d) == Sniffed(hello(payload[4..4 + HandshakeLen(payload)]), false)
  {
    var payload := d[5..5 + RecordLen(d)];
    assert [] + payload == payload;
  }

  /** SniffSNIWithStatus; hello stands for the ClientHello parser. */
  method SniffSNIWithStatus(hello: Bytes -> string, data: Bytes) returns (r: Sniffed)
    ensures r == SniffTls(hello, data)
  {
    if |data| == 0 {
      return Sniffed("", true);
    }
    if data[0] != HANDSHAKE {
      return Sniffed("", false);
    }
    if |data| >= 5 {
      var recordLen := RecordLen(data);
      if recordLen > 0 && recordLen <= MAX_RECORD && |data| >= 5 + recordLen {
        var payload := data[5..5 + recordLen];
        if |payload| >= 4 {
          var handshakeLen := HandshakeLen(payload);
          if payload[0] == CLIENT_HELLO && handshakeLen >= 34 && 4 + handshakeLen <= |payload| {
            ShortcutAgrees(hello, data);
            return Sniffed(hello(payload[4..4 + handshakeLen]), false);
          }
        }
      }
    }
    r := ReassembleAll(hello, data);
  }

  /** The reassembly from an offset on. */
  function ReadFrom(hello: Bytes -> string, data: Bytes, offset: nat, h: Bytes): Sniffed
    requires offset <= |data|
  {
    Reassemble(hello, data[offset..], h)
  }

  lemma NoRecord(hello: Bytes -> string, data: Bytes, offset: nat, h: Bytes)
    requires offset <= |data|
    ensures |data| - offset < 5 ==> ReadFrom(hello, data, offset, h) == Sniffed("", true)
  {
  }

  /** The next record of the reassembly; its length is in its fourth and fifth byte. */
  lemma NextRecord(hello: Bytes -> string, data: Bytes, offset: nat, h: Bytes, recordLen: nat)
    requires offset + 5 <= |data| && recordLen == (data[offset + 3] as int) * 256 + data[offset + 4] as int
    ensures data[offset] != HANDSHAKE || recordLen == 0 || recordLen > MAX_RECORD ==> ReadFrom(hello, data, offset, h) == Sniffed("", false)
    ensures data[offset] == HANDSHAKE && 0 < recordLen <= MAX_RECORD ==>
              var end := offset + 5 + recordLen;
              && (end > |data| ==> ReadFrom(hello, data, offset, h) == Sniffed("", true))
              && (end <= |data| ==>
                    var h' := h + data[offset + 5..end];
                    ReadFrom(hello, data, offset, h) == if !Judge(hello, h').needMore then Judge(hello, h') else ReadFrom(hello, data, end, h'))
  {
    hide Judge;
    var d := data[offset..];
    assert RecordLen(d) == recordLen && d[0] == data[offset];
    if offset + 5 + recordLen <= |data| {
      var end := offset + 5 + recordLen;
      assert d[5..5 + recordLen] == data[offset + 5..end] && d[5 + recordLen..] == data[end..];
    }
  }

  method ReassembleAll(hello: Bytes -> string, data: Bytes) returns (r: Sniffed)
    ensures r == Reassemble(hello, data, [])
  {
    var handshake: Bytes := [];
    var offset := 0;
    assert data[0..] == data;
    assert ReadFrom(hello, data, 0, []) == Reassemble(hello, data, []);
    hide *;
    while true
      invariant offset <= |data| && ReadFrom(hello, data, offset, handshake) == Reassemble(hello, data, [])
      decreases |data| - offset
    {
      NoRecord(hello, data, offset, handshake);
      if |data| - offset < 5 {
        return Sniffed("", true);
      }
      var recordLen := (data[offset + 3] as int) * 256 + data[offset + 4] as int;
      NextRecord(hello, data, offset, handshake, recordLen);
      if data[offset] != HANDSHAKE {
        return Sniffed("", false);
      }
      if recordLen == 0 || recordLen > MAX_RECORD {
        return Sniffed("", false);
      }
      if |data| - offset - 5 < recordLen {
        return Sniffed("", true);
      }
      handshake := handshake + data[offset + 5..offset + 5 + recordLen];
      offset := offset + 5 + recordLen;
      var decided := JudgeHandshake(hello, handshake);
      if !decided.needMore {
        return decided;
      }
      NoRecord(hello, data, offset, handshake);
      if offset == |data| {
        return Sniffed("", true);
      }
    }
  }

  method JudgeHandshake(hello: Bytes -> string, handshake: Bytes) returns (r: Sniffed)
    ensures r == Judge(hello, handshake)
    ensures r.needMore ==> r.host == ""
  {
    if |handshake| >= 1 && handshake[0] != CLIENT_HELLO {
      return Sniffed("", false);
    }
    if |handshake| >= 4 {
      var handshakeLen := HandshakeLen(handshake);
      if handshakeLen < 34 || handshakeLen > MAX_HANDSHAKE {
        return Sniffed("", false);
      }
      if |handshake| >= 4 + handshakeLen {
        return Sniffed(hello(handshake[4..4 + handshakeLen]), false);
      }
    }
    return Sniffed("", true);
  }

  // ---- Framing, read back --------------------------------------------------------

  /** One handshake record. */
  function Framed(payload: Bytes): Bytes
    requires |payload| < 65536
  {
    [22, 3, 1, (|payload| / 256) as byte, (|payload| % 256) as byte] + payload
  }

  ghost predicate Fragments(fs: seq<Bytes>) {
    forall i :: 0 <= i < |fs| ==> 1 <= |fs[i]| <= 18432
  }

  function Records(fs: seq<Bytes>): Bytes
    requires Fragments(fs)
  {
    if fs == [] then [] else Framed(fs[0]) + Records(fs[1..])
  }

  function Join(fs: seq<Bytes>): Bytes {
    if fs == [] then [] else fs[0] + Join(fs[1..])
  }

  /** A ClientHello message with its length. */
  function Hello(body: Bytes): Bytes
    requires |body| < 16777216
  {
    [1, (|body| / 65536) as byte, (|body| / 256 % 256) as byte, (|body| % 256) as byte] + body
  }

  lemma ThreeBytes(n: nat)
    ensures n / 65536 * 65536 + n / 256 % 256 * 256 + n % 256 == n
  {
    assert n / 256 / 256 == n / 65536;
  }

  /** The first four bytes announce the length. */
  lemma HelloHeader(body: Bytes, h: Bytes)
    requires |body| < 16777216 && (Hello(body) <= h || h < Hello(body))
    ensures |h| >= 1 ==> h[0] == 1
    ensures |h| >= 4 ==> HandshakeLen(h) == |body|
  {
    ThreeBytes(|body|);
    assert forall i :: 0 <= i < 4 && i < |h| ==> h[i] == Hello(body)[i];
  }

  lemma HelloBody(body: Bytes, h: Bytes)
    requires |body| < 16777216 && Hello(body) <= h
    ensures |h| >= 4 + |body| && h[4..4 + |body|] == body
  {
    assert h[..4 + |body|] == Hello(body);
    assert h[4..4 + |body|] == h[..4 + |body|][4..];
  }

  lemma JudgeHello(hello: Bytes -> string, body: Bytes, h: Bytes)
    requires 34 <= |body| <= 1048576
    ensures Hello(body) <= h ==> Judge(hello, h) == Sniffed(hello(body), false)
    ensures h < Hello(body) ==> Judge(hello, h) == Sniffed("", true)
  {
    assert |Hello(body)| == 4 + |body|;
    hide Hello, HandshakeLen;
    if Hello(body) <= h {
      HelloHeader(body, h);
      HelloBody(body, h);
    } else if h < Hello(body) {
      HelloHeader(body, h);
    }
  }

  lemma FirstFramed(f: Bytes, rest: Bytes)
    requires 1 <= |f| <= 18432
    ensures var d := Framed(f) + rest;
            d[0] == HANDSHAKE && RecordLen(d) == |f| <= MAX_RECORD && StartsWhole(d) && d[5..5 + |f|] == f && d[5 + |f|..] == rest
  {
  }

  lemma ReadsFramed(hello: Bytes -> string, f: Bytes, rest: Bytes, h: Bytes)
    requires 1 <= |f| <= 18432
    ensures Reassemble(hello, Framed(f) + rest, h) ==
            if !Judge(hello, h + f).needMore then Judge(hello, h + f) else Reassemble(hello, rest, h + f)
  {
    FirstFramed(f, rest);
    hide Judge, Framed, RecordLen, StartsWhole;
  }

  /** All of the message is there, or a part of it. */
  ghost predicate Begins(m: Bytes, all: Bytes) {
    m <= all || all < m
  }

  function Read(hello: Bytes -> string, body: Bytes, all: Bytes): Sniffed
    requires |body| < 16777216
  {
    if Hello(body) <= all then Sniffed(hello(body), false) else Sniffed("", true)
  }

  lemma {:induction false} ReadsOn(hello: Bytes -> string, body: Bytes, h: Bytes, fs: seq<Bytes>)
    requires 34 <= |body| <= 1048576 && Fragments(fs) && h < Hello(body) && Begins(Hello(body), h + Join(fs))
    ensures Reassemble(hello, Records(fs), h) == Read(hello, body, h + Join(fs))
    decreases |fs|
  {
    if fs == [] {
      assert h + Join(fs) == h;
      hide Hello;
    } else {
      hide Judge, Hello, Reassemble, Framed;
      var f, rest := fs[0], fs[1..];
      ReadsFramed(hello, f, Records(rest), h);
      assert h + Join(fs) == h + f + Join(rest);
      PrefixOrLonger(Hello(body), h + f, h + f + Join(rest));
      JudgeHello(hello, body, h + f);
      if h + f < Hello(body) {
        ReadsOn(hello, body, h + f, rest);
      } else {
        assert Hello(body) <= h + f + Join(rest);
      }
    }
  }

  lemma PrefixOrLonger(m: Bytes, h: Bytes, all: Bytes)
    requires h <= all && Begins(m, all)
    ensures m <= h || h < m
  {
    if m <= all && |h| < |m| {
      assert m == all[..|m|] && h == all[..|h|];
      assert h == m[..|h|];
    } else if m <= all {
      assert m == all[..|m|] && h == all[..|h|];
      assert m == h[..|m|];
    }
  }

  /** However a ClientHello is cut into records, it is read back whole; a part of it asks for more. */
  lemma FramedIsRead(hello: Bytes -> string, body: Bytes, fs: seq<Bytes>)
    requires 34 <= |body| <= 1048576 && Fragments(fs)
    ensures Hello(body) <= Join(fs) ==> SniffTls(hello, Records(fs)) == Sniffed(hello(body), false)
    ensures Join(fs) < Hello(body) ==> SniffTls(hello, Records(fs)) == Sniffed("", true)
  {
    assert [] + Join(fs) == Join(fs) && [] < Hello(body);
    if Begins(Hello(body), Join(fs)) {
      ReadsOn(hello, body, [], fs);
    }
    if fs != [] {
      FirstFramed(fs[0], Records(fs[1..]));
    }
  }

  /** What is refused: another content type, an empty or overlong record, another message, a length no ClientHello has. */
  lemma Refused(hello: Bytes -> string, payload: Bytes, rest: Bytes, body: Bytes, more: Bytes)
    requires |payload| < 65536 && |body| < 16777216
    ensures payload == [] || |payload| > 18432 ==> SniffTls(hello, Framed(payload) + rest) == Sniffed("", false)
    ensures rest != [] && rest[0] != 22 ==> SniffTls(hello, rest) == Sniffed("", false)
    ensures more != [] && more[0] != 1 ==> Judge(hello, more) == Sniffed("", false)
    ensures |body| < 34 || |body| > 1048576 ==> Judge(hello, Hello(body) + more) == Sniffed("", false)
  {
    var d, h := Framed(payload) + rest, Hello(body) + more;
    assert RecordLen(d) == |payload| && d[0] == 22;
    assert HandshakeLen(h) == |body| && h[0] == 1;
  }

  lemma {:induction false} RecordsAreWhole(fs: seq<Bytes>)
    requires Fragments(fs)
    ensures Whole(Records(fs))
  {
    if fs != [] {
      RecordsAreWhole(fs[1..]);
      FirstFramed(fs[0], Records(fs[1..]));
      hide Framed;
    }
  }
}
