/** Length-prefixed framing over a byte stream that may accept and return fewer bytes than asked. */
module IpcTransportModule {

  type Byte = x: int | 0 <= x < 256
  type Bytes = seq<Byte>

  const MAX_FRAME: nat := 16 * 1024 * 1024
  const UINT32_LIMIT: nat := 0x1_0000_0000

  // ---- the format ----

  /** The four length bytes, least significant first. */
  function Header(len: nat): (h: Bytes)
    requires len < UINT32_LIMIT
    ensures |h| == 4 && LengthOf(h) == len
    ensures h[0] as int + 256 * (h[1] as int + 256 * (h[2] as int + 256 * h[3] as int)) == len
  {
    LengthParts(len);
    [len % 256, len / 256 % 256, len / 65536 % 256, len / 16777216]
  }

  lemma LengthParts(len: nat)
    requires len < UINT32_LIMIT
    ensures len / 16777216 < 256
    ensures len % 256 + len / 256 % 256 * 256 + len / 65536 % 256 * 65536 + len / 16777216 * 16777216 == len
  {
    var a, b, c := len / 256, len / 65536, len / 16777216;
    assert len == a * 256 + len % 256 && b == a / 256 && a == b * 256 + a % 256;
    assert c == b / 256 && b == c * 256 + b % 256;
  }

  function LengthOf(h: Bytes): (len: nat)
    requires |h| == 4
    ensures len < UINT32_LIMIT
  {
    h[0] as int + h[1] as int * 256 + h[2] as int * 65536 + h[3] as int * 16777216
  }

  function Frame(payload: Bytes): Bytes
    requires |payload| < UINT32_LIMIT
  {
    Header(|payload|) + payload
  }

  predicate Sendable(payloads: seq<Bytes>) {
    forall p :: 0 <= p < |payloads| ==> |payloads[p]| < UINT32_LIMIT
  }

  /** What sequential sends put on the wire. */
  function Wire(payloads: seq<Bytes>): Bytes
    requires Sendable(payloads)
  {
    if payloads == [] then [] else Frame(payloads[0]) + Wire(payloads[1..])
  }

  predicate LengthAccepted(len: nat) {
    0 < len <= MAX_FRAME
  }

  /** What the receiver makes of a stream that ends after `wire`. */
  function Parse(wire: Bytes): (payloads: seq<Bytes>)
    decreases |wire|
  {
    if |wire| < 4 then []
    else
      var len := LengthOf(wire[..4]);
      if !LengthAccepted(len) || |wire| < 4 + len then []
      else [wire[4..4 + len]] + Parse(wire[4 + len..])
  }

  lemma ParseFrame(payload: Bytes, rest: Bytes)
    requires |payload| < UINT32_LIMIT
    ensures Parse(Frame(payload) + rest) == if LengthAccepted(|payload|) then [payload] + Parse(rest) else []
  {
    hide LengthOf;
    var wire := Frame(payload) + rest;
    assert wire[..4] == Header(|payload|);
    if LengthAccepted(|payload|) {
      assert wire[4..4 + |payload|] == payload && wire[4 + |payload|..] == rest;
    }
  }

  /** The payloads up to the first one whose length the receiver refuses. */
  function Accepted(payloads: seq<Bytes>): (r: seq<Bytes>)
    ensures r <= payloads
  {
    if payloads == [] || !LengthAccepted(|payloads[0]|) then []
    else [payloads[0]] + Accepted(payloads[1..])
  }

  lemma {:induction false} ParseWire(payloads: seq<Bytes>)
    requires Sendable(payloads)
    ensures Parse(Wire(payloads)) == Accepted(payloads)
  {
    if payloads == [] {
      assert Parse([]) == [];
    } else {
      hide LengthOf, Header, LengthAccepted, Parse;
      ParseWire(payloads[1..]);
      ParseFrame(payloads[0], Wire(payloads[1..]));
    }
  }

  /** The round trip holds for exactly the payload sequences whose lengths are all accepted. */
  lemma {:induction false} RoundTripIff(payloads: seq<Bytes>)
    requires Sendable(payloads)
    ensures Parse(Wire(payloads)) == payloads <==>
      forall p :: 0 <= p < |payloads| ==> 1 <= |payloads[p]| <= 16 * 1024 * 1024
  {
    ParseWire(payloads);
    AcceptedAllIff(payloads);
  }

  lemma {:induction false} AcceptedAllIff(payloads: seq<Bytes>)
    ensures Accepted(payloads) == payloads <==>
      forall p :: 0 <= p < |payloads| ==> LengthAccepted(|payloads[p]|)
  {
    if payloads != [] && LengthAccepted(|payloads[0]|) {
      var rest := payloads[1..];
      AcceptedAllIff(rest);
      assert payloads == [payloads[0]] + rest;
      if forall p :: 0 <= p < |rest| ==> LengthAccepted(|rest[p]|) {
        assert forall p :: 0 < p < |payloads| ==> payloads[p] == rest[p - 1];
      } else {
        var p :| 0 <= p < |rest| && !LengthAccepted(|rest[p]|);
        assert payloads[p + 1] == rest[p];
        assert Accepted(payloads)[1..] == Accepted(rest);
      }
    }
  }

  /** A stream cut anywhere still delivers a prefix. */
  lemma {:induction false} CutDeliversPrefix(wire: Bytes, cut: nat)
    requires cut <= |wire|
    ensures Parse(wire[..cut]) <= Parse(wire)
    decreases |wire|
  {
    hide LengthOf, LengthAccepted;
    var part := wire[..cut];
    if 4 <= cut {
      assert part[..4] == wire[..4];
      var end := 4 + LengthOf(wire[..4]);
      if LengthAccepted(end - 4) && end <= cut {
        CutDeliversPrefix(wire[end..], cut - end);
        assert wire[end..][..cut - end] == part[end..];
        assert part[4..end] == wire[4..end];
      }
    }
  }

  /** A cut between two frames loses nothing that was sent whole. */
  lemma CutAfterWholeFrames(payloads: seq<Bytes>, n: nat, cut: nat)
    requires Sendable(payloads) && n <= |payloads|
    requires |Wire(payloads[..n])| <= cut <= |Wire(payloads)|
    requires forall p :: 0 <= p < |payloads| ==> LengthAccepted(|payloads[p]|)
    ensures payloads[..n] <= Parse(Wire(payloads)[..cut]) <= payloads
  {
    hide LengthOf, Wire, Parse;
    var wire := Wire(payloads);
    RoundTripIff(payloads);
    CutDeliversPrefix(wire, cut);
    RoundTripIff(payloads[..n]);
    WireConcat(payloads[..n], payloads[n..]);
    assert payloads[..n] + payloads[n..] == payloads;
    var whole := |Wire(payloads[..n])|;
    assert wire[..cut][..whole] == Wire(payloads[..n]);
    CutDeliversPrefix(wire[..cut], whole);
  }

  lemma {:induction false} WireConcat(a: seq<Bytes>, b: seq<Bytes>)
    requires Sendable(a) && Sendable(b) && Sendable(a + b)
    ensures Wire(a + b) == Wire(a) + Wire(b)
  {
    hide Frame;
    if a == [] {
      assert a + b == b;
    } else {
      assert (a + b)[1..] == a[1..] + b;
      WireConcat(a[1..], b);
    }
  }

  /** A cut frame left on the wire by a send that failed half way, with later frames behind it:
      the later payloads all arrive, whatever they are, exactly when nothing of the frame was
      written. The transport stays connected after such a failure. */
  lemma FailedSendHarmlessIff(payload: Bytes, k: nat)
    requires |payload| < UINT32_LIMIT && k < |Frame(payload)|
    ensures (forall later: seq<Bytes> :: AllAccepted(later) ==> Parse(Frame(payload)[..k] + Wire(later)) == later)
            <==> k == 0
  {
    hide LengthOf, Header, Parse, Wire;
    if k == 0 {
      forall later: seq<Bytes> | AllAccepted(later)
        ensures Parse(Frame(payload)[..k] + Wire(later)) == later
      {
        RoundTripIff(later);
        assert Frame(payload)[..k] + Wire(later) == Wire(later);
      }
    } else {
      var q := Spoiled(payload, k);
      assert AllAccepted([q]);
      CutFrameMisleads(payload, k, q);
    }
  }

  predicate AllAccepted(payloads: seq<Bytes>) {
    forall p :: 0 <= p < |payloads| ==> LengthAccepted(|payloads[p]|)
  }

  /** A payload that does not survive behind the first k bytes of a cut frame. */
  function Spoiled(payload: Bytes, k: nat): (q: Bytes)
    ensures LengthAccepted(|q|)
  {
    if k < 4 || !LengthAccepted(|payload|) || |payload| == 2 then [0]
    else if |payload| == 1 then [0, 0]
    else payload[1..]
  }

  lemma CutFrameMisleads(payload: Bytes, k: nat, q: Bytes)
    requires |payload| < UINT32_LIMIT && 0 < k < |Frame(payload)| && q == Spoiled(payload, k)
    ensures Parse(Frame(payload)[..k] + Wire([q])) != [q]
  {
    var cut := Frame(payload)[..k];
    var wire := cut + Wire([q]);
    assert [q][1..] == [];
    assert Wire([q]) == Frame(q) + Wire([]) == Frame(q) + [] == Frame(q);
    if k < 4 {
      assert q == [0] && Frame(q) == [1, 0, 0, 0, 0];
      assert wire[k] == 1;
      assert LengthOf(wire[..4]) >= 256 && |wire| <= 8;
    } else {
      hide LengthOf;
      assert wire[..4] == Header(|payload|);
      if LengthAccepted(|payload|) {
        var first := wire[4..4 + |payload|];
        assert |first| != |q|;
        assert Parse(wire)[0] == first;
      }
    }
  }

  // ---- the transport ----

  /** One end of a connected stream socket. The kernel decides how much each call moves: `sizes`
      lists its answers, a non-positive one (or none left) being an error or end of stream. */
  class Socket {
    var sizes: seq<int>
    /** Bytes written so far, or still to be read. */
    var bytes: Bytes

    constructor (sizes: seq<int>, bytes: Bytes)
      ensures this.sizes == sizes && this.bytes == bytes
    {
      this.sizes, this.bytes := sizes, bytes;
    }

    /** The next answer to a call that offers or asks for `limit` bytes. */
    function Answer(limit: nat): (got: int)
      reads this
      ensures got <= limit
    {
      if sizes == [] then 0 else if sizes[0] <= limit then sizes[0] else limit
    }

    /** write(2): some prefix of the data is taken. */
    method Write(data: Bytes) returns (sent: int)
      requires 0 < |data|
      modifies this
      ensures sent == old(Answer(|data|)) && sizes == Rest(old(sizes))
      ensures bytes == if sent <= 0 then old(bytes) else old(bytes) + data[..sent]
    {
      sent := Answer(|data|);
      sizes := Rest(sizes);
      if sent > 0 {
        bytes := bytes + data[..sent];
      }
    }

    /** read(2): some prefix of what is left is returned; nothing at the end of the stream. */
    method Read(n: nat) returns (got: Bytes)
      requires 0 < n
      modifies this
      ensures |got| <= n && old(bytes) == got + bytes && sizes == Rest(old(sizes))
      ensures got == [] <==> old(bytes) == [] || old(Answer(n)) <= 0
    {
      var k := Answer(n);
      sizes := Rest(sizes);
      if k <= 0 {
        return [];
      }
      var m := if k <= |bytes| then k else |bytes|;
      got := bytes[..m];
      bytes := bytes[m..];
    }

    /** The kernel keeps answering, with positive sizes, for at least n calls. */
    ghost predicate Cooperates(n: int)
      reads this
    {
      n <= |sizes| && forall k :: 0 <= k < |sizes| ==> sizes[k] > 0
    }
  }

  function Rest(sizes: seq<int>): seq<int> {
    if sizes == [] then [] else sizes[1..]
  }

  class IpcTransport {
    var connected: bool
    const conn: Socket
    /** The payloads handed to the receive callback, in order. */
    var delivered: seq<Bytes>

    constructor (conn: Socket)
      ensures connected && this.conn == conn && delivered == []
    {
      connected, this.conn, delivered := true, conn, [];
    }

    /** write_to_fd: all of the data, or a proper prefix of it and false. */
    method WriteToFd(data: Bytes) returns (ok: bool, ghost sent: nat)
      modifies conn
      ensures sent <= |data| && conn.bytes == old(conn.bytes) + data[..sent] && (ok <==> sent == |data|)
      ensures forall n {:trigger conn.Cooperates(n)} :: old(conn.Cooperates(n + |data|)) ==> conn.Cooperates(n)
      ensures old(conn.Cooperates(|data|)) ==> ok
    {
      var ptr := 0;
      while |data| - ptr > 0
        invariant 0 <= ptr <= |data|
        invariant conn.bytes == old(conn.bytes) + data[..ptr]
        invariant |old(conn.sizes)| <= |conn.sizes| + ptr
        invariant old(conn.Cooperates(0)) ==> conn.Cooperates(0)
        decreases |data| - ptr
      {
        var n := conn.Write(data[ptr..]);
        if n <= 0 {
          return false, ptr;
        }
        assert data[..ptr + n] == data[..ptr] + data[ptr..][..n];
        ptr := ptr + n;
      }
      return true, ptr;
    }

    /** send: a whole frame, or a proper prefix of one and false. */
    method Send(data: Bytes) returns (ok: bool, ghost sent: nat)
      requires |data| < UINT32_LIMIT
      modifies conn
      ensures sent <= |Frame(data)| && conn.bytes == old(conn.bytes) + Frame(data)[..sent]
      ensures ok <==> sent == |Frame(data)| && connected
      ensures forall n {:trigger conn.Cooperates(n)} :: old(conn.Cooperates(n + |Frame(data)|)) ==> conn.Cooperates(n)
      ensures connected && old(conn.Cooperates(|Frame(data)|)) ==> ok
    {
      if !connected {
        return false, 0;
      }
      var len := |data|;
      var hdr := [len % 256, len / 256 % 256, len / 65536 % 256, len / 16777216];
      assert hdr == Header(len);
      hide Header, LengthOf;
      ok, sent := WriteToFd(hdr);
      assert Frame(data)[..sent] == hdr[..sent];
      if ok {
        ghost var k;
        ok, k := WriteToFd(data);
        sent := 4 + k;
        assert Frame(data)[..sent] == hdr + data[..k];
      }
    }

    /** read_exact: the next n bytes, or false with some of the stream consumed. */
    method ReadExact(n: nat) returns (ok: bool, buf: Bytes)
      modifies conn
      ensures ok ==> |buf| == n && old(conn.bytes) == buf + conn.bytes
      ensures |conn.bytes| <= |old(conn.bytes)|
      ensures ok && old(conn.Cooperates(|conn.bytes|)) ==> conn.Cooperates(|conn.bytes|)
      ensures old(conn.Cooperates(|conn.bytes|)) ==> (ok <==> n <= |old(conn.bytes)|)
    {
      buf := [];
      while |buf| < n
        invariant |buf| <= n && old(conn.bytes) == buf + conn.bytes
        invariant |old(conn.sizes)| <= |conn.sizes| + |buf|
        invariant old(conn.Cooperates(0)) ==> conn.Cooperates(0)
        decreases n - |buf|
      {
        var got := conn.Read(n - |buf|);
        if got == [] {
          return false, buf;
        }
        buf := buf + got;
      }
      return true, buf;
    }

    /** recv_loop: what is delivered is a prefix of what the stream holds, and all of it when the
        kernel keeps answering. */
    method RecvLoop()
      requires connected
      modifies this, conn
      ensures !connected
      ensures old(delivered) <= delivered <= old(delivered) + Parse(old(conn.bytes))
      ensures old(conn.Cooperates(|conn.bytes|)) ==> delivered == old(delivered) + Parse(old(conn.bytes))
    {
      hide LengthOf, LengthAccepted;
      ghost var coop := conn.Cooperates(|conn.bytes|);
      ghost var taken := [];
      while connected
        invariant connected
        invariant delivered == old(delivered) + taken && Parse(old(conn.bytes)) == taken + Parse(conn.bytes)
        invariant coop ==> conn.Cooperates(|conn.bytes|)
        decreases |conn.bytes|
      {
        ghost var wire := conn.bytes;
        var ok, hdr := ReadExact(4);
        if !ok {
          break;
        }
        assert wire[..4] == hdr;
        var len := LengthOf(hdr);
        if !LengthAccepted(len) {
          break;
        }
        var payload;
        ok, payload := ReadExact(len);
        if !ok {
          break;
        }
        assert wire[4..4 + len] == payload && wire[4 + len..] == conn.bytes;
        delivered := delivered + [payload];
        taken := taken + [payload];
      }
      connected := false;
    }
  }

  /** A sender that stops at its first refused send, and a receiver at the other end of the
      stream: for any pattern of short writes and reads the receiver gets a prefix of the payloads;
      it gets exactly all of them when the kernel keeps answering and every length is accepted. */
  method Transfer(payloads: seq<Bytes>, writeSizes: seq<int>, readSizes: seq<int>) returns (delivered: seq<Bytes>)
    requires Sendable(payloads)
    ensures delivered <= payloads
    ensures
      && |Wire(payloads)| <= |writeSizes| && (forall k :: 0 <= k < |writeSizes| ==> writeSizes[k] > 0)
      && |Wire(payloads)| <= |readSizes| && (forall k :: 0 <= k < |readSizes| ==> readSizes[k] > 0)
      ==> delivered == Accepted(payloads)
  {
    hide Frame, Parse, Accepted;
    var out := new Socket(writeSizes, []);
    var sender := new IpcTransport(out);
    var ok := true;
    ghost var total := |Wire(payloads)|;
    ghost var coop := out.Cooperates(total);
    assert payloads[..0] == [] && payloads[0..] == payloads;
    for i := 0 to |payloads|
      invariant sender.connected && sender.conn == out
      invariant ok ==> out.bytes == Wire(payloads[..i])
      invariant ok && coop ==> out.Cooperates(|Wire(payloads[i..])|)
      invariant coop ==> ok
      invariant out.bytes <= Wire(payloads)
    {
      if ok {
        WireStep(payloads, i);
        ghost var sent;
        ok, sent := sender.Send(payloads[i]);
      }
    }
    assert payloads[..|payloads|] == payloads;
    var inn := new Socket(readSizes, out.bytes);
    var receiver := new IpcTransport(inn);
    ParseWire(payloads);
    CutDeliversPrefix(Wire(payloads), |out.bytes|);
    assert Wire(payloads)[..|out.bytes|] == out.bytes;
    receiver.RecvLoop();
    delivered := receiver.delivered;
  }

  lemma WireOne(payload: Bytes)
    requires |payload| < UINT32_LIMIT
    ensures Wire([payload]) == Frame(payload)
  {
    hide Frame;
    assert Wire([payload]) == Frame(payload) + Wire([]);
  }

  lemma SplitAt<T>(s: seq<T>, i: nat)
    requires i < |s|
    ensures s[i..] == [s[i]] + s[i + 1..] && s[..i + 1] == s[..i] + [s[i]] && s == s[..i + 1] + s[i + 1..]
  {
  }

  lemma SendableParts(payloads: seq<Bytes>, i: nat)
    requires Sendable(payloads) && i <= |payloads|
    ensures Sendable(payloads[..i]) && Sendable(payloads[i..])
  {
  }

  lemma WireStep(payloads: seq<Bytes>, i: nat)
    requires Sendable(payloads) && i < |payloads|
    ensures |payloads[i]| < UINT32_LIMIT
    ensures Sendable(payloads[..i]) && Sendable(payloads[i..]) && Sendable(payloads[..i + 1])
    ensures Sendable(payloads[i + 1..])
    ensures Wire(payloads[i..]) == Frame(payloads[i]) + Wire(payloads[i + 1..])
    ensures Wire(payloads[..i + 1]) == Wire(payloads[..i]) + Frame(payloads[i])
    ensures Wire(payloads) == Wire(payloads[..i + 1]) + Wire(payloads[i + 1..])
  {
    hide Wire, Frame, Sendable;
    SplitAt(payloads, i);
    SendableParts(payloads, i);
    SendableParts(payloads, i + 1);
    WireHead(payloads[i..], payloads[i], payloads[i + 1..]);
    WireLast(payloads[..i + 1], payloads[..i], payloads[i]);
    WireJoin(payloads[..i + 1], payloads[i + 1..], payloads);
  }

  lemma WireHead(whole: seq<Bytes>, first: Bytes, rest: seq<Bytes>)
    requires Sendable(whole) && whole == [first] + rest
    ensures Sendable(rest) && |first| < UINT32_LIMIT && Wire(whole) == Frame(first) + Wire(rest)
  {
    hide Wire, Frame;
    WireJoin([first], rest, whole);
    assert whole[0] == first;
    WireOne(first);
  }

  lemma WireLast(whole: seq<Bytes>, front: seq<Bytes>, last: Bytes)
    requires Sendable(whole) && whole == front + [last]
    ensures Sendable(front) && |last| < UINT32_LIMIT && Wire(whole) == Wire(front) + Frame(last)
  {
    hide Wire, Frame;
    WireJoin(front, [last], whole);
    assert whole[|front|] == last;
    WireOne(last);
  }

  lemma WireJoin(a: seq<Bytes>, b: seq<Bytes>, whole: seq<Bytes>)
    requires Sendable(whole) && whole == a + b
    ensures Sendable(a) && Sendable(b) && Wire(whole) == Wire(a) + Wire(b)
  {
    hide Wire;
    forall p | 0 <= p < |a| ensures |a[p]| < UINT32_LIMIT {
      assert whole[p] == a[p];
    }
    forall p | 0 <= p < |b| ensures |b[p]| < UINT32_LIMIT {
      assert whole[|a| + p] == b[p];
    }
    WireConcat(a, b);
  }
}
