/** Framing over a stream socket that sends and receives in pieces of its own choosing. */
module FrameIo {
  import opened Options
  import opened Endian
  import opened Protocol

  datatype Frame = Frame(header: Header, body: seq<byte>)

  /** `pack_frame`: the body's length goes into the header, truncated to 32 bits. */
  function Wire(f: Frame): seq<byte> {
    Layout(f.header.(bodyLen := |f.body| % 0x1_0000_0000)) + f.body
  }

  /** A header that a receiver accepts. */
  predicate HeaderOk(h: Header) {
    h.magic == MAGIC && h.version == VERSION && h.headerLen == HEADER_LEN
  }

  /** Replace the bytes of `s` from `o` on by `piece`. */
  function Patch(s: seq<byte>, o: nat, piece: seq<byte>): seq<byte>
    requires o + |piece| <= |s|
  {
    s[..o] + piece + s[o + |piece|..]
  }

  datatype Parsed = Parsed(frame: Frame, rest: seq<byte>)

  /** What `recv_frame` makes of a stream that ends: a frame and what follows it, or nothing. */
  function Parse(s: seq<byte>, maxBody: nat): Option<Parsed> {
    if |s| < HEADER_LEN then None
    else
      var h := UnpackLe(s[..HEADER_LEN]);
      if !HeaderOk(h) || h.bodyLen > maxBody || |s| < HEADER_LEN + h.bodyLen then None
      else Some(Parsed(Frame(h, s[HEADER_LEN..HEADER_LEN + h.bodyLen]), s[HEADER_LEN + h.bodyLen..]))
  }

  /** The frame as the receiver sees it. */
  function Received(f: Frame): Frame {
    Frame(f.header.(bodyLen := |f.body| % 0x1_0000_0000), f.body)
  }

  predicate Sendable(f: Frame, maxBody: nat) {
    HeaderOk(f.header) && |f.body| <= maxBody && |f.body| < 0x1_0000_0000
  }

  // ---------------------------------------------------------------- the codec

  lemma WireParts(f: Frame, rest: seq<byte>)
    ensures var s := Wire(f) + rest;
            && |Wire(f)| == HEADER_LEN + |f.body|
            && UnpackLe(s[..HEADER_LEN]) == Received(f).header
            && s[HEADER_LEN..] == f.body + rest
  {
    var h := Received(f).header;
    UnpackInvertsPack(h);
    var head := Layout(h);
    assert (head + f.body + rest)[..HEADER_LEN] == head;
  }

  /** A frame followed by anything is read back as that frame, followed by the same, exactly
      when its header is valid, its body within the limit and shorter than 2^32. */
  lemma ParseInvertsWireIff(f: Frame, rest: seq<byte>, maxBody: nat)
    ensures Parse(Wire(f) + rest, maxBody) == Some(Parsed(Received(f), rest)) <==> Sendable(f, maxBody)
  {
    WireParts(f, rest);
    ParseTail(Wire(f) + rest, Received(f).header, f.body + rest, maxBody);
    TailInvertsIff(f.header, f.body, rest, |f.body| % 0x1_0000_0000, maxBody);
  }

  /** What a header with length `n` makes of a body and what follows it. */
  function Tail(h: Header, tail: seq<byte>, maxBody: nat): Option<Parsed> {
    if HeaderOk(h) && h.bodyLen <= maxBody && h.bodyLen <= |tail|
    then Some(Parsed(Frame(h, tail[..h.bodyLen]), tail[h.bodyLen..])) else None
  }

  lemma TailInvertsIff(h: Header, body: seq<byte>, rest: seq<byte>, n: u32, maxBody: nat)
    requires n == |body| % 0x1_0000_0000
    ensures Tail(h.(bodyLen := n), body + rest, maxBody) == Some(Parsed(Frame(h.(bodyLen := n), body), rest))
            <==> HeaderOk(h) && |body| <= maxBody && |body| < 0x1_0000_0000
  {
    if n <= |body + rest| { CutBack(body, rest, n); }
  }

  lemma ParseTail(s: seq<byte>, h: Header, tail: seq<byte>, maxBody: nat)
    requires |s| >= HEADER_LEN && UnpackLe(s[..HEADER_LEN]) == h && s[HEADER_LEN..] == tail
    ensures Parse(s, maxBody) == Tail(h, tail, maxBody)
  {
    if h.bodyLen <= |tail| {
      assert s[HEADER_LEN..HEADER_LEN + h.bodyLen] == tail[..h.bodyLen];
      assert s[HEADER_LEN + h.bodyLen..] == tail[h.bodyLen..];
    }
  }

  lemma CutBack(body: seq<byte>, rest: seq<byte>, n: nat)
    requires n <= |body + rest|
    ensures (body + rest)[..n] == body && (body + rest)[n..] == rest <==> n == |body|
  {
  }

  /** Frames one after another. */
  function Stream(fs: seq<Frame>): seq<byte> {
    Concat(Wires(fs))
  }

  function Wires(fs: seq<Frame>): (ws: seq<seq<byte>>)
    ensures |ws| == |fs| && forall i :: 0 <= i < |fs| ==> ws[i] == Wire(fs[i])
  {
    seq(|fs|, i requires 0 <= i < |fs| => Wire(fs[i]))
  }

  function Concat(ws: seq<seq<byte>>): seq<byte> {
    if ws == [] then [] else ws[0] + Concat(ws[1..])
  }

  lemma {:induction false} ConcatAppend(a: seq<seq<byte>>, b: seq<seq<byte>>)
    ensures Concat(a + b) == Concat(a) + Concat(b)
  {
    if a == [] {
      assert a + b == b;
    } else {
      assert (a + b)[1..] == a[1..] + b;
      ConcatAppend(a[1..], b);
    }
  }

  /** Read `n` frames. */
  function ParseMany(s: seq<byte>, n: nat, maxBody: nat): Option<(seq<Frame>, seq<byte>)> {
    if n == 0 then Some(([], s))
    else match Parse(s, maxBody)
         case None => None
         case Some(p) =>
           match ParseMany(p.rest, n - 1, maxBody)
           case None => None
           case Some(r) => Some(([p.frame] + r.0, r.1))
  }

  function ReceivedAll(fs: seq<Frame>): seq<Frame> {
    if fs == [] then [] else [Received(fs[0])] + ReceivedAll(fs[1..])
  }

  /** Any list of sendable frames, concatenated, decodes to the same list. */
  lemma {:induction false} StreamRoundTrip(fs: seq<Frame>, rest: seq<byte>, maxBody: nat)
    requires forall i :: 0 <= i < |fs| ==> Sendable(fs[i], maxBody)
    ensures ParseMany(Stream(fs) + rest, |fs|, maxBody) == Some((ReceivedAll(fs), rest))
  {
    if fs == [] {
      assert Stream(fs) + rest == rest;
    } else {
      StreamRoundTrip(fs[1..], rest, maxBody);
      assert |fs[1..]| == |fs| - 1;
      StreamCons(fs, rest);
      var tail := Stream(fs[1..]) + rest;
      OneMore(fs[0], tail, |fs|, maxBody, ReceivedAll(fs[1..]), rest);
    }
  }

  lemma StreamCons(fs: seq<Frame>, rest: seq<byte>)
    requires fs != []
    ensures Stream(fs) + rest == Wire(fs[0]) + (Stream(fs[1..]) + rest)
  {
    assert Wires(fs)[1..] == Wires(fs[1..]);
    Associate(Wire(fs[0]), Stream(fs[1..]), rest);
  }

  lemma Associate(a: seq<byte>, b: seq<byte>, c: seq<byte>)
    ensures a + b + c == a + (b + c)
  {
  }

  lemma OneMore(f: Frame, s: seq<byte>, n: nat, maxBody: nat, got: seq<Frame>, rest: seq<byte>)
    requires n > 0 && Sendable(f, maxBody) && ParseMany(s, n - 1, maxBody) == Some((got, rest))
    ensures ParseMany(Wire(f) + s, n, maxBody) == Some(([Received(f)] + got, rest))
  {
    ParseInvertsWireIff(f, s, maxBody);
  }

  lemma WireLength(f: Frame)
    ensures |Wire(f)| == HEADER_LEN + |f.body|
  {
  }

  lemma {:induction false} StreamLength(fs: seq<Frame>)
    ensures |Stream(fs)| >= HEADER_LEN * |fs|
  {
    if fs != [] {
      StreamLength(fs[1..]);
      StreamCons(fs, []);
      WireLength(fs[0]);
    }
  }

  /** Frame boundaries cannot be mistaken: equal byte streams carry the same frames. */
  lemma StreamUnambiguous(fs: seq<Frame>, gs: seq<Frame>, maxBody: nat)
    requires forall i :: 0 <= i < |fs| ==> Sendable(fs[i], maxBody)
    requires forall i :: 0 <= i < |gs| ==> Sendable(gs[i], maxBody)
    requires Stream(fs) == Stream(gs)
    ensures ReceivedAll(fs) == ReceivedAll(gs)
  {
    if |fs| <= |gs| { ShorterIsSame(fs, gs, maxBody); } else { ShorterIsSame(gs, fs, maxBody); }
  }

  lemma ShorterIsSame(fs: seq<Frame>, gs: seq<Frame>, maxBody: nat)
    requires forall i :: 0 <= i < |fs| ==> Sendable(fs[i], maxBody)
    requires forall i :: 0 <= i < |gs| ==> Sendable(gs[i], maxBody)
    requires |fs| <= |gs| && Stream(fs) == Stream(gs)
    ensures ReceivedAll(fs) == ReceivedAll(gs)
  {
    var head, tail := gs[..|fs|], gs[|fs|..];
    CutStream(gs, |fs|);
    assert forall i :: 0 <= i < |head| ==> head[i] == gs[i];
    SameCount(fs, head, Stream(tail), maxBody);
    NoBytesNoFrames(tail);
    assert head == gs;
  }

  lemma CutStream(gs: seq<Frame>, n: nat)
    requires n <= |gs|
    ensures Stream(gs) == Stream(gs[..n]) + Stream(gs[n..])
  {
    ConcatAppend(Wires(gs[..n]), Wires(gs[n..]));
    assert Wires(gs) == Wires(gs[..n]) + Wires(gs[n..]);
  }

  lemma NoBytesNoFrames(fs: seq<Frame>)
    requires Stream(fs) == []
    ensures fs == []
  {
    StreamLength(fs);
  }

  lemma SameCount(fs: seq<Frame>, gs: seq<Frame>, more: seq<byte>, maxBody: nat)
    requires forall i :: 0 <= i < |fs| ==> Sendable(fs[i], maxBody)
    requires forall i :: 0 <= i < |gs| ==> Sendable(gs[i], maxBody)
    requires |fs| == |gs| && Stream(fs) == Stream(gs) + more
    ensures ReceivedAll(fs) == ReceivedAll(gs) && more == []
  {
    StreamRoundTrip(fs, [], maxBody);
    StreamRoundTrip(gs, more, maxBody);
    assert Stream(fs) + [] == Stream(fs);
  }

  // ---------------------------------------------------------------- sockets

  /** A connected stream socket.  Each call moves a piece of a length the network chooses; a
      reliable socket fails only at the end of the stream. */
  class Socket {
    const reliable: bool
    var incoming: seq<byte>
    var outgoing: seq<byte>

    constructor (reliable: bool, incoming: seq<byte>)
      ensures this.reliable == reliable && this.incoming == incoming && outgoing == []
    {
      this.reliable, this.incoming, outgoing := reliable, incoming, [];
    }

    method Send(data: array<byte>, off: nat, len: nat) returns (n: int)
      requires 0 < len && off + len <= data.Length
      modifies this`outgoing
      ensures n <= len && (reliable ==> n > 0)
      ensures outgoing == old(outgoing) + if n > 0 then data[off..off + n] else []
    {
      var failing: bool := *;
      if failing && !reliable {
        assert outgoing + [] == outgoing;
        return -1;
      }
      n :| 1 <= n <= len;
      outgoing := outgoing + data[off..off + n];
    }

    method Recv(buf: array<byte>, off: nat, len: nat) returns (n: int)
      requires 0 < len && off + len <= buf.Length
      modifies this`incoming, buf
      ensures n <= len && n <= |old(incoming)| && (reliable && old(incoming) != [] ==> n > 0)
      ensures n <= 0 ==> incoming == old(incoming) && buf[..] == old(buf[..])
      ensures n > 0 ==> incoming == old(incoming)[n..] && buf[..] == Patch(old(buf[..]), off, old(incoming)[..n])
    {
      var failing: bool := *;
      if failing && !reliable { return -1; }
      if incoming == [] { return 0; }
      n :| 1 <= n <= len && n <= |incoming|;
      forall i | 0 <= i < n { buf[off + i] := incoming[i]; }
      incoming := incoming[n..];
    }
  }

  method SendAll(sock: Socket, data: array<byte>, len: nat) returns (ok: bool)
    requires len <= data.Length
    modifies sock`outgoing
    ensures ok ==> sock.outgoing == old(sock.outgoing) + data[..len]
    ensures exists k :: 0 <= k <= len && sock.outgoing == old(sock.outgoing) + data[..k]
    ensures sock.reliable ==> ok
  {
    var off := 0;
    while off < len
      invariant off <= len
      invariant sock.outgoing == old(sock.outgoing) + data[..off]
    {
      var n := sock.Send(data, off, len - off);
      if n <= 0 {
        assert sock.outgoing == old(sock.outgoing) + data[..off];
        return false;
      }
      assert data[..off] + data[off..off + n] == data[..off + n];
      off := off + n;
    }
    assert sock.outgoing == old(sock.outgoing) + data[..len];
    return true;
  }

  lemma PieceArrived(before: seq<byte>, after: seq<byte>, was: seq<byte>, off: nat, n: nat)
    requires off + n <= |before| && off + n <= |was| && before[..off] == was[..off]
    requires after == Patch(before, off, was[off..][..n])
    ensures after[..off + n] == was[..off + n] && was[off..][n..] == was[off + n..]
  {
    assert was[..off + n] == was[..off] + was[off..][..n];
    assert after[..off + n] == before[..off] + was[off..][..n];
  }

  /** Success means exactly the next `len` bytes; on a reliable socket it fails only if the
      stream ends before them. */
  method RecvExact(sock: Socket, buf: array<byte>, len: nat) returns (ok: bool)
    requires len <= buf.Length
    modifies sock`incoming, buf
    ensures ok ==> len <= |old(sock.incoming)|
    ensures ok ==> buf[..len] == old(sock.incoming)[..len] && sock.incoming == old(sock.incoming)[len..]
    ensures sock.reliable && len <= |old(sock.incoming)| ==> ok
  {
    var off := 0;
    ghost var was := sock.incoming;
    while off < len
      invariant off <= len && off <= |was|
      invariant buf[..][..off] == was[..off] && sock.incoming == was[off..]
    {
      ghost var before := buf[..];
      var n := sock.Recv(buf, off, len - off);
      if n <= 0 { return false; }
      PieceArrived(before, buf[..], was, off, n);
      off := off + n;
    }
    return true;
  }

  /** Receives what `Parse` says is next, whatever the pieces. */
  method RecvFrame(sock: Socket, maxBody: nat) returns (r: Option<Frame>)
    modifies sock`incoming
    ensures r.Some? ==> Parse(old(sock.incoming), maxBody) == Some(Parsed(r.value, sock.incoming))
    ensures sock.reliable ==> (r.Some? <==> Parse(old(sock.incoming), maxBody).Some?)
  {
    ghost var was := sock.incoming;
    var hb := new byte[HEADER_LEN](_ => 0);
    var ok := RecvExact(sock, hb, HEADER_LEN);
    if !ok { return None; }
    assert hb[..] == hb[..HEADER_LEN];
    var h := UnpackLe(hb[..]);
    if h.magic != MAGIC || h.version != VERSION || h.headerLen != HEADER_LEN { return None; }
    if h.bodyLen > maxBody { return None; }
    var body := new byte[h.bodyLen](_ => 0);
    if h.bodyLen > 0 {
      ok := RecvExact(sock, body, h.bodyLen);
      if !ok { return None; }
    }
    assert body[..] == body[..h.bodyLen];
    assert was[HEADER_LEN..][..h.bodyLen] == was[HEADER_LEN..HEADER_LEN + h.bodyLen];
    assert was[HEADER_LEN..][h.bodyLen..] == was[HEADER_LEN + h.bodyLen..];
    return Some(Frame(h, body[..]));
  }

  /** `pack_frame` followed by `send_all`. */
  method SendFrame(sock: Socket, f: Frame) returns (ok: bool)
    modifies sock`outgoing
    ensures ok ==> sock.outgoing == old(sock.outgoing) + Wire(f)
    ensures sock.reliable ==> ok
  {
    var packed := PackLe(f.header.(bodyLen := |f.body| % 0x1_0000_0000));
    var bytes := packed[..] + f.body;
    var wire := new byte[|bytes|](i requires 0 <= i < |bytes| => bytes[i]);
    assert wire[..|bytes|] == bytes;
    ok := SendAll(sock, wire, |bytes|);
  }

  lemma StreamSnoc(fs: seq<Frame>, i: nat)
    requires i < |fs|
    ensures Stream(fs[..i + 1]) == Stream(fs[..i]) + Wire(fs[i])
  {
    CutStream(fs[..i + 1], i);
    assert fs[..i + 1][..i] == fs[..i] && fs[..i + 1][i..] == [fs[i]];
    StreamCons([fs[i]], []);
  }

  method SendFrames(sock: Socket, fs: seq<Frame>) returns (ok: bool)
    modifies sock`outgoing
    ensures ok ==> sock.outgoing == old(sock.outgoing) + Stream(fs)
    ensures sock.reliable ==> ok
  {
    assert sock.outgoing + Stream([]) == sock.outgoing;
    for i := 0 to |fs|
      invariant sock.outgoing == old(sock.outgoing) + Stream(fs[..i])
    {
      ok := SendFrame(sock, fs[i]);
      if !ok { return; }
      StreamSnoc(fs, i);
      Associate(old(sock.outgoing), Stream(fs[..i]), Wire(fs[i]));
    }
    assert fs[..|fs|] == fs;
    return true;
  }

  lemma MoreParsed(s: seq<byte>, n: nat, maxBody: nat, f: Frame, mid: seq<byte>)
    requires n > 0 && Parse(s, maxBody) == Some(Parsed(f, mid))
    ensures var r := ParseMany(mid, n - 1, maxBody);
            ParseMany(s, n, maxBody) == if r.None? then None else Some(([f] + r.value.0, r.value.1))
  {
  }

  lemma NoneParsed(s: seq<byte>, n: nat, maxBody: nat)
    requires n > 0 && Parse(s, maxBody).None?
    ensures ParseMany(s, n, maxBody).None?
  {
  }

  method RecvFrames(sock: Socket, n: nat, maxBody: nat) returns (got: Option<seq<Frame>>)
    modifies sock`incoming
    ensures got.Some? ==> ParseMany(old(sock.incoming), n, maxBody) == Some((got.value, sock.incoming))
    ensures sock.reliable ==> (got.Some? <==> ParseMany(old(sock.incoming), n, maxBody).Some?)
    decreases n, 1
  {
    if n == 0 { return Some([]); }
    ghost var was := sock.incoming;
    var first := RecvFrame(sock, maxBody);
    if first.None? {
      if sock.reliable { NoneParsed(was, n, maxBody); }
      return None;
    }
    MoreParsed(was, n, maxBody, first.value, sock.incoming);
    got := RecvOthers(sock, n, maxBody, first.value);
  }

  method RecvOthers(sock: Socket, n: nat, maxBody: nat, first: Frame) returns (got: Option<seq<Frame>>)
    requires n > 0
    modifies sock`incoming
    ensures var r := ParseMany(old(sock.incoming), n - 1, maxBody);
            && (got.Some? ==> r.Some? && got.value == [first] + r.value.0 && sock.incoming == r.value.1)
            && (sock.reliable ==> (got.Some? <==> r.Some?))
    decreases n, 0
  {
    var others := RecvFrames(sock, n - 1, maxBody);
    if others.None? { return None; }
    return Some([first] + others.value);
  }

  /** A sender and a receiver on either side of a connection, each moving the bytes in pieces
      of the network's choosing: every frame arrives, once and in order. */
  method Transfer(fs: seq<Frame>, maxBody: nat) returns (got: seq<Frame>)
    requires forall i :: 0 <= i < |fs| ==> Sendable(fs[i], maxBody)
    ensures got == ReceivedAll(fs)
  {
    var a := new Socket(true, []);
    var ok := SendFrames(a, fs);
    assert a.outgoing == Stream(fs) == Stream(fs) + [];
    StreamRoundTrip(fs, [], maxBody);
    var b := new Socket(true, a.outgoing);
    var r := RecvFrames(b, |fs|, maxBody);
    got := r.value;
  }
}
