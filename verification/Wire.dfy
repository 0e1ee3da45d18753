/** Frames as the server queues them, with their size on the wire.

    A frame is the 24-byte header followed by a msgpack map.  The map is kept
    as a value; only the lengths of its encoding matter to the send queue and to
    the 32-bit length fields.
 */
module Wire {

  import opened Arithmetic
  import Protocol

  /** The five fields of a delivery envelope. */
  datatype Envelope = Envelope(payload: string, srcConn: nat, dstConn: nat,
                               srcName: string, dstName: string)

  /** `ticket` is a history variable: the position, in the server's routing order,
      of the routing decision that made this copy.  It takes no room on the wire. */
  datatype Content =
    | Deliver(ticket: nat, seqNo: nat, env: Envelope)
    | Reply(seqNo: nat, ok: bool, op: string, len: nat)
    | Kick(reason: string)

  predicate IsHeartbeatOk(c: Content) {
    c.Reply? && c.ok && c.op == "HEARTBEAT"
  }

  /** A packed frame, as the shared string that every queue entry refers to. */
  datatype Frame = Frame(content: Content, size: nat)

  // Lengths of the str, bin and int families of the MessagePack specification.

  function StrLen(n: nat): (r: nat)
    ensures n < r <= n + 5
  {
    if n < 32 then n + 1 else if n < 256 then n + 2 else if n < 65536 then n + 3 else n + 5
  }

  function BinLen(n: nat): (r: nat)
    ensures n < r <= n + 5
  {
    if n < 256 then n + 2 else if n < 65536 then n + 3 else n + 5
  }

  function UintLen(v: nat): (r: nat)
    ensures 1 <= r <= 9
  {
    if v < 128 then 1 else if v < 256 then 2 else if v < 65536 then 3 else if v < TWO_32 then 5 else 9
  }

  function EnvelopeLen(e: Envelope): (r: nat) {
    1
    + StrLen(|"payload"|) + BinLen(|e.payload|)
    + StrLen(|"src_conn_id"|) + UintLen(e.srcConn)
    + StrLen(|"dst_conn_id"|) + UintLen(e.dstConn)
    + StrLen(|"src_username"|) + StrLen(|e.srcName|)
    + StrLen(|"dst_username"|) + StrLen(|e.dstName|)
  }

  function KickLen(reason: string): (r: nat) {
    1 + StrLen(|"op"|) + StrLen(|"KICK"|) + StrLen(|"reason"|) + StrLen(|reason|)
  }

  function BodyLen(c: Content): nat {
    match c
    case Deliver(_, _, env) => EnvelopeLen(env)
    case Reply(_, _, _, len) => len
    case Kick(reason) => KickLen(reason)
  }

  /** `pack_wire`: header and body. */
  function Pack(c: Content): Frame {
    Frame(c, Protocol.HEADER_LEN + BodyLen(c))
  }

  /** Total size of a queue of frames. */
  function TotalSize(q: seq<Frame>): nat {
    if q == [] then 0 else q[0].size + TotalSize(q[1..])
  }

  lemma {:induction false} TotalSizeAppend(q: seq<Frame>, f: Frame)
    ensures TotalSize(q + [f]) == TotalSize(q) + f.size
  {
    if q == [] {
      assert TotalSize([f]) == f.size + TotalSize([f][1..]);
    } else {
      assert (q + [f])[1..] == q[1..] + [f];
      TotalSizeAppend(q[1..], f);
    }
  }
}
