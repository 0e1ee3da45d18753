/** Why the 32-bit casts in a DELIVER frame lose nothing: the reader bounds every body, and
    an envelope takes its payload and destination from one body and its source from another.
 */
module DeliverLength {
  import opened Options
  import opened Arithmetic
  import opened Wire
  import opened Handler
  import Protocol
  import Relay
  import Routing

  /** The cap that the configuration check puts on `limits.max_body_len`. */
  const BODY_CAP: nat := 1024 * 1024 * 1024

  predicate LimitAccepted(maxBody: nat) {
    0 < maxBody <= BODY_CAP
  }

  /** The shortest encoding of a value; any other encoding of it is longer. */
  function ValLen(v: Val): (r: nat)
    ensures r > 0
  {
    match v
    case Str(s) => StrLen(|s|)
    case Bin(s) => BinLen(|s|)
    case Pos(n) => UintLen(n)
    case _ => 1
  }

  function EntriesLen(m: seq<Entry>): nat {
    if m == [] then 0 else ValLen(m[0].key) + ValLen(m[0].val) + EntriesLen(m[1..])
  }

  /** A body of `len` bytes that the reader admits, and that decodes to the map `m`. */
  predicate Admitted(m: seq<Entry>, len: nat, maxBody: nat) {
    1 + EntriesLen(m) <= len <= maxBody
  }

  lemma {:induction false} EntryFits(m: seq<Entry>, e: Entry)
    requires e in m
    ensures ValLen(e.key) + ValLen(e.val) <= EntriesLen(m)
  {
    if m[0] != e { EntryFits(m[1..], e); }
  }

  /** Two different entries share the room. */
  lemma {:induction false} EntriesFitTogether(m: seq<Entry>, e: Entry, f: Entry)
    requires e in m && f in m && e != f
    ensures ValLen(e.key) + ValLen(e.val) + ValLen(f.key) + ValLen(f.val) <= EntriesLen(m)
  {
    if m[0] == e {
      EntryFits(m[1..], f);
    } else if m[0] == f {
      EntryFits(m[1..], e);
    } else {
      EntriesFitTogether(m[1..], e, f);
    }
  }

  lemma RoutedTextFits(m: seq<Entry>, dst: string, payload: string)
    requires ExtractPayload(GetObj(m, "payload")) == Some(payload) && GetStr(m, "dst_username") == Some(dst)
    ensures |payload| + |dst| <= EntriesLen(m)
  {
    EntriesFitTogether(m, Entry(Str("payload"), GetObj(m, "payload").value), Entry(Str("dst_username"), Str(dst)));
  }

  lemma RouteFits(v: View, q: Request, a: Answers, e: Effect)
    requires e in Handle(v, q, a) && e.Route?
    ensures q.body.Map? && |e.payload| + |e.dst| <= EntriesLen(q.body.entries)
  {
    RoutedExactlyWhen(v, q, a, e.dst, e.payload, e.routeSeq);
    RoutedTextFits(q.body.entries, e.dst, e.payload);
  }

  lemma LoginNames(q: Request, m: seq<Entry>, a: Answers, e: Effect)
    requires e in HandleLogin(q, m, a) && e.Register?
    ensures GetStr(m, "username") == Some(e.username)
  {
  }

  /** A session's name came from the body of its login. */
  lemma RegisteredNameFits(v: View, q: Request, a: Answers, e: Effect)
    requires e in Handle(v, q, a) && e.Register?
    ensures q.body.Map? && |e.username| <= EntriesLen(q.body.entries)
  {
    RegisteredExactlyWhen(v, q, a);
    LoginNames(q, q.body.entries, a, e);
    EntryFits(q.body.entries, Entry(Str("username"), Str(e.username)));
  }

  lemma EnvelopeBound(e: Envelope)
    ensures |e.payload| + |e.srcName| + |e.dstName| < EnvelopeLen(e) <= |e.payload| + |e.srcName| + |e.dstName| + 92
  {
    assert StrLen(|"payload"|) == 8 && StrLen(|"src_conn_id"|) == 12 && StrLen(|"dst_conn_id"|) == 12;
    assert StrLen(|"src_username"|) == 13 && StrLen(|"dst_username"|) == 13;
  }

  /** A cast of `n` to 32 bits keeps its value. */
  predicate Exact(n: nat) {
    n % TWO_32 == n
  }

  lemma EnvelopeFits(e: Envelope, maxBody: nat)
    requires LimitAccepted(maxBody) && |e.payload| + |e.dstName| < maxBody && |e.srcName| < maxBody
    ensures Exact(|e.payload|) && Exact(EnvelopeLen(e))
  {
    EnvelopeBound(e);
  }

  /** For every accepted limit, every admitted login and every admitted DATA frame: the
      envelope that is routed fits its length fields, so both casts are exact. */
  lemma NoLengthTruncation(maxBody: nat,
                           v0: View, login: Request, a0: Answers, reg: Effect, len0: nat,
                           v: View, data: Request, a: Answers, route: Effect, len: nat,
                           srcConn: nat, dstConn: nat)
    requires LimitAccepted(maxBody)
    requires login.body.Map? && Admitted(login.body.entries, len0, maxBody)
    requires data.body.Map? && Admitted(data.body.entries, len, maxBody)
    requires reg in Handle(v0, login, a0) && reg.Register?
    requires route in Handle(v, data, a) && route.Route?
    ensures var env := Envelope(route.payload, srcConn, dstConn, reg.username, route.dst);
            Exact(|env.payload|) && Exact(EnvelopeLen(env))
  {
    RegisteredNameFits(v0, login, a0, reg);
    RouteFits(v, data, a, route);
    EnvelopeFits(Envelope(route.payload, srcConn, dstConn, reg.username, route.dst), maxBody);
  }

  /** The reader admitted every frame that was handled. */
  ghost predicate AllAdmitted(s: Relay.State, maxBody: nat) {
    forall i :: 0 <= i < |s.handled| && s.handled[i].request.body.Map? ==>
      exists len: nat :: Admitted(s.handled[i].request.body.entries, len, maxBody)
  }

  lemma CarriedTextFits(h: Relay.Handled, l: Relay.Handled, f: Content, maxBody: nat)
    requires Relay.CarriedFrom(h, f) && Relay.SignedOnBy(l, f.env.srcConn, f.env.srcName)
    requires EntriesLen(h.request.body.entries) < maxBody && EntriesLen(l.request.body.entries) < maxBody
    ensures |f.env.payload| + |f.env.dstName| < maxBody && |f.env.srcName| < maxBody
  {
    RoutedTextFits(h.request.body.entries, f.env.dstName, f.env.payload);
    EntryFits(l.request.body.entries, Entry(Str("username"), Str(f.env.srcName)));
  }

  /** In every run of the relay under an accepted limit, every DELIVER written to a connection
      has exact lengths: the payload's in its bin header, the envelope's in `body_len`. */
  lemma WrittenLengthsExact(cfg: Routing.Config, es: seq<Relay.Event>, c: Relay.ConnId, k: nat, maxBody: nat)
    requires Routing.ConfigOk(cfg) && LimitAccepted(maxBody) && AllAdmitted(Relay.Exec(cfg, es), maxBody)
    requires c in Relay.Exec(cfg, es).world.sess && k < |Relay.Written(Relay.Exec(cfg, es), c)|
    ensures var f := Relay.Written(Relay.Exec(cfg, es), c)[k];
            && f.content.Deliver? && f.size == Protocol.HEADER_LEN + EnvelopeLen(f.content.env)
            && Exact(|f.content.env.payload|) && Exact(EnvelopeLen(f.content.env))
  {
    var s := Relay.Exec(cfg, es);
    var f := Relay.Written(s, c)[k];
    Relay.WrittenIsCopy(cfg, es, c);
    var i, l := Relay.DeliveryProvenance(cfg, es, c, k);
    CarriedTextFits(s.handled[i], s.handled[l], f.content, maxBody);
    EnvelopeFits(f.content.env, maxBody);
  }

  /** The cap is needed: a limit of 2^32 - 1 would admit a payload and a name that do not fit. */
  lemma TruncatesWithoutCap(payload: string, src: string, srcConn: nat, dstConn: nat)
    requires |payload| == TWO_32 - 100 && |src| == 100
    ensures Admitted([Entry(Str("payload"), Bin(payload)), Entry(Str("dst_username"), Str("b"))],
                     TWO_32 - 1, TWO_32 - 1)
    ensures Admitted([Entry(Str("username"), Str(src))], 200, TWO_32 - 1)
    ensures !Exact(EnvelopeLen(Envelope(payload, srcConn, dstConn, src, "b")))
  {
    var e, f := Entry(Str("payload"), Bin(payload)), Entry(Str("dst_username"), Str("b"));
    assert EntriesLen([f]) == ValLen(f.key) + ValLen(f.val) + EntriesLen([f][1..]);
    assert [e, f][1..] == [f];
    var g := Entry(Str("username"), Str(src));
    assert EntriesLen([g]) == ValLen(g.key) + ValLen(g.val) + EntriesLen([g][1..]);
    EnvelopeBound(Envelope(payload, srcConn, dstConn, src, "b"));
  }
}
