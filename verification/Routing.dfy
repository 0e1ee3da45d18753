/** The server as a whole: the registry, one send queue per connection, and the order in
    which deliveries were routed.

    A routing decision is made, and its copies are posted to the recipients' strands, while
    the registry's mutex is held; everything else interleaves freely.
 */
module Routing {
  import opened Wire
  import opened Posted
  import R = Registry
  import Q = SendQueue

  datatype Decision = Decision(uid: R.Uid, seqNo: nat, payload: string, srcConn: nat,
                               srcName: string, dstName: string, recipients: seq<R.ConnId>)

  datatype World = World(reg: R.State, sess: map<R.ConnId, Q.Session>, routed: seq<Decision>)

  datatype Config = Config(pol: R.Policy, flow: Q.Flow)

  predicate ConfigOk(cfg: Config) {
    R.PolicyOk(cfg.pol) && Q.FlowOk(cfg.flow)
  }

  function Init(): World {
    World(R.Init(), map[], [])
  }

  // ---------------------------------------------------------------- steps

  /** The frame that decision number `t` sends to connection `c`. */
  function Copy(t: nat, d: Decision, c: R.ConnId): Frame {
    Pack(Deliver(t, d.seqNo, Envelope(d.payload, d.srcConn, c, d.srcName, d.dstName)))
  }

  function PostCopies(sess: map<R.ConnId, Q.Session>, t: nat, d: Decision): map<R.ConnId, Q.Session> {
    map c | c in sess :: if c in d.recipients then Q.Post(sess[c], Q.SendTask(Copy(t, d, c))) else sess[c]
  }

  /** Replies, kick notices and stops may be posted to any session at any time; deliveries
      are posted only by routing. */
  predicate Local(e: Q.Event) {
    e.Posted? ==> Q.Ordinary(e.task) && (e.task.SendTask? ==> e.task.frame.content.Reply?)
  }

  /** Registry events that concern no session's queue. */
  predicate Bookkeeping(e: R.Event) {
    e.LoggedIn? || e.Removed? || e.Snapshot? || e.Touched?
  }

  datatype Event =
    | Accepted
    | OnRegistry(event: R.Event)
    | Routed(uid: R.Uid, seqNo: nat, payload: string, srcConn: nat, srcName: string, dstName: string)
    | OnSession(conn: R.ConnId, step: Q.Event)

  /** A session takes a step; the registry sees whether its socket is still open. */
  function SessionStep(cfg: Config, w: World, c: R.ConnId, e: Q.Event): World {
    if c !in w.sess || !Local(e) then w
    else
      var s := Q.Step(cfg.flow, w.sess[c], e);
      World(if s.open then w.reg else R.Close(w.reg, c), w.sess[c := s], w.routed)
  }

  function DecisionOf(cfg: Config, w: World, e: Event): Decision
    requires e.Routed?
  {
    Decision(e.uid, e.seqNo, e.payload, e.srcConn, e.srcName, e.dstName, R.Recipients(cfg.pol, w.reg, e.uid))
  }

  function Step(cfg: Config, w: World, e: Event): World {
    match e
    case Accepted => World(R.Accept(w.reg), w.sess[w.reg.nextConnId + 1 := Q.Init()], w.routed)
    case OnRegistry(ev) => if Bookkeeping(ev) then World(R.Step(cfg.pol, w.reg, ev), w.sess, w.routed) else w
    case Routed(uid, _, _, _, _, _) =>
      var d := DecisionOf(cfg, w, e);
      World(R.Route(w.reg, uid), PostCopies(w.sess, |w.routed|, d), w.routed + [d])
    case OnSession(c, ev) => SessionStep(cfg, w, c, ev)
  }

  function Exec(cfg: Config, w: World, es: seq<Event>): World {
    if es == [] then w
    else Step(cfg, Exec(cfg, w, es[..|es| - 1]), es[|es| - 1])
  }

  // ---------------------------------------------------------------- deliveries of a connection

  function Deliveries(fs: seq<Frame>): seq<Frame> {
    Pick(Delivery, fs)
  }

  /** The copies that the routing history owes connection `c`, in routing order. */
  function CopiesFor(routed: seq<Decision>, c: R.ConnId): seq<Frame> {
    if routed == [] then []
    else
      var n := |routed| - 1;
      var rest := CopiesFor(routed[..n], c);
      if c in routed[n].recipients then rest + [Copy(n, routed[n], c)] else rest
  }

  /** Distinct copies owed to `c`, in routing order: a subsequence of `CopiesFor`. */
  ghost predicate InRoutingOrder(fs: seq<Frame>, routed: seq<Decision>, c: R.ConnId) {
    && (forall i :: 0 <= i < |fs| ==>
          && fs[i].content.Deliver?
          && fs[i].content.ticket < |routed|
          && c in routed[fs[i].content.ticket].recipients
          && fs[i] == Copy(fs[i].content.ticket, routed[fs[i].content.ticket], c))
    && (forall i, j :: 0 <= i < j < |fs| ==>
          fs[i].content.Deliver? && fs[j].content.Deliver? && fs[i].content.ticket < fs[j].content.ticket)
  }

  lemma {:induction false} CopiesInRoutingOrder(routed: seq<Decision>, c: R.ConnId)
    ensures InRoutingOrder(CopiesFor(routed, c), routed, c)
  {
    if routed != [] {
      CopiesInRoutingOrder(routed[..|routed| - 1], c);
    }
  }

  // ---------------------------------------------------------------- invariant

  ghost predicate SessInv(cfg: Config, s: Q.Session, routed: seq<Decision>, c: R.ConnId) {
    Q.Inv(cfg.flow, s) && Q.OrdinaryInv(s) && PostedOf(Delivery, s) == CopiesFor(routed, c)
  }

  ghost predicate IdsInv(routed: seq<Decision>, bound: nat) {
    forall t, c :: 0 <= t < |routed| && c in routed[t].recipients ==> c <= bound
  }

  ghost predicate SessionsInv(cfg: Config, sess: map<R.ConnId, Q.Session>, routed: seq<Decision>, bound: nat) {
    forall c :: c in sess ==> c <= bound && SessInv(cfg, sess[c], routed, c)
  }

  ghost predicate Inv(cfg: Config, w: World) {
    && R.Inv(cfg.pol, w.reg)
    && IdsInv(w.routed, w.reg.nextConnId)
    && SessionsInv(cfg, w.sess, w.routed, w.reg.nextConnId)
  }

  lemma {:induction false} NoCopiesYet(routed: seq<Decision>, c: R.ConnId)
    requires forall t :: 0 <= t < |routed| ==> c !in routed[t].recipients
    ensures CopiesFor(routed, c) == []
  {
    if routed != [] { NoCopiesYet(routed[..|routed| - 1], c); }
  }

  lemma LocalStepKeepsSess(cfg: Config, s: Q.Session, routed: seq<Decision>, c: R.ConnId, e: Q.Event)
    requires ConfigOk(cfg) && SessInv(cfg, s, routed, c) && Local(e)
    ensures SessInv(cfg, Q.Step(cfg.flow, s, e), routed, c)
  {
    Q.StepKeepsInv(cfg.flow, s, e);
    Q.OrdinaryStep(cfg.flow, s, e);
    SessionKeepsPosted(Delivery, cfg.flow, s, e);
  }

  lemma ReplaceSession(cfg: Config, w: World, c: R.ConnId, s: Q.Session)
    requires SessionsInv(cfg, w.sess, w.routed, w.reg.nextConnId) && c in w.sess && SessInv(cfg, s, w.routed, c)
    ensures SessionsInv(cfg, w.sess[c := s], w.routed, w.reg.nextConnId)
  {
    var sess := w.sess[c := s];
    forall d | d in sess ensures d <= w.reg.nextConnId && SessInv(cfg, sess[d], w.routed, d) {
      if d != c { assert sess[d] == w.sess[d]; }
    }
  }

  lemma SessionStepKeepsInv(cfg: Config, w: World, c: R.ConnId, e: Q.Event)
    requires ConfigOk(cfg) && Inv(cfg, w)
    ensures Inv(cfg, SessionStep(cfg, w, c, e))
  {
    if c in w.sess && Local(e) {
      var s := Q.Step(cfg.flow, w.sess[c], e);
      R.CloseKeepsInv(cfg.pol, w.reg, c);
      LocalStepKeepsSess(cfg, w.sess[c], w.routed, c, e);
      ReplaceSession(cfg, w, c, s);
    }
  }

  lemma RegistryStepKeepsInv(cfg: Config, w: World, e: R.Event)
    requires ConfigOk(cfg) && Inv(cfg, w) && Bookkeeping(e)
    ensures Inv(cfg, World(R.Step(cfg.pol, w.reg, e), w.sess, w.routed))
  {
    R.StepKeepsInv(cfg.pol, w.reg, e);
    R.IdsStep(cfg.pol, w.reg, e);
  }

  lemma AcceptKeepsInv(cfg: Config, w: World)
    requires ConfigOk(cfg) && Inv(cfg, w)
    ensures Inv(cfg, Step(cfg, w, Accepted))
  {
    R.AcceptKeepsInv(cfg.pol, w.reg);
    NoCopiesYet(w.routed, w.reg.nextConnId + 1);
    assert SentFrames([]) + WaitingFrames([]) == [];
  }

  lemma RoutedStepKeepsSess(cfg: Config, s: Q.Session, routed: seq<Decision>, d: Decision, c: R.ConnId)
    requires ConfigOk(cfg) && SessInv(cfg, s, routed, c)
    ensures c in d.recipients ==> SessInv(cfg, Q.Post(s, Q.SendTask(Copy(|routed|, d, c))), routed + [d], c)
    ensures c !in d.recipients ==> SessInv(cfg, s, routed + [d], c)
  {
    var task := Q.SendTask(Copy(|routed|, d, c));
    assert (routed + [d])[..|routed|] == routed;
    Q.StepKeepsInv(cfg.flow, s, Q.Posted(task));
    Q.OrdinaryStep(cfg.flow, s, Q.Posted(task));
    PostKeepsPosted(Delivery, s, task);
  }

  lemma RouteKeepsSessions(cfg: Config, w: World, d: Decision)
    requires ConfigOk(cfg) && SessionsInv(cfg, w.sess, w.routed, w.reg.nextConnId)
    ensures SessionsInv(cfg, PostCopies(w.sess, |w.routed|, d), w.routed + [d], w.reg.nextConnId)
  {
    forall c | c in w.sess
      ensures c in d.recipients ==>
                SessInv(cfg, Q.Post(w.sess[c], Q.SendTask(Copy(|w.routed|, d, c))), w.routed + [d], c)
      ensures c !in d.recipients ==> SessInv(cfg, w.sess[c], w.routed + [d], c)
    {
      RoutedStepKeepsSess(cfg, w.sess[c], w.routed, d, c);
    }
  }

  lemma RouteKeepsInv(cfg: Config, w: World, e: Event)
    requires ConfigOk(cfg) && Inv(cfg, w) && e.Routed?
    ensures Inv(cfg, Step(cfg, w, e))
  {
    var d := DecisionOf(cfg, w, e);
    R.RouteKeepsInv(cfg.pol, w.reg, e.uid);
    RouteKeepsSessions(cfg, w, d);
    assert IdsInv(w.routed + [d], w.reg.nextConnId);
  }

  lemma StepKeepsInv(cfg: Config, w: World, e: Event)
    requires ConfigOk(cfg) && Inv(cfg, w)
    ensures Inv(cfg, Step(cfg, w, e))
  {
    match e {
      case Accepted => AcceptKeepsInv(cfg, w);
      case OnRegistry(ev) => if Bookkeeping(ev) { RegistryStepKeepsInv(cfg, w, ev); }
      case Routed(_, _, _, _, _, _) => RouteKeepsInv(cfg, w, e);
      case OnSession(c, ev) => SessionStepKeepsInv(cfg, w, c, ev);
    }
  }

  lemma {:induction false} ReachableInv(cfg: Config, es: seq<Event>)
    requires ConfigOk(cfg)
    ensures Inv(cfg, Exec(cfg, Init(), es))
  {
    if es == [] {
      R.ReachableInv(cfg.pol, []);
    } else {
      ReachableInv(cfg, es[..|es| - 1]);
      StepKeepsInv(cfg, Exec(cfg, Init(), es[..|es| - 1]), es[|es| - 1]);
    }
  }

  // ---------------------------------------------------------------- what is written

  lemma {:induction false} AcceptedInRoutingOrder(sends: seq<Q.Sent>, routed: seq<Decision>, c: R.ConnId)
    requires InRoutingOrder(Deliveries(SentFrames(sends)), routed, c)
    ensures InRoutingOrder(Deliveries(Q.AcceptedOf(sends)), routed, c)
    ensures forall f :: f in Deliveries(Q.AcceptedOf(sends)) ==> f in Deliveries(SentFrames(sends))
  {
    if sends != [] {
      var init, x := sends[..|sends| - 1], sends[|sends| - 1];
      assert sends == init + [x];
      var sent, acc := Deliveries(SentFrames(init)), Deliveries(Q.AcceptedOf(init));
      SentSnoc(init, x);
      PickSnoc(Delivery, SentFrames(init), x.frame);
      PickSnoc(Delivery, Q.AcceptedOf(init), x.frame);
      InOrderPrefix(Deliveries(SentFrames(sends)), |sent|, routed, c);
      assert Deliveries(SentFrames(sends))[..|sent|] == sent;
      AcceptedInRoutingOrder(init, routed, c);
      if x.verdict == Q.Accepted && x.frame.content.Deliver? {
        InOrderExtend(acc, sent, x.frame, routed, c);
      }
    }
  }

  lemma InOrderPrefix(fs: seq<Frame>, n: nat, routed: seq<Decision>, c: R.ConnId)
    requires InRoutingOrder(fs, routed, c) && n <= |fs|
    ensures InRoutingOrder(fs[..n], routed, c)
  {
  }

  lemma InOrderExtend(acc: seq<Frame>, sent: seq<Frame>, f: Frame, routed: seq<Decision>, c: R.ConnId)
    requires InRoutingOrder(acc, routed, c) && InRoutingOrder(sent + [f], routed, c)
    requires forall g :: g in acc ==> g in sent
    ensures InRoutingOrder(acc + [f], routed, c)
  {
    assert (sent + [f])[|sent|] == f;
    forall i | 0 <= i < |acc| ensures acc[i].content.Deliver? && acc[i].content.ticket < f.content.ticket {
      assert acc[i] in sent;
      var k :| 0 <= k < |sent| && sent[k] == acc[i];
      assert (sent + [f])[k] == acc[i];
    }
  }

  lemma WrittenInRoutingOrder(cfg: Config, s: Q.Session, routed: seq<Decision>, c: R.ConnId)
    requires SessInv(cfg, s, routed, c)
    ensures InRoutingOrder(Deliveries(s.completed), routed, c)
  {
    SentInRoutingOrder(s.sends, s.mailbox, routed, c);
    AcceptedInRoutingOrder(s.sends, routed, c);
    WrittenDeliveriesAccepted(cfg, s);
    InOrderPrefix(Deliveries(Q.AcceptedOf(s.sends)), |Deliveries(s.completed)|, routed, c);
  }

  lemma SentInRoutingOrder(sends: seq<Q.Sent>, mailbox: seq<Q.Task>, routed: seq<Decision>, c: R.ConnId)
    requires Pick(Delivery, SentFrames(sends) + WaitingFrames(mailbox)) == CopiesFor(routed, c)
    ensures InRoutingOrder(Deliveries(SentFrames(sends)), routed, c)
  {
    CopiesInRoutingOrder(routed, c);
    PickConcat(Delivery, SentFrames(sends), WaitingFrames(mailbox));
    var all, sent := CopiesFor(routed, c), Deliveries(SentFrames(sends));
    InOrderPrefix(all, |sent|, routed, c);
    assert all[..|sent|] == sent;
  }

  lemma WrittenDeliveriesAccepted(cfg: Config, s: Q.Session)
    requires Q.Inv(cfg.flow, s) && Q.OrdinaryInv(s)
    ensures Deliveries(s.completed) <= Deliveries(Q.AcceptedOf(s.sends))
  {
    var acc := Q.AcceptedOf(s.sends);
    if s.completed <= acc {
      PickPrefix(Delivery, s.completed, acc);
    } else {
      PickPrefix(Delivery, s.kick.base, acc);
      PickSnoc(Delivery, s.kick.base, s.kick.frame);
    }
  }

  // ---------------------------------------------------------------- theorems over every run

  /** Everything routed to a connection was posted to it once, unchanged and in routing order,
      and is either still on its strand or was run and accepted, dropped or ignored. */
  lemma EveryCopyAccountedFor(cfg: Config, es: seq<Event>, c: R.ConnId)
    requires ConfigOk(cfg) && c in Exec(cfg, Init(), es).sess
    ensures var w := Exec(cfg, Init(), es);
            Deliveries(SentFrames(w.sess[c].sends)) + Deliveries(WaitingFrames(w.sess[c].mailbox))
            == CopiesFor(w.routed, c)
  {
    ReachableInv(cfg, es);
    var s := Exec(cfg, Init(), es).sess[c];
    PickConcat(Delivery, SentFrames(s.sends), WaitingFrames(s.mailbox));
  }

  /** What a connection's peer is sent is, whatever was dropped, kicked or stopped, a
      subsequence of the routing order: true copies of decisions that chose it, none twice. */
  lemma DeliveriesFollowRoutingOrder(cfg: Config, es: seq<Event>, c: R.ConnId)
    requires ConfigOk(cfg) && c in Exec(cfg, Init(), es).sess
    ensures var w := Exec(cfg, Init(), es); InRoutingOrder(Deliveries(w.sess[c].completed), w.routed, c)
  {
    ReachableInv(cfg, es);
    var w := Exec(cfg, Init(), es);
    WrittenInRoutingOrder(cfg, w.sess[c], w.routed, c);
  }

  /** No two connections are sent two deliveries in opposite orders. */
  lemma SameOrderEverywhere(cfg: Config, es: seq<Event>, a: R.ConnId, b: R.ConnId, i: nat, j: nat, k: nat, l: nat)
    requires ConfigOk(cfg)
    requires var w := Exec(cfg, Init(), es);
             && a in w.sess && b in w.sess
             && var da, db := Deliveries(w.sess[a].completed), Deliveries(w.sess[b].completed);
             && i < j < |da| && k < |db| && l < |db|
             && da[i].content.Deliver? && da[j].content.Deliver? && db[k].content.Deliver? && db[l].content.Deliver?
             && da[i].content.ticket == db[k].content.ticket
             && da[j].content.ticket == db[l].content.ticket
    ensures k < l
  {
    DeliveriesFollowRoutingOrder(cfg, es, a);
    DeliveriesFollowRoutingOrder(cfg, es, b);
  }

  /** Exactly once: a healthy connection that has caught up has been sent every copy it was
      chosen for, each once, in routing order. */
  lemma CaughtUpMeansExactlyOnce(cfg: Config, es: seq<Event>, c: R.ConnId)
    requires ConfigOk(cfg) && c in Exec(cfg, Init(), es).sess
    requires var s := Exec(cfg, Init(), es).sess[c];
             s.kick.NoKick? && !s.stopped && s.drops == 0 && s.mailbox == [] && s.queue == []
    ensures var w := Exec(cfg, Init(), es); Deliveries(w.sess[c].completed) == CopiesFor(w.routed, c)
  {
    ReachableInv(cfg, es);
    var s := Exec(cfg, Init(), es).sess[c];
    AcceptedBound(s.sends);
    assert s.completed + s.queue == s.completed;
    assert SentFrames(s.sends) + WaitingFrames(s.mailbox) == SentFrames(s.sends);
  }
}
