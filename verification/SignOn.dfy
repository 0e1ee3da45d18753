/** The first reply after a login, and the delivery that can overtake it.

    A login is registered under the mutex and answered later, so routing may post a delivery
    to the connection in between.  The client's sign-on takes that for an error.
 */
module SignOn {
  import opened Options
  import opened Seqs
  import opened Wire
  import opened Posted
  import opened ClientSpec
  import R = Registry
  import Q = SendQueue
  import W = Routing

  /** What a peer reads when it reads all that was written. */
  function Inbox(fs: seq<Frame>): seq<Incoming> {
    seq(|fs|, i requires 0 <= i < |fs| => Got(fs[i].content))
  }

  predicate LoginOk(c: Content) {
    c.Reply? && c.ok && c.op == "LOGIN"
  }

  predicate Passed(x: Incoming) {
    x.Got? && IsHeartbeatOk(x.content)
  }

  /** Sign-on succeeds exactly when the first thing that arrives, heartbeat replies aside, is
      the positive reply to the login. */
  ghost predicate LoginComesFirst(inbox: seq<Incoming>) {
    exists k :: 0 <= k < |inbox| && inbox[k].Got? && LoginOk(inbox[k].content)
                && forall i :: 0 <= i < k ==> Passed(inbox[i])
  }

  lemma {:induction false} SignOnSucceedsIff(pre: seq<Content>, inbox: seq<Incoming>)
    ensures Await(ForLogin, pre, inbox).result.Done? <==> LoginComesFirst(inbox)
    decreases |inbox|
  {
    if inbox != [] {
      if Passed(inbox[0]) {
        SignOnSucceedsIff(pre, inbox[1..]);
        LoginComesLater(inbox);
      } else if inbox[0].Got? && LoginOk(inbox[0].content) {
        assert LoginComesFirst(inbox);
      }
    }
  }

  lemma LoginComesLater(inbox: seq<Incoming>)
    requires inbox != [] && Passed(inbox[0])
    ensures LoginComesFirst(inbox) <==> LoginComesFirst(inbox[1..])
  {
    var rest := inbox[1..];
    if LoginComesFirst(inbox) {
      var k :| 0 <= k < |inbox| && inbox[k].Got? && LoginOk(inbox[k].content)
               && forall i :: 0 <= i < k ==> Passed(inbox[i]);
      assert k > 0 && rest[k - 1] == inbox[k];
      assert forall i :: 0 <= i < k - 1 ==> rest[i] == inbox[i + 1];
    }
    if LoginComesFirst(rest) {
      var k :| 0 <= k < |rest| && rest[k].Got? && LoginOk(rest[k].content)
               && forall i :: 0 <= i < k ==> Passed(rest[i]);
      assert inbox[k + 1] == rest[k];
      forall i | 0 <= i < k + 1 ensures Passed(inbox[i]) {
        if i > 0 { assert rest[i - 1] == inbox[i]; }
      }
    }
  }

  // ---------------------------------------------------------------- the first frame written

  /** The first frame that an empty queue would take. */
  function FirstFit(cfg: Q.Flow, fs: seq<Frame>): Option<Frame> {
    if fs == [] then None
    else
      var n := |fs| - 1;
      var rest := FirstFit(cfg, fs[..n]);
      if rest.None? && fs[n].size <= cfg.highWater then Some(fs[n]) else rest
  }

  lemma FirstFitSnoc(cfg: Q.Flow, fs: seq<Frame>, f: Frame)
    ensures var rest := FirstFit(cfg, fs);
            FirstFit(cfg, fs + [f]) == if rest.None? && f.size <= cfg.highWater then Some(f) else rest
  {
    assert (fs + [f])[..|fs|] == fs;
  }

  lemma {:induction false} FirstFitStays(cfg: Q.Flow, fs: seq<Frame>, gs: seq<Frame>)
    requires fs <= gs && FirstFit(cfg, fs).Some?
    ensures FirstFit(cfg, gs) == FirstFit(cfg, fs)
    decreases |gs|
  {
    if |fs| < |gs| {
      var n := |gs| - 1;
      FirstFitStays(cfg, fs, gs[..n]);
    } else {
      assert fs == gs;
    }
  }

  lemma {:induction false} FirstFitHead(cfg: Q.Flow, fs: seq<Frame>)
    requires fs != [] && fs[0].size <= cfg.highWater
    ensures FirstFit(cfg, fs) == Some(fs[0])
  {
    FirstFitSnoc(cfg, [], fs[0]);
    assert [] + [fs[0]] == [fs[0]];
    FirstFitStays(cfg, [fs[0]], fs);
  }

  /** The first frame accepted is the first that fits; if none has been accepted, none that fits
      was sent, or it came too late for any. */
  ghost predicate FirstInv(cfg: Q.Flow, s: Q.Session) {
    var acc, first := Q.AcceptedOf(s.sends), FirstFit(cfg, SentFrames(s.sends));
    if acc != [] then first == Some(acc[0]) else first.None? || s.stopped || s.kickPending
  }

  lemma FirstSend(cfg: Q.Flow, s: Q.Session, f: Frame)
    requires Q.FlowOk(cfg) && Q.Inv(cfg, s) && FirstInv(cfg, s)
    ensures FirstInv(cfg, Q.RunSend(cfg, s, f))
  {
    var v := VerdictOnFirst(cfg, s, f);
    Q.LogUnfolds(s.sends, Q.Sent(f, v));
    SentSnoc(s.sends, Q.Sent(f, v));
    FirstFitSnoc(cfg, SentFrames(s.sends), f);
  }

  /** While nothing has been accepted, a frame is accepted exactly if it fits. */
  lemma VerdictOnFirst(cfg: Q.Flow, s: Q.Session, f: Frame) returns (v: Q.Verdict)
    requires Q.FlowOk(cfg) && Q.Inv(cfg, s)
    ensures var r := Q.RunSend(cfg, s, f);
            && r.sends == s.sends + [Q.Sent(f, v)]
            && (s.stopped || s.kickPending ==> v == Q.Ignored && (r.stopped || r.kickPending))
            && (!(s.stopped || s.kickPending) && Q.AcceptedOf(s.sends) == [] ==>
                  v == if f.size <= cfg.highWater then Q.Accepted else Q.Dropped)
  {
    v := Q.SendLogsOnce(cfg, s, f);
    assert Q.RunSend(cfg, s, f).sends[|s.sends|] == Q.Sent(f, v);
    if !(s.stopped || s.kickPending) && Q.AcceptedOf(s.sends) == [] {
      assert s.completed + s.queue == [];
      assert s.pending == 0;
    }
  }

  /** Steps that run no send log none, and what was stopped or kicked stays so. */
  lemma OtherTasks(s: Q.Session, f: Frame)
    ensures var r := Q.RunKick(s, f); r.sends == s.sends && (s.stopped || s.kickPending ==> r.stopped || r.kickPending)
    ensures var r := Q.RunStop(s); r.sends == s.sends && (s.stopped || s.kickPending ==> r.stopped || r.kickPending)
  {
  }

  lemma Completions(s: Q.Session, i: nat, ok: bool)
    ensures var r := Q.Complete(s, i, ok);
            r.sends == s.sends && (s.stopped || s.kickPending ==> r.stopped || r.kickPending)
  {
  }

  lemma FirstRun(cfg: Q.Flow, s: Q.Session)
    requires Q.FlowOk(cfg) && Q.Inv(cfg, s) && FirstInv(cfg, s) && s.mailbox != []
    ensures FirstInv(cfg, Q.RunNext(cfg, s))
  {
    var s1 := s.(mailbox := s.mailbox[1..]);
    match s.mailbox[0] {
      case SendTask(f) => Q.PopKeepsInv(cfg, s); FirstSend(cfg, s1, f);
      case KickTask(f) => OtherTasks(s1, f);
      case StopTask =>
    }
  }

  lemma FirstStep(cfg: Q.Flow, s: Q.Session, e: Q.Event)
    requires Q.FlowOk(cfg) && Q.Inv(cfg, s) && FirstInv(cfg, s)
    ensures FirstInv(cfg, Q.Step(cfg, s, e))
  {
    match e {
      case Posted(t) =>
      case RanNext => if s.mailbox != [] { FirstRun(cfg, s); }
      case Completed(i, ok) => Completions(s, i, ok);
      case SocketClosed =>
    }
  }

  lemma {:induction false} FirstExec(cfg: Q.Flow, es: seq<Q.Event>)
    requires Q.FlowOk(cfg)
    ensures FirstInv(cfg, Q.Exec(cfg, Q.Init(), es))
  {
    if es != [] {
      FirstExec(cfg, es[..|es| - 1]);
      Q.ReachableInv(cfg, es[..|es| - 1]);
      FirstStep(cfg, Q.Exec(cfg, Q.Init(), es[..|es| - 1]), es[|es| - 1]);
    }
  }

  /** In every run the first frame written, if it is not a kick notice, is the first of those
      posted that fits the queue. */
  lemma FirstWrittenIsFirstFitting(cfg: Q.Flow, es: seq<Q.Event>)
    requires Q.FlowOk(cfg) && Q.OrdinaryRun(es)
    ensures var s := Q.Exec(cfg, Q.Init(), es);
            s.completed != [] && !s.completed[0].content.Kick? ==>
              FirstFit(cfg, PostedOf(Every, s)) == Some(s.completed[0])
  {
    var s := Q.Exec(cfg, Q.Init(), es);
    Q.ReachableInv(cfg, es);
    Q.OrdinaryExec(cfg, Q.Init(), es);
    FirstExec(cfg, es);
    var sent := SentFrames(s.sends);
    PickEvery(sent + WaitingFrames(s.mailbox));
    if s.completed != [] && !s.completed[0].content.Kick? {
      WrittenWasAccepted(cfg, s);
      FirstFitStays(cfg, sent, sent + WaitingFrames(s.mailbox));
    }
  }

  /** So it is the first posted, if that one fits. */
  lemma FirstWrittenIsFirstPosted(cfg: Q.Flow, es: seq<Q.Event>)
    requires Q.FlowOk(cfg) && Q.OrdinaryRun(es)
    ensures var s := Q.Exec(cfg, Q.Init(), es); var p := PostedOf(Every, s);
            s.completed != [] && !s.completed[0].content.Kick? ==>
              p != [] && (p[0].size <= cfg.highWater ==> s.completed[0] == p[0])
  {
    FirstWrittenIsFirstFitting(cfg, es);
    var p := PostedOf(Every, Q.Exec(cfg, Q.Init(), es));
    if p != [] && p[0].size <= cfg.highWater { FirstFitHead(cfg, p); }
  }

  lemma WrittenWasAccepted(cfg: Q.Flow, s: Q.Session)
    requires Q.Inv(cfg, s) && Q.OrdinaryInv(s) && s.completed != [] && !s.completed[0].content.Kick?
    ensures s.sends != [] && Q.AcceptedOf(s.sends) != [] && s.completed[0] == Q.AcceptedOf(s.sends)[0]
  {
  }

  /** Sign-on against the server's order of posting, in every run: with the login reply as the
      first posted frame that fits it succeeds, with a delivery it fails, as soon as anything but
      a kick notice arrives. */
  lemma SignOnDecidedByFirstFit(cfg: Q.Flow, es: seq<Q.Event>, pre: seq<Content>)
    requires Q.FlowOk(cfg) && Q.OrdinaryRun(es)
    requires var s := Q.Exec(cfg, Q.Init(), es); s.completed != [] && !s.completed[0].content.Kick?
    ensures var s := Q.Exec(cfg, Q.Init(), es);
            var first, r := FirstFit(cfg, PostedOf(Every, s)), Await(ForLogin, pre, Inbox(s.completed)).result;
            && first.Some?
            && (LoginOk(first.value.content) ==> r == Done(first.value.content))
            && (first.value.content.Deliver? ==> r == Failed(EarlyDelivery))
  {
    FirstWrittenIsFirstFitting(cfg, es);
  }

  // ---------------------------------------------------------------- the race

  lemma WorldSnoc(cfg: W.Config, w: W.World, es: seq<W.Event>, e: W.Event)
    ensures W.Exec(cfg, w, es + [e]) == W.Step(cfg, W.Exec(cfg, w, es), e)
  {
    assert (es + [e])[..|es|] == es;
  }

  lemma SessionOfStep(cfg: W.Config, w: W.World, e: W.Event, c: R.ConnId, qs: seq<Q.Event>) returns (more: seq<Q.Event>)
    requires c in w.sess ==> Q.Exec(cfg.flow, Q.Init(), qs) == w.sess[c] && Q.OrdinaryRun(qs)
    ensures var r := W.Step(cfg, w, e);
            c in r.sess ==> Q.Exec(cfg.flow, Q.Init(), more) == r.sess[c] && Q.OrdinaryRun(more)
  {
    more := qs;
    if e.Accepted? && c == w.reg.nextConnId + 1 {
      more := [];
    } else if e.Routed? && c in W.DecisionOf(cfg, w, e).recipients {
      var post := Q.Posted(Q.SendTask(W.Copy(|w.routed|, W.DecisionOf(cfg, w, e), c)));
      more := qs + [post];
      Q.ExecSnoc(cfg.flow, Q.Init(), qs, post);
    } else if e.OnSession? && e.conn == c && W.Local(e.step) {
      more := qs + [e.step];
      Q.ExecSnoc(cfg.flow, Q.Init(), qs, e.step);
    }
  }

  /** Whatever the server does, each of its sessions has gone through a run of its own. */
  lemma {:induction false} EachSessionHasItsRun(cfg: W.Config, es: seq<W.Event>, c: R.ConnId) returns (qs: seq<Q.Event>)
    ensures var w := W.Exec(cfg, W.Init(), es);
            c in w.sess ==> Q.Exec(cfg.flow, Q.Init(), qs) == w.sess[c] && Q.OrdinaryRun(qs)
    decreases |es|
  {
    if es == [] {
      qs := [];
    } else {
      var init := es[..|es| - 1];
      qs := EachSessionHasItsRun(cfg, init, c);
      qs := SessionOfStep(cfg, W.Exec(cfg, W.Init(), init), es[|es| - 1], c, qs);
    }
  }

  /** The same for every connection in every run of the whole server. */
  lemma SignOnOnTheServer(cfg: W.Config, es: seq<W.Event>, c: R.ConnId, pre: seq<Content>)
    requires W.ConfigOk(cfg) && c in W.Exec(cfg, W.Init(), es).sess
    requires var s := W.Exec(cfg, W.Init(), es).sess[c]; s.completed != [] && !s.completed[0].content.Kick?
    ensures var s := W.Exec(cfg, W.Init(), es).sess[c];
            var first := FirstFit(cfg.flow, PostedOf(Every, s));
            var r := Await(ForLogin, pre, Inbox(s.completed)).result;
            && first.Some?
            && (LoginOk(first.value.content) ==> r == Done(first.value.content))
            && (first.value.content.Deliver? ==> r == Failed(EarlyDelivery))
  {
    var qs := EachSessionHasItsRun(cfg, es, c);
    SignOnDecidedByFirstFit(cfg.flow, qs, pre);
  }

  // ---------------------------------------------------------------- what is posted when

  lemma WorldStepKeepsPosted(cfg: W.Config, w: W.World, e: W.Event, c: R.ConnId)
    requires c in w.sess && c <= w.reg.nextConnId
    ensures var r := W.Step(cfg, w, e); c in r.sess && PostedOf(Every, w.sess[c]) <= PostedOf(Every, r.sess[c])
  {
    if e.Routed? {
      PostKeepsPosted(Every, w.sess[c], Q.SendTask(W.Copy(|w.routed|, W.DecisionOf(cfg, w, e), c)));
    } else if e.OnSession? && e.conn == c && W.Local(e.step) {
      SessionKeepsPosted(Every, cfg.flow, w.sess[c], e.step);
    }
  }

  /** What has been posted to a connection stays the beginning of what is posted to it. */
  lemma {:induction false} PostedIsKept(cfg: W.Config, es: seq<W.Event>, j: nat, c: R.ConnId)
    requires W.ConfigOk(cfg) && j <= |es| && c in W.Exec(cfg, W.Init(), es[..j]).sess
    ensures var r := W.Exec(cfg, W.Init(), es);
            c in r.sess && PostedOf(Every, W.Exec(cfg, W.Init(), es[..j]).sess[c]) <= PostedOf(Every, r.sess[c])
    decreases |es| - j
  {
    if j == |es| {
      assert es[..j] == es;
    } else {
      var init := es[..|es| - 1];
      assert init[..j] == es[..j];
      PostedIsKept(cfg, init, j, c);
      W.ReachableInv(cfg, init);
      WorldStepKeepsPosted(cfg, W.Exec(cfg, W.Init(), init), es[|es| - 1], c);
    }
  }

  lemma {:induction false} NoNoticePosted(flow: Q.Flow, qs: seq<Q.Event>)
    requires Q.OrdinaryRun(qs)
    ensures forall f :: f in PostedOf(Every, Q.Exec(flow, Q.Init(), qs)) ==> !f.content.Kick?
  {
    if qs == [] {
      assert SentFrames([]) + WaitingFrames([]) == [];
    } else {
      NoNoticePosted(flow, qs[..|qs| - 1]);
      SessionKeepsPosted(Every, flow, Q.Exec(flow, Q.Init(), qs[..|qs| - 1]), qs[|qs| - 1]);
    }
  }

  lemma {:induction false} RepliesAside(fs: seq<Frame>)
    requires Pick(ServerReply, fs) == [] && forall f :: f in fs ==> !f.content.Kick?
    ensures Pick(Delivery, fs) == fs
  {
    if fs != [] {
      RepliesAside(fs[..|fs| - 1]);
      assert fs == fs[..|fs| - 1] + [fs[|fs| - 1]];
    }
  }

  /** Until a reply is posted to it, exactly the copies it was chosen for are. */
  lemma OnlyCopiesPosted(cfg: W.Config, es: seq<W.Event>, c: R.ConnId)
    requires W.ConfigOk(cfg) && c in W.Exec(cfg, W.Init(), es).sess
    requires PostedOf(ServerReply, W.Exec(cfg, W.Init(), es).sess[c]) == []
    ensures var w := W.Exec(cfg, W.Init(), es); PostedOf(Every, w.sess[c]) == W.CopiesFor(w.routed, c)
  {
    var s := W.Exec(cfg, W.Init(), es).sess[c];
    var qs := EachSessionHasItsRun(cfg, es, c);
    NoNoticePosted(cfg.flow, qs);
    W.ReachableInv(cfg, es);
    var fs := SentFrames(s.sends) + WaitingFrames(s.mailbox);
    PickEvery(fs);
    RepliesAside(fs);
  }

  ghost predicate Chosen(routed: seq<W.Decision>, c: R.ConnId) {
    exists t :: 0 <= t < |routed| && c in routed[t].recipients
  }

  /** Decision number `t` chose the connection, and its copy fits the send queue. */
  predicate Overtakes(cfg: W.Config, t: nat, d: W.Decision, c: R.ConnId) {
    c in d.recipients && W.Copy(t, d, c).size <= cfg.flow.highWater
  }

  ghost predicate Overtaken(cfg: W.Config, routed: seq<W.Decision>, c: R.ConnId) {
    exists t :: 0 <= t < |routed| && Overtakes(cfg, t, routed[t], c)
  }

  lemma OvertakenSnoc(cfg: W.Config, routed: seq<W.Decision>, c: R.ConnId)
    requires routed != []
    ensures var n := |routed| - 1;
            Overtaken(cfg, routed, c) <==> Overtaken(cfg, routed[..n], c) || Overtakes(cfg, n, routed[n], c)
  {
    var n := |routed| - 1;
    var earlier := routed[..n];
    if Overtaken(cfg, routed, c) {
      var t :| 0 <= t < |routed| && Overtakes(cfg, t, routed[t], c);
      assert t < n ==> earlier[t] == routed[t];
    }
    if Overtaken(cfg, earlier, c) {
      var t :| 0 <= t < n && Overtakes(cfg, t, earlier[t], c);
      assert routed[t] == earlier[t];
    }
  }

  lemma {:induction false} FittingCopyIffOvertaken(cfg: W.Config, routed: seq<W.Decision>, c: R.ConnId)
    ensures var first := FirstFit(cfg.flow, W.CopiesFor(routed, c));
            (first.Some? <==> Overtaken(cfg, routed, c)) && (first.Some? ==> first.value.content.Deliver?)
  {
    if routed != [] {
      var n := |routed| - 1;
      FittingCopyIffOvertaken(cfg, routed[..n], c);
      OvertakenSnoc(cfg, routed, c);
      if c in routed[n].recipients {
        FirstFitSnoc(cfg.flow, W.CopiesFor(routed[..n], c), W.Copy(n, routed[n], c));
      }
    }
  }

  /** What is posted to a connection whose first reply is posted at event `j` begins with the
      copies made by then, followed by that reply. */
  lemma PostedUpToReply(cfg: W.Config, es: seq<W.Event>, j: nat, c: R.ConnId, reply: Frame)
    requires W.ConfigOk(cfg) && j < |es| && reply.content.Reply?
    requires es[j] == W.OnSession(c, Q.Posted(Q.SendTask(reply)))
    requires var w := W.Exec(cfg, W.Init(), es[..j]); c in w.sess && PostedOf(ServerReply, w.sess[c]) == []
    ensures var r := W.Exec(cfg, W.Init(), es);
            && c in r.sess
            && W.CopiesFor(W.Exec(cfg, W.Init(), es[..j]).routed, c) + [reply] <= PostedOf(Every, r.sess[c])
  {
    var w := W.Exec(cfg, W.Init(), es[..j]);
    OnlyCopiesPosted(cfg, es[..j], c);
    assert es[..j + 1] == es[..j] + [es[j]];
    WorldSnoc(cfg, W.Init(), es[..j], es[j]);
    PostKeepsPosted(Every, w.sess[c], Q.SendTask(reply));
    PostedIsKept(cfg, es, j + 1, c);
  }

  lemma FirstFitUpToReply(cfg: W.Config, routed: seq<W.Decision>, c: R.ConnId, reply: Frame, posted: seq<Frame>)
    requires W.CopiesFor(routed, c) + [reply] <= posted
    ensures var first := FirstFit(cfg.flow, posted);
            if Overtaken(cfg, routed, c) then first.Some? && first.value.content.Deliver?
            else reply.size <= cfg.flow.highWater ==> first == Some(reply)
  {
    var copies := W.CopiesFor(routed, c);
    FittingCopyIffOvertaken(cfg, routed, c);
    FirstFitSnoc(cfg.flow, copies, reply);
    if FirstFit(cfg.flow, copies + [reply]).Some? { FirstFitStays(cfg.flow, copies + [reply], posted); }
  }

  /** When sign-on succeeds, in every run of the whole server.  Let the first reply posted to a
      connection be the positive answer to its login, and let something other than a kick notice
      be written to it.  Sign-on fails on a delivery if some routing decision made before that
      reply was posted chose the connection and its copy fits the send queue; otherwise it gets
      its answer, if that fits. */
  lemma SignOnSucceedsUnlessOvertaken(cfg: W.Config, es: seq<W.Event>, j: nat,
                                      c: R.ConnId, reply: Frame, pre: seq<Content>)
    requires W.ConfigOk(cfg) && j < |es| && LoginOk(reply.content)
    requires es[j] == W.OnSession(c, Q.Posted(Q.SendTask(reply)))
    requires var w := W.Exec(cfg, W.Init(), es[..j]); c in w.sess && PostedOf(ServerReply, w.sess[c]) == []
    requires c in W.Exec(cfg, W.Init(), es).sess
    requires var s := W.Exec(cfg, W.Init(), es).sess[c]; s.completed != [] && !s.completed[0].content.Kick?
    ensures var r := Await(ForLogin, pre, Inbox(W.Exec(cfg, W.Init(), es).sess[c].completed)).result;
            if Overtaken(cfg, W.Exec(cfg, W.Init(), es[..j]).routed, c) then r == Failed(EarlyDelivery)
            else reply.size <= cfg.flow.highWater ==> r == Done(reply.content)
  {
    PostedUpToReply(cfg, es, j, c, reply);
    var posted := PostedOf(Every, W.Exec(cfg, W.Init(), es).sess[c]);
    FirstFitUpToReply(cfg, W.Exec(cfg, W.Init(), es[..j]).routed, c, reply, posted);
    SignOnOnTheServer(cfg, es, c, pre);
  }

  // ---------------------------------------------------------------- runs

  /** A delivery overtakes: with nothing posted yet to a connection, a routing decision makes
      a delivery its first frame exactly when the connection is one of the recipients. */
  lemma DeliveryOvertakesIff(cfg: W.Config, w: W.World, c: R.ConnId, e: W.Event)
    requires c in w.sess && PostedOf(Every, w.sess[c]) == [] && e.Routed?
    ensures var r := W.Step(cfg, w, e); c in r.sess
    ensures var p := PostedOf(Every, W.Step(cfg, w, e).sess[c]);
            p != [] && p[0].content.Deliver? <==> c in R.Recipients(cfg.pol, w.reg, e.uid)
  {
    var d := W.DecisionOf(cfg, w, e);
    PostKeepsPosted(Every, w.sess[c], Q.SendTask(W.Copy(|w.routed|, d, c)));
  }

  lemma RegistryAfterLogin(pol: R.Policy, s: R.State, uid: R.Uid)
    requires R.PolicyOk(pol) && s.deques == map[uid := [1]] && s.modes == map[uid := R.Broadcast] && s.open == {1}
    ensures R.Recipients(pol, s, uid) == [1]
  {
    assert R.Deque(s, uid) == [1];
    assert Sel([1], {1}) == [1] by { assert [1][..0] == [] && Sel([], {1}) == []; }
  }

  lemma LoginOfTheFirst(pol: R.Policy, uid: R.Uid, now: int)
    requires R.PolicyOk(pol)
    ensures var s := R.Login(pol, R.Accept(R.Init()), 1, uid, R.Broadcast, now);
            s.deques == map[uid := [1]] && s.modes == map[uid := R.Broadcast] && s.open == {1}
  {
    var s := R.Accept(R.Init());
    assert R.Deque(s, uid) + [1] == [1];
    assert [1][0..] == [1];
  }

  lemma FirstConnection(cfg: W.Config, uid: R.Uid, now: int)
    ensures var w := W.Step(cfg, W.Init(), W.Accepted);
            W.Step(cfg, w, W.OnRegistry(R.LoggedIn(1, uid, R.Broadcast, now)))
            == W.World(R.Login(cfg.pol, R.Accept(R.Init()), 1, uid, R.Broadcast, now), map[1 := Q.Init()], [])
  {
  }

  /** The window is real: right after a login is registered the connection is a recipient,
      while nothing, and so no login reply, has been posted to it. */
  lemma RegisteredBeforeReply(cfg: W.Config, uid: R.Uid, now: int) returns (es: seq<W.Event>)
    requires W.ConfigOk(cfg)
    ensures |es| == 2
    ensures var w := W.Exec(cfg, W.Init(), es);
            && w.sess == map[1 := Q.Init()] && PostedOf(Every, Q.Init()) == [] && w.routed == []
            && R.Recipients(cfg.pol, w.reg, uid) == [1]
  {
    var login := W.OnRegistry(R.LoggedIn(1, uid, R.Broadcast, now));
    es := [] + [W.Accepted] + [login];
    WorldSnoc(cfg, W.Init(), [], W.Accepted);
    WorldSnoc(cfg, W.Init(), [] + [W.Accepted], login);
    FirstConnection(cfg, uid, now);
    LoginOfTheFirst(cfg.pol, uid, now);
    RegistryAfterLogin(cfg.pol, W.Exec(cfg, W.Init(), es).reg, uid);
    assert SentFrames([]) + WaitingFrames([]) == [];
  }

  /** Two frames posted to an idle session; the strand runs once and the write completes. */
  lemma FirstFrameOut(flow: Q.Flow, f: Frame, g: Frame)
    requires Q.FlowOk(flow) && f.size <= flow.highWater
    ensures Q.Complete(Q.RunNext(flow, Q.Post(Q.Post(Q.Init(), Q.SendTask(f)), Q.SendTask(g))),
                       0, true).completed == [f]
  {
    var s := Q.Post(Q.Post(Q.Init(), Q.SendTask(f)), Q.SendTask(g));
    assert s.mailbox[0] == Q.SendTask(f);
    var r := Q.RunNext(flow, s);
    assert r.outstanding == [f];
  }

  /** One event of the session of connection 1. */
  lemma SessionEvent(cfg: W.Config, es: seq<W.Event>, s: Q.Session, e: Q.Event)
    requires W.Local(e)
    requires var w := W.Exec(cfg, W.Init(), es); w.sess == map[1 := s]
    ensures W.Exec(cfg, W.Init(), es + [W.OnSession(1, e)]).sess == map[1 := Q.Step(cfg.flow, s, e)]
  {
    WorldSnoc(cfg, W.Init(), es, W.OnSession(1, e));
  }

  lemma DeliveryPosted(cfg: W.Config, es: seq<W.Event>, e: W.Event)
    requires e.Routed?
    requires var w := W.Exec(cfg, W.Init(), es);
             w.sess == map[1 := Q.Init()] && w.routed == [] && R.Recipients(cfg.pol, w.reg, e.uid) == [1]
    ensures var f := W.Copy(0, W.Decision(e.uid, e.seqNo, e.payload, e.srcConn, e.srcName, e.dstName, [1]), 1);
            var r := W.Exec(cfg, W.Init(), es + [e]);
            && r.sess == map[1 := Q.Post(Q.Init(), Q.SendTask(f))]
            && |r.routed| == 1 && r.routed[0].recipients == [1]
  {
    WorldSnoc(cfg, W.Init(), es, e);
  }

  /** The failing run, for every delivery that fits the queue: a connection logs in, a payload
      for the user is routed, the login is answered, and the peer's sign-on throws. */
  lemma SignOnFails(cfg: W.Config, e: W.Event, reply: Frame, now: int) returns (es: seq<W.Event>)
    requires W.ConfigOk(cfg) && e.Routed? && LoginOk(reply.content)
    requires W.Copy(0, W.Decision(e.uid, e.seqNo, e.payload, e.srcConn, e.srcName, e.dstName, [1]), 1).size
             <= cfg.flow.highWater
    ensures |es| > 3 && es[3] == W.OnSession(1, Q.Posted(Q.SendTask(reply)))
    ensures var w := W.Exec(cfg, W.Init(), es);
            && 1 in w.sess && w.sess[1].completed != []
            && Await(ForLogin, [], Inbox(w.sess[1].completed)).result == Failed(EarlyDelivery)
  {
    var f := W.Copy(0, W.Decision(e.uid, e.seqNo, e.payload, e.srcConn, e.srcName, e.dstName, [1]), 1);
    var s1 := Q.Post(Q.Init(), Q.SendTask(f));
    var s2 := Q.Post(s1, Q.SendTask(reply));
    var e2 := RegisteredBeforeReply(cfg, e.uid, now);
    DeliveryPosted(cfg, e2, e);
    SessionEvent(cfg, e2 + [e], s1, Q.Posted(Q.SendTask(reply)));
    var e4 := e2 + [e] + [W.OnSession(1, Q.Posted(Q.SendTask(reply)))];
    SessionEvent(cfg, e4, s2, Q.RanNext);
    var e5 := e4 + [W.OnSession(1, Q.RanNext)];
    SessionEvent(cfg, e5, Q.RunNext(cfg.flow, s2), Q.Completed(0, true));
    es := e5 + [W.OnSession(1, Q.Completed(0, true))];
    FirstFrameOut(cfg.flow, f, reply);
    DeliveryFirstFails(f);
  }

  lemma DeliveryFirstFails(f: Frame)
    requires f.content.Deliver?
    ensures Await(ForLogin, [], Inbox([f])).result == Failed(EarlyDelivery)
  {
  }

  /** A frame that does not fit is dropped, and the next one is written. */
  lemma SecondFrameOut(flow: Q.Flow, f: Frame, g: Frame)
    requires Q.FlowOk(flow) && g.size <= flow.highWater < f.size
    ensures var s := Q.Post(Q.Post(Q.Init(), Q.SendTask(f)), Q.SendTask(g));
            Q.Complete(Q.RunNext(flow, Q.RunNext(flow, s)), 0, true).completed == [g]
  {
    var s := Q.Post(Q.Post(Q.Init(), Q.SendTask(f)), Q.SendTask(g));
    assert s.mailbox == [Q.SendTask(f), Q.SendTask(g)];
    var s1 := Q.RunNext(flow, s);
    assert s1.mailbox[0] == Q.SendTask(g) && s1.queue == [] && !s1.stopped && !s1.kickPending && !s1.writing;
    var s2 := Q.RunNext(flow, s1);
    assert s2.outstanding == [g];
  }

  /** Being chosen is not enough: a copy above the high-water mark is dropped, and sign-on gets
      its answer although the delivery was posted before it. */
  lemma ChosenYetSucceeds(cfg: W.Config, e: W.Event, reply: Frame, now: int) returns (es: seq<W.Event>)
    requires W.ConfigOk(cfg) && e.Routed? && LoginOk(reply.content)
    requires var d := W.Decision(e.uid, e.seqNo, e.payload, e.srcConn, e.srcName, e.dstName, [1]);
             reply.size <= cfg.flow.highWater < W.Copy(0, d, 1).size
    ensures |es| > 3 && es[3] == W.OnSession(1, Q.Posted(Q.SendTask(reply)))
    ensures var routed := W.Exec(cfg, W.Init(), es[..3]).routed; |routed| == 1 && 1 in routed[0].recipients
    ensures var w := W.Exec(cfg, W.Init(), es);
            && 1 in w.sess && w.sess[1].completed != []
            && Await(ForLogin, [], Inbox(w.sess[1].completed)).result == Done(reply.content)
  {
    var f := W.Copy(0, W.Decision(e.uid, e.seqNo, e.payload, e.srcConn, e.srcName, e.dstName, [1]), 1);
    var s1 := Q.Post(Q.Init(), Q.SendTask(f));
    var s2 := Q.Post(s1, Q.SendTask(reply));
    var e2 := RegisteredBeforeReply(cfg, e.uid, now);
    DeliveryPosted(cfg, e2, e);
    SessionEvent(cfg, e2 + [e], s1, Q.Posted(Q.SendTask(reply)));
    var e4 := e2 + [e] + [W.OnSession(1, Q.Posted(Q.SendTask(reply)))];
    SessionEvent(cfg, e4, s2, Q.RanNext);
    var e5 := e4 + [W.OnSession(1, Q.RanNext)];
    SessionEvent(cfg, e5, Q.RunNext(cfg.flow, s2), Q.RanNext);
    var e6 := e5 + [W.OnSession(1, Q.RanNext)];
    SessionEvent(cfg, e6, Q.RunNext(cfg.flow, Q.RunNext(cfg.flow, s2)), Q.Completed(0, true));
    es := e6 + [W.OnSession(1, Q.Completed(0, true))];
    assert es[..3] == e2 + [e];
    SecondFrameOut(cfg.flow, f, reply);
    LoginFirstSucceeds(reply);
  }

  lemma LoginFirstSucceeds(f: Frame)
    requires LoginOk(f.content)
    ensures Await(ForLogin, [], Inbox([f])).result == Done(f.content)
  {
  }
}
