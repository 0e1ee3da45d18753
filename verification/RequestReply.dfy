/** One signed-on client and the server, end to end: requests travel in order, the server
    handles them one at a time, its answers pass through the session's send queue, where they
    may be dropped or cut off by a kick, and the client reads what was written.

    The client's calls always wait for their reply; a background thread sends heartbeats at any
    moment; deliveries, kicks and stops reach the session from elsewhere at any moment.
 */
module RequestReply {
  import opened Options
  import opened Wire
  import opened Posted
  import opened ClientSpec
  import Q = SendQueue
  import H = Handler

  datatype Handled = Handled(request: H.Request, answers: H.Answers)

  /** How a call ended: what it waited for, the position of its request among those sent, the
      frame that ended it, and its result. */
  datatype CallEnd = CallEnd(wait: Wait, call: nat, last: Option<Content>, result: Result)

  datatype System = System(
    up: seq<H.Request>,        // sent and not yet handled
    sess: Q.Session,
    pos: nat,                  // frames the client has read
    wait: Option<Wait>,        // the call in progress
    dead: bool,                // the client has seen a kick or the end of the stream
    seqNo: nat,
    // histories
    sent: seq<H.Request>,
    handled: seq<Handled>,
    call: nat,                 // position in `sent` of the latest call's request
    results: seq<CallEnd>)

  datatype Setup = Setup(flow: Q.Flow, isAdmin: bool)

  /** Just after sign-on: the login took the first number, its reply has been read, nothing is
      outstanding.  Histories start here. */
  function Init(): System {
    System([], Q.Init(), 0, None, false, NextSeq(1), [], [], 0, [])
  }

  // ---------------------------------------------------------------- steps

  datatype Event =
    | CallSend(dst: string, payload: string)
    | CallControl(body: H.Body)
    | CallHeartbeat
    | CallRecvDeliver
    | AutoHeartbeat
    | ServerHandles(answers: H.Answers, len: nat)
    | OnSession(step: Q.Event)
    | ClientReads
    | ClientMeetsEnd

  function Send(s: System, msgType: nat, body: H.Body): System {
    var q := H.Request(msgType, NextSeq(s.seqNo), body);
    s.(seqNo := NextSeq(s.seqNo), up := s.up + [q], sent := s.sent + [q])
  }

  /** A call that waits for a reply. */
  function BeginCall(s: System, msgType: nat, body: H.Body, w: Wait): System {
    Send(s, msgType, body).(wait := Some(w), call := |s.sent|)
  }

  /** Everything but replies: those come only from this client's own frames. */
  predicate FromElsewhere(e: Q.Event) {
    e.Posted? ==> Q.Ordinary(e.task) && (e.task.SendTask? ==> e.task.frame.content.Deliver?)
  }

  /** The effects of a frame that concern the session it came from. */
  function PostEffects(sess: Q.Session, es: seq<H.Effect>, len: nat): Q.Session {
    if es == [] then sess
    else
      var s := PostEffects(sess, es[..|es| - 1], len);
      match es[|es| - 1]
      case Answer(n, ok, op, _) => Q.Post(s, Q.SendTask(Pack(Reply(n, ok, op, len))))
      case Stop => Q.Post(s, Q.StopTask)
      case _ => s
  }

  function EffectsOf(setup: Setup, h: Handled): seq<H.Effect> {
    H.Handle(H.View(true, setup.isAdmin), h.request, h.answers)
  }

  function ServerStep(setup: Setup, s: System, a: H.Answers, len: nat): System {
    if s.up == [] then s
    else
      var h := Handled(s.up[0], a);
      s.(up := s.up[1..], sess := PostEffects(s.sess, EffectsOf(setup, h), len), handled := s.handled + [h])
  }

  function Ended(s: System, last: Option<Content>, r: Result): System
    requires s.wait.Some?
  {
    s.(wait := None, results := s.results + [CallEnd(s.wait.value, s.call, last, r)])
  }

  function ReadStep(s: System): System {
    if s.dead || s.wait.None? || s.pos >= |s.sess.completed| then s
    else
      var c := s.sess.completed[s.pos].content;
      var s1 := s.(pos := s.pos + 1, dead := c.Kick?);
      match OnEvent(s.wait.value, c)
      case Skip => s1
      case Stash => s1
      case Return => Ended(s1, Some(c), Done(c))
      case Throw(why) => Ended(s1, Some(c), Failed(why))
  }

  function EndStep(s: System): System {
    if s.dead || s.wait.None? then s
    else Ended(s.(dead := true), None, Failed(Eof))
  }

  function Step(setup: Setup, s: System, e: Event): System {
    var idle := s.wait.None? && !s.dead;
    match e
    case CallSend(dst, payload) =>
      if !idle then s
      else
        var body := H.Map([H.Entry(H.Str("dst_username"), H.Str(dst)), H.Entry(H.Str("payload"), H.Bin(payload))]);
        BeginCall(s, H.DATA, body, ForAck(NextSeq(s.seqNo), "DATA"))
    case CallControl(body) =>
      if !idle then s else BeginCall(s, H.CONTROL, body, ForControl(NextSeq(s.seqNo)))
    case CallHeartbeat =>
      if !idle then s else BeginCall(s, H.HEARTBEAT, H.Map([]), ForHeartbeat(NextSeq(s.seqNo)))
    case CallRecvDeliver => if !idle then s else s.(wait := Some(ForDelivery))
    case AutoHeartbeat => Send(s, H.HEARTBEAT, H.Map([]))
    case ServerHandles(a, len) => ServerStep(setup, s, a, len)
    case OnSession(step) => if FromElsewhere(step) then s.(sess := Q.Step(setup.flow, s.sess, step)) else s
    case ClientReads => ReadStep(s)
    case ClientMeetsEnd => EndStep(s)
  }

  function Exec(setup: Setup, es: seq<Event>): System {
    if es == [] then Init()
    else Step(setup, Exec(setup, es[..|es| - 1]), es[|es| - 1])
  }

  // ---------------------------------------------------------------- answers, in request order

  /** What a handled frame was answered with, if it was answered. */
  function AnswerTo(setup: Setup, h: Handled): seq<Content> {
    var es := EffectsOf(setup, h);
    if es != [] && es[|es| - 1].Answer? then [Reply(es[|es| - 1].seqNo, es[|es| - 1].ok, es[|es| - 1].op, 0)] else []
  }

  function RequestsOf(hs: seq<Handled>): seq<H.Request> {
    seq(|hs|, i requires 0 <= i < |hs| => hs[i].request)
  }

  function AnswersTo(setup: Setup, hs: seq<Handled>): seq<Content> {
    if hs == [] then []
    else AnswersTo(setup, hs[..|hs| - 1]) + AnswerTo(setup, hs[|hs| - 1])
  }

  /** Replies without the length of their body. */
  function Bare(fs: seq<Frame>): seq<Content> {
    seq(|fs|, i requires 0 <= i < |fs| =>
      if fs[i].content.Reply? then fs[i].content.(len := 0) else fs[i].content)
  }

  lemma {:induction false} QuietEffectsPostNothing(sess: Q.Session, es: seq<H.Effect>, len: nat)
    requires forall i :: 0 <= i < |es| ==> !es[i].Stop? && !es[i].Answer?
    ensures PostEffects(sess, es, len) == sess
  {
    if es != [] { QuietEffectsPostNothing(sess, es[..|es| - 1], len); }
  }

  /** However many effects a frame has, its session gets one task: the answer, or a stop. */
  lemma OneTaskPerFrame(setup: Setup, sess: Q.Session, h: Handled, len: nat) returns (t: Q.Task)
    ensures PostEffects(sess, EffectsOf(setup, h), len) == Q.Post(sess, t)
    ensures if h.request.body.Map? then
              && t.SendTask? && t.frame.content.Reply? && t.frame.content.seqNo == h.request.seqNo
              && AnswerTo(setup, h) == [t.frame.content.(len := 0)]
              && (h.request.msgType == H.HEARTBEAT ==> IsHeartbeatOk(t.frame.content))
              && (h.request.msgType != H.HEARTBEAT && t.frame.content.ok ==>
                    || (h.request.msgType == H.DATA && t.frame.content.op == "DATA")
                    || (h.request.msgType == H.CONTROL && t.frame.content.op == "CONTROL"))
            else t == Q.StopTask && AnswerTo(setup, h) == []
  {
    var v := H.View(true, setup.isAdmin);
    var es := EffectsOf(setup, h);
    H.OneAnswerOrStop(v, h.request, h.answers);
    if h.request.body.Map? { H.AnswerNamesOperation(v, h.request, h.answers); }
    QuietEffectsPostNothing(sess, es[..|es| - 1], len);
    t := PostEffects(sess, es, len).mailbox[|sess.mailbox|];
  }

  // ---------------------------------------------------------------- what is outstanding

  predicate IsCall(q: H.Request) {
    q.msgType == H.DATA || q.msgType == H.CONTROL
  }

  function Calls(qs: seq<H.Request>): seq<H.Request> {
    if qs == [] then []
    else if IsCall(qs[0]) then [qs[0]] + Calls(qs[1..]) else Calls(qs[1..])
  }

  lemma {:induction false} CallsSnoc(qs: seq<H.Request>, q: H.Request)
    ensures Calls(qs + [q]) == Calls(qs) + (if IsCall(q) then [q] else [])
  {
    if qs != [] {
      assert (qs + [q])[1..] == qs[1..] + [q];
      CallsSnoc(qs[1..], q);
    }
  }

  /** Replies to calls that the client may still come to read. */
  function Unread(sess: Q.Session, pos: nat): seq<Frame>
    requires pos <= |Q.AcceptedOf(sess.sends)|
  {
    Pick(Solicited, Q.AcceptedOf(sess.sends)[pos..] + WaitingFrames(sess.mailbox))
  }

  predicate Awaits(w: Option<Wait>, n: nat, msgType: nat) {
    match w
    case Some(ForAck(m, op)) => n == m && op == "DATA" && msgType == H.DATA
    case Some(ForControl(m)) => n == m && msgType == H.CONTROL
    case _ => false
  }

  /** A reply that the call in progress accepts or reports as a refusal. */
  predicate Expected(w: Option<Wait>, c: Content) {
    && c.Reply?
    && (Awaits(w, c.seqNo, H.DATA) || Awaits(w, c.seqNo, H.CONTROL))
    && (c.ok ==> c.op == (if Awaits(w, c.seqNo, H.DATA) then "DATA" else "CONTROL"))
  }

  predicate WellFormedRequest(q: H.Request) {
    && (q.msgType == H.HEARTBEAT || IsCall(q))
    && (q.msgType == H.HEARTBEAT ==> q.body.Map?)
  }

  /** At most one call is outstanding anywhere between the two ends, and it is the one in
      progress. */
  ghost predicate OneOutstanding(sess: Q.Session, pos: nat, up: seq<H.Request>, wait: Option<Wait>) {
    && pos <= |Q.AcceptedOf(sess.sends)|
    && |Unread(sess, pos)| + |Calls(up)| <= 1
    && (forall i :: 0 <= i < |Unread(sess, pos)| ==> Expected(wait, Unread(sess, pos)[i].content))
    && (forall i :: 0 <= i < |Calls(up)| ==> Awaits(wait, Calls(up)[i].seqNo, Calls(up)[i].msgType))
  }

  predicate Honest(r: Result) {
    r.Failed? ==> r.why == Eof || r.why == Kicked || r.why == Refused
  }

  /** The server side: answers posted are the answers owed, requests are handled in order. */
  ghost predicate ServerInv(setup: Setup, s: System) {
    && Q.Inv(setup.flow, s.sess) && Q.OrdinaryInv(s.sess)
    && Bare(PostedOf(ServerReply, s.sess)) == AnswersTo(setup, s.handled)
    && RequestsOf(s.handled) + s.up == s.sent
    && (forall i :: 0 <= i < |s.up| ==> WellFormedRequest(s.up[i]))
  }

  /** The client side: it never runs into a reply that is not its own. */
  ghost predicate ClientInv(s: System) {
    && (!s.dead ==> OneOutstanding(s.sess, s.pos, s.up, s.wait))
    && (s.wait.Some? ==> !s.wait.value.ForLogin?)
    && (forall i :: 0 <= i < |s.results| ==> Honest(s.results[i].result))
  }

  ghost predicate Inv(setup: Setup, s: System) {
    ServerInv(setup, s) && ClientInv(s)
  }

  // ---------------------------------------------------------------- session steps

  /** Session steps may lose an unread reply, never add one. */
  lemma RunKeepsUnread(flow: Q.Flow, s: Q.Session, pos: nat)
    requires pos <= |Q.AcceptedOf(s.sends)|
    ensures var r := Q.RunNext(flow, s);
            && pos <= |Q.AcceptedOf(r.sends)|
            && |Unread(r, pos)| <= |Unread(s, pos)|
            && (forall f :: f in Unread(r, pos) ==> f in Unread(s, pos))
  {
    if s.mailbox != [] {
      var s1 := s.(mailbox := s.mailbox[1..]);
      var acc, rest := Q.AcceptedOf(s.sends), WaitingFrames(s1.mailbox);
      WaitingCons(s.mailbox);
      match s.mailbox[0] {
        case SendTask(f) =>
          SendKeepsUnread(flow, s1, f, pos);
          PickConcat(Solicited, acc[pos..], [f] + rest);
          PickConcat(Solicited, [f], rest);
          PickConcat(Solicited, acc[pos..], rest);
        case KickTask(f) =>
          KickLeavesMail(s1, f);
          assert [] + rest == rest;
        case StopTask =>
          assert [] + rest == rest;
      }
    }
  }

  lemma SendKeepsUnread(flow: Q.Flow, s: Q.Session, f: Frame, pos: nat)
    requires pos <= |Q.AcceptedOf(s.sends)|
    ensures var r := Q.RunSend(flow, s, f);
            && pos <= |Q.AcceptedOf(r.sends)|
            && (|| Unread(r, pos) == Unread(s, pos)
                || Unread(r, pos) == Pick(Solicited, Q.AcceptedOf(s.sends)[pos..] + ([f] + WaitingFrames(s.mailbox))))
  {
    var r := Q.RunSend(flow, s, f);
    var v := Q.SendLogsOnce(flow, s, f);
    Q.LogUnfolds(s.sends, Q.Sent(f, v));
    WaitingSnoc(s.mailbox, Q.StopTask);
    assert WaitingFrames(r.mailbox) == WaitingFrames(s.mailbox);
    if v == Q.Accepted {
      var acc := Q.AcceptedOf(s.sends);
      assert (acc + [f])[pos..] + WaitingFrames(s.mailbox) == acc[pos..] + ([f] + WaitingFrames(s.mailbox));
    }
  }

  lemma PostKeepsUnread(s: Q.Session, t: Q.Task, pos: nat)
    requires pos <= |Q.AcceptedOf(s.sends)|
    ensures Unread(Q.Post(s, t), pos) ==
            Unread(s, pos) + (if t.SendTask? && IsKind(Solicited, t.frame) then [t.frame] else [])
  {
    WaitingSnoc(s.mailbox, t);
    var acc, rest := Q.AcceptedOf(s.sends)[pos..], WaitingFrames(s.mailbox);
    if t.SendTask? {
      assert acc + (rest + [t.frame]) == (acc + rest) + [t.frame];
      PickSnoc(Solicited, acc + rest, t.frame);
    }
  }

  lemma SessionKeepsUnread(flow: Q.Flow, s: Q.Session, e: Q.Event, pos: nat)
    requires pos <= |Q.AcceptedOf(s.sends)| && FromElsewhere(e)
    ensures var r := Q.Step(flow, s, e);
            && pos <= |Q.AcceptedOf(r.sends)|
            && |Unread(r, pos)| <= |Unread(s, pos)|
            && (forall f :: f in Unread(r, pos) ==> f in Unread(s, pos))
  {
    match e {
      case Posted(t) => PostKeepsUnread(s, t, pos);
      case RanNext => RunKeepsUnread(flow, s, pos);
      case Completed(i, ok) =>
        Q.CompletionKeepsLog(s, i, ok);
        WaitingSnoc(s.mailbox, Q.StopTask);
      case SocketClosed =>
    }
  }

  // ---------------------------------------------------------------- system steps

  lemma NothingOutstandingWhenIdle(s: System)
    requires OneOutstanding(s.sess, s.pos, s.up, s.wait) && forall n, t :: !Awaits(s.wait, n, t)
    ensures Unread(s.sess, s.pos) == [] && Calls(s.up) == []
  {
    assert Unread(s.sess, s.pos) != [] ==> Expected(s.wait, Unread(s.sess, s.pos)[0].content);
    assert Calls(s.up) != [] ==> Awaits(s.wait, Calls(s.up)[0].seqNo, Calls(s.up)[0].msgType);
  }

  lemma SendKeepsServerInv(setup: Setup, s: System, msgType: nat, body: H.Body)
    requires ServerInv(setup, s) && WellFormedRequest(H.Request(msgType, NextSeq(s.seqNo), body))
    ensures ServerInv(setup, Send(s, msgType, body))
  {
    var q := H.Request(msgType, NextSeq(s.seqNo), body);
    assert RequestsOf(s.handled) + (s.up + [q]) == (RequestsOf(s.handled) + s.up) + [q];
  }

  lemma CallKeepsInv(setup: Setup, s: System, msgType: nat, body: H.Body, w: Wait)
    requires Inv(setup, s) && s.wait.None? && !s.dead
    requires WellFormedRequest(H.Request(msgType, NextSeq(s.seqNo), body)) && !w.ForLogin?
    requires IsCall(H.Request(msgType, NextSeq(s.seqNo), body)) ==> Awaits(Some(w), NextSeq(s.seqNo), msgType)
    ensures Inv(setup, BeginCall(s, msgType, body, w))
  {
    NothingOutstandingWhenIdle(s);
    CallsSnoc(s.up, H.Request(msgType, NextSeq(s.seqNo), body));
    SendKeepsServerInv(setup, s, msgType, body);
  }

  lemma AutoHeartbeatKeepsInv(setup: Setup, s: System)
    requires Inv(setup, s)
    ensures Inv(setup, Send(s, H.HEARTBEAT, H.Map([])))
  {
    CallsSnoc(s.up, H.Request(H.HEARTBEAT, NextSeq(s.seqNo), H.Map([])));
    SendKeepsServerInv(setup, s, H.HEARTBEAT, H.Map([]));
  }

  lemma SessionKeepsInv(setup: Setup, s: System, e: Q.Event)
    requires Q.FlowOk(setup.flow) && Inv(setup, s) && FromElsewhere(e)
    ensures Inv(setup, s.(sess := Q.Step(setup.flow, s.sess, e)))
  {
    var r := Q.Step(setup.flow, s.sess, e);
    Q.StepKeepsInv(setup.flow, s.sess, e);
    Q.OrdinaryStep(setup.flow, s.sess, e);
    SessionKeepsPosted(ServerReply, setup.flow, s.sess, e);
    if !s.dead {
      SessionKeepsUnread(setup.flow, s.sess, e, s.pos);
      forall i | 0 <= i < |Unread(r, s.pos)| ensures Expected(s.wait, Unread(r, s.pos)[i].content) {
        assert Unread(r, s.pos)[i] in Unread(s.sess, s.pos);
      }
    }
  }

  lemma PostKeepsSession(setup: Setup, sess: Q.Session, t: Q.Task)
    requires Q.FlowOk(setup.flow) && Q.Inv(setup.flow, sess) && Q.OrdinaryInv(sess) && Q.Ordinary(t)
    ensures Q.Inv(setup.flow, Q.Post(sess, t)) && Q.OrdinaryInv(Q.Post(sess, t))
  {
    Q.StepKeepsInv(setup.flow, sess, Q.Posted(t));
    Q.OrdinaryStep(setup.flow, sess, Q.Posted(t));
  }

  lemma AnswersSnoc(setup: Setup, hs: seq<Handled>, h: Handled)
    ensures AnswersTo(setup, hs + [h]) == AnswersTo(setup, hs) + AnswerTo(setup, h)
    ensures RequestsOf(hs + [h]) == RequestsOf(hs) + [h.request]
  {
    assert (hs + [h])[..|hs|] == hs;
  }

  lemma BareSnoc(fs: seq<Frame>, f: Frame)
    requires f.content.Reply?
    ensures Bare(fs + [f]) == Bare(fs) + [f.content.(len := 0)]
  {
  }

  lemma HandlingKeepsReplies(setup: Setup, sess: Q.Session, hs: seq<Handled>, h: Handled, t: Q.Task)
    requires Bare(PostedOf(ServerReply, sess)) == AnswersTo(setup, hs)
    requires if t.SendTask? then t.frame.content.Reply? && AnswerTo(setup, h) == [t.frame.content.(len := 0)]
             else AnswerTo(setup, h) == []
    ensures Bare(PostedOf(ServerReply, Q.Post(sess, t))) == AnswersTo(setup, hs + [h])
  {
    AnswersSnoc(setup, hs, h);
    PostKeepsPosted(ServerReply, sess, t);
    if t.SendTask? {
      BareSnoc(PostedOf(ServerReply, sess), t.frame);
    } else {
      assert PostedOf(ServerReply, sess) + [] == PostedOf(ServerReply, sess);
    }
  }

  lemma AssembleServer(setup: Setup, s: System, r: System)
    requires ServerInv(setup, s) && s.up != []
    requires Q.Inv(setup.flow, r.sess) && Q.OrdinaryInv(r.sess)
    requires Bare(PostedOf(ServerReply, r.sess)) == AnswersTo(setup, r.handled)
    requires RequestsOf(r.handled) == RequestsOf(s.handled) + [s.up[0]] && r.up == s.up[1..] && r.sent == s.sent
    ensures ServerInv(setup, r)
  {
  }

  lemma HandlingKeepsServer(setup: Setup, s: System, a: H.Answers, len: nat)
    requires Q.FlowOk(setup.flow) && ServerInv(setup, s) && s.up != []
    ensures ServerInv(setup, ServerStep(setup, s, a, len))
  {
    var h := Handled(s.up[0], a);
    var t := OneTaskPerFrame(setup, s.sess, h, len);
    PostKeepsSession(setup, s.sess, t);
    HandlingKeepsReplies(setup, s.sess, s.handled, h, t);
    AnswersSnoc(setup, s.handled, h);
    AssembleServer(setup, s, ServerStep(setup, s, a, len));
  }

  /** Handling a call turns the outstanding request into the outstanding reply, or into none. */
  lemma HandlingKeepsOutstanding(setup: Setup, s: System, a: H.Answers, len: nat, t: Q.Task)
    requires OneOutstanding(s.sess, s.pos, s.up, s.wait) && s.up != [] && WellFormedRequest(s.up[0])
    requires var q := s.up[0];
             && (t.SendTask? ==>
                  && t.frame.content.Reply? && t.frame.content.seqNo == q.seqNo
                  && (q.msgType == H.HEARTBEAT ==> IsHeartbeatOk(t.frame.content))
                  && (IsCall(q) && t.frame.content.ok ==>
                      t.frame.content.op == (if q.msgType == H.DATA then "DATA" else "CONTROL")))
    ensures OneOutstanding(Q.Post(s.sess, t), s.pos, s.up[1..], s.wait)
  {
    var q := s.up[0];
    PostKeepsUnread(s.sess, t, s.pos);
    assert IsCall(q) ==> Calls(s.up)[0] == q;
    assert IsCall(q) ==> Awaits(s.wait, q.seqNo, q.msgType);
  }

  lemma HandlingKeepsClient(setup: Setup, s: System, a: H.Answers, len: nat)
    requires Inv(setup, s)
    ensures ClientInv(ServerStep(setup, s, a, len))
  {
    if s.up != [] && !s.dead {
      assert WellFormedRequest(s.up[0]);
      var t := OneTaskPerFrame(setup, s.sess, Handled(s.up[0], a), len);
      HandlingKeepsOutstanding(setup, s, a, len, t);
    }
  }

  /** The frame the client reads next is the accepted one at that place, or the kick notice. */
  lemma NextFrame(setup: Setup, s: System)
    requires Q.Inv(setup.flow, s.sess) && Q.OrdinaryInv(s.sess)
    requires s.pos < |s.sess.completed| && !s.sess.completed[s.pos].content.Kick?
    ensures s.pos < |Q.AcceptedOf(s.sess.sends)| && Q.AcceptedOf(s.sess.sends)[s.pos] == s.sess.completed[s.pos]
  {
    Q.KickNoticeInv(setup.flow, s.sess);
    var acc, done := Q.AcceptedOf(s.sess.sends), s.sess.completed;
    if s.sess.kick.Kicked? && s.sess.kick.idle && !(done <= acc) {
      assert s.pos < |s.sess.kick.base|;
    }
  }

  lemma ReadSplitsUnread(s: System)
    requires s.pos < |Q.AcceptedOf(s.sess.sends)|
    ensures var f := Q.AcceptedOf(s.sess.sends)[s.pos];
            Unread(s.sess, s.pos) == (if IsKind(Solicited, f) then [f] else []) + Unread(s.sess, s.pos + 1)
  {
    var acc, rest := Q.AcceptedOf(s.sess.sends), WaitingFrames(s.sess.mailbox);
    var f := acc[s.pos];
    assert acc[s.pos..] + rest == [f] + (acc[s.pos + 1..] + rest);
    PickConcat(Solicited, [f], acc[s.pos + 1..] + rest);
    assert [f][..0] == [];
  }

  /** Reading a frame other than a call's reply ends the call only if it is a wait for a
      heartbeat or a delivery; then nothing was outstanding. */
  lemma ReadOther(s: System, c: Content)
    requires OneOutstanding(s.sess, s.pos, s.up, s.wait) && s.pos < |Q.AcceptedOf(s.sess.sends)|
    requires var f := Q.AcceptedOf(s.sess.sends)[s.pos]; f.content == c && !IsKind(Solicited, f)
    requires s.wait.Some? && !s.wait.value.ForLogin? && !c.Kick?
    ensures var v := OnEvent(s.wait.value, c);
            && !v.Throw?
            && OneOutstanding(s.sess, s.pos + 1, s.up, s.wait)
            && (v.Return? ==> OneOutstanding(s.sess, s.pos + 1, s.up, None))
  {
    ReadSplitsUnread(s);
    assert [] + Unread(s.sess, s.pos + 1) == Unread(s.sess, s.pos + 1);
    if s.wait.value.ForDelivery? || s.wait.value.ForHeartbeat? {
      NothingOutstandingWhenIdle(s);
    }
  }

  /** A call's reply that is read is the one awaited: the call returns or is refused. */
  lemma ReadReply(s: System, c: Content)
    requires OneOutstanding(s.sess, s.pos, s.up, s.wait) && s.pos < |Q.AcceptedOf(s.sess.sends)|
    requires var f := Q.AcceptedOf(s.sess.sends)[s.pos]; f.content == c && IsKind(Solicited, f)
    ensures s.wait.Some?
    ensures var v := OnEvent(s.wait.value, c); v == Return || v == Throw(Refused)
    ensures OneOutstanding(s.sess, s.pos + 1, s.up, None)
  {
    ReadSplitsUnread(s);
    assert Unread(s.sess, s.pos)[0].content == c;
    assert Expected(s.wait, c);
  }

  /** The frame read next, the verdict on it, and what is outstanding after it. */
  lemma ReadVerdict(setup: Setup, s: System) returns (v: Verdict)
    requires Inv(setup, s) && !s.dead && s.wait.Some? && s.pos < |s.sess.completed|
    ensures v == OnEvent(s.wait.value, s.sess.completed[s.pos].content)
    ensures s.sess.completed[s.pos].content.Kick? ==> v == Throw(Kicked)
    ensures !s.sess.completed[s.pos].content.Kick? ==>
              && (v.Throw? ==> v == Throw(Refused))
              && OneOutstanding(s.sess, s.pos + 1, s.up, if v.Skip? || v.Stash? then s.wait else None)
  {
    var f := s.sess.completed[s.pos];
    v := OnEvent(s.wait.value, f.content);
    if !f.content.Kick? {
      NextFrame(setup, s);
      if IsKind(Solicited, f) { ReadReply(s, f.content); } else { ReadOther(s, f.content); }
    }
  }

  lemma ReadKeepsClient(setup: Setup, s: System)
    requires Inv(setup, s) && !s.dead && s.wait.Some? && s.pos < |s.sess.completed|
    ensures ClientInv(ReadStep(s))
  {
    var v := ReadVerdict(setup, s);
  }

  lemma ClientStepKeepsServer(setup: Setup, s: System, r: System)
    requires ServerInv(setup, s)
    requires r.sess == s.sess && r.handled == s.handled && r.up == s.up && r.sent == s.sent
    ensures ServerInv(setup, r)
  {
  }

  lemma ReadKeepsInv(setup: Setup, s: System)
    requires Inv(setup, s)
    ensures Inv(setup, ReadStep(s))
  {
    if !s.dead && s.wait.Some? && s.pos < |s.sess.completed| {
      ReadKeepsClient(setup, s);
      ClientStepKeepsServer(setup, s, ReadStep(s));
    }
  }

  lemma EndKeepsInv(setup: Setup, s: System)
    requires Inv(setup, s)
    ensures Inv(setup, EndStep(s))
  {
    ClientStepKeepsServer(setup, s, EndStep(s));
  }

  lemma HandlingKeepsInv(setup: Setup, s: System, a: H.Answers, len: nat)
    requires Q.FlowOk(setup.flow) && Inv(setup, s)
    ensures Inv(setup, ServerStep(setup, s, a, len))
  {
    if s.up != [] {
      HandlingKeepsServer(setup, s, a, len);
      HandlingKeepsClient(setup, s, a, len);
    }
  }

  lemma StepKeepsInv(setup: Setup, s: System, e: Event)
    requires Q.FlowOk(setup.flow) && Inv(setup, s)
    ensures Inv(setup, Step(setup, s, e))
  {
    if e.ServerHandles? {
      HandlingKeepsInv(setup, s, e.answers, e.len);
    } else if e.OnSession? {
      if FromElsewhere(e.step) { SessionKeepsInv(setup, s, e.step); }
    } else if e.ClientReads? {
      ReadKeepsInv(setup, s);
    } else if e.ClientMeetsEnd? {
      EndKeepsInv(setup, s);
    } else if e.AutoHeartbeat? {
      AutoHeartbeatKeepsInv(setup, s);
    } else if s.wait.None? && !s.dead {
      CallEventKeepsInv(setup, s, e);
    }
  }

  lemma CallEventKeepsInv(setup: Setup, s: System, e: Event)
    requires Inv(setup, s) && s.wait.None? && !s.dead
    requires e.CallSend? || e.CallControl? || e.CallHeartbeat? || e.CallRecvDeliver?
    ensures Inv(setup, Step(setup, s, e))
  {
    var n := NextSeq(s.seqNo);
    match e {
      case CallSend(dst, payload) =>
        var body := H.Map([H.Entry(H.Str("dst_username"), H.Str(dst)), H.Entry(H.Str("payload"), H.Bin(payload))]);
        CallKeepsInv(setup, s, H.DATA, body, ForAck(n, "DATA"));
      case CallControl(body) => CallKeepsInv(setup, s, H.CONTROL, body, ForControl(n));
      case CallHeartbeat => CallKeepsInv(setup, s, H.HEARTBEAT, H.Map([]), ForHeartbeat(n));
      case CallRecvDeliver => NothingOutstandingWhenIdle(s);
    }
  }

  lemma {:induction false} ReachableInv(setup: Setup, es: seq<Event>)
    requires Q.FlowOk(setup.flow)
    ensures Inv(setup, Exec(setup, es))
  {
    if es != [] {
      ReachableInv(setup, es[..|es| - 1]);
      StepKeepsInv(setup, Exec(setup, es[..|es| - 1]), es[|es| - 1]);
    } else {
      assert SentFrames([]) + WaitingFrames([]) == [];
    }
  }

  // ---------------------------------------------------------------- theorems over every run

  /** A frame is answered once, under its own number, exactly when its body is a map. */
  ghost predicate AnsweredOnce(setup: Setup, h: Handled) {
    if h.request.body.Map? then |AnswerTo(setup, h)| == 1 && AnswerTo(setup, h)[0].seqNo == h.request.seqNo
    else AnswerTo(setup, h) == [] && EffectsOf(setup, h) == [H.Stop]
  }

  lemma EveryFrameAnsweredOnce(setup: Setup, h: Handled)
    ensures AnsweredOnce(setup, h)
  {
    H.OneAnswerOrStop(H.View(true, setup.isAdmin), h.request, h.answers);
  }

  /** The replies posted to the client's session are, one for one and in request order, the
      answers to the frames handled; a frame that was not answered stopped the session. */
  lemma RepliesInRequestOrder(setup: Setup, es: seq<Event>)
    requires Q.FlowOk(setup.flow)
    ensures var s := Exec(setup, es);
            && RequestsOf(s.handled) + s.up == s.sent
            && Bare(PostedOf(ServerReply, s.sess)) == AnswersTo(setup, s.handled)
            && (forall i :: 0 <= i < |s.handled| ==> AnsweredOnce(setup, s.handled[i]))
  {
    ReachableInv(setup, es);
    forall h ensures AnsweredOnce(setup, h) { EveryFrameAnsweredOnce(setup, h); }
  }

  /** A client that always waits never meets a reply that is not its own: in every run, with
      any interleaving of background heartbeats, deliveries, dropped replies, kicks and stops,
      a call ends with its result, a refusal by the server, a kick, or the end of the stream. */
  lemma NoMismatchedReply(setup: Setup, es: seq<Event>)
    requires Q.FlowOk(setup.flow)
    ensures var s := Exec(setup, es);
            forall i :: 0 <= i < |s.results| && s.results[i].result.Failed? ==>
              s.results[i].result.why in {Eof, Kicked, Refused}
  {
    ReachableInv(setup, es);
    var s := Exec(setup, es);
    assert forall i :: 0 <= i < |s.results| ==> Honest(s.results[i].result);
  }
}
