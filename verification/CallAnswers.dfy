/** What the calls of a client come to: a call that returns, or is refused, got the server's
    answer to its own request; and unless something was dropped, kicked or stopped, no call
    whose answer is due waits for ever.
 */
module CallAnswers {
  import opened Options
  import opened Wire
  import opened Posted
  import opened ClientSpec
  import opened RequestReply
  import Q = SendQueue
  import H = Handler

  // ---------------------------------------------------------------- own answers

  predicate ForReply(w: Wait) {
    w.ForAck? || w.ForControl?
  }

  /** `c` is the answer that frame number `call` was given. */
  predicate Owed(setup: Setup, hs: seq<Handled>, call: nat, c: Content) {
    call < |hs| && c.Reply? && AnswerTo(setup, hs[call]) == [c.(len := 0)]
  }

  /** The call in progress is about the frame that it sent. */
  ghost predicate OwnRequest(wait: Option<Wait>, call: nat, sent: seq<H.Request>) {
    wait.Some? && ForReply(wait.value) ==> call < |sent| && Awaits(wait, sent[call].seqNo, sent[call].msgType)
  }

  ghost predicate Placed(up: seq<H.Request>, handled: nat, call: nat) {
    forall i :: 0 <= i < |up| && IsCall(up[i]) ==> handled + i == call
  }

  ghost predicate UnreadOwed(setup: Setup, sess: Q.Session, pos: nat, hs: seq<Handled>, call: nat) {
    && pos <= |Q.AcceptedOf(sess.sends)|
    && forall f :: f in Unread(sess, pos) ==> Owed(setup, hs, call, f.content)
  }

  /** How a call that waits for a reply may end, other than by a kick or the end of the stream. */
  ghost predicate EndedByOwn(setup: Setup, sent: seq<H.Request>, hs: seq<Handled>, e: CallEnd) {
    ForReply(e.wait) && (e.result.Done? || e.result == Failed(Refused)) ==>
      && e.call < |sent| && Awaits(Some(e.wait), sent[e.call].seqNo, sent[e.call].msgType)
      && e.last.Some? && Owed(setup, hs, e.call, e.last.value)
      && (e.result.Done? <==> e.last.value.ok)
  }

  ghost predicate OwnInv(setup: Setup, s: System) {
    && OwnRequest(s.wait, s.call, s.sent)
    && (!s.dead ==> Placed(s.up, |s.handled|, s.call) && UnreadOwed(setup, s.sess, s.pos, s.handled, s.call))
    && forall i :: 0 <= i < |s.results| ==> EndedByOwn(setup, s.sent, s.handled, s.results[i])
  }

  lemma {:induction false} NoCallsPlaced(up: seq<H.Request>, handled: nat, call: nat)
    requires RequestReply.Calls(up) == []
    ensures Placed(up, handled, call)
    ensures forall i :: 0 <= i < |up| ==> !IsCall(up[i])
  {
    if up != [] {
      NoCallsPlaced(up[1..], handled, call);
      assert forall i :: 0 < i < |up| ==> up[i] == up[1..][i - 1];
    }
  }

  lemma ResultsKept(setup: Setup, s: System, sent: seq<H.Request>, hs: seq<Handled>)
    requires OwnInv(setup, s) && s.sent <= sent && s.handled <= hs
    ensures forall i :: 0 <= i < |s.results| ==> EndedByOwn(setup, sent, hs, s.results[i])
  {
    forall i | 0 <= i < |s.results| ensures EndedByOwn(setup, sent, hs, s.results[i]) {
      assert EndedByOwn(setup, s.sent, s.handled, s.results[i]);
    }
  }

  lemma BeginKeepsOwn(setup: Setup, s: System, msgType: nat, body: H.Body, w: Wait)
    requires Inv(setup, s) && OwnInv(setup, s) && s.wait.None? && !s.dead
    requires ForReply(w) ==> Awaits(Some(w), NextSeq(s.seqNo), msgType)
    requires msgType == H.HEARTBEAT ==> !ForReply(w)
    ensures OwnInv(setup, BeginCall(s, msgType, body, w))
  {
    var q := H.Request(msgType, NextSeq(s.seqNo), body);
    NothingOutstandingWhenIdle(s);
    NoCallsPlaced(s.up, |s.handled|, |s.sent|);
    assert Placed(s.up + [q], |s.handled|, |s.sent|) by { assert |s.sent| == |s.handled| + |s.up|; }
    ResultsKept(setup, s, s.sent + [q], s.handled);
  }

  lemma AutoHeartbeatKeepsOwn(setup: Setup, s: System)
    requires Inv(setup, s) && OwnInv(setup, s)
    ensures OwnInv(setup, Send(s, H.HEARTBEAT, H.Map([])))
  {
    ResultsKept(setup, s, Send(s, H.HEARTBEAT, H.Map([])).sent, s.handled);
  }

  lemma SessionKeepsOwn(setup: Setup, s: System, e: Q.Event)
    requires OwnInv(setup, s) && FromElsewhere(e)
    ensures OwnInv(setup, s.(sess := Q.Step(setup.flow, s.sess, e)))
  {
    if !s.dead {
      SessionKeepsUnread(setup.flow, s.sess, e, s.pos);
    }
  }

  /** The frame handled next is either no call, or the one in progress. */
  lemma HandlingKeepsUnreadOwed(setup: Setup, sess: Q.Session, pos: nat, hs: seq<Handled>,
                                h: Handled, call: nat, t: Q.Task)
    requires UnreadOwed(setup, sess, pos, hs, call) && WellFormedRequest(h.request)
    requires IsCall(h.request) ==> call == |hs|
    requires t.SendTask? ==> t.frame.content.Reply? && AnswerTo(setup, h) == [t.frame.content.(len := 0)]
    requires t.SendTask? && h.request.msgType == H.HEARTBEAT ==> IsHeartbeatOk(t.frame.content)
    ensures UnreadOwed(setup, Q.Post(sess, t), pos, hs + [h], call)
  {
    PostKeepsUnread(sess, t, pos);
    forall f | f in Unread(Q.Post(sess, t), pos) ensures Owed(setup, hs + [h], call, f.content) {
      if f in Unread(sess, pos) { assert Owed(setup, hs, call, f.content); }
    }
  }

  lemma HandlingKeepsOwn(setup: Setup, s: System, a: H.Answers, len: nat)
    requires Inv(setup, s) && OwnInv(setup, s)
    ensures OwnInv(setup, ServerStep(setup, s, a, len))
  {
    if s.up != [] {
      var h := Handled(s.up[0], a);
      ResultsKept(setup, s, s.sent, s.handled + [h]);
      if !s.dead {
        assert WellFormedRequest(s.up[0]);
        var t := OneTaskPerFrame(setup, s.sess, h, len);
        HandlingKeepsUnreadOwed(setup, s.sess, s.pos, s.handled, h, s.call, t);
      }
    }
  }

  lemma ReadKeepsUnreadOwed(setup: Setup, s: System)
    requires UnreadOwed(setup, s.sess, s.pos, s.handled, s.call) && s.pos < |Q.AcceptedOf(s.sess.sends)|
    ensures UnreadOwed(setup, s.sess, s.pos + 1, s.handled, s.call)
    ensures var f := Q.AcceptedOf(s.sess.sends)[s.pos];
            IsKind(Solicited, f) ==> Owed(setup, s.handled, s.call, f.content)
  {
    ReadSplitsUnread(s);
    var f := Q.AcceptedOf(s.sess.sends)[s.pos];
    assert IsKind(Solicited, f) ==> f in Unread(s.sess, s.pos);
  }

  /** A frame that ends a wait for a reply, other than a kick notice, is a reply to a call. */
  lemma EndsOnReply(w: Wait, f: Frame)
    requires ForReply(w) && !f.content.Kick? && !IsKind(Solicited, f)
    ensures !OnEvent(w, f.content).Return? && !OnEvent(w, f.content).Throw?
  {
  }

  lemma ReturnMeansOk(w: Wait, c: Content)
    requires ForReply(w) && c.Reply? && !IsHeartbeatOk(c)
    ensures OnEvent(w, c).Return? ==> c.ok
    ensures OnEvent(w, c) == Throw(Refused) ==> !c.ok
  {
  }

  /** The frame that ends a wait for a reply ends it as its own answer should. */
  lemma EndIsOwn(setup: Setup, sent: seq<H.Request>, hs: seq<Handled>, w: Wait, call: nat, f: Frame)
    requires OwnRequest(Some(w), call, sent)
    requires IsKind(Solicited, f) ==> Owed(setup, hs, call, f.content)
    ensures var v := OnEvent(w, f.content);
            && (v.Return? ==> EndedByOwn(setup, sent, hs, CallEnd(w, call, Some(f.content), Done(f.content))))
            && (v.Throw? ==> EndedByOwn(setup, sent, hs, CallEnd(w, call, Some(f.content), Failed(v.why))))
  {
    if ForReply(w) && !f.content.Kick? {
      if IsKind(Solicited, f) { ReturnMeansOk(w, f.content); } else { EndsOnReply(w, f); }
    }
  }

  lemma ReadKeepsOwn(setup: Setup, s: System)
    requires Inv(setup, s) && OwnInv(setup, s)
    ensures OwnInv(setup, ReadStep(s))
  {
    if !s.dead && s.wait.Some? && s.pos < |s.sess.completed| {
      var f := s.sess.completed[s.pos];
      ResultsKept(setup, s, s.sent, s.handled);
      if !f.content.Kick? {
        NextFrame(setup, s);
        ReadKeepsUnreadOwed(setup, s);
      }
      EndIsOwn(setup, s.sent, s.handled, s.wait.value, s.call, f);
    }
  }

  lemma StepKeepsOwn(setup: Setup, s: System, e: Event)
    requires Inv(setup, s) && OwnInv(setup, s)
    ensures OwnInv(setup, Step(setup, s, e))
  {
    if e.ServerHandles? {
      HandlingKeepsOwn(setup, s, e.answers, e.len);
    } else if e.OnSession? {
      if FromElsewhere(e.step) { SessionKeepsOwn(setup, s, e.step); }
    } else if e.ClientReads? {
      ReadKeepsOwn(setup, s);
    } else if e.AutoHeartbeat? {
      AutoHeartbeatKeepsOwn(setup, s);
    } else if s.wait.None? && !s.dead {
      CallKeepsOwn(setup, s, e);
    }
  }

  lemma CallKeepsOwn(setup: Setup, s: System, e: Event)
    requires Inv(setup, s) && OwnInv(setup, s) && s.wait.None? && !s.dead
    requires e.CallSend? || e.CallControl? || e.CallHeartbeat? || e.CallRecvDeliver? || e.ClientMeetsEnd?
    ensures OwnInv(setup, Step(setup, s, e))
  {
    var n := NextSeq(s.seqNo);
    match e {
      case CallSend(dst, payload) =>
        var body := H.Map([H.Entry(H.Str("dst_username"), H.Str(dst)), H.Entry(H.Str("payload"), H.Bin(payload))]);
        BeginKeepsOwn(setup, s, H.DATA, body, ForAck(n, "DATA"));
      case CallControl(body) => BeginKeepsOwn(setup, s, H.CONTROL, body, ForControl(n));
      case CallHeartbeat => BeginKeepsOwn(setup, s, H.HEARTBEAT, H.Map([]), ForHeartbeat(n));
      case CallRecvDeliver =>
      case ClientMeetsEnd =>
    }
  }

  lemma {:induction false} ReachableOwn(setup: Setup, es: seq<Event>)
    requires Q.FlowOk(setup.flow)
    ensures OwnInv(setup, Exec(setup, es))
  {
    if es != [] {
      var init := es[..|es| - 1];
      ReachableOwn(setup, init);
      ReachableInv(setup, init);
      StepKeepsOwn(setup, Exec(setup, init), es[|es| - 1]);
    }
  }

  lemma HandledIsSent(setup: Setup, s: System, call: nat)
    requires ServerInv(setup, s) && call < |s.handled|
    ensures call < |s.sent| && s.handled[call].request == s.sent[call]
  {
    assert s.sent[call] == RequestsOf(s.handled)[call];
  }

  /** In every run, every send and every CONTROL call that returned or was refused ended on the
      answer that the server gave to the very frame which that call had sent: it returned if
      that answer was positive, and was refused if not. */
  lemma CallsEndOnOwnAnswers(setup: Setup, es: seq<Event>, i: nat)
    requires Q.FlowOk(setup.flow)
    requires var s := Exec(setup, es);
             i < |s.results| && ForReply(s.results[i].wait)
             && (s.results[i].result.Done? || s.results[i].result == Failed(Refused))
    ensures var s := Exec(setup, es); var e := s.results[i];
            && e.call < |s.handled| && e.call < |s.sent| && s.handled[e.call].request == s.sent[e.call]
            && Awaits(Some(e.wait), s.sent[e.call].seqNo, s.sent[e.call].msgType)
            && e.last.Some? && e.last.value.Reply?
            && AnswerTo(setup, s.handled[e.call]) == [e.last.value.(len := 0)]
            && (e.result.Done? <==> e.last.value.ok)
  {
    ReachableInv(setup, es);
    ReachableOwn(setup, es);
    var s := Exec(setup, es);
    assert EndedByOwn(setup, s.sent, s.handled, s.results[i]);
    HandledIsSent(setup, s, s.results[i].call);
  }

  // ---------------------------------------------------------------- no call is forgotten

  /** Nothing has been dropped, kicked or stopped. */
  predicate Healthy(sess: Q.Session) {
    sess.drops == 0 && sess.kick.NoKick? && !sess.stopped
  }

  predicate WaitsForReply(w: Wait, q: H.Request) {
    match w
    case ForAck(n, op) => q.seqNo == n && q.msgType == H.DATA && op == "DATA"
    case ForControl(n) => q.seqNo == n && q.msgType == H.CONTROL
    case ForHeartbeat(n) => q.seqNo == n && q.msgType == H.HEARTBEAT
    case _ => false
  }

  ghost predicate AnswerAhead(setup: Setup, sess: Q.Session, pos: nat, hs: seq<Handled>, call: nat) {
    exists i :: pos <= i < |PostedOf(Every, sess)| && Owed(setup, hs, call, PostedOf(Every, sess)[i].content)
  }

  /** The answer is not yet given, or lies ahead of the reader, or a stop is under way. */
  ghost predicate Coming(setup: Setup, sess: Q.Session, pos: nat, hs: seq<Handled>, call: nat) {
    call >= |hs| || Q.StopTask in sess.mailbox || AnswerAhead(setup, sess, pos, hs, call)
  }

  ghost predicate DueInv(setup: Setup, s: System) {
    s.wait.Some? && !s.wait.value.ForDelivery? ==>
      && s.call < |s.sent| && WaitsForReply(s.wait.value, s.sent[s.call])
      && (Healthy(s.sess) ==> Coming(setup, s.sess, s.pos, s.handled, s.call))
  }

  lemma HealthyBefore(flow: Q.Flow, s: Q.Session, e: Q.Event)
    requires Healthy(Q.Step(flow, s, e))
    ensures Healthy(s)
  {
    match e {
      case RanNext => if s.mailbox != [] { HealthyBeforeTask(flow, s.(mailbox := s.mailbox[1..]), s.mailbox[0]); }
      case _ =>
    }
  }

  lemma HealthyBeforeTask(flow: Q.Flow, s: Q.Session, t: Q.Task)
    requires match t case SendTask(f) => Healthy(Q.RunSend(flow, s, f)) case KickTask(f) => Healthy(Q.RunKick(s, f))
                     case StopTask => Healthy(Q.RunStop(s))
    ensures Healthy(s)
  {
  }

  /** A posted stop stays posted until it has stopped the session. */
  lemma StopStaysPosted(flow: Q.Flow, s: Q.Session, e: Q.Event)
    requires Q.StopTask in s.mailbox
    ensures var r := Q.Step(flow, s, e); Q.StopTask in r.mailbox || r.stopped
  {
    match e {
      case Posted(t) =>
      case RanNext =>
        Q.RunNextPops(flow, s);
        if s.mailbox[0] != Q.StopTask {
          assert s.mailbox == [s.mailbox[0]] + s.mailbox[1..];
          assert Q.StopTask in s.mailbox[1..];
        }
      case Completed(i, ok) => Q.CompletionKeepsLog(s, i, ok);
      case SocketClosed =>
    }
  }

  lemma AnswerStaysAhead(setup: Setup, s: Q.Session, r: Q.Session, pos: nat, hs: seq<Handled>, call: nat)
    requires AnswerAhead(setup, s, pos, hs, call) && PostedOf(Every, s) <= PostedOf(Every, r)
    ensures AnswerAhead(setup, r, pos, hs, call)
  {
    var i :| pos <= i < |PostedOf(Every, s)| && Owed(setup, hs, call, PostedOf(Every, s)[i].content);
    assert PostedOf(Every, r)[i] == PostedOf(Every, s)[i];
  }

  lemma SessionKeepsDue(setup: Setup, s: System, e: Q.Event)
    requires DueInv(setup, s)
    ensures DueInv(setup, s.(sess := Q.Step(setup.flow, s.sess, e)))
  {
    var r := Q.Step(setup.flow, s.sess, e);
    if s.wait.Some? && !s.wait.value.ForDelivery? && Healthy(r) {
      HealthyBefore(setup.flow, s.sess, e);
      if Q.StopTask in s.sess.mailbox {
        StopStaysPosted(setup.flow, s.sess, e);
      } else if s.call < |s.handled| {
        SessionKeepsPosted(Every, setup.flow, s.sess, e);
        AnswerStaysAhead(setup, s.sess, r, s.pos, s.handled, s.call);
      }
    }
  }

  lemma HandlingKeepsComing(setup: Setup, sess: Q.Session, pos: nat, hs: seq<Handled>, h: Handled, call: nat, t: Q.Task)
    requires Coming(setup, sess, pos, hs, call) && pos <= |PostedOf(Every, sess)|
    requires if t.SendTask? then t.frame.content.Reply? && AnswerTo(setup, h) == [t.frame.content.(len := 0)]
             else t == Q.StopTask
    ensures Coming(setup, Q.Post(sess, t), pos, hs + [h], call)
  {
    var r := Q.Post(sess, t);
    PostKeepsPosted(Every, sess, t);
    if call == |hs| {
      if t.SendTask? {
        assert PostedOf(Every, r)[|PostedOf(Every, sess)|] == t.frame;
        assert Owed(setup, hs + [h], call, t.frame.content);
      }
    } else if call < |hs| && Q.StopTask !in sess.mailbox {
      var i :| pos <= i < |PostedOf(Every, sess)| && Owed(setup, hs, call, PostedOf(Every, sess)[i].content);
      assert PostedOf(Every, r)[i] == PostedOf(Every, sess)[i];
      assert Owed(setup, hs + [h], call, PostedOf(Every, r)[i].content);
    }
  }

  /** What a healthy session has written is the beginning of what was posted to it. */
  lemma HealthyWritesPosted(flow: Q.Flow, s: Q.Session)
    requires Q.Inv(flow, s) && Healthy(s)
    ensures Q.AcceptedOf(s.sends) == SentFrames(s.sends)
    ensures PostedOf(Every, s) == s.completed + s.queue + WaitingFrames(s.mailbox)
  {
    AcceptedBound(s.sends);
    PickEvery(SentFrames(s.sends) + WaitingFrames(s.mailbox));
  }

  lemma HandlingKeepsDue(setup: Setup, s: System, a: H.Answers, len: nat)
    requires Inv(setup, s) && DueInv(setup, s) && (s.wait.Some? ==> !s.dead)
    ensures DueInv(setup, ServerStep(setup, s, a, len))
  {
    if s.up != [] && s.wait.Some? && !s.wait.value.ForDelivery? {
      var h := Handled(s.up[0], a);
      var t := OneTaskPerFrame(setup, s.sess, h, len);
      if Healthy(s.sess) {
        HealthyWritesPosted(setup.flow, s.sess);
        PickEvery(SentFrames(s.sess.sends) + WaitingFrames(s.sess.mailbox));
        HandlingKeepsComing(setup, s.sess, s.pos, s.handled, h, s.call, t);
      }
    }
  }

  /** The awaited answer never passes the reader unnoticed. */
  lemma OwnAnswerEndsWait(setup: Setup, h: Handled, w: Wait, c: Content)
    requires WaitsForReply(w, h.request) && c.Reply? && AnswerTo(setup, h) == [c.(len := 0)]
    ensures !OnEvent(w, c).Skip? && !OnEvent(w, c).Stash?
  {
    var v := H.View(true, setup.isAdmin);
    H.OneAnswerOrStop(v, h.request, h.answers);
    H.AnswerNamesOperation(v, h.request, h.answers);
  }

  lemma ReadKeepsDue(setup: Setup, s: System)
    requires Inv(setup, s) && DueInv(setup, s)
    ensures DueInv(setup, ReadStep(s))
  {
    if !s.dead && s.wait.Some? && s.pos < |s.sess.completed| && !s.wait.value.ForDelivery? {
      var c := s.sess.completed[s.pos].content;
      var v := OnEvent(s.wait.value, c);
      if (v.Skip? || v.Stash?) && Healthy(s.sess) && s.call < |s.handled| && Q.StopTask !in s.sess.mailbox {
        HealthyWritesPosted(setup.flow, s.sess);
        HandledIsSent(setup, s, s.call);
        var p := PostedOf(Every, s.sess);
        var i :| s.pos <= i < |p| && Owed(setup, s.handled, s.call, p[i].content);
        if i == s.pos {
          OwnAnswerEndsWait(setup, s.handled[s.call], s.wait.value, c);
        }
      }
    }
  }

  lemma StepKeepsDue(setup: Setup, s: System, e: Event)
    requires Inv(setup, s) && DueInv(setup, s) && (s.wait.Some? ==> !s.dead)
    ensures var r := Step(setup, s, e); DueInv(setup, r) && (r.wait.Some? ==> !r.dead)
  {
    match e {
      case ServerHandles(a, len) => HandlingKeepsDue(setup, s, a, len);
      case OnSession(step) => if FromElsewhere(step) { SessionKeepsDue(setup, s, step); }
      case ClientReads => ReadKeepsDue(setup, s);
      case _ => ClientKeepsDue(setup, s, e);
    }
  }

  lemma ClientKeepsDue(setup: Setup, s: System, e: Event)
    requires Inv(setup, s) && DueInv(setup, s) && (s.wait.Some? ==> !s.dead)
    requires !e.ServerHandles? && !e.OnSession? && !e.ClientReads?
    ensures var r := Step(setup, s, e); DueInv(setup, r) && (r.wait.Some? ==> !r.dead)
  {
    assert |s.sent| == |s.handled| + |s.up|;
  }

  lemma {:induction false} ReachableDue(setup: Setup, es: seq<Event>)
    requires Q.FlowOk(setup.flow)
    ensures var s := Exec(setup, es); DueInv(setup, s) && (s.wait.Some? ==> !s.dead)
  {
    if es != [] {
      var init := es[..|es| - 1];
      ReachableDue(setup, init);
      ReachableInv(setup, init);
      StepKeepsDue(setup, Exec(setup, init), es[|es| - 1]);
    }
  }

  /** In every run without drop, kick or stop: once everything sent has been handled, everything
      posted has been written and everything written has been read, no call is waiting, unless
      for a delivery. */
  lemma NoCallLeftWaiting(setup: Setup, es: seq<Event>)
    requires Q.FlowOk(setup.flow)
    requires var s := Exec(setup, es);
             && Healthy(s.sess) && s.up == [] && s.sess.mailbox == [] && s.sess.queue == []
             && s.pos == |s.sess.completed|
    ensures var s := Exec(setup, es); s.wait == None || s.wait == Some(ForDelivery)
  {
    ReachableInv(setup, es);
    ReachableDue(setup, es);
    var s := Exec(setup, es);
    HealthyWritesPosted(setup.flow, s.sess);
    assert |s.sent| == |s.handled| + |s.up|;
  }
}
