/** The per-connection send queue as a state machine.

    A session's strand runs one closure at a time: those posted by `send_frame`,
    `kick_notify_and_close` and `stop` in the order they were posted, and write
    completions whenever the transport reports one.  `Session` holds the fields
    of the source's session, the strand's mailbox, the writes handed to the
    transport, and history variables that record what happened.
 */
module SendQueue {
  import opened Wire

  /** `flow.send_queue`: thresholds, and whether crossing the lower one disconnects. */
  datatype Flow = Flow(highWater: nat, hardLimit: nat, disconnect: bool)

  predicate FlowOk(cfg: Flow) {
    0 < cfg.highWater <= cfg.hardLimit
  }

  datatype Task = SendTask(frame: Frame) | KickTask(frame: Frame) | StopTask

  datatype Verdict = Accepted | Dropped | Ignored
  datatype Sent = Sent(frame: Frame, verdict: Verdict)

  /** What a kick found when it ran: the frames completed by then, whether no write
      was in flight, and the only frame that can still complete. */
  datatype KickRecord = NoKick | Kicked(frame: Frame, idle: bool, base: seq<Frame>, last: Frame)

  datatype Session = Session(
    stopped: bool,
    writing: bool,
    kickPending: bool,
    open: bool,
    queue: seq<Frame>,
    pending: nat,
    drops: nat,
    mailbox: seq<Task>,
    outstanding: seq<Frame>,   // writes given to the transport, not yet completed
    // histories
    completed: seq<Frame>,     // successful writes, in order
    sends: seq<Sent>,          // every send closure that ran, with its verdict
    kick: KickRecord,
    failed: bool)              // some write completed with an error

  function Init(): Session {
    Session(false, false, false, true, [], 0, 0, [], [], [], [], NoKick, false)
  }

  // ---------------------------------------------------------------- steps

  function Post(s: Session, t: Task): Session {
    s.(mailbox := s.mailbox + [t])
  }

  function DoWrite(s: Session): Session {
    if s.queue == [] || s.stopped then s
    else s.(writing := true, outstanding := s.outstanding + [s.queue[0]])
  }

  function WriteIfIdle(s: Session): Session {
    if s.writing then s else DoWrite(s)
  }

  function Drop(s: Session, f: Frame): Session {
    s.(sends := s.sends + [Sent(f, Dropped)], drops := s.drops + 1)
  }

  function Enqueue(s: Session, f: Frame): Session {
    WriteIfIdle(s.(sends := s.sends + [Sent(f, Accepted)], queue := s.queue + [f], pending := s.pending + f.size))
  }

  function RunSend(cfg: Flow, s: Session, f: Frame): Session {
    if s.stopped || s.kickPending then s.(sends := s.sends + [Sent(f, Ignored)])
    else
      var total := s.pending + f.size;
      if total > cfg.highWater && total <= cfg.hardLimit then
        if cfg.disconnect then Post(Drop(s, f), StopTask) else Drop(s, f)
      else if total > cfg.hardLimit then
        Post(Drop(s, f), StopTask)
      else
        Enqueue(s, f)
  }

  function RunKick(s: Session, f: Frame): Session {
    if s.stopped || s.kickPending then s
    else
      var record := Kicked(f, s.outstanding == [], s.completed,
                           if s.outstanding == [] then f else s.outstanding[0]);
      WriteIfIdle(s.(kickPending := true, queue := [f], pending := f.size, kick := record))
  }

  function RunStop(s: Session): Session {
    if s.stopped then s else s.(stopped := true, open := false)
  }

  /** The strand runs the oldest posted closure. */
  function RunNext(cfg: Flow, s: Session): Session {
    if s.mailbox == [] then s
    else
      var s1 := s.(mailbox := s.mailbox[1..]);
      match s.mailbox[0]
      case SendTask(f) => RunSend(cfg, s1, f)
      case KickTask(f) => RunKick(s1, f)
      case StopTask => RunStop(s1)
  }

  /** A write of `f` succeeded: the queue's head is popped, whatever it is by now. */
  function Written(s: Session, f: Frame): Session {
    var s1 := s.(completed := s.completed + [f],
                 queue := if s.queue == [] then [] else s.queue[1..],
                 pending := if s.pending >= f.size then s.pending - f.size else 0);
    if s1.kickPending && s1.queue == [] then
      s1.(kickPending := false, stopped := true, open := false)
    else DoWrite(s1)
  }

  /** The completion handler of the `i`-th outstanding write. */
  function Complete(s: Session, i: nat, ok: bool): Session {
    if i >= |s.outstanding| then s
    else
      var s1 := s.(writing := false, outstanding := s.outstanding[..i] + s.outstanding[i + 1..]);
      if ok then Written(s1, s.outstanding[i]) else Post(s1.(failed := true), StopTask)
  }

  /** The read loop ends: the socket is closed, `stopped_` is left alone. */
  function CloseSocket(s: Session): Session {
    s.(open := false)
  }

  datatype Event = Posted(task: Task) | RanNext | Completed(i: nat, ok: bool) | SocketClosed

  function Step(cfg: Flow, s: Session, e: Event): Session {
    match e
    case Posted(t) => Post(s, t)
    case RanNext => RunNext(cfg, s)
    case Completed(i, ok) => Complete(s, i, ok)
    case SocketClosed => CloseSocket(s)
  }

  /** The state after a run; an event that is not enabled changes nothing. */
  function Exec(cfg: Flow, s: Session, es: seq<Event>): Session {
    if es == [] then s
    else Step(cfg, Exec(cfg, s, es[..|es| - 1]), es[|es| - 1])
  }

  // ---------------------------------------------------------------- histories

  function AcceptedOf(sends: seq<Sent>): seq<Frame> {
    if sends == [] then []
    else
      var rest := AcceptedOf(sends[..|sends| - 1]);
      var x := sends[|sends| - 1];
      if x.verdict == Accepted then rest + [x.frame] else rest
  }

  function CountOf(sends: seq<Sent>, v: Verdict): nat {
    if sends == [] then 0
    else CountOf(sends[..|sends| - 1], v) + (if sends[|sends| - 1].verdict == v then 1 else 0)
  }

  lemma LogUnfolds(sends: seq<Sent>, x: Sent)
    ensures AcceptedOf(sends + [x]) == AcceptedOf(sends) + (if x.verdict == Accepted then [x.frame] else [])
    ensures forall v :: CountOf(sends + [x], v) == CountOf(sends, v) + (if x.verdict == v then 1 else 0)
  {
    assert (sends + [x])[..|sends|] == sends;
  }

  // ---------------------------------------------------------------- invariant

  /** Before any kick: nothing is lost, duplicated or reordered. */
  ghost predicate QueueInv(cfg: Flow, s: Session) {
    && !s.kickPending
    && AcceptedOf(s.sends) == s.completed + s.queue
    && s.pending == TotalSize(s.queue) <= cfg.highWater
    && (s.outstanding != [] ==> s.queue != [] && s.outstanding[0] == s.queue[0])
    && (s.queue != [] && !s.stopped && !s.failed ==> s.outstanding != [])
    && (!s.stopped ==> CountOf(s.sends, Ignored) == 0)
  }

  /** After a kick: at most `last` can still complete, and completing it closes. */
  ghost predicate KickInv(s: Session) {
    var k := s.kick;
    && k.Kicked?
    && k.base <= AcceptedOf(s.sends)
    && (if k.idle then k.last == k.frame else k.base + [k.last] <= AcceptedOf(s.sends))
    && (s.kickPending ==>
          && s.queue == [k.frame]
          && s.completed == k.base
          && (s.outstanding == [] || s.outstanding == [k.last])
          && (!s.stopped && !s.failed ==> s.outstanding != []))
    && (!s.kickPending ==>
          && s.queue == []
          && s.completed == k.base + [k.last]
          && s.outstanding == []
          && s.stopped && !s.open)
  }

  ghost predicate Inv(cfg: Flow, s: Session) {
    && |s.outstanding| <= 1
    && (s.writing <==> s.outstanding != [])
    && (if s.kick.NoKick? then QueueInv(cfg, s) else KickInv(s))
    && s.drops == CountOf(s.sends, Dropped)
    && |s.sends| == |AcceptedOf(s.sends)| + s.drops + CountOf(s.sends, Ignored)
    && (s.failed || (cfg.disconnect && s.drops > 0) ==> s.stopped || StopTask in s.mailbox)
    && (s.stopped ==> !s.open)
  }

  lemma IgnoredSendKeepsInv(cfg: Flow, s: Session, f: Frame)
    requires Inv(cfg, s) && (s.stopped || s.kickPending)
    ensures Inv(cfg, s.(sends := s.sends + [Sent(f, Ignored)]))
  {
    LogUnfolds(s.sends, Sent(f, Ignored));
  }

  lemma DroppedSendKeepsInv(cfg: Flow, s: Session, f: Frame)
    requires Inv(cfg, s)
    ensures Inv(cfg, Post(Drop(s, f), StopTask))
    ensures !cfg.disconnect ==> Inv(cfg, Drop(s, f))
  {
    LogUnfolds(s.sends, Sent(f, Dropped));
  }

  lemma AcceptedSendKeepsInv(cfg: Flow, s: Session, f: Frame)
    requires Inv(cfg, s) && !s.stopped && !s.kickPending
    requires s.pending + f.size <= cfg.highWater
    ensures Inv(cfg, Enqueue(s, f))
  {
    LogUnfolds(s.sends, Sent(f, Accepted));
    TotalSizeAppend(s.queue, f);
    assert s.completed + (s.queue + [f]) == (s.completed + s.queue) + [f];
  }

  lemma SendKeepsInv(cfg: Flow, s: Session, f: Frame)
    requires FlowOk(cfg) && Inv(cfg, s)
    ensures Inv(cfg, RunSend(cfg, s, f))
  {
    if s.stopped || s.kickPending {
      IgnoredSendKeepsInv(cfg, s, f);
    } else if s.pending + f.size > cfg.highWater {
      DroppedSendKeepsInv(cfg, s, f);
    } else {
      AcceptedSendKeepsInv(cfg, s, f);
    }
  }

  /** What a send leaves alone, and the one entry it adds to the log. */
  lemma SendLogsOnce(cfg: Flow, s: Session, f: Frame) returns (v: Verdict)
    ensures var r := RunSend(cfg, s, f);
            && r.sends == s.sends + [Sent(f, v)]
            && (r.mailbox == s.mailbox || r.mailbox == s.mailbox + [StopTask])
            && r.kick == s.kick && r.completed == s.completed && r.open == s.open
  {
    if s.stopped || s.kickPending {
      v := Ignored;
    } else if s.pending + f.size > cfg.highWater || s.pending + f.size > cfg.hardLimit {
      v := Dropped;
    } else {
      v := Accepted;
    }
  }

  lemma KickKeepsInv(cfg: Flow, s: Session, f: Frame)
    requires Inv(cfg, s)
    ensures Inv(cfg, RunKick(s, f))
  {
    if !s.stopped && !s.kickPending && s.outstanding != [] {
      assert s.completed + s.queue == (s.completed + [s.queue[0]]) + s.queue[1..];
    }
  }

  lemma CompleteKeepsInv(cfg: Flow, s: Session, i: nat, ok: bool)
    requires Inv(cfg, s)
    ensures Inv(cfg, Complete(s, i, ok))
  {
    if i < |s.outstanding| {
      assert s.outstanding[..i] + s.outstanding[i + 1..] == [];
      assert StopTask in (s.mailbox + [StopTask]);
      if s.kick.NoKick? {
        assert s.completed + s.queue == (s.completed + [s.queue[0]]) + s.queue[1..];
      }
    }
  }

  lemma PopKeepsInv(cfg: Flow, s: Session)
    requires Inv(cfg, s) && s.mailbox != [] && s.mailbox[0] != StopTask
    ensures Inv(cfg, s.(mailbox := s.mailbox[1..]))
  {
    assert s.mailbox == [s.mailbox[0]] + s.mailbox[1..];
  }

  lemma StepKeepsInv(cfg: Flow, s: Session, e: Event)
    requires FlowOk(cfg) && Inv(cfg, s)
    ensures Inv(cfg, Step(cfg, s, e))
  {
    match e {
      case Posted(t) =>
      case RanNext =>
        if s.mailbox != [] {
          var s1 := s.(mailbox := s.mailbox[1..]);
          match s.mailbox[0] {
            case SendTask(f) => PopKeepsInv(cfg, s); SendKeepsInv(cfg, s1, f);
            case KickTask(f) => PopKeepsInv(cfg, s); KickKeepsInv(cfg, s1, f);
            case StopTask =>
          }
        }
      case Completed(i, ok) => CompleteKeepsInv(cfg, s, i, ok);
      case SocketClosed =>
    }
  }

  lemma {:induction false} ExecKeepsInv(cfg: Flow, s: Session, es: seq<Event>)
    requires FlowOk(cfg) && Inv(cfg, s)
    ensures Inv(cfg, Exec(cfg, s, es))
  {
    if es != [] {
      ExecKeepsInv(cfg, s, es[..|es| - 1]);
      StepKeepsInv(cfg, Exec(cfg, s, es[..|es| - 1]), es[|es| - 1]);
    }
  }

  // ---------------------------------------------------------------- theorems over every run

  lemma ReachableInv(cfg: Flow, es: seq<Event>)
    requires FlowOk(cfg)
    ensures Inv(cfg, Exec(cfg, Init(), es))
  {
    ExecKeepsInv(cfg, Init(), es);
  }

  /** Single writer and no lost wakeup. */
  lemma SingleWriterNoLostWakeup(cfg: Flow, es: seq<Event>)
    requires FlowOk(cfg)
    ensures var s := Exec(cfg, Init(), es);
            && |s.outstanding| <= 1
            && (s.writing <==> |s.outstanding| == 1)
            && (s.queue != [] && !s.stopped && !s.failed ==> s.writing)
  {
    ReachableInv(cfg, es);
  }

  /** FIFO conservation: whatever stops and write errors did, until a kick runs the
      accepted frames are the completed ones followed by the queue, the byte count is
      exact and within the threshold, and every send that ran is accounted for. */
  lemma QueueConservation(cfg: Flow, es: seq<Event>)
    requires FlowOk(cfg)
    ensures var s := Exec(cfg, Init(), es);
            && |s.sends| == |AcceptedOf(s.sends)| + s.drops + CountOf(s.sends, Ignored)
            && (s.kick.NoKick? ==>
                  && AcceptedOf(s.sends) == s.completed + s.queue
                  && s.pending == TotalSize(s.queue) <= cfg.highWater
                  && (s.writing ==> s.queue != [] && s.outstanding == [s.queue[0]])
                  && (!s.stopped ==> |s.sends| == |AcceptedOf(s.sends)| + s.drops))
  {
    ReachableInv(cfg, es);
  }

  /** In every run, kick or not, what was written is a prefix of what was accepted,
      followed at most by the kick notice. */
  lemma CompletedIsAcceptedPrefix(cfg: Flow, es: seq<Event>)
    requires FlowOk(cfg)
    ensures var s := Exec(cfg, Init(), es);
            || s.completed <= AcceptedOf(s.sends)
            || (&& s.kick.Kicked? && s.kick.idle
                && s.kick.base <= AcceptedOf(s.sends)
                && s.completed == s.kick.base + [s.kick.frame])
  {
    ReachableInv(cfg, es);
  }

  function CompleteMany(s: Session, n: nat): Session {
    if n == 0 then s else Complete(CompleteMany(s, n - 1), 0, true)
  }

  /** Nothing has gone wrong, and the log of sends is `sends`. */
  ghost predicate Flowing(cfg: Flow, s: Session, sends: seq<Sent>) {
    Inv(cfg, s) && s.kick.NoKick? && !s.stopped && !s.failed && s.sends == sends
  }

  lemma CompleteHead(cfg: Flow, s: Session, sends: seq<Sent>)
    requires Flowing(cfg, s, sends) && s.queue != []
    ensures Flowing(cfg, Complete(s, 0, true), sends)
    ensures Complete(s, 0, true).queue == s.queue[1..]
  {
    CompleteKeepsInv(cfg, s, 0, true);
    HeadFrame(cfg, s);
  }

  lemma HeadFrame(cfg: Flow, s: Session)
    requires Inv(cfg, s) && s.kick.NoKick? && !s.stopped && !s.failed && s.queue != []
    ensures var r := Complete(s, 0, true);
            && r.kick.NoKick? && !r.stopped && !r.failed && r.sends == s.sends && r.queue == s.queue[1..]
  {
  }

  lemma {:induction false} StillFlowing(cfg: Flow, s: Session, n: nat)
    requires Flowing(cfg, s, s.sends) && n <= |s.queue|
    ensures Flowing(cfg, CompleteMany(s, n), s.sends) && CompleteMany(s, n).queue == s.queue[n..]
  {
    if n > 0 {
      var mid := CompleteMany(s, n - 1);
      StillFlowing(cfg, s, n - 1);
      CompleteHead(cfg, mid, s.sends);
      assert mid.queue[1..] == s.queue[n..];
    }
  }

  /** Progress: if the transport keeps succeeding, the queue drains and every accepted
      frame has been written, without any further send to restart the writer. */
  lemma QueueDrains(cfg: Flow, s: Session, n: nat)
    requires Inv(cfg, s) && s.kick.NoKick? && !s.stopped && !s.failed && n <= |s.queue|
    ensures var r := CompleteMany(s, n);
            && Inv(cfg, r) && r.kick.NoKick? && !r.stopped && !r.failed && r.sends == s.sends
            && r.queue == s.queue[n..]
    ensures n == |s.queue| ==> CompleteMany(s, n).completed == AcceptedOf(s.sends) && !CompleteMany(s, n).writing
  {
    StillFlowing(cfg, s, n);
    if n == |s.queue| { Drained(cfg, CompleteMany(s, n), s.sends); }
  }

  lemma Drained(cfg: Flow, s: Session, sends: seq<Sent>)
    requires Flowing(cfg, s, sends) && s.queue == []
    ensures s.completed == AcceptedOf(sends) && !s.writing
  {
    assert s.completed + [] == s.completed;
  }

  function RunMany(cfg: Flow, s: Session, n: nat): Session
    decreases n
  {
    if n == 0 then s else RunMany(cfg, RunNext(cfg, s), n - 1)
  }

  lemma RunNextPops(cfg: Flow, s: Session)
    requires s.mailbox != []
    ensures s.mailbox[1..] <= RunNext(cfg, s).mailbox
    ensures s.mailbox[0] == StopTask ==> RunNext(cfg, s).stopped
  {
    if s.mailbox[0].SendTask? {
      var v := SendLogsOnce(cfg, s.(mailbox := s.mailbox[1..]), s.mailbox[0].frame);
    }
  }

  lemma {:induction false} PostedStopRuns(cfg: Flow, s: Session, i: nat)
    requires i < |s.mailbox| && s.mailbox[i] == StopTask
    ensures RunMany(cfg, s, i + 1).stopped
    decreases i
  {
    var s1 := RunNext(cfg, s);
    RunNextPops(cfg, s);
    if i == 0 {
      assert RunMany(cfg, s, 1) == RunMany(cfg, s1, 0);
    } else {
      assert s1.mailbox[i - 1] == s.mailbox[1..][i - 1];
      PostedStopRuns(cfg, s1, i - 1);
    }
  }

  /** A write error, and under `disconnect` any drop, does stop the session: once the
      strand has run what is already posted, it is stopped. */
  lemma FailureStopsSession(cfg: Flow, es: seq<Event>) returns (n: nat)
    requires FlowOk(cfg)
    ensures var s := Exec(cfg, Init(), es);
            && n <= |s.mailbox|
            && (s.failed || (cfg.disconnect && s.drops > 0) ==> RunMany(cfg, s, n).stopped)
  {
    ReachableInv(cfg, es);
    var s := Exec(cfg, Init(), es);
    n := 0;
    if StopTask in s.mailbox {
      var i :| 0 <= i < |s.mailbox| && s.mailbox[i] == StopTask;
      PostedStopRuns(cfg, s, i);
      n := i + 1;
    }
  }

  // ---------------------------------------------------------------- kicks

  lemma KickedStepFreezes(cfg: Flow, s: Session, e: Event)
    requires Inv(cfg, s) && s.kick.Kicked?
    ensures var r := Step(cfg, s, e); r.kick == s.kick && AcceptedOf(r.sends) == AcceptedOf(s.sends)
  {
    if e.RanNext? && s.mailbox != [] && s.mailbox[0].SendTask? {
      LogUnfolds(s.sends, Sent(s.mailbox[0].frame, Ignored));
    }
  }

  lemma {:induction false} KickedRunFreezes(cfg: Flow, s: Session, es: seq<Event>)
    requires FlowOk(cfg) && Inv(cfg, s) && s.kick.Kicked?
    ensures var r := Exec(cfg, s, es);
            Inv(cfg, r) && r.kick == s.kick && AcceptedOf(r.sends) == AcceptedOf(s.sends)
  {
    if es != [] {
      var mid := Exec(cfg, s, es[..|es| - 1]);
      KickedRunFreezes(cfg, s, es[..|es| - 1]);
      KickedStepFreezes(cfg, mid, es[|es| - 1]);
      StepKeepsInv(cfg, mid, es[|es| - 1]);
    }
  }

  /** Kick finality.  A kick that runs after any run `es`, followed by any run `more`:
      no later send is accepted; at most one further write completes; it is the kick
      notice if no write was in flight when the kick ran and otherwise the frame that
      was in flight; and it completes exactly when the connection has been closed by it. */
  lemma KickFinality(cfg: Flow, es: seq<Event>, notice: Frame, more: seq<Event>)
    requires FlowOk(cfg)
    requires var s := Exec(cfg, Init(), es); !s.stopped && !s.kickPending
    ensures var s := Exec(cfg, Init(), es);
            var r := Exec(cfg, RunKick(s, notice), more);
            var last := if s.writing && s.queue != [] then s.queue[0] else notice;
            && (s.writing ==> s.queue != [])
            && AcceptedOf(r.sends) == AcceptedOf(s.sends)
            && (r.completed == s.completed || r.completed == s.completed + [last])
            && (r.completed == s.completed + [last] <==> !r.kickPending)
            && (!r.kickPending ==> r.stopped && !r.open && r.queue == [] && r.outstanding == [])
  {
    ReachableInv(cfg, es);
    var s := Exec(cfg, Init(), es);
    KickKeepsInv(cfg, s, notice);
    KickedRunFreezes(cfg, RunKick(s, notice), more);
  }

  /** Sends carry replies and deliveries; kicks carry kick notices. */
  predicate Ordinary(t: Task) {
    match t
    case SendTask(f) => !f.content.Kick?
    case KickTask(f) => f.content.Kick?
    case StopTask => true
  }

  ghost predicate OrdinaryRun(es: seq<Event>) {
    forall i :: 0 <= i < |es| && es[i].Posted? ==> Ordinary(es[i].task)
  }

  ghost predicate OrdinaryInv(s: Session) {
    && (forall i :: 0 <= i < |s.mailbox| ==> Ordinary(s.mailbox[i]))
    && (forall i :: 0 <= i < |AcceptedOf(s.sends)| ==> !AcceptedOf(s.sends)[i].content.Kick?)
    && (s.kick.Kicked? ==> s.kick.frame.content.Kick?)
  }

  lemma OrdinarySend(cfg: Flow, s: Session, f: Frame)
    requires OrdinaryInv(s) && !f.content.Kick?
    ensures OrdinaryInv(RunSend(cfg, s, f))
  {
    var r := RunSend(cfg, s, f);
    var v := SendLogsOnce(cfg, s, f);
    LogUnfolds(s.sends, Sent(f, v));
    assert OrdinaryInv(r) by {
      assert AcceptedOf(r.sends) == AcceptedOf(s.sends) + (if v == Accepted then [f] else []);
    }
  }

  lemma OrdinaryRunNext(cfg: Flow, s: Session)
    requires OrdinaryInv(s)
    ensures OrdinaryInv(RunNext(cfg, s))
  {
    if s.mailbox != [] {
      var s1 := s.(mailbox := s.mailbox[1..]);
      assert Ordinary(s.mailbox[0]);
      assert OrdinaryInv(s1);
      if s.mailbox[0].SendTask? {
        OrdinarySend(cfg, s1, s.mailbox[0].frame);
      }
    }
  }

  lemma CompletionKeepsLog(s: Session, i: nat, ok: bool)
    ensures var r := Complete(s, i, ok);
            && r.sends == s.sends && r.kick == s.kick
            && (r.mailbox == s.mailbox || r.mailbox == s.mailbox + [StopTask])
  {
  }

  lemma OrdinaryStep(cfg: Flow, s: Session, e: Event)
    requires OrdinaryInv(s) && (e.Posted? ==> Ordinary(e.task))
    ensures OrdinaryInv(Step(cfg, s, e))
  {
    match e {
      case Posted(t) =>
      case RanNext => OrdinaryRunNext(cfg, s);
      case Completed(i, ok) => CompletionKeepsLog(s, i, ok);
      case SocketClosed =>
    }
  }

  lemma {:induction false} OrdinaryExec(cfg: Flow, s: Session, es: seq<Event>)
    requires OrdinaryInv(s) && OrdinaryRun(es)
    ensures OrdinaryInv(Exec(cfg, s, es))
  {
    if es != [] {
      OrdinaryExec(cfg, s, es[..|es| - 1]);
      OrdinaryStep(cfg, Exec(cfg, s, es[..|es| - 1]), es[|es| - 1]);
    }
  }

  lemma KickNoticeInv(cfg: Flow, s: Session)
    requires Inv(cfg, s) && OrdinaryInv(s)
    ensures forall i :: 0 <= i < |s.completed| && s.completed[i].content.Kick? ==>
              i == |s.completed| - 1 && s.kick.Kicked? && !s.kickPending && s.kick.idle
    ensures s.kick.Kicked? && !s.kickPending ==>
              (s.completed != [] && s.completed[|s.completed| - 1].content.Kick? <==> s.kick.idle)
  {
    var acc := AcceptedOf(s.sends);
    if s.kick.NoKick? {
      assert forall i :: 0 <= i < |s.completed| ==> s.completed[i] == acc[i];
    } else {
      assert forall i :: 0 <= i < |s.kick.base| ==> s.kick.base[i] == acc[i];
      if !s.kick.idle {
        assert (s.kick.base + [s.kick.last])[|s.kick.base|] == acc[|s.kick.base|];
      }
    }
  }

  /** The peer is told before being cut off exactly when no write was in flight as the
      kick ran; the notice, if written at all, is the last frame written. */
  lemma KickNoticeWrittenIffIdle(cfg: Flow, es: seq<Event>)
    requires FlowOk(cfg) && OrdinaryRun(es)
    ensures var s := Exec(cfg, Init(), es);
            && (forall i :: 0 <= i < |s.completed| && s.completed[i].content.Kick? ==> i == |s.completed| - 1)
            && (s.kick.Kicked? && !s.kickPending ==>
                  (s.completed != [] && s.completed[|s.completed| - 1].content.Kick? <==> s.kick.idle))
  {
    ReachableInv(cfg, es);
    OrdinaryExec(cfg, Init(), es);
    KickNoticeInv(cfg, Exec(cfg, Init(), es));
  }

  lemma ExecSnoc(cfg: Flow, s: Session, es: seq<Event>, e: Event)
    ensures Exec(cfg, s, es + [e]) == Step(cfg, Exec(cfg, s, es), e)
  {
    assert (es + [e])[..|es|] == es;
  }

  /** The documented order "notice, then close" fails: a kick that overlaps a write loses
      its notice.  The write's completion pops the notice and the session closes. */
  lemma KickNoticeLost(cfg: Flow, f: Frame, notice: Frame) returns (es: seq<Event>)
    requires FlowOk(cfg) && f.size <= cfg.highWater && !f.content.Kick? && notice.content.Kick?
    ensures OrdinaryRun(es)
    ensures var s := Exec(cfg, Init(), es);
            s.kick.Kicked? && s.kick.frame == notice && s.completed == [f] && s.stopped && !s.open && s.queue == []
  {
    var e1 := [Posted(SendTask(f))];
    var e2 := e1 + [RanNext];
    var e3 := e2 + [Posted(KickTask(notice))];
    var e4 := e3 + [RanNext];
    es := e4 + [Completed(0, true)];
    assert e1 == [] + [Posted(SendTask(f))];
    ExecSnoc(cfg, Init(), [], Posted(SendTask(f)));
    ExecSnoc(cfg, Init(), e1, RanNext);
    ExecSnoc(cfg, Init(), e2, Posted(KickTask(notice)));
    ExecSnoc(cfg, Init(), e3, RanNext);
    ExecSnoc(cfg, Init(), e4, Completed(0, true));
    assert Exec(cfg, Init(), e2).outstanding == [f];
    assert Exec(cfg, Init(), e3).mailbox == [KickTask(notice)];
    assert Exec(cfg, Init(), e4).queue == [notice];
  }
}
