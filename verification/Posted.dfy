/** What was posted to a session's strand, by kind of frame: no step of the session loses,
    adds or reorders it. */
module Posted {
  import opened Wire
  import Q = SendQueue

  /** `Solicited`: replies other than those to heartbeats that succeeded. */
  datatype Kind = Delivery | ServerReply | Solicited | Every

  predicate IsKind(k: Kind, f: Frame) {
    match k
    case Delivery => f.content.Deliver?
    case ServerReply => f.content.Reply?
    case Solicited => f.content.Reply? && !IsHeartbeatOk(f.content)
    case Every => true
  }

  /** The frames of one kind, in order. */
  function Pick(k: Kind, fs: seq<Frame>): seq<Frame> {
    if fs == [] then []
    else
      var rest := Pick(k, fs[..|fs| - 1]);
      if IsKind(k, fs[|fs| - 1]) then rest + [fs[|fs| - 1]] else rest
  }

  /** The frames of the send closures that ran. */
  function SentFrames(sends: seq<Q.Sent>): seq<Frame> {
    seq(|sends|, i requires 0 <= i < |sends| => sends[i].frame)
  }

  /** The frames of the send closures still on the strand. */
  function WaitingFrames(mailbox: seq<Q.Task>): seq<Frame> {
    if mailbox == [] then []
    else
      var rest := WaitingFrames(mailbox[..|mailbox| - 1]);
      if mailbox[|mailbox| - 1].SendTask? then rest + [mailbox[|mailbox| - 1].frame] else rest
  }

  /** Every frame of one kind posted to a session, in posting order. */
  function PostedOf(k: Kind, s: Q.Session): seq<Frame> {
    Pick(k, SentFrames(s.sends) + WaitingFrames(s.mailbox))
  }

  lemma PickSnoc(k: Kind, fs: seq<Frame>, f: Frame)
    ensures Pick(k, fs + [f]) == Pick(k, fs) + (if IsKind(k, f) then [f] else [])
  {
    assert (fs + [f])[..|fs|] == fs;
  }

  lemma {:induction false} PickConcat(k: Kind, a: seq<Frame>, b: seq<Frame>)
    ensures Pick(k, a + b) == Pick(k, a) + Pick(k, b)
  {
    if b == [] {
      assert a + b == a;
    } else {
      var f := b[|b| - 1];
      PickConcat(k, a, b[..|b| - 1]);
      assert a + b == (a + b[..|b| - 1]) + [f];
      PickSnoc(k, a + b[..|b| - 1], f);
    }
  }

  lemma {:induction false} PickEvery(fs: seq<Frame>)
    ensures Pick(Every, fs) == fs
  {
    if fs != [] {
      PickEvery(fs[..|fs| - 1]);
      assert fs == fs[..|fs| - 1] + [fs[|fs| - 1]];
    }
  }

  lemma WaitingSnoc(mailbox: seq<Q.Task>, t: Q.Task)
    ensures WaitingFrames(mailbox + [t]) == WaitingFrames(mailbox) + (if t.SendTask? then [t.frame] else [])
  {
    assert (mailbox + [t])[..|mailbox|] == mailbox;
  }

  lemma {:induction false} WaitingCons(mailbox: seq<Q.Task>)
    requires mailbox != []
    ensures WaitingFrames(mailbox) ==
            (if mailbox[0].SendTask? then [mailbox[0].frame] else []) + WaitingFrames(mailbox[1..])
  {
    if |mailbox| == 1 {
      assert mailbox[..0] == [];
    } else {
      var last := mailbox[|mailbox| - 1];
      WaitingCons(mailbox[..|mailbox| - 1]);
      assert mailbox[..|mailbox| - 1][1..] + [last] == mailbox[1..];
      WaitingSnoc(mailbox[..|mailbox| - 1][1..], last);
    }
  }

  lemma SentSnoc(sends: seq<Q.Sent>, x: Q.Sent)
    ensures SentFrames(sends + [x]) == SentFrames(sends) + [x.frame]
  {
  }

  // ---------------------------------------------------------------- session steps

  /** No step of a session loses, adds or reorders what was posted to it; a post appends. */
  lemma SessionKeepsPosted(k: Kind, flow: Q.Flow, s: Q.Session, e: Q.Event)
    ensures PostedOf(k, Q.Step(flow, s, e)) ==
            PostedOf(k, s) + (if e.Posted? && e.task.SendTask? && IsKind(k, e.task.frame) then [e.task.frame] else [])
  {
    match e {
      case Posted(t) => PostKeepsPosted(k, s, t);
      case RanNext => RunKeepsPosted(k, flow, s);
      case Completed(i, ok) => CompletionKeepsPosted(k, s, i, ok);
      case SocketClosed =>
    }
  }

  lemma PostKeepsPosted(k: Kind, s: Q.Session, t: Q.Task)
    ensures PostedOf(k, Q.Post(s, t)) ==
            PostedOf(k, s) + (if t.SendTask? && IsKind(k, t.frame) then [t.frame] else [])
  {
    WaitingSnoc(s.mailbox, t);
    if t.SendTask? {
      PickSnoc(k, SentFrames(s.sends) + WaitingFrames(s.mailbox), t.frame);
      assert SentFrames(s.sends) + (WaitingFrames(s.mailbox) + [t.frame]) ==
             SentFrames(s.sends) + WaitingFrames(s.mailbox) + [t.frame];
    }
  }

  lemma CompletionKeepsPosted(k: Kind, s: Q.Session, i: nat, ok: bool)
    ensures PostedOf(k, Q.Complete(s, i, ok)) == PostedOf(k, s)
  {
    Q.CompletionKeepsLog(s, i, ok);
    WaitingSnoc(s.mailbox, Q.StopTask);
  }

  lemma RunKeepsPosted(k: Kind, flow: Q.Flow, s: Q.Session)
    ensures PostedOf(k, Q.RunNext(flow, s)) == PostedOf(k, s)
  {
    if s.mailbox != [] {
      var s1 := s.(mailbox := s.mailbox[1..]);
      WaitingCons(s.mailbox);
      match s.mailbox[0] {
        case SendTask(f) =>
          var r := Q.RunSend(flow, s1, f);
          var v := Q.SendLogsOnce(flow, s1, f);
          SentSnoc(s.sends, Q.Sent(f, v));
          WaitingSnoc(s1.mailbox, Q.StopTask);
          assert WaitingFrames(r.mailbox) == WaitingFrames(s1.mailbox);
          assert SentFrames(s.sends) + ([f] + WaitingFrames(s1.mailbox)) ==
                 (SentFrames(s.sends) + [f]) + WaitingFrames(s1.mailbox);
        case KickTask(f) =>
          KickLeavesMail(s1, f);
          assert WaitingFrames(s.mailbox) == WaitingFrames(s1.mailbox);
        case StopTask =>
          assert WaitingFrames(s.mailbox) == WaitingFrames(s1.mailbox);
      }
    }
  }

  lemma KickLeavesMail(s: Q.Session, f: Frame)
    ensures Q.RunKick(s, f).mailbox == s.mailbox && Q.RunKick(s, f).sends == s.sends
  {
  }

  lemma {:induction false} PickPrefix(k: Kind, a: seq<Frame>, b: seq<Frame>)
    requires a <= b
    ensures Pick(k, a) <= Pick(k, b)
  {
    assert b == a + b[|a|..];
    PickConcat(k, a, b[|a|..]);
  }

  lemma {:induction false} AcceptedBound(sends: seq<Q.Sent>)
    ensures |Q.AcceptedOf(sends)| <= |sends|
    ensures |Q.AcceptedOf(sends)| == |sends| ==> Q.AcceptedOf(sends) == SentFrames(sends)
  {
    if sends != [] {
      AcceptedBound(sends[..|sends| - 1]);
      assert sends == sends[..|sends| - 1] + [sends[|sends| - 1]];
      SentSnoc(sends[..|sends| - 1], sends[|sends| - 1]);
    }
  }
}
