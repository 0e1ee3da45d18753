/** The blocking client: it sorts what arrives into deliveries and replies, one call at a time,
    while a background thread keeps sending heartbeats whose replies arrive unasked.
 */
module ClientSpec {
  import opened Arithmetic
  import opened Wire

  /** What `recv` yields: a frame, or nothing (unknown type, undecodable body). */
  datatype Incoming = Got(content: Content) | Unusable

  /** What a call is waiting for. */
  datatype Wait =
    | ForLogin
    | ForAck(seqNo: nat, op: string)
    | ForControl(seqNo: nat)
    | ForHeartbeat(seqNo: nat)
    | ForDelivery

  datatype Why = Eof | Kicked | Refused | EarlyDelivery | WrongSeq | WrongOp | StrayReply

  datatype Verdict = Skip | Stash | Return | Throw(why: Why)

  /** How each waiting loop treats one event. */
  function OnEvent(w: Wait, c: Content): Verdict {
    match c
    case Kick(_) => Throw(Kicked)
    case Deliver(_, _, _) => if w.ForLogin? then Throw(EarlyDelivery) else if w.ForDelivery? then Return else Stash
    case Reply(n, ok, op, _) =>
      if IsHeartbeatOk(c) then (if w.ForHeartbeat? && n == w.seqNo then Return else Skip)
      else match w
           case ForLogin => if !ok then Throw(Refused) else if op == "LOGIN" then Return else Throw(WrongOp)
           case ForAck(m, want) =>
             if n != m then Throw(WrongSeq)
             else if !ok then Throw(Refused)
             else if op == want then Return
             else Throw(WrongOp)
           case ForControl(m) =>
             if n != m then Throw(WrongSeq)
             else if !ok then Throw(Refused)
             else if op != "CONTROL" then Throw(WrongOp)
             else Return
           case ForHeartbeat(_) => Throw(StrayReply)
           case ForDelivery => Throw(StrayReply)
  }

  datatype Result = Done(content: Content) | Failed(why: Why)

  /** The two queues a call works on: deliveries set aside, and what has yet to be read. */
  datatype Outcome = Outcome(result: Result, pre: seq<Content>, inbox: seq<Incoming>)

  /** A waiting loop, as a function of what arrives. */
  function Await(w: Wait, pre: seq<Content>, inbox: seq<Incoming>): Outcome
    decreases |inbox|
  {
    if inbox == [] then Outcome(Failed(Eof), pre, [])
    else if inbox[0].Unusable? then Outcome(Failed(Eof), pre, inbox[1..])
    else
      var c := inbox[0].content;
      match OnEvent(w, c)
      case Skip => Await(w, pre, inbox[1..])
      case Stash => Await(w, pre + [c], inbox[1..])
      case Return => Outcome(Done(c), pre, inbox[1..])
      case Throw(why) => Outcome(Failed(why), pre, inbox[1..])
  }

  /** `recv_deliver` serves what was set aside first. */
  function AwaitDelivery(pre: seq<Content>, inbox: seq<Incoming>): Outcome {
    if pre != [] then Outcome(Done(pre[0]), pre[1..], inbox) else Await(ForDelivery, [], inbox)
  }

  /** The deliveries among a stretch of input. */
  function DeliveriesIn(xs: seq<Incoming>): seq<Content> {
    if xs == [] then []
    else
      var rest := DeliveriesIn(xs[..|xs| - 1]);
      var x := xs[|xs| - 1];
      if x.Got? && x.content.Deliver? then rest + [x.content] else rest
  }

  lemma DeliveriesInSnoc(xs: seq<Incoming>, x: Incoming)
    ensures DeliveriesIn(xs + [x]) == DeliveriesIn(xs) + (if x.Got? && x.content.Deliver? then [x.content] else [])
  {
    assert (xs + [x])[..|xs|] == xs;
  }

  lemma {:induction false} DeliveriesInConcat(a: seq<Incoming>, b: seq<Incoming>)
    ensures DeliveriesIn(a + b) == DeliveriesIn(a) + DeliveriesIn(b)
  {
    if b == [] {
      assert a + b == a;
    } else {
      var init, x := b[..|b| - 1], b[|b| - 1];
      DeliveriesInConcat(a, init);
      assert a + b == (a + init) + [x];
      DeliveriesInSnoc(a + init, x);
    }
  }

  lemma DeliveriesInOne(x: Incoming)
    ensures DeliveriesIn([x]) == if x.Got? && x.content.Deliver? then [x.content] else []
  {
    DeliveriesInSnoc([], x);
    assert [] + [x] == [x];
  }

  /** What a call took off the input. */
  function Taken(before: seq<Incoming>, after: seq<Incoming>): seq<Incoming>
    requires |after| <= |before|
  {
    before[..|before| - |after|]
  }

  predicate Recurses(w: Wait, x: Incoming) {
    x.Got? && (OnEvent(w, x.content).Skip? || OnEvent(w, x.content).Stash?)
  }

  function Stashed(w: Wait, x: Incoming): seq<Content> {
    if x.Got? && OnEvent(w, x.content).Stash? then [x.content] else []
  }

  lemma AwaitUnfolds(w: Wait, pre: seq<Content>, inbox: seq<Incoming>)
    requires inbox != []
    ensures Recurses(w, inbox[0]) ==> Await(w, pre, inbox) == Await(w, pre + Stashed(w, inbox[0]), inbox[1..])
    ensures !Recurses(w, inbox[0]) ==> Await(w, pre, inbox).pre == pre && Await(w, pre, inbox).inbox == inbox[1..]
  {
    assert pre + [] == pre;
  }

  lemma {:induction false} AwaitTakesPrefix(w: Wait, pre: seq<Content>, inbox: seq<Incoming>)
    ensures var r := Await(w, pre, inbox); |r.inbox| <= |inbox| && inbox == Taken(inbox, r.inbox) + r.inbox
    decreases |inbox|
  {
    if inbox != [] {
      AwaitUnfolds(w, pre, inbox);
      if Recurses(w, inbox[0]) {
        AwaitTakesPrefix(w, pre + Stashed(w, inbox[0]), inbox[1..]);
      }
    }
  }

  lemma TakenUnfolds(w: Wait, inbox: seq<Incoming>, left: seq<Incoming>)
    requires inbox != [] && |left| < |inbox|
    ensures Taken(inbox, left) == [inbox[0]] + Taken(inbox[1..], left)
    ensures DeliveriesIn(Taken(inbox, left)) == DeliveriesIn([inbox[0]]) + DeliveriesIn(Taken(inbox[1..], left))
  {
    assert Taken(inbox, left) == [inbox[0]] + Taken(inbox[1..], left);
    DeliveriesInConcat([inbox[0]], Taken(inbox[1..], left));
  }

  /** A wait for a reply sets aside, in order, the deliveries that it reads. */
  lemma {:induction false} ReplyWaitConserves(w: Wait, pre: seq<Content>, inbox: seq<Incoming>)
    requires !w.ForLogin? && !w.ForDelivery?
    ensures var r := Await(w, pre, inbox);
            |r.inbox| <= |inbox| && r.pre == pre + DeliveriesIn(Taken(inbox, r.inbox))
    decreases |inbox|
  {
    var r := Await(w, pre, inbox);
    if inbox != [] {
      AwaitUnfolds(w, pre, inbox);
      StashedIsDelivery(w, inbox[0]);
      if Recurses(w, inbox[0]) {
        var one := Stashed(w, inbox[0]);
        ReplyWaitConserves(w, pre + one, inbox[1..]);
        TakenUnfolds(w, inbox, r.inbox);
        assert (pre + one) + DeliveriesIn(Taken(inbox[1..], r.inbox))
               == pre + (one + DeliveriesIn(Taken(inbox[1..], r.inbox)));
      } else {
        assert Taken(inbox, r.inbox) == [inbox[0]];
      }
    }
  }

  /** A wait for a reply sets aside exactly the deliveries, and a delivery never ends it. */
  lemma StashedIsDelivery(w: Wait, x: Incoming)
    requires !w.ForLogin? && !w.ForDelivery?
    ensures Stashed(w, x) == DeliveriesIn([x])
    ensures !Recurses(w, x) ==> DeliveriesIn([x]) == []
  {
    DeliveriesInOne(x);
  }

  /** A wait for a delivery returns the first one that it reads, and reads no other. */
  lemma {:induction false} DeliveryWaitConserves(pre: seq<Content>, inbox: seq<Incoming>)
    ensures var r := Await(ForDelivery, pre, inbox);
            && |r.inbox| <= |inbox| && r.pre == pre
            && DeliveriesIn(Taken(inbox, r.inbox)) == if r.result.Done? then [r.result.content] else []
    decreases |inbox|
  {
    var r := Await(ForDelivery, pre, inbox);
    AwaitTakesPrefix(ForDelivery, pre, inbox);
    if inbox != [] {
      AwaitUnfolds(ForDelivery, pre, inbox);
      DeliveriesInOne(inbox[0]);
      if Recurses(ForDelivery, inbox[0]) {
        assert pre + Stashed(ForDelivery, inbox[0]) == pre;
        AwaitTakesPrefix(ForDelivery, pre, inbox[1..]);
        DeliveryWaitConserves(pre, inbox[1..]);
        TakenUnfolds(ForDelivery, inbox, r.inbox);
      } else {
        assert Taken(inbox, r.inbox) == [inbox[0]];
      }
    }
  }

  /** A call that returns got its own reply. */
  lemma {:induction false} AwaitReturnsOwnReply(w: Wait, pre: seq<Content>, inbox: seq<Incoming>)
    ensures var r := Await(w, pre, inbox).result;
            r.Done? && !w.ForDelivery? ==>
              && r.content.Reply? && r.content.ok
              && (w.ForLogin? ==> r.content.op == "LOGIN")
              && (w.ForAck? ==> r.content.seqNo == w.seqNo && r.content.op == w.op)
              && (w.ForControl? ==> r.content.seqNo == w.seqNo && r.content.op == "CONTROL")
              && (w.ForHeartbeat? ==> r.content.seqNo == w.seqNo && r.content.op == "HEARTBEAT")
    decreases |inbox|
  {
    if inbox != [] && inbox[0].Got? {
      match OnEvent(w, inbox[0].content)
      case Skip => AwaitReturnsOwnReply(w, pre, inbox[1..]);
      case Stash => AwaitReturnsOwnReply(w, pre + [inbox[0].content], inbox[1..]);
      case _ =>
    }
  }

  /** The two loops that wait for a CONTROL reply, written differently in the source, behave
      alike on every input. */
  lemma {:induction false} ControlLoopsAgree(n: nat, pre: seq<Content>, inbox: seq<Incoming>)
    ensures Await(ForAck(n, "CONTROL"), pre, inbox) == Await(ForControl(n), pre, inbox)
    decreases |inbox|
  {
    if inbox != [] && inbox[0].Got? {
      match OnEvent(ForControl(n), inbox[0].content)
      case Skip => ControlLoopsAgree(n, pre, inbox[1..]);
      case Stash => ControlLoopsAgree(n, pre + [inbox[0].content], inbox[1..]);
      case _ =>
    }
  }

  // ---------------------------------------------------------------- sequences of calls

  /** `handed` and `read` are histories: deliveries returned so far, input taken so far. */
  datatype CallState = CallState(pre: seq<Content>, inbox: seq<Incoming>, handed: seq<Content>, read: seq<Incoming>)

  function CallOutcome(s: CallState, w: Wait): Outcome {
    if w.ForDelivery? then AwaitDelivery(s.pre, s.inbox) else Await(w, s.pre, s.inbox)
  }

  function Call(s: CallState, w: Wait): CallState {
    var r := CallOutcome(s, w);
    CallState(r.pre, r.inbox,
           if w.ForDelivery? && r.result.Done? then s.handed + [r.result.content] else s.handed,
           s.read + if |r.inbox| <= |s.inbox| then Taken(s.inbox, r.inbox) else [])
  }

  function Calls(s: CallState, ws: seq<Wait>): CallState {
    if ws == [] then s else Call(Calls(s, ws[..|ws| - 1]), ws[|ws| - 1])
  }

  ghost predicate Conserved(s: CallState) {
    s.handed + s.pre == DeliveriesIn(s.read)
  }

  lemma SetAsideCall(s: CallState)
    requires Conserved(s) && s.pre != []
    ensures var r := Call(s, ForDelivery); Conserved(r) && r.read == s.read && r.inbox == s.inbox
  {
    assert s.read + Taken(s.inbox, s.inbox) == s.read;
    assert s.handed + s.pre == (s.handed + [s.pre[0]]) + s.pre[1..];
  }

  lemma DeliveryCall(s: CallState)
    requires Conserved(s) && s.pre == []
    ensures Conserved(Call(s, ForDelivery))
  {
    var r := CallOutcome(s, ForDelivery);
    DeliveryWaitConserves([], s.inbox);
    DeliveriesInConcat(s.read, Taken(s.inbox, r.inbox));
    assert s.handed + [] == s.handed;
  }

  lemma ReplyCall(s: CallState, w: Wait)
    requires Conserved(s) && !w.ForLogin? && !w.ForDelivery?
    ensures Conserved(Call(s, w))
  {
    ReplyWaitConserves(w, s.pre, s.inbox);
    var taken := Taken(s.inbox, CallOutcome(s, w).inbox);
    DeliveriesInConcat(s.read, taken);
    assert (s.handed + s.pre) + DeliveriesIn(taken) == s.handed + (s.pre + DeliveriesIn(taken));
  }

  lemma CallReads(s: CallState, w: Wait)
    requires !(w.ForDelivery? && s.pre != [])
    ensures var r := Call(s, w); r.read + r.inbox == s.read + s.inbox
  {
    var left := CallOutcome(s, w).inbox;
    AwaitTakesPrefix(w, if w.ForDelivery? then [] else s.pre, s.inbox);
    assert (s.read + Taken(s.inbox, left)) + left == s.read + (Taken(s.inbox, left) + left);
  }

  lemma CallConserves(s: CallState, w: Wait)
    requires !w.ForLogin? && Conserved(s)
    ensures var r := Call(s, w); Conserved(r) && r.read + r.inbox == s.read + s.inbox
  {
    if w.ForDelivery? && s.pre != [] {
      SetAsideCall(s);
    } else {
      CallReads(s, w);
      if w.ForDelivery? { DeliveryCall(s); } else { ReplyCall(s, w); }
    }
  }

  /** After sign-on, whatever is called in whatever order, and whichever calls throw: the
      deliveries returned, followed by those set aside, are exactly the deliveries read, in
      arrival order; and nothing that arrived is skipped unread. */
  lemma {:induction false} DeliveriesConserved(inbox: seq<Incoming>, ws: seq<Wait>)
    requires forall i :: 0 <= i < |ws| ==> !ws[i].ForLogin?
    ensures var r := Calls(CallState([], inbox, [], []), ws);
            && r.handed + r.pre == DeliveriesIn(r.read)
            && r.read + r.inbox == inbox
  {
    if ws != [] {
      DeliveriesConserved(inbox, ws[..|ws| - 1]);
      CallConserves(Calls(CallState([], inbox, [], []), ws[..|ws| - 1]), ws[|ws| - 1]);
    }
  }

  // ---------------------------------------------------------------- sequence numbers

  const SEQ_MASK: nat := 0x8000_0000      // masking with 0x7FFFFFFF is the remainder by this
  const SEQ_PERIOD: nat := 0x7FFF_FFFF

  function NextSeq(s: nat): nat {
    var t := (s + 1) % SEQ_MASK;
    if t == 0 then 1 else t
  }

  /** The k-th value returned, counting from one; the counter starts at 1. */
  function SeqAt(k: nat): nat {
    if k == 0 then 1 else NextSeq(SeqAt(k - 1))
  }

  lemma SeqStep(s: nat, r: nat)
    requires r < SEQ_PERIOD && s == r + 1
    ensures NextSeq(s) == if r == SEQ_PERIOD - 1 then 1 else r + 2
  {
  }

  lemma {:induction false} SeqClosedForm(k: nat)
    ensures SeqAt(k) == k % SEQ_PERIOD + 1
  {
    if k > 0 {
      SeqClosedForm(k - 1);
      SuccMod(k - 1, SEQ_PERIOD);
      SeqStep(SeqAt(k - 1), (k - 1) % SEQ_PERIOD);
    }
  }

  lemma RemaindersDiffer(i: nat, j: nat)
    requires i < j < i + SEQ_PERIOD
    ensures i % SEQ_PERIOD != j % SEQ_PERIOD
  {
    var q, r := i / SEQ_PERIOD, j / SEQ_PERIOD;
    assert i == q * SEQ_PERIOD + i % SEQ_PERIOD && j == r * SEQ_PERIOD + j % SEQ_PERIOD;
  }

  /** Sequence numbers are never zero, fit 31 bits, and do not repeat within a period. */
  lemma SeqDistinctWithinPeriod(i: nat, j: nat)
    ensures 1 <= SeqAt(i) < SEQ_MASK
    ensures i < j < i + SEQ_PERIOD ==> SeqAt(i) != SeqAt(j)
  {
    SeqClosedForm(i);
    SeqClosedForm(j);
    if i < j < i + SEQ_PERIOD { RemaindersDiffer(i, j); }
  }
}

module Clients {
  import opened Options
  import opened Wire
  import opened ClientSpec

  class Client {
    var inOrder: seq<Content>
    var preDelivers: seq<Content>
    var inbox: seq<Incoming>       // what the socket will yield before end of file
    var seqNo: nat

    constructor (inbox: seq<Incoming>)
      ensures inOrder == [] && preDelivers == [] && this.inbox == inbox && seqNo == 1
    {
      inOrder, preDelivers, this.inbox, seqNo := [], [], inbox, 1;
    }

    method TakeSeq() returns (s: nat)
      modifies this`seqNo
      ensures s == seqNo == NextSeq(old(seqNo))
    {
      seqNo := (seqNo + 1) % SEQ_MASK;
      if seqNo == 0 { seqNo := 1; }
      return seqNo;
    }

    method Recv() returns (ev: Option<Content>)
      modifies this`inbox
      ensures old(inbox) == [] ==> ev == None && inbox == []
      ensures old(inbox) != [] ==> inbox == old(inbox)[1..]
      ensures old(inbox) != [] ==> ev == if old(inbox)[0].Got? then Some(old(inbox)[0].content) else None
    {
      if inbox == [] { return None; }
      var x := inbox[0];
      inbox := inbox[1..];
      match x {
        case Got(c) => return Some(c);
        case Unusable => return None;
      }
    }

    /** The head of every waiting loop: refill `inOrder` from the socket, pop its front. */
    method NextEvent() returns (ev: Option<Content>)
      requires inOrder == []
      modifies this`inOrder, this`inbox
      ensures inOrder == []
      ensures old(inbox) == [] ==> ev == None && inbox == []
      ensures old(inbox) != [] ==> inbox == old(inbox)[1..]
      ensures old(inbox) != [] ==> ev == if old(inbox)[0].Got? then Some(old(inbox)[0].content) else None
    {
      if inOrder == [] {
        var got := Recv();
        if got.None? { return None; }
        inOrder := inOrder + [got.value];
      }
      ev := Some(inOrder[0]);
      inOrder := inOrder[1..];
    }

    method SignOn() returns (r: Result)
      requires inOrder == []
      modifies this`inOrder, this`inbox
      ensures inOrder == []
      ensures Outcome(r, preDelivers, inbox) == Await(ForLogin, old(preDelivers), old(inbox))
    {
      while true
        invariant inOrder == []
        invariant Await(ForLogin, preDelivers, inbox) == Await(ForLogin, old(preDelivers), old(inbox))
        decreases |inbox|
      {
        var ev := NextEvent();
        if ev.None? { return Failed(Eof); }
        match ev.value {
          case Kick(_) => return Failed(Kicked);
          case Deliver(_, _, _) => return Failed(EarlyDelivery);
          case Reply(_, ok, op, _) =>
            if ok && op == "HEARTBEAT" { continue; }
            if !ok { return Failed(Refused); }
            if op == "LOGIN" { return Done(ev.value); }
            return Failed(WrongOp);
        }
      }
    }

    method DrainServerAck(seqNo: nat, op: string) returns (r: Result)
      requires inOrder == []
      modifies this`inOrder, this`inbox, this`preDelivers
      ensures inOrder == []
      ensures Outcome(r, preDelivers, inbox) == Await(ForAck(seqNo, op), old(preDelivers), old(inbox))
    {
      while true
        invariant inOrder == []
        invariant Await(ForAck(seqNo, op), preDelivers, inbox) == Await(ForAck(seqNo, op), old(preDelivers), old(inbox))
        decreases |inbox|
      {
        var ev := NextEvent();
        if ev.None? { return Failed(Eof); }
        match ev.value {
          case Kick(_) => return Failed(Kicked);
          case Deliver(_, _, _) =>
            preDelivers := preDelivers + [ev.value];
          case Reply(n, ok, got, _) =>
            if ok && got == "HEARTBEAT" { continue; }
            if n == seqNo {
              if !ok { return Failed(Refused); }
              if got == op { return Done(ev.value); }
              return Failed(WrongOp);
            }
            return Failed(WrongSeq);
        }
      }
    }

    method DrainControlFull(seqNo: nat) returns (r: Result)
      requires inOrder == []
      modifies this`inOrder, this`inbox, this`preDelivers
      ensures inOrder == []
      ensures Outcome(r, preDelivers, inbox) == Await(ForControl(seqNo), old(preDelivers), old(inbox))
    {
      while true
        invariant inOrder == []
        invariant Await(ForControl(seqNo), preDelivers, inbox) == Await(ForControl(seqNo), old(preDelivers), old(inbox))
        decreases |inbox|
      {
        var ev := NextEvent();
        if ev.None? { return Failed(Eof); }
        match ev.value {
          case Kick(_) => return Failed(Kicked);
          case Deliver(_, _, _) =>
            preDelivers := preDelivers + [ev.value];
          case Reply(n, ok, got, _) =>
            if ok && got == "HEARTBEAT" { continue; }
            if n != seqNo { return Failed(WrongSeq); }
            if !ok { return Failed(Refused); }
            if got != "CONTROL" { return Failed(WrongOp); }
            return Done(ev.value);
        }
      }
    }

    method ExpectHeartbeatOk(seqNo: nat) returns (r: Result)
      requires inOrder == []
      modifies this`inOrder, this`inbox, this`preDelivers
      ensures inOrder == []
      ensures Outcome(r, preDelivers, inbox) == Await(ForHeartbeat(seqNo), old(preDelivers), old(inbox))
    {
      while true
        invariant inOrder == []
        invariant Await(ForHeartbeat(seqNo), preDelivers, inbox)
                  == Await(ForHeartbeat(seqNo), old(preDelivers), old(inbox))
        decreases |inbox|
      {
        var ev := NextEvent();
        if ev.None? { return Failed(Eof); }
        match ev.value {
          case Kick(_) => return Failed(Kicked);
          case Deliver(_, _, _) =>
            preDelivers := preDelivers + [ev.value];
          case Reply(n, ok, got, _) =>
            if ok && got == "HEARTBEAT" {
              if n == seqNo { return Done(ev.value); }
              continue;
            }
            return Failed(StrayReply);
        }
      }
    }

    method RecvDeliver() returns (r: Result)
      requires inOrder == []
      modifies this`inOrder, this`inbox, this`preDelivers
      ensures inOrder == []
      ensures Outcome(r, preDelivers, inbox) == AwaitDelivery(old(preDelivers), old(inbox))
    {
      while true
        invariant inOrder == []
        invariant preDelivers == old(preDelivers)
        invariant AwaitDelivery(preDelivers, inbox) == AwaitDelivery(old(preDelivers), old(inbox))
        decreases |inbox|
      {
        if preDelivers != [] {
          var d := preDelivers[0];
          preDelivers := preDelivers[1..];
          return Done(d);
        }
        var ev := NextEvent();
        if ev.None? { return Failed(Eof); }
        match ev.value {
          case Kick(_) => return Failed(Kicked);
          case Deliver(_, _, _) => return Done(ev.value);
          case Reply(_, ok, op, _) =>
            if ok && op == "HEARTBEAT" { continue; }
            return Failed(StrayReply);
        }
      }
    }
  }
}
