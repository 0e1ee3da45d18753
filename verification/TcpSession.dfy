/** The session object: the fields and closures of `TcpSession`, proved to take the
    steps of the send-queue machine. */
module TcpSessions {
  import opened Wire
  import opened SendQueue

  class TcpSession {
    const cfg: Flow

    var stopped: bool
    var writing: bool
    var kickPending: bool
    var queue: seq<Frame>
    var pendingBytes: nat
    var drops: nat               // this session's share of the drop counter
    var socketOpen: bool

    var strand: seq<Task>        // closures posted and not yet run
    var transport: seq<Frame>    // writes handed to the socket

    ghost var completed: seq<Frame>
    ghost var sends: seq<Sent>
    ghost var kick: KickRecord
    ghost var failed: bool

    ghost function State(): Session
      reads this
    {
      Session(stopped, writing, kickPending, socketOpen, queue, pendingBytes, drops, strand, transport,
              completed, sends, kick, failed)
    }

    constructor (cfg: Flow)
      ensures this.cfg == cfg
      ensures State() == Init()
    {
      this.cfg := cfg;
      stopped, writing, kickPending, socketOpen := false, false, false, true;
      queue, pendingBytes, drops := [], 0, 0;
      strand, transport := [], [];
      completed, sends, kick, failed := [], [], NoKick, false;
    }

    // Posting.  Each call only appends a closure to the strand.

    method SendFrame(bytes: Frame)
      modifies this
      ensures State() == Post(old(State()), SendTask(bytes))
    {
      strand := strand + [SendTask(bytes)];
    }

    method KickNotifyAndClose(notify: Frame)
      modifies this
      ensures State() == Post(old(State()), KickTask(notify))
    {
      strand := strand + [KickTask(notify)];
    }

    method Stop()
      modifies this
      ensures State() == Post(old(State()), StopTask)
    {
      strand := strand + [StopTask];
    }

    // Closures.

    method DoWrite()
      modifies this
      ensures State() == SendQueue.DoWrite(old(State()))
    {
      if queue == [] || stopped { return; }
      writing := true;
      transport := transport + [queue[0]];
    }

    method OnSend(bytes: Frame)
      modifies this
      ensures State() == RunSend(cfg, old(State()), bytes)
    {
      if stopped || kickPending {
        sends := sends + [Sent(bytes, Ignored)];
        return;
      }
      var newTotal := pendingBytes + bytes.size;
      if newTotal > cfg.highWater && newTotal <= cfg.hardLimit {
        drops := drops + 1;
        sends := sends + [Sent(bytes, Dropped)];
        if cfg.disconnect {
          Stop();
        }
        return;
      }
      if newTotal > cfg.hardLimit {
        drops := drops + 1;
        sends := sends + [Sent(bytes, Dropped)];
        Stop();
        return;
      }
      queue := queue + [bytes];
      pendingBytes := newTotal;
      sends := sends + [Sent(bytes, Accepted)];
      if !writing { DoWrite(); }
    }

    method OnKick(notify: Frame)
      modifies this
      ensures State() == RunKick(old(State()), notify)
    {
      if stopped || kickPending { return; }
      kick := Kicked(notify, transport == [], completed, if transport == [] then notify else transport[0]);
      kickPending := true;
      queue := [];
      pendingBytes := 0;
      queue := queue + [notify];
      pendingBytes := pendingBytes + notify.size;
      if !writing { DoWrite(); }
    }

    method OnStop()
      modifies this
      ensures State() == RunStop(old(State()))
    {
      if stopped { return; }
      stopped := true;
      socketOpen := false;
    }

    /** The strand takes the oldest closure and runs it. */
    method RunOne()
      modifies this
      ensures State() == RunNext(cfg, old(State()))
    {
      if strand == [] { return; }
      var task := strand[0];
      strand := strand[1..];
      match task {
        case SendTask(f) => OnSend(f);
        case KickTask(f) => OnKick(f);
        case StopTask => OnStop();
      }
    }

    /** The completion handler of an asynchronous write; `bytes` is what it captured. */
    method OnWritten(i: nat, ok: bool)
      requires i < |transport|
      modifies this
      ensures State() == Complete(old(State()), i, ok)
    {
      var bytes := transport[i];
      transport := transport[..i] + transport[i + 1..];
      writing := false;
      if !ok {
        failed := true;
        Stop();
        return;
      }
      OnWriteOk(bytes);
    }

    method OnWriteOk(bytes: Frame)
      modifies this
      ensures State() == Written(old(State()), bytes)
    {
      completed := completed + [bytes];
      if queue != [] { queue := queue[1..]; }
      if pendingBytes >= bytes.size {
        pendingBytes := pendingBytes - bytes.size;
      } else {
        pendingBytes := 0;
      }
      if kickPending && queue == [] {
        kickPending := false;
        stopped := true;
        socketOpen := false;
        return;
      }
      if queue != [] { DoWrite(); }
    }

    /** The end of the read loop. */
    method CloseAfterReading()
      modifies this
      ensures State() == CloseSocket(old(State()))
    {
      socketOpen := false;
    }
  }
}
