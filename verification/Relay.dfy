/** The whole relay: what the handler decides for each frame is carried out on the registry and
    on the sessions, one effect at a time, while other connections' frames, write completions,
    sweeps and removals come in between.
 */
module Relay {
  import opened Options
  import opened Seqs
  import opened Wire
  import opened Posted
  import R = Registry
  import Q = SendQueue
  import W = Routing
  import H = Handler

  type ConnId = R.ConnId

  datatype Login = Login(name: string, uid: R.Uid, isAdmin: bool)

  /** A frame whose handling began, and the effects that were decided for it. */
  datatype Handled = Handled(conn: ConnId, view: H.View, request: H.Request, answers: H.Answers, effects: seq<H.Effect>)

  /** Where a connection's coroutine stands: its frame, the next effect, and the sessions that
      act number `act` still has to kick. */
  datatype Work = Work(frame: nat, next: nat, kicks: seq<ConnId>, act: nat)

  /** An effect that was carried out, and whom it kicks. */
  datatype Act = Act(conn: ConnId, frame: nat, pos: nat, effect: H.Effect, victims: seq<ConnId>)

  datatype KickPost = KickPost(act: nat, target: ConnId)

  datatype State = State(
    world: W.World,
    logins: map<ConnId, Login>,
    work: map<ConnId, Work>,
    // histories
    handled: seq<Handled>,
    acts: seq<Act>,
    kicks: seq<KickPost>,
    routes: seq<nat>)              // the act behind each routing decision

  function Init(): State {
    State(W.Init(), map[], map[], [], [], [], [])
  }

  // ---------------------------------------------------------------- steps

  /** Answers from outside: the user table, the clock, and the wording of messages. */
  datatype Input = Input(resolved: Option<R.Uid>, now: int, len: nat, reason: string)

  datatype Event =
    | Accepted
    | FrameRead(conn: ConnId, request: H.Request, answers: H.Answers)
    | Worked(conn: ConnId, given: Input)
    | ReaderEnds(conn: ConnId)
    | Snapshot
    | OnSession(conn: ConnId, step: Q.Event)

  predicate Busy(s: State, c: ConnId) {
    && c in s.work && s.work[c].frame < |s.handled|
    && (s.work[c].kicks != [] || s.work[c].next < |s.handled[s.work[c].frame].effects|)
  }

  function ViewOf(s: State, c: ConnId): H.View {
    if c in s.logins then H.View(true, s.logins[c].isAdmin) else H.View(false, false)
  }

  function NameOf(s: State, c: ConnId): string {
    if c in s.logins then s.logins[c].name else ""
  }

  function ModeFor(name: string): R.RecvMode {
    if name == "broadcast" then R.Broadcast else R.RoundRobin
  }

  function Notice(reason: string): Q.Task {
    Q.KickTask(Pack(Kick(reason)))
  }

  /** Kick notices, stops and the transport; replies and deliveries come from frames alone. */
  predicate FromOutside(e: Q.Event) {
    e.Posted? ==> Q.Ordinary(e.task) && !e.task.SendTask?
  }

  predicate MayBegin(s: State, c: ConnId) {
    c in s.world.reg.byId && !Busy(s, c)
  }

  function Begin(s: State, c: ConnId, q: H.Request, a: H.Answers): State {
    var h := Handled(c, ViewOf(s, c), q, a, H.Handle(ViewOf(s, c), q, a));
    s.(handled := s.handled + [h], work := s.work[c := Work(|s.handled|, 0, [], 0)])
  }

  /** What one effect of a frame from `c` does to the registry and the sessions. */
  function Carried(s: State, c: ConnId, e: H.Effect, given: Input): Option<W.Event> {
    match e
    case Stop => Some(W.OnSession(c, Q.Posted(Q.StopTask)))
    case Answer(n, ok, op, _) => Some(W.OnSession(c, Q.Posted(Q.SendTask(Pack(Reply(n, ok, op, given.len))))))
    case Register(_, uid, _, mode) => Some(W.OnRegistry(R.LoggedIn(c, uid, ModeFor(mode), given.now)))
    case Touch => Some(W.OnRegistry(R.Touched(c, given.now)))
    case Route(dst, payload, n) =>
      (match given.resolved
       case None => None
       case Some(uid) => Some(W.Routed(uid, n, payload, c, NameOf(s, c), dst)))
    case _ => None
  }

  /** Whom an effect kicks, decided while the mutex is held. */
  function Victims(cfg: W.Config, reg: R.State, c: ConnId, e: H.Effect): seq<ConnId> {
    match e
    case Register(_, uid, _, _) =>
      if !R.MayLogin(reg, c) then []
      else
        var dq := R.Deque(reg, uid) + [c];
        dq[..R.Overflow(cfg.pol, dq)]
    case KickUser(uid) => R.Deque(reg, uid)
    case _ => []
  }

  function LoginsAfter(s: State, c: ConnId, e: H.Effect): map<ConnId, Login> {
    if e.Register? && R.MayLogin(s.world.reg, c) then s.logins[c := Login(e.username, e.uid, e.isAdmin)] else s.logins
  }

  function Apply(cfg: W.Config, w: W.World, e: Option<W.Event>): W.World {
    match e
    case None => w
    case Some(ev) => W.Step(cfg, w, ev)
  }

  function NextEffect(s: State, c: ConnId): H.Effect
    requires Busy(s, c) && s.work[c].kicks == []
  {
    s.handled[s.work[c].frame].effects[s.work[c].next]
  }

  function CarryOut(cfg: W.Config, s: State, c: ConnId, given: Input): State
    requires Busy(s, c) && s.work[c].kicks == []
  {
    var e, w, n := NextEffect(s, c), s.work[c], |s.acts|;
    var victims := Victims(cfg, s.world.reg, c, e);
    State(Apply(cfg, s.world, Carried(s, c, e, given)),
          LoginsAfter(s, c, e),
          s.work[c := Work(w.frame, w.next + 1, victims, n)],
          s.handled,
          s.acts + [Act(c, w.frame, w.next, e, victims)],
          s.kicks,
          if e.Route? && given.resolved.Some? then s.routes + [n] else s.routes)
  }

  /** `notify_and_close` for the next victim. */
  function PostKick(cfg: W.Config, s: State, c: ConnId, reason: string): State
    requires c in s.work && s.work[c].kicks != []
  {
    var w := s.work[c];
    s.(world := Apply(cfg, s.world, Some(W.OnSession(w.kicks[0], Q.Posted(Notice(reason))))),
       work := s.work[c := w.(kicks := w.kicks[1..])],
       kicks := s.kicks + [KickPost(w.act, w.kicks[0])])
  }

  /** What comes from elsewhere: new connections, read loops that end, statistics, sweeps, stops
      and the transport. */
  function Outside(s: State, e: Event): Option<W.Event> {
    match e
    case Accepted => Some(W.Accepted)
    case ReaderEnds(c) => if Busy(s, c) then None else Some(W.OnRegistry(R.Removed(c)))
    case Snapshot => Some(W.OnRegistry(R.Snapshot))
    case OnSession(c, step) => if FromOutside(step) then Some(W.OnSession(c, step)) else None
    case _ => None
  }

  /** The coroutine of `c` goes one effect further; kicks come before the next effect. */
  function Continue(cfg: W.Config, s: State, c: ConnId, given: Input): State
    requires Busy(s, c)
  {
    if s.work[c].kicks != [] then PostKick(cfg, s, c, given.reason) else CarryOut(cfg, s, c, given)
  }

  function Step(cfg: W.Config, s: State, e: Event): State {
    match e
    case FrameRead(c, q, a) => if MayBegin(s, c) then Begin(s, c, q, a) else s
    case Worked(c, given) => if Busy(s, c) then Continue(cfg, s, c, given) else s
    case _ => s.(world := Apply(cfg, s.world, Outside(s, e)))
  }

  function Exec(cfg: W.Config, es: seq<Event>): State {
    if es == [] then Init()
    else Step(cfg, Exec(cfg, es[..|es| - 1]), es[|es| - 1])
  }

  // ---------------------------------------------------------------- the world within

  lemma WorldOfStep(cfg: W.Config, s: State, e: Event) returns (ev: Option<W.Event>)
    ensures Step(cfg, s, e).world == Apply(cfg, s.world, ev)
  {
    match e {
      case FrameRead(c, q, a) => ev := None;
      case Worked(c, given) =>
        if !Busy(s, c) {
          ev := None;
        } else if s.work[c].kicks != [] {
          ev := Some(W.OnSession(s.work[c].kicks[0], Q.Posted(Notice(given.reason))));
        } else {
          ev := Carried(s, c, NextEffect(s, c), given);
        }
      case _ => ev := Outside(s, e);
    }
  }

  /** The registry and the sessions go through one of their own runs, so what holds of every
      such run holds here. */
  lemma {:induction false} WorldHasItsRun(cfg: W.Config, es: seq<Event>) returns (ws: seq<W.Event>)
    ensures W.Exec(cfg, W.Init(), ws) == Exec(cfg, es).world
    decreases |es|
  {
    if es == [] {
      ws := [];
    } else {
      var init := es[..|es| - 1];
      ws := WorldHasItsRun(cfg, init);
      var ev := WorldOfStep(cfg, Exec(cfg, init), es[|es| - 1]);
      if ev.Some? {
        assert (ws + [ev.value])[..|ws|] == ws;
        ws := ws + [ev.value];
      }
    }
  }

  lemma WorldInv(cfg: W.Config, es: seq<Event>)
    requires W.ConfigOk(cfg)
    ensures W.Inv(cfg, Exec(cfg, es).world)
  {
    var ws := WorldHasItsRun(cfg, es);
    W.ReachableInv(cfg, ws);
  }

  /** What no step takes back. */
  lemma WorldGrows(cfg: W.Config, w: W.World, ev: Option<W.Event>)
    ensures var r := Apply(cfg, w, ev);
            && (forall c :: c in w.reg.uidOf ==> c in r.reg.uidOf && r.reg.uidOf[c] == w.reg.uidOf[c])
            && w.sess.Keys <= r.sess.Keys
            && r.reg.byId <= w.reg.byId + {w.reg.nextConnId + 1}
            && (r.reg.byId <= w.reg.byId || r.sess.Keys == w.sess.Keys + {w.reg.nextConnId + 1})
            && w.routed <= r.routed
  {
    if ev.Some? && ev.value.OnRegistry? && ev.value.event.Removed? {
      RemovalKeepsLogins(w.reg, ev.value.event.conn);
    }
  }

  lemma RemovalKeepsLogins(reg: R.State, c: ConnId)
    ensures R.Remove(reg, c).uidOf == reg.uidOf && R.Remove(reg, c).byId <= reg.byId
  {
  }

  // ---------------------------------------------------------------- frames and acts

  ghost predicate Genuine(h: Handled) {
    h.effects == H.Handle(h.view, h.request, h.answers)
  }

  lemma StepGrows(cfg: W.Config, s: State, e: Event)
    ensures var r := Step(cfg, s, e);
            && s.handled <= r.handled && s.acts <= r.acts && s.kicks <= r.kicks && s.routes <= r.routes
            && (r.handled == s.handled || (e.FrameRead? && r == Begin(s, e.conn, e.request, e.answers)))
  {
  }

  /** The effects carried out for a frame are those that the handler decided. */
  lemma {:induction false} EffectsAreDecided(cfg: W.Config, es: seq<Event>, i: nat)
    requires i < |Exec(cfg, es).handled|
    ensures Genuine(Exec(cfg, es).handled[i])
  {
    var init, e := es[..|es| - 1], es[|es| - 1];
    StepGrows(cfg, Exec(cfg, init), e);
    if i < |Exec(cfg, init).handled| {
      EffectsAreDecided(cfg, init, i);
    }
  }

  predicate Before(a: Act, w: Work) {
    a.frame < w.frame || (a.frame == w.frame && a.pos < w.next)
  }

  predicate Earlier(a: Act, b: Act) {
    a.frame < b.frame || (a.frame == b.frame && a.pos < b.pos)
  }

  ghost predicate WorkOk(hs: seq<Handled>, c: ConnId, w: Work) {
    w.frame < |hs| && hs[w.frame].conn == c && w.next <= |hs[w.frame].effects|
  }

  ghost predicate ActOk(hs: seq<Handled>, work: map<ConnId, Work>, a: Act) {
    && a.frame < |hs| && hs[a.frame].conn == a.conn
    && a.pos < |hs[a.frame].effects| && a.effect == hs[a.frame].effects[a.pos]
    && a.conn in work && Before(a, work[a.conn])
  }

  /** Act number `n` or an earlier one carried out effect `pos` of the frame. */
  ghost predicate Reached(acts: seq<Act>, n: nat, c: ConnId, frame: nat, pos: nat) {
    exists m :: 0 <= m < n && m < |acts| && acts[m].conn == c && acts[m].frame == frame && acts[m].pos == pos
  }

  /** Each connection's acts follow its frames, effect by effect, in order. */
  ghost predicate Books(hs: seq<Handled>, work: map<ConnId, Work>, acts: seq<Act>) {
    && (forall c :: c in work ==> WorkOk(hs, c, work[c]))
    && (forall n :: 0 <= n < |acts| ==> ActOk(hs, work, acts[n]))
    && (forall m, n :: 0 <= m < n < |acts| && acts[m].conn == acts[n].conn ==> Earlier(acts[m], acts[n]))
    && (forall c :: c in work && work[c].next > 0 ==> Reached(acts, |acts|, c, work[c].frame, work[c].next - 1))
    && (forall n :: 0 <= n < |acts| && acts[n].pos > 0 ==>
          Reached(acts, n, acts[n].conn, acts[n].frame, acts[n].pos - 1))
  }

  lemma BeginKeepsBooks(hs: seq<Handled>, work: map<ConnId, Work>, acts: seq<Act>, h: Handled)
    requires Books(hs, work, acts)
    ensures Books(hs + [h], work[h.conn := Work(|hs|, 0, [], 0)], acts)
  {
    var hs', work' := hs + [h], work[h.conn := Work(|hs|, 0, [], 0)];
    forall n | 0 <= n < |acts| ensures ActOk(hs', work', acts[n]) {
      assert ActOk(hs, work, acts[n]);
    }
    forall c | c in work' ensures WorkOk(hs', c, work'[c]) {
      if c != h.conn { assert WorkOk(hs, c, work[c]); }
    }
  }

  lemma ActKeepsBooks(hs: seq<Handled>, work: map<ConnId, Work>, acts: seq<Act>, c: ConnId, victims: seq<ConnId>)
    requires Books(hs, work, acts) && c in work && work[c].frame < |hs| && work[c].next < |hs[work[c].frame].effects|
    ensures var w := work[c];
            var a := Act(c, w.frame, w.next, hs[w.frame].effects[w.next], victims);
            Books(hs, work[c := Work(w.frame, w.next + 1, victims, |acts|)], acts + [a])
  {
    var w := work[c];
    var a := Act(c, w.frame, w.next, hs[w.frame].effects[w.next], victims);
    var w' := Work(w.frame, w.next + 1, victims, |acts|);
    ActsStayOk(hs, work, acts, a, w');
    ReachedAfter(hs, work, acts, a, w');
  }

  lemma ActsStayOk(hs: seq<Handled>, work: map<ConnId, Work>, acts: seq<Act>, a: Act, w': Work)
    requires Books(hs, work, acts) && a.conn in work && w'.frame == work[a.conn].frame == a.frame < |hs|
    requires a.pos == work[a.conn].next < |hs[a.frame].effects|
             && a.effect == hs[a.frame].effects[a.pos] && w'.next == a.pos + 1
    ensures var work' := work[a.conn := w']; forall d :: d in work' ==> WorkOk(hs, d, work'[d])
    ensures forall n :: 0 <= n < |acts| + 1 ==> ActOk(hs, work[a.conn := w'], (acts + [a])[n])
    ensures forall m :: 0 <= m < |acts| && acts[m].conn == a.conn ==> Earlier(acts[m], a)
  {
    var work' := work[a.conn := w'];
    assert WorkOk(hs, a.conn, work[a.conn]);
    forall d | d in work' ensures WorkOk(hs, d, work'[d]) {
      if d != a.conn { assert WorkOk(hs, d, work[d]); }
    }
    forall n | 0 <= n < |acts| + 1 ensures ActOk(hs, work', (acts + [a])[n]) {
      if n < |acts| { assert ActOk(hs, work, acts[n]); }
    }
    forall m | 0 <= m < |acts| && acts[m].conn == a.conn ensures Earlier(acts[m], a) {
      assert ActOk(hs, work, acts[m]);
    }
  }

  lemma ReachedAfter(hs: seq<Handled>, work: map<ConnId, Work>, acts: seq<Act>, a: Act, w': Work)
    requires Books(hs, work, acts) && a.conn in work && w'.frame == work[a.conn].frame == a.frame
    requires a.pos == work[a.conn].next && w'.next == a.pos + 1
    ensures var work', acts' := work[a.conn := w'], acts + [a];
            && (forall d :: d in work' && work'[d].next > 0 ==>
                  Reached(acts', |acts'|, d, work'[d].frame, work'[d].next - 1))
            && (forall n :: 0 <= n < |acts'| && acts'[n].pos > 0 ==>
                  Reached(acts', n, acts'[n].conn, acts'[n].frame, acts'[n].pos - 1))
  {
    var work', acts' := work[a.conn := w'], acts + [a];
    ReachedKept(acts, a);
    assert acts'[|acts|] == a;
    forall d | d in work' && work'[d].next > 0 ensures Reached(acts', |acts'|, d, work'[d].frame, work'[d].next - 1) {
      if d != a.conn { assert Reached(acts, |acts|, d, work[d].frame, work[d].next - 1); }
    }
    forall n | 0 <= n < |acts'| && acts'[n].pos > 0
      ensures Reached(acts', n, acts'[n].conn, acts'[n].frame, acts'[n].pos - 1) {
      if n < |acts| {
        assert Reached(acts, n, acts[n].conn, acts[n].frame, acts[n].pos - 1);
      } else {
        assert Reached(acts, |acts|, a.conn, a.frame, a.pos - 1);
      }
    }
  }

  lemma ReachedKept(acts: seq<Act>, a: Act)
    ensures forall n, c, frame, pos :: Reached(acts, n, c, frame, pos) ==> Reached(acts + [a], n, c, frame, pos)
    ensures forall c, frame, pos :: Reached(acts, |acts|, c, frame, pos) ==>
              Reached(acts + [a], |acts| + 1, c, frame, pos)
  {
    forall n: nat, c, frame: nat, pos: nat | Reached(acts, n, c, frame, pos)
      ensures forall k: nat :: k >= n ==> Reached(acts + [a], k, c, frame, pos)
    {
      var m :| 0 <= m < n && m < |acts| && acts[m].conn == c && acts[m].frame == frame && acts[m].pos == pos;
      assert (acts + [a])[m] == acts[m];
    }
  }

  lemma KickKeepsBooks(hs: seq<Handled>, work: map<ConnId, Work>, acts: seq<Act>, c: ConnId, kicks: seq<ConnId>)
    requires Books(hs, work, acts) && c in work
    ensures Books(hs, work[c := work[c].(kicks := kicks)], acts)
  {
    var work' := work[c := work[c].(kicks := kicks)];
    forall d | d in work' ensures WorkOk(hs, d, work'[d]) {
      assert WorkOk(hs, d, work[d]);
    }
    forall n | 0 <= n < |acts| ensures ActOk(hs, work', acts[n]) {
      assert ActOk(hs, work, acts[n]);
    }
  }

  ghost predicate BooksOf(s: State) {
    Books(s.handled, s.work, s.acts)
  }

  lemma CarryOutKeepsBooks(cfg: W.Config, s: State, c: ConnId, given: Input)
    requires BooksOf(s) && Busy(s, c) && s.work[c].kicks == []
    ensures BooksOf(CarryOut(cfg, s, c, given))
  {
    var victims, w, r := Victims(cfg, s.world.reg, c, NextEffect(s, c)), s.work[c], CarryOut(cfg, s, c, given);
    assert r.work == s.work[c := Work(w.frame, w.next + 1, victims, |s.acts|)];
    assert r.acts == s.acts + [Act(c, w.frame, w.next, s.handled[w.frame].effects[w.next], victims)];
    ActKeepsBooks(s.handled, s.work, s.acts, c, victims);
  }

  lemma ContinueKeepsBooks(cfg: W.Config, s: State, c: ConnId, given: Input)
    requires BooksOf(s) && Busy(s, c)
    ensures BooksOf(Continue(cfg, s, c, given))
  {
    if s.work[c].kicks != [] {
      KickKeepsBooks(s.handled, s.work, s.acts, c, s.work[c].kicks[1..]);
    } else {
      CarryOutKeepsBooks(cfg, s, c, given);
    }
  }

  lemma StepKeepsBooks(cfg: W.Config, s: State, e: Event)
    requires BooksOf(s)
    ensures BooksOf(Step(cfg, s, e))
  {
    match e {
      case FrameRead(c, q, a) =>
        if MayBegin(s, c) {
          BeginKeepsBooks(s.handled, s.work, s.acts, Handled(c, ViewOf(s, c), q, a, H.Handle(ViewOf(s, c), q, a)));
        }
      case Worked(c, given) => if Busy(s, c) { ContinueKeepsBooks(cfg, s, c, given); }
      case _ =>
    }
  }

  lemma {:induction false} ReachableBooks(cfg: W.Config, es: seq<Event>)
    ensures BooksOf(Exec(cfg, es))
  {
    if es != [] {
      ReachableBooks(cfg, es[..|es| - 1]);
      StepKeepsBooks(cfg, Exec(cfg, es[..|es| - 1]), es[|es| - 1]);
    }
  }

  // ---------------------------------------------------------------- logins

  /** The act that logged a connection in. */
  ghost predicate LoggedInBy(a: Act, c: ConnId, l: Login) {
    && a.conn == c && a.effect.Register? && a.effect.username == l.name
    && a.effect.uid == l.uid && a.effect.isAdmin == l.isAdmin
  }

  ghost predicate HasLoginAct(acts: seq<Act>, c: ConnId, l: Login) {
    exists n :: 0 <= n < |acts| && LoggedInBy(acts[n], c, l)
  }

  /** A connection's name and role are those of its one login, and frames are handled by them. */
  ghost predicate LoginBook(s: State) {
    && (forall c :: c in s.logins <==> c in s.world.reg.uidOf)
    && (forall c :: c in s.logins ==> s.world.reg.uidOf[c] == s.logins[c].uid && HasLoginAct(s.acts, c, s.logins[c]))
    && (forall i :: 0 <= i < |s.handled| && s.handled[i].view.loggedIn ==>
          && s.handled[i].conn in s.logins
          && s.handled[i].view.isAdmin == s.logins[s.handled[i].conn].isAdmin)
  }

  lemma LoginActKept(acts: seq<Act>, more: seq<Act>)
    requires acts <= more
    ensures forall c, l :: HasLoginAct(acts, c, l) ==> HasLoginAct(more, c, l)
  {
    forall c, l | HasLoginAct(acts, c, l) ensures HasLoginAct(more, c, l) {
      var n :| 0 <= n < |acts| && LoggedInBy(acts[n], c, l);
      assert more[n] == acts[n];
    }
  }

  predicate LogsIn(ev: Option<W.Event>) {
    ev.Some? && ev.value.OnRegistry? && ev.value.event.LoggedIn?
  }

  lemma OnlyLoginsRegister(cfg: W.Config, w: W.World, ev: Option<W.Event>)
    ensures !LogsIn(ev) ==> Apply(cfg, w, ev).reg.uidOf == w.reg.uidOf
    ensures LogsIn(ev) ==>
              var l := ev.value.event;
              Apply(cfg, w, ev).reg.uidOf
              == if R.MayLogin(w.reg, l.conn) then w.reg.uidOf[l.conn := l.uid] else w.reg.uidOf
  {
    if ev.Some? && ev.value.OnRegistry? && ev.value.event.Removed? {
      RemovalKeepsLogins(w.reg, ev.value.event.conn);
    }
  }

  /** A login is recorded once: nobody's is overwritten. */
  lemma LoginsOnlyGrow(s: State, c: ConnId, e: H.Effect)
    requires forall d :: d in s.logins <==> d in s.world.reg.uidOf
    ensures forall d :: d in s.logins ==> d in LoginsAfter(s, c, e) && LoginsAfter(s, c, e)[d] == s.logins[d]
  {
  }

  lemma RegisteredAfter(cfg: W.Config, s: State, c: ConnId, e: H.Effect, given: Input)
    requires forall d :: d in s.logins <==> d in s.world.reg.uidOf
    requires forall d :: d in s.logins ==> s.world.reg.uidOf[d] == s.logins[d].uid
    ensures var uidOf := Apply(cfg, s.world, Carried(s, c, e, given)).reg.uidOf;
            && (forall d :: d in LoginsAfter(s, c, e) <==> d in uidOf)
            && (forall d :: d in LoginsAfter(s, c, e) ==> uidOf[d] == LoginsAfter(s, c, e)[d].uid)
  {
    OnlyLoginsRegister(cfg, s.world, Carried(s, c, e, given));
  }

  lemma CarryOutKeepsLogins(cfg: W.Config, s: State, c: ConnId, given: Input)
    requires LoginBook(s) && Busy(s, c) && s.work[c].kicks == []
    ensures LoginBook(CarryOut(cfg, s, c, given))
  {
    var e, r := NextEffect(s, c), CarryOut(cfg, s, c, given);
    RegisteredAfter(cfg, s, c, e, given);
    LoginsOnlyGrow(s, c, e);
    LoginActKept(s.acts, r.acts);
    forall d | d in r.logins ensures HasLoginAct(r.acts, d, r.logins[d]) {
      if d !in s.logins { assert LoggedInBy(r.acts[|s.acts|], d, r.logins[d]); }
    }
  }

  lemma OthersKeepLogins(cfg: W.Config, s: State, e: Event)
    requires LoginBook(s) && !(e.Worked? && Busy(s, e.conn) && s.work[e.conn].kicks == [])
    ensures LoginBook(Step(cfg, s, e))
  {
    match e {
      case FrameRead(c, q, a) =>
      case Worked(c, given) =>
        if Busy(s, c) {
          OnlyLoginsRegister(cfg, s.world, Some(W.OnSession(s.work[c].kicks[0], Q.Posted(Notice(given.reason)))));
        }
      case _ => OnlyLoginsRegister(cfg, s.world, Outside(s, e));
    }
  }

  lemma StepKeepsLogins(cfg: W.Config, s: State, e: Event)
    requires LoginBook(s)
    ensures LoginBook(Step(cfg, s, e))
  {
    if e.Worked? && Busy(s, e.conn) && s.work[e.conn].kicks == [] {
      CarryOutKeepsLogins(cfg, s, e.conn, e.given);
    } else {
      OthersKeepLogins(cfg, s, e);
    }
  }

  lemma {:induction false} ReachableLogins(cfg: W.Config, es: seq<Event>)
    ensures LoginBook(Exec(cfg, es))
  {
    if es != [] {
      ReachableLogins(cfg, es[..|es| - 1]);
      StepKeepsLogins(cfg, Exec(cfg, es[..|es| - 1]), es[|es| - 1]);
    }
  }

  // ---------------------------------------------------------------- routing decisions

  ghost predicate DecidedBy(d: W.Decision, a: Act, logins: map<ConnId, Login>) {
    && a.effect == H.Route(d.dstName, d.payload, d.seqNo) && a.conn == d.srcConn
    && d.srcConn in logins && d.srcName == logins[d.srcConn].name
  }

  /** Every routing decision was made by an act of its own, in the same order. */
  ghost predicate RouteRows(routed: seq<W.Decision>, routes: seq<nat>, acts: seq<Act>, logins: map<ConnId, Login>) {
    && |routes| == |routed|
    && (forall t :: 0 <= t < |routes| ==> routes[t] < |acts| && DecidedBy(routed[t], acts[routes[t]], logins))
    && (forall t, u :: 0 <= t < u < |routes| ==> routes[t] < routes[u])
  }

  ghost predicate RouteBook(s: State) {
    RouteRows(s.world.routed, s.routes, s.acts, s.logins)
  }

  lemma OneMoreRow(routed: seq<W.Decision>, routes: seq<nat>, acts: seq<Act>, logins: map<ConnId, Login>,
                   d: W.Decision, n: nat)
    requires RouteRows(routed, routes, acts, logins)
    requires n < |acts| && DecidedBy(d, acts[n], logins) && forall t :: 0 <= t < |routes| ==> routes[t] < n
    ensures RouteRows(routed + [d], routes + [n], acts, logins)
  {
  }

  lemma OnlyRoutesDecide(cfg: W.Config, w: W.World, ev: Option<W.Event>)
    ensures ev.None? || !ev.value.Routed? ==> Apply(cfg, w, ev).routed == w.routed
    ensures ev.Some? && ev.value.Routed? ==> Apply(cfg, w, ev).routed == w.routed + [W.DecisionOf(cfg, w, ev.value)]
  {
  }

  lemma RouteNeedsLogin(h: Handled, e: H.Effect)
    requires Genuine(h) && e in h.effects && e.Route?
    ensures h.view.loggedIn
  {
    H.RoutedExactlyWhen(h.view, h.request, h.answers, e.dst, e.payload, e.routeSeq);
  }

  lemma DecisionsKept(s: State, c: ConnId, e: H.Effect, acts: seq<Act>)
    requires RouteBook(s) && LoginBook(s) && s.acts <= acts
    ensures RouteRows(s.world.routed, s.routes, acts, LoginsAfter(s, c, e))
  {
    LoginsOnlyGrow(s, c, e);
    forall t | 0 <= t < |s.routes|
      ensures s.routes[t] < |acts| && DecidedBy(s.world.routed[t], acts[s.routes[t]], LoginsAfter(s, c, e))
    {
      assert DecidedBy(s.world.routed[t], s.acts[s.routes[t]], s.logins);
    }
  }

  lemma CarryOutKeepsRoutes(cfg: W.Config, s: State, c: ConnId, given: Input)
    requires RouteBook(s) && LoginBook(s) && Busy(s, c) && s.work[c].kicks == []
    requires Genuine(s.handled[s.work[c].frame]) && s.handled[s.work[c].frame].conn == c
    ensures RouteBook(CarryOut(cfg, s, c, given))
  {
    var e, r := NextEffect(s, c), CarryOut(cfg, s, c, given);
    OnlyRoutesDecide(cfg, s.world, Carried(s, c, e, given));
    DecisionsKept(s, c, e, r.acts);
    if e.Route? && given.resolved.Some? {
      NextRouteNeedsLogin(s, c);
      var d := W.DecisionOf(cfg, s.world, Carried(s, c, e, given).value);
      OneMoreRow(s.world.routed, s.routes, r.acts, r.logins, d, |s.acts|);
    }
  }

  lemma NextRouteNeedsLogin(s: State, c: ConnId)
    requires LoginBook(s) && Busy(s, c) && s.work[c].kicks == [] && NextEffect(s, c).Route?
    requires Genuine(s.handled[s.work[c].frame]) && s.handled[s.work[c].frame].conn == c
    ensures c in s.logins
  {
    RouteNeedsLogin(s.handled[s.work[c].frame], NextEffect(s, c));
  }

  lemma StepKeepsRoutes(cfg: W.Config, s: State, e: Event)
    requires RouteBook(s) && LoginBook(s) && BooksOf(s)
    requires forall i :: 0 <= i < |s.handled| ==> Genuine(s.handled[i])
    ensures RouteBook(Step(cfg, s, e))
  {
    if e.Worked? && Busy(s, e.conn) && s.work[e.conn].kicks == [] {
      assert WorkOk(s.handled, e.conn, s.work[e.conn]);
      CarryOutKeepsRoutes(cfg, s, e.conn, e.given);
    } else {
      OthersDecideNothing(cfg, s, e);
    }
  }

  lemma OthersDecideNothing(cfg: W.Config, s: State, e: Event)
    requires !(e.Worked? && Busy(s, e.conn) && s.work[e.conn].kicks == [])
    ensures var r := Step(cfg, s, e);
            r.world.routed == s.world.routed && r.routes == s.routes && r.acts == s.acts && r.logins == s.logins
  {
    OnlyRoutesDecide(cfg, s.world, Outside(s, e));
  }

  lemma {:induction false} ReachableRoutes(cfg: W.Config, es: seq<Event>)
    ensures RouteBook(Exec(cfg, es))
  {
    if es != [] {
      var init := es[..|es| - 1];
      ReachableRoutes(cfg, init);
      ReachableLogins(cfg, init);
      ReachableBooks(cfg, init);
      forall i | 0 <= i < |Exec(cfg, init).handled| ensures Genuine(Exec(cfg, init).handled[i]) {
        EffectsAreDecided(cfg, init, i);
      }
      StepKeepsRoutes(cfg, Exec(cfg, init), es[|es| - 1]);
    }
  }

  ghost predicate RecipientsBelong(w: W.World) {
    forall t, c :: 0 <= t < |w.routed| && c in w.routed[t].recipients ==>
      c in w.reg.uidOf && w.reg.uidOf[c] == w.routed[t].uid
  }

  lemma ApplyKeepsRecipients(cfg: W.Config, w: W.World, ev: Option<W.Event>)
    requires W.ConfigOk(cfg) && R.Inv(cfg.pol, w.reg) && RecipientsBelong(w)
    ensures RecipientsBelong(Apply(cfg, w, ev))
  {
    WorldGrows(cfg, w, ev);
    OnlyRoutesDecide(cfg, w, ev);
    if ev.Some? && ev.value.Routed? { ChosenBelong(cfg, w.reg, ev.value.uid); }
  }

  lemma ChosenBelong(cfg: W.Config, reg: R.State, uid: R.Uid)
    requires W.ConfigOk(cfg) && R.Inv(cfg.pol, reg)
    ensures forall c :: c in R.Recipients(cfg.pol, reg, uid) ==> c in reg.uidOf && reg.uidOf[c] == uid
  {
    R.RecipientsSound(cfg.pol, reg, uid);
  }

  /** Whoever is chosen is signed on to the account that the payload was routed to. */
  lemma {:induction false} RecipientsOfAccount(cfg: W.Config, es: seq<Event>)
    requires W.ConfigOk(cfg)
    ensures RecipientsBelong(Exec(cfg, es).world)
  {
    if es != [] {
      var init := es[..|es| - 1];
      RecipientsOfAccount(cfg, init);
      WorldInv(cfg, init);
      var ev := WorldOfStep(cfg, Exec(cfg, init), es[|es| - 1]);
      ApplyKeepsRecipients(cfg, Exec(cfg, init).world, ev);
    }
  }

  // ---------------------------------------------------------------- kicks

  /** The sessions kicked so far on account of act number `n`, in order. */
  function TargetsOf(kicks: seq<KickPost>, n: nat): seq<ConnId> {
    if kicks == [] then []
    else
      var rest, k := TargetsOf(kicks[..|kicks| - 1], n), kicks[|kicks| - 1];
      if k.act == n then rest + [k.target] else rest
  }

  function Pending(work: map<ConnId, Work>, c: ConnId, n: nat): seq<ConnId> {
    if c in work && work[c].act == n then work[c].kicks else []
  }

  /** Of each act's victims, those kicked so far and those still to be kicked make up the whole. */
  ghost predicate KickBook(work: map<ConnId, Work>, acts: seq<Act>, kicks: seq<KickPost>) {
    && (forall k :: 0 <= k < |kicks| ==> kicks[k].act < |acts|)
    && (forall c :: c in work && work[c].kicks != [] ==> work[c].act < |acts| && acts[work[c].act].conn == c)
    && (forall n :: 0 <= n < |acts| ==> TargetsOf(kicks, n) + Pending(work, acts[n].conn, n) == acts[n].victims)
  }

  lemma {:induction false} NoTargetsYet(kicks: seq<KickPost>, n: nat)
    requires forall k :: 0 <= k < |kicks| ==> kicks[k].act < n
    ensures TargetsOf(kicks, n) == []
  {
    if kicks != [] { NoTargetsYet(kicks[..|kicks| - 1], n); }
  }

  lemma TargetsSnoc(kicks: seq<KickPost>, k: KickPost, n: nat)
    ensures TargetsOf(kicks + [k], n) == TargetsOf(kicks, n) + (if k.act == n then [k.target] else [])
  {
    assert (kicks + [k])[..|kicks|] == kicks;
  }

  /** An idle connection's work may be replaced: it owes no kick. */
  lemma ReplaceIdleWork(work: map<ConnId, Work>, acts: seq<Act>, kicks: seq<KickPost>, c: ConnId, w: Work)
    requires KickBook(work, acts, kicks) && (c in work ==> work[c].kicks == []) && w.kicks == []
    ensures KickBook(work[c := w], acts, kicks)
  {
    forall n | 0 <= n < |acts| ensures TargetsOf(kicks, n) + Pending(work[c := w], acts[n].conn, n) == acts[n].victims {
      assert TargetsOf(kicks, n) + Pending(work, acts[n].conn, n) == acts[n].victims;
    }
  }

  lemma ActKeepsKicks(work: map<ConnId, Work>, acts: seq<Act>, kicks: seq<KickPost>, a: Act, w: Work)
    requires KickBook(work, acts, kicks) && (a.conn in work ==> work[a.conn].kicks == [])
    requires w.kicks == a.victims && w.act == |acts|
    ensures KickBook(work[a.conn := w], acts + [a], kicks)
  {
    var work', acts' := work[a.conn := w], acts + [a];
    NoTargetsYet(kicks, |acts|);
    forall n | 0 <= n < |acts'| ensures TargetsOf(kicks, n) + Pending(work', acts'[n].conn, n) == acts'[n].victims {
      if n < |acts| { assert TargetsOf(kicks, n) + Pending(work, acts[n].conn, n) == acts[n].victims; }
    }
  }

  lemma TargetMoves(kicks: seq<KickPost>, n: nat, act: nat, left: seq<ConnId>,
                    pending: seq<ConnId>, victims: seq<ConnId>)
    requires left != [] && TargetsOf(kicks, n) + pending == victims && (n == act ==> pending == left)
    ensures TargetsOf(kicks + [KickPost(act, left[0])], n) + (if n == act then left[1..] else pending) == victims
  {
    TargetsSnoc(kicks, KickPost(act, left[0]), n);
    assert left == [left[0]] + left[1..];
  }

  lemma KickKeepsKicks(work: map<ConnId, Work>, acts: seq<Act>, kicks: seq<KickPost>, c: ConnId)
    requires KickBook(work, acts, kicks) && c in work && work[c].kicks != []
    ensures var w := work[c];
            KickBook(work[c := w.(kicks := w.kicks[1..])], acts, kicks + [KickPost(w.act, w.kicks[0])])
  {
    var w := work[c];
    var work', k := work[c := w.(kicks := w.kicks[1..])], KickPost(w.act, w.kicks[0]);
    forall n | 0 <= n < |acts|
      ensures TargetsOf(kicks + [k], n) + Pending(work', acts[n].conn, n) == acts[n].victims
    {
      var pending := Pending(work, acts[n].conn, n);
      assert TargetsOf(kicks, n) + pending == acts[n].victims;
      TargetMoves(kicks, n, w.act, w.kicks, pending, acts[n].victims);
      assert Pending(work', acts[n].conn, n) == if n == w.act then w.kicks[1..] else pending;
    }
  }

  lemma StepKeepsKicks(cfg: W.Config, s: State, e: Event)
    requires KickBook(s.work, s.acts, s.kicks) && BooksOf(s)
    ensures var r := Step(cfg, s, e); KickBook(r.work, r.acts, r.kicks)
  {
    match e {
      case FrameRead(c, q, a) =>
        if MayBegin(s, c) {
          if c in s.work { assert WorkOk(s.handled, c, s.work[c]); }
          ReplaceIdleWork(s.work, s.acts, s.kicks, c, Work(|s.handled|, 0, [], 0));
        }
      case Worked(c, given) =>
        if Busy(s, c) {
          var w := s.work[c];
          if w.kicks != [] {
            KickKeepsKicks(s.work, s.acts, s.kicks, c);
          } else {
            var eff := NextEffect(s, c);
            var victims := Victims(cfg, s.world.reg, c, eff);
            ActKeepsKicks(s.work, s.acts, s.kicks, Act(c, w.frame, w.next, eff, victims),
                          Work(w.frame, w.next + 1, victims, |s.acts|));
          }
        }
      case _ =>
    }
  }

  lemma {:induction false} ReachableKicks(cfg: W.Config, es: seq<Event>)
    ensures var s := Exec(cfg, es); KickBook(s.work, s.acts, s.kicks)
  {
    if es != [] {
      ReachableKicks(cfg, es[..|es| - 1]);
      ReachableBooks(cfg, es[..|es| - 1]);
      StepKeepsKicks(cfg, Exec(cfg, es[..|es| - 1]), es[|es| - 1]);
    }
  }

  // ---------------------------------------------------------------- whom a kick reaches

  /** A kick was posted to the session: it is still on the strand, or has run, or came after a
      stop. */
  ghost predicate Arrived(q: Q.Session) {
    (exists t :: t in q.mailbox && t.KickTask?) || q.kick.Kicked? || q.stopped
  }

  lemma ArrivedStays(flow: Q.Flow, q: Q.Session, e: Q.Event)
    requires Q.Inv(flow, q) && Arrived(q)
    ensures Arrived(Q.Step(flow, q, e))
  {
    var r := Q.Step(flow, q, e);
    match e {
      case Posted(t) =>
        forall u | u in q.mailbox ensures u in r.mailbox {}
      case RanNext => if q.mailbox != [] { ArrivedRuns(flow, q); }
      case Completed(i, ok) =>
        Q.CompletionKeepsLog(q, i, ok);
        forall u | u in q.mailbox ensures u in r.mailbox {}
      case SocketClosed =>
    }
  }

  lemma ArrivedRuns(flow: Q.Flow, q: Q.Session)
    requires Q.Inv(flow, q) && Arrived(q) && q.mailbox != []
    ensures Arrived(Q.RunNext(flow, q))
  {
    var r := Q.RunNext(flow, q);
    Q.RunNextPops(flow, q);
    assert q.mailbox == [q.mailbox[0]] + q.mailbox[1..];
    forall u | u in q.mailbox[1..] ensures u in r.mailbox {}
    KickTakesEffect(flow, q);
  }

  lemma KickTakesEffect(flow: Q.Flow, q: Q.Session)
    requires q.mailbox != []
    ensures var r := Q.RunNext(flow, q);
            && (q.kick.Kicked? || q.stopped ==> r.kick.Kicked? || r.stopped)
            && (q.mailbox[0].KickTask? && (q.kickPending ==> q.kick.Kicked?) ==> r.kick.Kicked? || r.stopped)
  {
  }

  lemma SessionFacts(cfg: W.Config, w: W.World, v: ConnId)
    requires W.Inv(cfg, w) && v in w.sess
    ensures v <= w.reg.nextConnId && Q.Inv(cfg.flow, w.sess[v])
  {
    assert W.SessInv(cfg, w.sess[v], w.routed, v);
  }

  lemma ApplyKeepsArrived(cfg: W.Config, w: W.World, ev: Option<W.Event>, v: ConnId)
    requires v in w.sess && v <= w.reg.nextConnId && Q.Inv(cfg.flow, w.sess[v]) && Arrived(w.sess[v])
    ensures var r := Apply(cfg, w, ev); v in r.sess && Arrived(r.sess[v])
  {
    if ev.Some? {
      match ev.value {
        case OnSession(c, step) => if c == v && W.Local(step) { ArrivedStays(cfg.flow, w.sess[v], step); }
        case Routed(_, _, _, _, _, _) => PostedKeepsArrived(w.sess[v]);
        case _ =>
      }
    }
  }

  lemma PostedKeepsArrived(q: Q.Session)
    requires Arrived(q)
    ensures forall t :: Arrived(Q.Post(q, t))
  {
    forall t ensures Arrived(Q.Post(q, t)) {
      forall u | u in q.mailbox ensures u in Q.Post(q, t).mailbox {}
    }
  }

  /** The account that an effect is about. */
  predicate Concerns(e: H.Effect, uid: R.Uid) {
    match e
    case Register(_, u, _, _) => u == uid
    case KickUser(u) => u == uid
    case _ => true
  }

  ghost predicate Belongs(w: W.World, v: ConnId, e: H.Effect) {
    v in w.sess && v in w.reg.uidOf && Concerns(e, w.reg.uidOf[v])
  }

  /** Victims are sessions of the account concerned; every kick posted has arrived. */
  ghost predicate KickWorld(s: State) {
    && s.world.reg.byId <= s.world.sess.Keys
    && (forall n, v :: 0 <= n < |s.acts| && v in s.acts[n].victims ==> Belongs(s.world, v, s.acts[n].effect))
    && (forall c, v :: c in s.work && v in s.work[c].kicks ==> v in s.world.sess)
    && (forall k :: 0 <= k < |s.kicks| ==>
          s.kicks[k].target in s.world.sess && Arrived(s.world.sess[s.kicks[k].target]))
  }

  lemma VictimsBelong(cfg: W.Config, s: State, c: ConnId, e: H.Effect, given: Input)
    requires R.Inv(cfg.pol, s.world.reg) && s.world.reg.byId <= s.world.sess.Keys
    ensures forall v :: v in Victims(cfg, s.world.reg, c, e) ==>
              Belongs(Apply(cfg, s.world, Carried(s, c, e, given)), v, e)
  {
    match e {
      case Register(_, uid, _, mode) => LoginVictimsBelong(cfg, s.world, c, e, given.now);
      case KickUser(uid) => DequeBelongs(cfg, s.world.reg, uid);
      case _ =>
    }
  }

  lemma LoginVictimsBelong(cfg: W.Config, w: W.World, c: ConnId, e: H.Effect, now: int)
    requires R.Inv(cfg.pol, w.reg) && w.reg.byId <= w.sess.Keys && e.Register?
    ensures var r := W.Step(cfg, w, W.OnRegistry(R.LoggedIn(c, e.uid, ModeFor(e.mode), now)));
            forall v :: v in Victims(cfg, w.reg, c, e) ==> Belongs(r, v, e)
  {
    DequeBelongs(cfg, w.reg, e.uid);
    var dq := R.Deque(w.reg, e.uid) + [c];
    assert forall v :: v in dq[..R.Overflow(cfg.pol, dq)] ==> v in R.Deque(w.reg, e.uid) || v == c;
  }

  lemma DequeBelongs(cfg: W.Config, reg: R.State, uid: R.Uid)
    requires R.Inv(cfg.pol, reg)
    ensures forall v :: v in R.Deque(reg, uid) ==> v in reg.byId && v in reg.uidOf && reg.uidOf[v] == uid
  {
    assert R.Deque(reg, uid) == R.Surviving(reg, uid);
    R.DequeMembers(reg, uid);
  }

  lemma VictimsDistinct(cfg: W.Config, reg: R.State, c: ConnId, e: H.Effect)
    requires R.Inv(cfg.pol, reg)
    ensures NoDup(Victims(cfg, reg, c, e))
  {
    if e.Register? && R.MayLogin(reg, c) {
      assert R.Deque(reg, e.uid) == R.Surviving(reg, e.uid);
      R.NewcomerIsNew(reg, c, e.uid);
    } else if e.KickUser? {
      assert R.Deque(reg, e.target) == R.Surviving(reg, e.target);
      R.DequeMembers(reg, e.target);
    }
  }

  lemma LatestVictims(cfg: W.Config, s: State, e: Event)
    requires |Step(cfg, s, e).acts| > |s.acts|
    ensures e.Worked? && Busy(s, e.conn) && s.work[e.conn].kicks == []
    ensures Step(cfg, s, e).acts == s.acts + [Step(cfg, s, e).acts[|s.acts|]]
    ensures Step(cfg, s, e).acts[|s.acts|].victims == Victims(cfg, s.world.reg, e.conn, NextEffect(s, e.conn))
  {
  }

  lemma {:induction false} ReachableDistinct(cfg: W.Config, es: seq<Event>, n: nat)
    requires W.ConfigOk(cfg) && n < |Exec(cfg, es).acts|
    ensures NoDup(Exec(cfg, es).acts[n].victims)
  {
    var init, e := es[..|es| - 1], es[|es| - 1];
    var s := Exec(cfg, init);
    StepGrows(cfg, s, e);
    if n < |s.acts| {
      ReachableDistinct(cfg, init, n);
    } else {
      LatestVictims(cfg, s, e);
      WorldInv(cfg, init);
      VictimsDistinct(cfg, s.world.reg, e.conn, NextEffect(s, e.conn));
    }
  }

  lemma ApplyKeepsKickWorld(cfg: W.Config, s: State, ev: Option<W.Event>)
    requires W.Inv(cfg, s.world) && KickWorld(s)
    ensures KickWorld(s.(world := Apply(cfg, s.world, ev)))
  {
    var w := Apply(cfg, s.world, ev);
    WorldGrows(cfg, s.world, ev);
    forall n, v | 0 <= n < |s.acts| && v in s.acts[n].victims ensures Belongs(w, v, s.acts[n].effect) {
      assert Belongs(s.world, v, s.acts[n].effect);
    }
    forall k | 0 <= k < |s.kicks| ensures s.kicks[k].target in w.sess && Arrived(w.sess[s.kicks[k].target]) {
      SessionFacts(cfg, s.world, s.kicks[k].target);
      ApplyKeepsArrived(cfg, s.world, ev, s.kicks[k].target);
    }
  }

  lemma CarryOutKeepsKickWorld(cfg: W.Config, s: State, c: ConnId, given: Input)
    requires W.Inv(cfg, s.world) && KickWorld(s) && Busy(s, c) && s.work[c].kicks == []
    ensures KickWorld(CarryOut(cfg, s, c, given))
  {
    var e := NextEffect(s, c);
    ApplyKeepsKickWorld(cfg, s, Carried(s, c, e, given));
    VictimsBelong(cfg, s, c, e, given);
  }

  lemma NoticePosted(cfg: W.Config, w: W.World, v: ConnId, reason: string)
    requires v in w.sess
    ensures var r := Apply(cfg, w, Some(W.OnSession(v, Q.Posted(Notice(reason))))); v in r.sess && Arrived(r.sess[v])
  {
    var r := Apply(cfg, w, Some(W.OnSession(v, Q.Posted(Notice(reason)))));
    assert r.sess[v] == Q.Post(w.sess[v], Notice(reason));
    assert Notice(reason) in Q.Post(w.sess[v], Notice(reason)).mailbox;
  }

  lemma PostKickKeepsKickWorld(cfg: W.Config, s: State, c: ConnId, reason: string)
    requires W.Inv(cfg, s.world) && KickWorld(s) && c in s.work && s.work[c].kicks != []
    ensures KickWorld(PostKick(cfg, s, c, reason))
  {
    var v := s.work[c].kicks[0];
    assert v in s.world.sess;
    NoticePosted(cfg, s.world, v, reason);
    ApplyKeepsKickWorld(cfg, s, Some(W.OnSession(v, Q.Posted(Notice(reason)))));
    KickRecorded(s.(world := Apply(cfg, s.world, Some(W.OnSession(v, Q.Posted(Notice(reason)))))), c);
  }

  lemma KickRecorded(s: State, c: ConnId)
    requires KickWorld(s) && c in s.work && s.work[c].kicks != []
    requires var v := s.work[c].kicks[0]; v in s.world.sess && Arrived(s.world.sess[v])
    ensures var w := s.work[c];
            KickWorld(s.(work := s.work[c := w.(kicks := w.kicks[1..])],
                         kicks := s.kicks + [KickPost(w.act, w.kicks[0])]))
  {
    var work := s.work[c := s.work[c].(kicks := s.work[c].kicks[1..])];
    forall d, u | d in work && u in work[d].kicks ensures u in s.world.sess {
      assert u in s.work[d].kicks;
    }
  }

  lemma StepKeepsKickWorld(cfg: W.Config, s: State, e: Event)
    requires W.Inv(cfg, s.world) && KickWorld(s)
    ensures KickWorld(Step(cfg, s, e))
  {
    match e {
      case FrameRead(c, q, a) =>
      case Worked(c, given) =>
        if Busy(s, c) {
          if s.work[c].kicks != [] {
            PostKickKeepsKickWorld(cfg, s, c, given.reason);
          } else {
            CarryOutKeepsKickWorld(cfg, s, c, given);
          }
        }
      case _ => ApplyKeepsKickWorld(cfg, s, Outside(s, e));
    }
  }

  lemma {:induction false} ReachableKickWorld(cfg: W.Config, es: seq<Event>)
    requires W.ConfigOk(cfg)
    ensures KickWorld(Exec(cfg, es))
  {
    if es != [] {
      ReachableKickWorld(cfg, es[..|es| - 1]);
      WorldInv(cfg, es[..|es| - 1]);
      StepKeepsKickWorld(cfg, Exec(cfg, es[..|es| - 1]), es[|es| - 1]);
    }
  }

  // ---------------------------------------------------------------- theorems over every run

  /** `f` is a copy of what the DATA frame `h` asked to be sent. */
  predicate CarriedFrom(h: Handled, f: Content) {
    && f.Deliver? && h.view.loggedIn && h.request.msgType == H.DATA && h.request.body.Map?
    && f.seqNo == h.request.seqNo && f.env.srcConn == h.conn
    && H.ExtractPayload(H.GetObj(h.request.body.entries, "payload")) == Some(f.env.payload)
    && H.GetStr(h.request.body.entries, "dst_username") == Some(f.env.dstName)
  }

  /** `l` is an accepted LOGIN frame of connection `c` under `name`. */
  predicate SignedOnBy(l: Handled, c: ConnId, name: string) {
    && l.conn == c && !l.view.loggedIn && l.request.msgType == H.LOGIN && l.request.body.Map?
    && H.GetStr(l.request.body.entries, "username") == Some(name)
    && H.LoginComplete(l.request.body.entries) && l.answers.ipAllowed && l.answers.auth.Granted?
  }

  lemma DataFrameOf(h: Handled, e: H.Effect)
    requires Genuine(h) && e in h.effects && e.Route?
    ensures h.view.loggedIn && h.request.msgType == H.DATA && h.request.body.Map? && e.routeSeq == h.request.seqNo
    ensures H.ExtractPayload(H.GetObj(h.request.body.entries, "payload")) == Some(e.payload)
    ensures H.GetStr(h.request.body.entries, "dst_username") == Some(e.dst)
  {
    H.RoutedExactlyWhen(h.view, h.request, h.answers, e.dst, e.payload, e.routeSeq);
  }

  lemma LoginFrameOf(h: Handled, e: H.Effect)
    requires Genuine(h) && e in h.effects && e.Register?
    ensures SignedOnBy(h, h.conn, e.username) && h.answers.auth == H.Granted(e.uid, e.isAdmin)
  {
    H.RegisteredExactlyWhen(h.view, h.request, h.answers);
    H.LoginOutcome(h.request, h.request.body.entries, h.answers);
  }

  lemma ActIsDecided(cfg: W.Config, es: seq<Event>, n: nat)
    requires n < |Exec(cfg, es).acts|
    ensures var s := Exec(cfg, es); var a := s.acts[n];
            && a.frame < |s.handled| && s.handled[a.frame].conn == a.conn && Genuine(s.handled[a.frame])
            && a.effect in s.handled[a.frame].effects
  {
    ReachableBooks(cfg, es);
    var s := Exec(cfg, es);
    assert ActOk(s.handled, s.work, s.acts[n]);
    EffectsAreDecided(cfg, es, s.acts[n].frame);
  }

  lemma DecisionHasFrame(cfg: W.Config, es: seq<Event>, t: nat)
    requires t < |Exec(cfg, es).world.routed|
    ensures var s := Exec(cfg, es); t < |s.routes| && s.routes[t] < |s.acts|
    ensures var s := Exec(cfg, es); var d, a := s.world.routed[t], s.acts[s.routes[t]];
            a.frame < |s.handled| && forall c :: CarriedFrom(s.handled[a.frame], W.Copy(t, d, c).content)
  {
    ReachableRoutes(cfg, es);
    var s := Exec(cfg, es);
    assert DecidedBy(s.world.routed[t], s.acts[s.routes[t]], s.logins);
    ActIsDecided(cfg, es, s.routes[t]);
    var a := s.acts[s.routes[t]];
    DataFrameOf(s.handled[a.frame], a.effect);
  }

  lemma SenderSignedOn(cfg: W.Config, es: seq<Event>, t: nat) returns (l: nat)
    requires t < |Exec(cfg, es).world.routed|
    ensures var s := Exec(cfg, es);
            l < |s.handled| && SignedOnBy(s.handled[l], s.world.routed[t].srcConn, s.world.routed[t].srcName)
  {
    ReachableRoutes(cfg, es);
    ReachableLogins(cfg, es);
    var s := Exec(cfg, es);
    var d := s.world.routed[t];
    assert DecidedBy(d, s.acts[s.routes[t]], s.logins);
    assert HasLoginAct(s.acts, d.srcConn, s.logins[d.srcConn]);
    var n :| 0 <= n < |s.acts| && LoggedInBy(s.acts[n], d.srcConn, s.logins[d.srcConn]);
    ActIsDecided(cfg, es, n);
    l := s.acts[n].frame;
    LoginFrameOf(s.handled[l], s.acts[n].effect);
  }

  /** A connection that is registered under an account was signed on to it by its LOGIN. */
  lemma SignedOnTo(cfg: W.Config, es: seq<Event>, c: ConnId) returns (l: nat)
    requires c in Exec(cfg, es).world.reg.uidOf
    ensures var s := Exec(cfg, es);
            && c in s.logins && l < |s.handled| && SignedOnBy(s.handled[l], c, s.logins[c].name)
            && s.handled[l].answers.auth == H.Granted(s.world.reg.uidOf[c], s.logins[c].isAdmin)
  {
    ReachableLogins(cfg, es);
    var s := Exec(cfg, es);
    assert HasLoginAct(s.acts, c, s.logins[c]);
    var n :| 0 <= n < |s.acts| && LoggedInBy(s.acts[n], c, s.logins[c]);
    ActIsDecided(cfg, es, n);
    l := s.acts[n].frame;
    LoginFrameOf(s.handled[l], s.acts[n].effect);
  }

  /** The deliveries written to a connection. */
  function Written(s: State, c: ConnId): seq<Frame>
    requires c in s.world.sess
  {
    W.Deliveries(s.world.sess[c].completed)
  }

  lemma WrittenIsCopy(cfg: W.Config, es: seq<Event>, c: ConnId)
    requires W.ConfigOk(cfg) && c in Exec(cfg, es).world.sess
    ensures var s := Exec(cfg, es); W.InRoutingOrder(Written(s, c), s.world.routed, c)
  {
    var ws := WorldHasItsRun(cfg, es);
    W.DeliveriesFollowRoutingOrder(cfg, ws, c);
  }

  /** Where a delivery comes from.  In every run, every DELIVER written to a connection carries
      the payload, destination and number of a DATA frame that was handled, the id of the
      connection which sent that frame, and the name under which that connection had been
      signed on by a LOGIN frame of its own. */
  lemma DeliveryProvenance(cfg: W.Config, es: seq<Event>, c: ConnId, k: nat) returns (i: nat, l: nat)
    requires W.ConfigOk(cfg) && c in Exec(cfg, es).world.sess && k < |Written(Exec(cfg, es), c)|
    ensures var s := Exec(cfg, es); var f := Written(s, c)[k].content;
            && i < |s.handled| && CarriedFrom(s.handled[i], f)
            && l < |s.handled| && SignedOnBy(s.handled[l], f.env.srcConn, f.env.srcName)
            && f.env.dstConn == c
  {
    var s := Exec(cfg, es);
    WrittenIsCopy(cfg, es, c);
    var t := Written(s, c)[k].content.ticket;
    DecisionHasFrame(cfg, es, t);
    i := s.acts[s.routes[t]].frame;
    l := SenderSignedOn(cfg, es, t);
  }

  /** A frame is routed at most once. */
  lemma RoutesOnce(h: Handled, p: nat, q: nat)
    requires Genuine(h) && p < q < |h.effects|
    ensures !(h.effects[p].Route? && h.effects[q].Route?)
  {
    if h.effects[p].Route? { DataFrameOf(h, h.effects[p]); }
  }

  lemma DecisionsFollowFrames(cfg: W.Config, es: seq<Event>, t: nat, u: nat)
    requires t < u < |Exec(cfg, es).world.routed|
    requires var s := Exec(cfg, es); s.world.routed[t].srcConn == s.world.routed[u].srcConn
    ensures var s := Exec(cfg, es);
            && |s.routes| == |s.world.routed| && s.routes[t] < |s.acts| && s.routes[u] < |s.acts|
            && s.acts[s.routes[t]].frame < s.acts[s.routes[u]].frame
  {
    ReachableRoutes(cfg, es);
    ReachableBooks(cfg, es);
    var s := Exec(cfg, es);
    var a, b := s.acts[s.routes[t]], s.acts[s.routes[u]];
    assert DecidedBy(s.world.routed[t], a, s.logins) && DecidedBy(s.world.routed[u], b, s.logins);
    assert Earlier(a, b);
    assert ActOk(s.handled, s.work, a) && ActOk(s.handled, s.work, b);
    if a.frame == b.frame {
      EffectsAreDecided(cfg, es, a.frame);
      RoutesOnce(s.handled[a.frame], a.pos, b.pos);
    }
  }

  /** Sending order is kept.  Of two deliveries written to one connection that come from one
      sender, the first carries an earlier DATA frame of the sender than the second. */
  lemma SenderOrderKept(cfg: W.Config, es: seq<Event>, c: ConnId, j: nat, k: nat) returns (first: nat, second: nat)
    requires W.ConfigOk(cfg) && c in Exec(cfg, es).world.sess && j < k < |Written(Exec(cfg, es), c)|
    requires var w := Written(Exec(cfg, es), c);
             w[j].content.Deliver? && w[k].content.Deliver? && w[j].content.env.srcConn == w[k].content.env.srcConn
    ensures var s := Exec(cfg, es);
            && first < second < |s.handled|
            && CarriedFrom(s.handled[first], Written(s, c)[j].content)
            && CarriedFrom(s.handled[second], Written(s, c)[k].content)
  {
    var s := Exec(cfg, es);
    WrittenIsCopy(cfg, es, c);
    var t, u := Written(s, c)[j].content.ticket, Written(s, c)[k].content.ticket;
    DecisionsFollowFrames(cfg, es, t, u);
    DecisionHasFrame(cfg, es, t);
    DecisionHasFrame(cfg, es, u);
    first, second := s.acts[s.routes[t]].frame, s.acts[s.routes[u]].frame;
  }

  /** Who is kicked.  In every run, the sessions that an act has kicked so far are, in order and
      each once, the beginning of its victims; what is missing is still to be done by its
      connection; every victim is a session of the account which that act concerns, and every
      session kicked has the notice on its strand, has run it, or was stopped. */
  lemma KicksInFull(cfg: W.Config, es: seq<Event>, n: nat)
    requires W.ConfigOk(cfg) && n < |Exec(cfg, es).acts|
    ensures var s := Exec(cfg, es); var a := s.acts[n];
            && NoDup(a.victims)
            && TargetsOf(s.kicks, n) + Pending(s.work, a.conn, n) == a.victims
            && (forall v :: v in a.victims ==> Belongs(s.world, v, a.effect))
            && (forall v :: v in TargetsOf(s.kicks, n) ==> v in s.world.sess && Arrived(s.world.sess[v]))
  {
    ReachableKicks(cfg, es);
    ReachableKickWorld(cfg, es);
    ReachableDistinct(cfg, es, n);
    var s := Exec(cfg, es);
    forall v | v in TargetsOf(s.kicks, n) ensures v in s.world.sess && Arrived(s.world.sess[v]) {
      var k := TargetIsPosted(s.kicks, n, v);
    }
  }

  lemma {:induction false} TargetIsPosted(kicks: seq<KickPost>, n: nat, v: ConnId) returns (k: nat)
    requires v in TargetsOf(kicks, n)
    ensures k < |kicks| && kicks[k] == KickPost(n, v)
  {
    var last := kicks[|kicks| - 1];
    if last == KickPost(n, v) {
      k := |kicks| - 1;
    } else {
      k := TargetIsPosted(kicks[..|kicks| - 1], n, v);
    }
  }

  /** An order to kick an account, carried out at any moment of any run, is made on the account's
      deque as it then is: its victims stay exactly these, whatever happens later. */
  lemma KickOrderTakesDeque(cfg: W.Config, before: seq<Event>, c: ConnId, given: Input, after: seq<Event>)
    requires var s := Exec(cfg, before); Busy(s, c) && s.work[c].kicks == [] && NextEffect(s, c).KickUser?
    ensures var s, r := Exec(cfg, before), Exec(cfg, before + [Worked(c, given)] + after);
            && |s.acts| < |r.acts|
            && r.acts[|s.acts|].effect == NextEffect(s, c)
            && r.acts[|s.acts|].victims == R.Deque(s.world.reg, NextEffect(s, c).target)
  {
    var es := before + [Worked(c, given)];
    assert es[..|before|] == before;
    ActsKept(cfg, es, after);
  }

  lemma {:induction false} ActsKept(cfg: W.Config, es: seq<Event>, after: seq<Event>)
    ensures Exec(cfg, es).acts <= Exec(cfg, es + after).acts
  {
    if after == [] {
      assert es + after == es;
    } else {
      var init := after[..|after| - 1];
      ActsKept(cfg, es, init);
      assert (es + after)[..|es + after| - 1] == es + init;
      StepGrows(cfg, Exec(cfg, es + init), after[|after| - 1]);
    }
  }

  /** Only administrators: whoever kicks an account or changes a table was signed on by a LOGIN
      that was granted the administrator's role, and asked for it in a CONTROL frame. */
  lemma OnlyAdministrators(cfg: W.Config, es: seq<Event>, n: nat) returns (l: nat)
    requires n < |Exec(cfg, es).acts|
    requires var e := Exec(cfg, es).acts[n].effect;
             e.KickUser? || e.AddUser? || e.UpdateUser? || e.DeleteUser? || e.Allowlist?
    ensures var s := Exec(cfg, es); var a := s.acts[n];
            && a.frame < |s.handled| && s.handled[a.frame].conn == a.conn
            && s.handled[a.frame].request.msgType == H.CONTROL
            && l < |s.handled| && s.handled[l].conn == a.conn && s.handled[l].request.msgType == H.LOGIN
            && s.handled[l].answers.auth.Granted? && s.handled[l].answers.auth.isAdmin
  {
    var s := Exec(cfg, es);
    var a := s.acts[n];
    ActIsDecided(cfg, es, n);
    ReachableLogins(cfg, es);
    var h := s.handled[a.frame];
    H.AdminEffectsNeedAdmin(h.view, h.request, h.answers, a.effect);
    assert HasLoginAct(s.acts, a.conn, s.logins[a.conn]);
    var m :| 0 <= m < |s.acts| && LoggedInBy(s.acts[m], a.conn, s.logins[a.conn]);
    ActIsDecided(cfg, es, m);
    l := s.acts[m].frame;
    LoginFrameOf(s.handled[l], s.acts[m].effect);
  }

  /** The accounts kicked and deleted are those that the frame names. */
  lemma AccountNamed(cfg: W.Config, es: seq<Event>, n: nat)
    requires n < |Exec(cfg, es).acts|
    ensures var s := Exec(cfg, es); var a := s.acts[n]; a.frame < |s.handled| && s.handled[a.frame].conn == a.conn
    ensures var s := Exec(cfg, es); var a := s.acts[n]; var q := s.handled[a.frame].request;
            && (a.effect.KickUser? ==>
                  && q.body.Map?
                  && (|| (H.Asks(q.body.entries, "kick_user")
                          && H.GetU64(q.body.entries, "target_user_id") == Some(a.effect.target))
                      || (H.Asks(q.body.entries, "user_table_delete")
                          && H.GetU64(q.body.entries, "id") == Some(a.effect.target))))
            && (a.effect.DeleteUser? ==>
                  q.body.Map? && H.Asks(q.body.entries, "user_table_delete")
                  && H.GetU64(q.body.entries, "id") == Some(a.effect.id))
  {
    ActIsDecided(cfg, es, n);
    var s := Exec(cfg, es);
    var a := s.acts[n];
    var h := s.handled[a.frame];
    var id := if a.effect.KickUser? then a.effect.target else if a.effect.DeleteUser? then a.effect.id else 0;
    H.KickedAndDeletedExactlyWhen(h.view, h.request, h.answers, id);
  }

  lemma DeletionFollowsKick(h: Handled, p: nat)
    requires Genuine(h) && p < |h.effects| && h.effects[p].DeleteUser?
    ensures p > 0 && h.effects[p - 1] == H.KickUser(h.effects[p].id)
  {
    H.DeleteKicksFirst(h.view, h.request, h.answers);
  }

  lemma NextDeletion(cfg: W.Config, es: seq<Event>, c: ConnId)
    requires var s := Exec(cfg, es); Busy(s, c) && s.work[c].kicks == [] && NextEffect(s, c).DeleteUser?
    ensures var s := Exec(cfg, es); var w := s.work[c];
            w.next > 0 && s.handled[w.frame].effects[w.next - 1] == H.KickUser(NextEffect(s, c).id)
  {
    var s := Exec(cfg, es);
    EffectsAreDecided(cfg, es, s.work[c].frame);
    DeletionFollowsKick(s.handled[s.work[c].frame], s.work[c].next);
  }

  /** No account is deleted before its sessions were told to leave: by then every session that
      its deque held when the deletion was ordered has been kicked. */
  lemma DeletedAfterKicks(cfg: W.Config, es: seq<Event>, c: ConnId) returns (m: nat)
    requires var s := Exec(cfg, es); Busy(s, c) && s.work[c].kicks == [] && NextEffect(s, c).DeleteUser?
    ensures var s := Exec(cfg, es);
            && m < |s.acts| && s.acts[m].conn == c && s.acts[m].frame == s.work[c].frame
            && s.acts[m].effect == H.KickUser(NextEffect(s, c).id)
            && TargetsOf(s.kicks, m) == s.acts[m].victims
  {
    var s := Exec(cfg, es);
    ReachableBooks(cfg, es);
    ReachableKicks(cfg, es);
    NextDeletion(cfg, es, c);
    m := LatestActOf(s.handled, s.work, s.acts, c);
    AllKicked(s.work, s.acts, s.kicks, c, m);
  }

  lemma LatestActOf(hs: seq<Handled>, work: map<ConnId, Work>, acts: seq<Act>, c: ConnId) returns (m: nat)
    requires Books(hs, work, acts) && c in work && work[c].next > 0
    ensures work[c].frame < |hs| && work[c].next <= |hs[work[c].frame].effects|
    ensures m < |acts| && acts[m].conn == c && acts[m].frame == work[c].frame
    ensures acts[m].effect == hs[work[c].frame].effects[work[c].next - 1]
  {
    var w := work[c];
    assert WorkOk(hs, c, w);
    assert Reached(acts, |acts|, c, w.frame, w.next - 1);
    m :| 0 <= m < |acts| && acts[m].conn == c && acts[m].frame == w.frame && acts[m].pos == w.next - 1;
    assert ActOk(hs, work, acts[m]);
  }

  /** A connection that owes no kick has kicked all the victims of each of its acts. */
  lemma AllKicked(work: map<ConnId, Work>, acts: seq<Act>, kicks: seq<KickPost>, c: ConnId, m: nat)
    requires KickBook(work, acts, kicks) && c in work && work[c].kicks == [] && m < |acts| && acts[m].conn == c
    ensures TargetsOf(kicks, m) == acts[m].victims
  {
    assert TargetsOf(kicks, m) + Pending(work, c, m) == acts[m].victims;
    assert TargetsOf(kicks, m) + [] == TargetsOf(kicks, m);
  }
}
