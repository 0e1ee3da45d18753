/** The session registry of the relay server.

    Every region that holds the server's mutex is one atomic step on these
    containers.  A session is named by its connection id; `uidOf`, `open` and
    `lastHb` are the session fields the registry reads.
 */
module Registry {
  import opened Seqs

  type ConnId = nat
  type Uid = nat

  datatype RecvMode = Broadcast | RoundRobin

  /** The `session` section of the configuration, within the accepted ranges. */
  datatype Policy = Policy(maxConns: nat, cap: nat, hbTimeout: nat)

  predicate PolicyOk(pol: Policy) {
    1 <= pol.maxConns <= 256 && 1 <= pol.cap <= 1_000_000 && 1000 <= pol.hbTimeout <= 86_400_000
  }

  /** Round-robin counters are 64-bit unsigned integers. */
  const WRAP: nat := 0x1_0000_0000_0000_0000

  /** History: what a login asked for, what it was granted, whom it evicted. */
  datatype LoginRecord = LoginRecord(conn: ConnId, uid: Uid, wanted: RecvMode,
                                     granted: RecvMode, notice: bool, victims: seq<ConnId>)

  datatype State = State(
    nextConnId: nat,
    all: seq<ConnId>,
    byId: set<ConnId>,
    deques: map<Uid, seq<ConnId>>,
    modes: map<Uid, RecvMode>,
    rr: map<Uid, nat>,
    // session fields
    uidOf: map<ConnId, Uid>,
    open: set<ConnId>,
    lastHb: map<ConnId, int>,
    // histories
    logins: seq<LoginRecord>,
    evicted: set<ConnId>)

  function Init(): State {
    State(0, [], {}, map[], map[], map[], map[], {}, map[], [], {})
  }

  function Deque(s: State, uid: Uid): seq<ConnId> {
    if uid in s.deques then s.deques[uid] else []
  }

  function ModeOf(s: State, uid: Uid): RecvMode {
    if uid in s.modes then s.modes[uid] else Broadcast
  }

  function Counter(s: State, uid: Uid): nat {
    if uid in s.rr then s.rr[uid] else 0
  }

  // ---------------------------------------------------------------- steps

  function Accept(s: State): State {
    var id := s.nextConnId + 1;
    s.(nextConnId := id, all := s.all + [id], byId := s.byId + {id}, open := s.open + {id})
  }

  predicate MayLogin(s: State, c: ConnId) {
    c in s.byId && c !in s.uidOf
  }

  function Grant(s: State, uid: Uid, wanted: RecvMode): RecvMode {
    if Deque(s, uid) == [] then wanted else ModeOf(s, uid)
  }

  /** How many of the oldest connections a login evicts. */
  function Overflow(pol: Policy, dq: seq<ConnId>): (n: nat)
    ensures n <= |dq|
  {
    if |dq| > pol.maxConns then |dq| - pol.maxConns else 0
  }

  function Login(pol: Policy, s: State, c: ConnId, uid: Uid, wanted: RecvMode, now: int): State {
    if !MayLogin(s, c) then s
    else
      var dq := Deque(s, uid) + [c];
      var n := Overflow(pol, dq);
      var granted := Grant(s, uid, wanted);
      s.(deques := s.deques[uid := dq[n..]],
         modes := s.modes[uid := granted],
         uidOf := s.uidOf[c := uid],
         lastHb := s.lastHb[c := now],
         logins := s.logins + [LoginRecord(c, uid, wanted, granted, granted != wanted, dq[..n])],
         evicted := s.evicted + Elems(dq[..n]))
  }

  /** Drop a connection from its user's deque; an emptied deque takes the user's mode
      and counter with it. */
  function Unlink(s: State, c: ConnId, uid: Uid): State {
    if uid !in s.deques then s
    else
      var dq := EraseFirst(s.deques[uid], c);
      if dq == [] then s.(deques := s.deques - {uid}, modes := s.modes - {uid}, rr := s.rr - {uid})
      else s.(deques := s.deques[uid := dq])
  }

  function Remove(s: State, c: ConnId): State {
    var s1 := s.(byId := s.byId - {c}, all := EraseFirst(s.all, c));
    if c in s.uidOf then Unlink(s1, c, s.uidOf[c]) else s1
  }

  /** The statistics snapshot compacts `all_` to the open sessions. */
  function Compact(s: State): State {
    s.(all := Sel(s.all, s.open))
  }

  function OpenConns(s: State, uid: Uid): seq<ConnId> {
    Sel(Deque(s, uid), s.open)
  }

  /** Who gets a payload sent to `uid`. */
  function Recipients(pol: Policy, s: State, uid: Uid): seq<ConnId> {
    var conns := OpenConns(s, uid);
    if conns == [] then []
    else if ModeOf(s, uid) == Broadcast then
      if |conns| <= pol.cap then conns else conns[..pol.cap]
    else [conns[Counter(s, uid) % |conns|]]
  }

  function Route(s: State, uid: Uid): State {
    if OpenConns(s, uid) == [] || ModeOf(s, uid) == Broadcast then s
    else s.(rr := s.rr[uid := (Counter(s, uid) + 1) % WRAP])
  }

  function Touch(s: State, c: ConnId, now: int): State {
    s.(lastHb := s.lastHb[c := now])
  }

  function Close(s: State, c: ConnId): State {
    s.(open := s.open - {c})
  }

  datatype Event =
    | Accepted
    | LoggedIn(conn: ConnId, uid: Uid, wanted: RecvMode, now: int)
    | Removed(conn: ConnId)
    | Snapshot
    | Routed(uid: Uid)
    | Touched(conn: ConnId, now: int)
    | Closed(conn: ConnId)

  function Step(pol: Policy, s: State, e: Event): State {
    match e
    case Accepted => Accept(s)
    case LoggedIn(c, uid, wanted, now) => Login(pol, s, c, uid, wanted, now)
    case Removed(c) => Remove(s, c)
    case Snapshot => Compact(s)
    case Routed(uid) => Route(s, uid)
    case Touched(c, now) => Touch(s, c, now)
    case Closed(c) => Close(s, c)
  }

  function Exec(pol: Policy, s: State, es: seq<Event>): State {
    if es == [] then s
    else Step(pol, Exec(pol, s, es[..|es| - 1]), es[|es| - 1])
  }

  // ---------------------------------------------------------------- history specification

  /** The connections that logged in as `uid`, in login order. */
  function LoginOrder(logins: seq<LoginRecord>, uid: Uid): seq<ConnId> {
    if logins == [] then []
    else
      var rest := LoginOrder(logins[..|logins| - 1], uid);
      var x := logins[|logins| - 1];
      if x.uid == uid then rest + [x.conn] else rest
  }

  /** Those of them that were neither evicted nor removed. */
  function Surviving(s: State, uid: Uid): seq<ConnId> {
    Sel(LoginOrder(s.logins, uid), s.byId - s.evicted)
  }

  // ---------------------------------------------------------------- invariant

  ghost predicate SessionsInv(s: State) {
    && (forall c :: c in s.byId || c in s.open || c in s.evicted || c in s.uidOf ==> c <= s.nextConnId)
    && NoDup(s.all)
    && (forall c :: c in s.all ==> c in s.byId)
    && (forall c :: c in s.byId && c in s.open ==> c in s.all)
  }

  ghost predicate LoginsInv(s: State) {
    && (forall i :: 0 <= i < |s.logins| ==> s.logins[i].conn in s.uidOf && s.uidOf[s.logins[i].conn] == s.logins[i].uid)
    && (forall i, j :: 0 <= i < j < |s.logins| ==> s.logins[i].conn != s.logins[j].conn)
    && (forall c :: c in s.evicted ==> c in s.uidOf)
  }

  ghost predicate DequesInv(pol: Policy, s: State) {
    && (forall uid :: Deque(s, uid) == Surviving(s, uid))
    && (forall uid :: uid in s.deques ==> 1 <= |s.deques[uid]| <= pol.maxConns)
    && s.modes.Keys == s.deques.Keys
    && s.rr.Keys <= s.deques.Keys
    && (forall uid :: uid in s.rr ==> s.rr[uid] < WRAP)
  }

  ghost predicate Inv(pol: Policy, s: State) {
    SessionsInv(s) && LoginsInv(s) && DequesInv(pol, s)
  }

  lemma {:induction false} LoginOrderMembers(s: State, logins: seq<LoginRecord>, uid: Uid)
    requires forall i :: 0 <= i < |logins| ==> logins[i].conn in s.uidOf && s.uidOf[logins[i].conn] == logins[i].uid
    requires forall i, j :: 0 <= i < j < |logins| ==> logins[i].conn != logins[j].conn
    ensures NoDup(LoginOrder(logins, uid))
    ensures forall c :: c in LoginOrder(logins, uid) ==> c in s.uidOf && s.uidOf[c] == uid
    ensures forall c :: c in LoginOrder(logins, uid) ==> exists i :: 0 <= i < |logins| && logins[i].conn == c
  {
    if logins != [] {
      LoginOrderMembers(s, logins[..|logins| - 1], uid);
      assert logins[|logins| - 1].conn !in LoginOrder(logins[..|logins| - 1], uid);
    }
  }

  /** What the history equation says about a deque's members. */
  lemma DequeMembers(s: State, uid: Uid)
    requires LoginsInv(s) && Deque(s, uid) == Surviving(s, uid)
    ensures NoDup(Deque(s, uid))
    ensures forall c :: c in Deque(s, uid) ==> c in s.byId && c !in s.evicted && c in s.uidOf && s.uidOf[c] == uid
  {
    LoginOrderMembers(s, s.logins, uid);
    SelNoDup(LoginOrder(s.logins, uid), s.byId - s.evicted);
  }

  lemma LoginKeepsSessions(pol: Policy, s: State, c: ConnId, uid: Uid, wanted: RecvMode, now: int)
    requires PolicyOk(pol) && Inv(pol, s) && MayLogin(s, c)
    ensures var r := Login(pol, s, c, uid, wanted, now); SessionsInv(r) && LoginsInv(r)
  {
    DequeMembers(s, uid);
    var dq := Deque(s, uid) + [c];
    assert forall v :: v in dq[..Overflow(pol, dq)] ==> v in dq;
  }

  lemma LoginOrderSnoc(logins: seq<LoginRecord>, x: LoginRecord, uid: Uid)
    ensures LoginOrder(logins + [x], uid) == LoginOrder(logins, uid) + (if x.uid == uid then [x.conn] else [])
  {
    assert (logins + [x])[..|logins|] == logins;
  }

  lemma NewcomerIsNew(s: State, c: ConnId, uid: Uid)
    requires LoginsInv(s) && Deque(s, uid) == Surviving(s, uid) && MayLogin(s, c)
    ensures NoDup(Deque(s, uid) + [c]) && c !in s.evicted
  {
    DequeMembers(s, uid);
    assert c !in Deque(s, uid);
  }

  lemma SurvivorsOfLogin(logins: seq<LoginRecord>, x: LoginRecord, byId: set<ConnId>, evicted: set<ConnId>, n: nat)
    requires var dq := Sel(LoginOrder(logins, x.uid), byId - evicted) + [x.conn]; n <= |dq| && NoDup(dq)
    requires x.conn in byId && x.conn !in evicted
    ensures var dq := Sel(LoginOrder(logins, x.uid), byId - evicted) + [x.conn];
            Sel(LoginOrder(logins + [x], x.uid), byId - (evicted + Elems(dq[..n]))) == dq[n..]
  {
    var dq := Sel(LoginOrder(logins, x.uid), byId - evicted) + [x.conn];
    EvictOldest(LoginOrder(logins, x.uid), x.conn, byId - evicted, n);
    LoginOrderSnoc(logins, x, x.uid);
    assert byId - (evicted + Elems(dq[..n])) == (byId - evicted) - Elems(dq[..n]);
  }

  /** The evicting login keeps the newest `maxConns` survivors. */
  lemma LoginKeepsDeque(pol: Policy, s: State, c: ConnId, uid: Uid, wanted: RecvMode, now: int)
    requires Deque(s, uid) == Surviving(s, uid) && MayLogin(s, c)
    requires NoDup(Deque(s, uid) + [c]) && c !in s.evicted
    ensures var r := Login(pol, s, c, uid, wanted, now); Deque(r, uid) == Surviving(r, uid)
  {
    var r := Login(pol, s, c, uid, wanted, now);
    SurvivorsOfLogin(s.logins, r.logins[|s.logins|], s.byId, s.evicted, Overflow(pol, Deque(s, uid) + [c]));
  }

  lemma SurvivorsElsewhere(logins: seq<LoginRecord>, x: LoginRecord, byId: set<ConnId>, evicted: set<ConnId>,
                           gone: set<ConnId>, u: Uid)
    requires x.uid != u && forall v :: v in LoginOrder(logins, u) ==> v !in gone
    ensures Sel(LoginOrder(logins + [x], u), byId - (evicted + gone)) == Sel(LoginOrder(logins, u), byId - evicted)
  {
    LoginOrderSnoc(logins, x, u);
    SelAgree(LoginOrder(logins, u), byId - evicted, byId - (evicted + gone));
  }

  lemma VictimsElsewhere(s: State, c: ConnId, uid: Uid, n: nat, u: Uid)
    requires LoginsInv(s) && c !in s.uidOf && u != uid && Deque(s, uid) == Surviving(s, uid) && n <= |Deque(s, uid)| + 1
    ensures forall v :: v in LoginOrder(s.logins, u) ==> v !in Elems((Deque(s, uid) + [c])[..n])
  {
    DequeMembers(s, uid);
    LoginOrderMembers(s, s.logins, u);
    var dq := Deque(s, uid) + [c];
    assert forall v :: v in dq[..n] ==> v in dq;
  }

  lemma LoginKeepsOthers(pol: Policy, s: State, c: ConnId, uid: Uid, wanted: RecvMode, now: int, u: Uid)
    requires LoginsInv(s) && MayLogin(s, c) && u != uid
    requires Deque(s, uid) == Surviving(s, uid) && Deque(s, u) == Surviving(s, u)
    ensures var r := Login(pol, s, c, uid, wanted, now); Deque(r, u) == Surviving(r, u)
  {
    var r := Login(pol, s, c, uid, wanted, now);
    var dq := Deque(s, uid) + [c];
    var n := Overflow(pol, dq);
    VictimsElsewhere(s, c, uid, n, u);
    SurvivorsElsewhere(s.logins, r.logins[|s.logins|], s.byId, s.evicted, Elems(dq[..n]), u);
  }

  lemma LoginKeepsInv(pol: Policy, s: State, c: ConnId, uid: Uid, wanted: RecvMode, now: int)
    requires PolicyOk(pol) && Inv(pol, s) && MayLogin(s, c)
    ensures Inv(pol, Login(pol, s, c, uid, wanted, now))
  {
    var r := Login(pol, s, c, uid, wanted, now);
    LoginKeepsSessions(pol, s, c, uid, wanted, now);
    assert Deque(s, uid) == Surviving(s, uid);
    forall u ensures Deque(r, u) == Surviving(r, u) {
      assert Deque(s, u) == Surviving(s, u);
      if u == uid {
        NewcomerIsNew(s, c, uid);
        LoginKeepsDeque(pol, s, c, uid, wanted, now);
      } else {
        LoginKeepsOthers(pol, s, c, uid, wanted, now, u);
      }
    }
  }

  lemma RemoveKeepsDeque(s: State, c: ConnId, u: Uid)
    requires LoginsInv(s) && Deque(s, u) == Surviving(s, u)
    requires forall v :: v in s.deques ==> s.deques[v] != []
    ensures var r := Remove(s, c);
            && Deque(r, u) == Surviving(r, u)
            && |Deque(r, u)| <= |Deque(s, u)|
            && (u in r.deques ==> u in s.deques && r.deques[u] != [])
  {
    var r := Remove(s, c);
    var order := LoginOrder(s.logins, u);
    LoginOrderMembers(s, s.logins, u);
    if c in s.uidOf && s.uidOf[c] == u {
      EraseOne(order, c, s.byId - s.evicted);
      assert (s.byId - s.evicted) - {c} == r.byId - r.evicted;
      assert Deque(r, u) == EraseFirst(Deque(s, u), c);
      SelTwice(order, s.byId - s.evicted, (s.byId - s.evicted) - {c});
      assert (s.byId - s.evicted) * ((s.byId - s.evicted) - {c}) == (s.byId - s.evicted) - {c};
    } else {
      SelAgree(order, s.byId - s.evicted, r.byId - r.evicted);
      assert Deque(r, u) == Deque(s, u);
    }
  }

  lemma RemoveKeepsSessions(s: State, c: ConnId)
    requires SessionsInv(s)
    ensures SessionsInv(Remove(s, c))
  {
    EraseIsSel(s.all, c, s.byId - {c});
    SelNoDup(s.all, s.byId - {c});
  }

  lemma RemoveKeepsKeys(pol: Policy, s: State, c: ConnId)
    requires DequesInv(pol, s)
    ensures var r := Remove(s, c);
            && r.modes.Keys == r.deques.Keys && r.rr.Keys <= r.deques.Keys
            && (forall uid :: uid in r.rr ==> r.rr[uid] < WRAP)
  {
  }

  lemma RemoveKeepsInv(pol: Policy, s: State, c: ConnId)
    requires Inv(pol, s)
    ensures Inv(pol, Remove(s, c))
  {
    var r := Remove(s, c);
    RemoveKeepsSessions(s, c);
    RemoveKeepsKeys(pol, s, c);
    assert LoginsInv(r);
    forall u ensures Deque(r, u) == Surviving(r, u) {
      assert Deque(s, u) == Surviving(s, u);
      RemoveKeepsDeque(s, c, u);
    }
    forall u | u in r.deques ensures 1 <= |r.deques[u]| <= pol.maxConns {
      assert Deque(s, u) == Surviving(s, u);
      RemoveKeepsDeque(s, c, u);
      assert Deque(r, u) == r.deques[u] && Deque(s, u) == s.deques[u];
    }
  }

  lemma StepKeepsInv(pol: Policy, s: State, e: Event)
    requires PolicyOk(pol) && Inv(pol, s)
    ensures Inv(pol, Step(pol, s, e))
  {
    var r := Step(pol, s, e);
    match e {
      case Accepted =>
        AcceptKeepsInv(pol, s);
      case LoggedIn(c, uid, wanted, now) =>
        if MayLogin(s, c) { LoginKeepsInv(pol, s, c, uid, wanted, now); }
      case Removed(c) => RemoveKeepsInv(pol, s, c);
      case Snapshot =>
        SelNoDup(s.all, s.open);
        SameDeques(pol, s, r);
      case Routed(uid) =>
        SameDeques(pol, s, r);
      case Touched(c, now) =>
        SameDeques(pol, s, r);
      case Closed(c) =>
        SameDeques(pol, s, r);
    }
  }

  lemma SameDeques(pol: Policy, s: State, r: State)
    requires DequesInv(pol, s)
    requires r.deques == s.deques && r.byId == s.byId && r.evicted == s.evicted && r.logins == s.logins
    ensures forall uid :: Deque(r, uid) == Surviving(r, uid)
  {
    forall uid ensures Deque(r, uid) == Surviving(r, uid) {
      assert Deque(s, uid) == Surviving(s, uid);
    }
  }

  lemma AcceptKeepsInv(pol: Policy, s: State)
    requires Inv(pol, s)
    ensures Inv(pol, Accept(s))
  {
    var r := Accept(s);
    assert NoDup(r.all) by { assert r.nextConnId !in s.all; }
    forall u ensures Deque(r, u) == Surviving(r, u) {
      LoginOrderMembers(s, s.logins, u);
      assert Deque(r, u) == Deque(s, u);
      SelAgree(LoginOrder(s.logins, u), s.byId - s.evicted, r.byId - r.evicted);
    }
  }

  lemma {:induction false} ExecKeepsInv(pol: Policy, s: State, es: seq<Event>)
    requires PolicyOk(pol) && Inv(pol, s)
    ensures Inv(pol, Exec(pol, s, es))
  {
    if es != [] {
      ExecKeepsInv(pol, s, es[..|es| - 1]);
      StepKeepsInv(pol, Exec(pol, s, es[..|es| - 1]), es[|es| - 1]);
    }
  }

  // ---------------------------------------------------------------- theorems over every run

  lemma ReachableInv(pol: Policy, es: seq<Event>)
    requires PolicyOk(pol)
    ensures Inv(pol, Exec(pol, Init(), es))
  {
    assert forall uid :: Deque(Init(), uid) == Surviving(Init(), uid);
    ExecKeepsInv(pol, Init(), es);
  }

  /** The containers agree with each other after every run. */
  lemma RegistryConsistent(pol: Policy, es: seq<Event>)
    requires PolicyOk(pol)
    ensures var s := Exec(pol, Init(), es);
            && (forall uid :: uid in s.deques ==>
                  && 1 <= |s.deques[uid]| <= pol.maxConns
                  && NoDup(s.deques[uid])
                  && (forall c :: c in s.deques[uid] ==> c in s.byId && c in s.uidOf && s.uidOf[c] == uid))
            && (forall u, v :: u in s.deques && v in s.deques && u != v ==>
                  forall c :: c in s.deques[u] ==> c !in s.deques[v])
            && s.modes.Keys == s.deques.Keys
            && s.rr.Keys <= s.deques.Keys
            && NoDup(s.all)
            && Elems(s.all) <= s.byId
            && s.byId * s.open <= Elems(s.all)
  {
    ReachableInv(pol, es);
    var s := Exec(pol, Init(), es);
    forall uid | uid in s.deques
      ensures NoDup(s.deques[uid])
      ensures forall c :: c in s.deques[uid] ==> c in s.byId && c in s.uidOf && s.uidOf[c] == uid
    {
      assert Deque(s, uid) == s.deques[uid];
      DequeMembers(s, uid);
    }
  }

  /** A user's deque is the login-order list of its connections that were neither evicted
      nor removed. */
  lemma DequeIsLoginHistory(pol: Policy, es: seq<Event>, uid: Uid)
    requires PolicyOk(pol)
    ensures var s := Exec(pol, Init(), es);
            && Deque(s, uid) == Sel(LoginOrder(s.logins, uid), s.byId - s.evicted)
            && (uid in s.deques <==> Deque(s, uid) != [])
  {
    ReachableInv(pol, es);
    var s := Exec(pol, Init(), es);
    assert Deque(s, uid) == Surviving(s, uid);
  }

  lemma LoginSplitsDeque(pol: Policy, s: State, c: ConnId, uid: Uid, wanted: RecvMode, now: int)
    requires PolicyOk(pol) && MayLogin(s, c) && NoDup(Deque(s, uid) + [c]) && |Deque(s, uid)| <= pol.maxConns
    ensures var r := Login(pol, s, c, uid, wanted, now);
            var victims := r.logins[|s.logins|].victims;
            && victims + Deque(r, uid) == Deque(s, uid) + [c]
            && c !in victims
            && |victims| == (if |Deque(s, uid)| == pol.maxConns then 1 else 0)
            && (forall u :: u != uid ==> Deque(r, u) == Deque(s, u))
  {
    var dq := Deque(s, uid) + [c];
    var n := Overflow(pol, dq);
    assert dq[..n] + dq[n..] == dq;
    assert forall i :: 0 <= i < n ==> dq[i] != dq[|dq| - 1];
  }

  /** A login after any run keeps the newest `maxConns` of the old deque and the newcomer,
      evicts at most one connection, the oldest, and never the newcomer. */
  lemma LoginEvictsOldest(pol: Policy, es: seq<Event>, c: ConnId, uid: Uid, wanted: RecvMode, now: int)
    requires PolicyOk(pol) && MayLogin(Exec(pol, Init(), es), c)
    ensures var s := Exec(pol, Init(), es);
            var r := Login(pol, s, c, uid, wanted, now);
            var victims := r.logins[|s.logins|].victims;
            && victims + Deque(r, uid) == Deque(s, uid) + [c]
            && c !in victims
            && |victims| == (if |Deque(s, uid)| == pol.maxConns then 1 else 0)
            && (forall u :: u != uid ==> Deque(r, u) == Deque(s, u))
  {
    ReachableInv(pol, es);
    var s := Exec(pol, Init(), es);
    assert Deque(s, uid) == Surviving(s, uid);
    NewcomerIsNew(s, c, uid);
    assert uid in s.deques ==> |s.deques[uid]| <= pol.maxConns;
    LoginSplitsDeque(pol, s, c, uid, wanted, now);
  }

  /** When an evicted session's read loop ends, nothing of its user's is touched: not the
      deque, not the mode, not the round-robin counter. */
  lemma RemovingEvictedChangesNothing(pol: Policy, es: seq<Event>, c: ConnId)
    requires PolicyOk(pol) && c in Exec(pol, Init(), es).evicted
    ensures var s := Exec(pol, Init(), es);
            var r := Remove(s, c);
            r.deques == s.deques && r.modes == s.modes && r.rr == s.rr
  {
    ReachableInv(pol, es);
    var s := Exec(pol, Init(), es);
    var uid := s.uidOf[c];
    assert Deque(s, uid) == Surviving(s, uid);
    DequeMembers(s, uid);
    EraseAbsent(Deque(s, uid), c);
  }

  // ---------------------------------------------------------------- receive mode

  ghost predicate StaysOnline(pol: Policy, s: State, es: seq<Event>, uid: Uid) {
    forall k :: 0 <= k <= |es| ==> uid in Exec(pol, s, es[..k]).deques
  }

  lemma ModeStep(pol: Policy, s: State, e: Event, uid: Uid)
    requires Inv(pol, s) && uid in s.deques && uid in Step(pol, s, e).deques
    ensures var r := Step(pol, s, e);
            && uid in r.modes && r.modes[uid] == s.modes[uid]
            && s.logins <= r.logins
            && (forall i :: |s.logins| <= i < |r.logins| && r.logins[i].uid == uid ==>
                  r.logins[i].granted == s.modes[uid] && r.logins[i].notice == (r.logins[i].wanted != s.modes[uid]))
  {
  }

  lemma {:induction false} ModeStable(pol: Policy, s: State, es: seq<Event>, uid: Uid)
    requires PolicyOk(pol) && Inv(pol, s) && StaysOnline(pol, s, es, uid)
    ensures uid in s.modes
    ensures var r := Exec(pol, s, es);
            && uid in r.modes && r.modes[uid] == s.modes[uid]
            && s.logins <= r.logins
            && (forall i :: |s.logins| <= i < |r.logins| && r.logins[i].uid == uid ==>
                  r.logins[i].granted == s.modes[uid] && r.logins[i].notice == (r.logins[i].wanted != s.modes[uid]))
  {
    assert uid in Exec(pol, s, es[..0]).deques;
    if es != [] {
      var init := es[..|es| - 1];
      assert forall k :: 0 <= k <= |init| ==> init[..k] == es[..k];
      ModeStable(pol, s, init, uid);
      ExecKeepsInv(pol, s, init);
      assert es[..|es|] == es;
      assert uid in Exec(pol, s, es[..|init|]).deques && uid in Exec(pol, s, es[..|es|]).deques;
      ModeStep(pol, Exec(pol, s, init), es[|es| - 1], uid);
    }
  }

  /** From the login that brings a user online until the user's deque empties, the stored
      mode and the mode granted to every login are the ones that first login asked for; the
      round-robin counter starts at zero. */
  lemma ReceiveModePeriod(pol: Policy, before: seq<Event>, c: ConnId, uid: Uid, wanted: RecvMode,
                          now: int, during: seq<Event>)
    requires PolicyOk(pol)
    requires var s := Exec(pol, Init(), before); MayLogin(s, c) && uid !in s.deques
    requires StaysOnline(pol, Login(pol, Exec(pol, Init(), before), c, uid, wanted, now), during, uid)
    ensures var s := Exec(pol, Init(), before);
            var first := Login(pol, s, c, uid, wanted, now);
            var r := Exec(pol, first, during);
            && first.logins[|s.logins|] == LoginRecord(c, uid, wanted, wanted, false, [])
            && Counter(first, uid) == 0
            && uid in r.modes && r.modes[uid] == wanted
            && first.logins <= r.logins
            && (forall i :: |first.logins| <= i < |r.logins| && r.logins[i].uid == uid ==>
                  r.logins[i].granted == wanted && r.logins[i].notice == (r.logins[i].wanted != wanted))
  {
    ReachableInv(pol, before);
    var s := Exec(pol, Init(), before);
    LoginKeepsInv(pol, s, c, uid, wanted, now);
    ModeStable(pol, Login(pol, s, c, uid, wanted, now), during, uid);
  }

  lemma ExecSnoc(pol: Policy, s: State, es: seq<Event>, e: Event)
    ensures Exec(pol, s, es + [e]) == Step(pol, Exec(pol, s, es), e)
  {
    assert (es + [e])[..|es|] == es;
  }

  /** The mode is not fixed for the life of the process: once the last registered connection
      is gone, the next login chooses again. */
  lemma ModeChangesAfterOffline(pol: Policy, uid: Uid, first: RecvMode, second: RecvMode) returns (es: seq<Event>)
    requires PolicyOk(pol)
    ensures var s := Exec(pol, Init(), es);
            && |s.logins| == 2
            && s.logins[0].uid == s.logins[1].uid == uid
            && s.logins[0].granted == first && s.logins[1].granted == second
            && uid in s.modes && s.modes[uid] == second
  {
    var e1 := [Accepted];
    var e2 := e1 + [LoggedIn(1, uid, first, 0)];
    var e3 := e2 + [Removed(1)];
    var e4 := e3 + [Accepted];
    es := e4 + [LoggedIn(2, uid, second, 0)];
    assert e1 == [] + [Accepted];
    ExecSnoc(pol, Init(), [], Accepted);
    ExecSnoc(pol, Init(), e1, LoggedIn(1, uid, first, 0));
    ExecSnoc(pol, Init(), e2, Removed(1));
    ExecSnoc(pol, Init(), e3, Accepted);
    ExecSnoc(pol, Init(), e4, LoggedIn(2, uid, second, 0));
    assert Exec(pol, Init(), e2).deques == map[uid := [1]];
    assert uid !in Exec(pol, Init(), e3).deques;
  }

  // ---------------------------------------------------------------- heartbeat sweep

  function Stale(pol: Policy, s: State, now: int): set<ConnId> {
    set c | c in s.uidOf && c in s.open && c in s.lastHb && now - s.lastHb[c] > pol.hbTimeout
  }

  /** The sweep copies `all_` under the lock and examines the members of the copy one after
      another: `snap[i]` as it is in state `seen[i]`. */
  function Sweep(pol: Policy, snap: seq<ConnId>, seen: seq<State>, now: int): seq<ConnId>
    requires |seen| == |snap|
  {
    if snap == [] then []
    else
      var n := |snap| - 1;
      var rest := Sweep(pol, snap[..n], seen[..n], now);
      if snap[n] in Stale(pol, seen[n], now) then rest + [snap[n]] else rest
  }

  lemma {:induction false} SweepMembers(pol: Policy, snap: seq<ConnId>, seen: seq<State>, now: int)
    requires |seen| == |snap| && NoDup(snap)
    ensures NoDup(Sweep(pol, snap, seen, now))
    ensures forall c :: c in Sweep(pol, snap, seen, now) ==> c in snap
    ensures forall i :: 0 <= i < |snap| ==>
              (snap[i] in Sweep(pol, snap, seen, now) <==> snap[i] in Stale(pol, seen[i], now))
  {
    if snap != [] {
      var n := |snap| - 1;
      SweepMembers(pol, snap[..n], seen[..n], now);
      assert snap == snap[..n] + [snap[n]] && snap[n] !in snap[..n];
      assert forall i :: 0 <= i < n ==> snap[i] == snap[..n][i] && seen[i] == seen[..n][i];
    }
  }

  lemma OpenStep(pol: Policy, s: State, e: Event)
    ensures var r := Step(pol, s, e);
            if e.Accepted? then r.nextConnId == s.nextConnId + 1 && r.open == s.open + {s.nextConnId + 1}
            else r.nextConnId == s.nextConnId && r.open <= s.open
  {
    if e.Removed? {
      var s1 := s.(byId := s.byId - {e.conn}, all := EraseFirst(s.all, e.conn));
      assert s1.open == s.open && s1.nextConnId == s.nextConnId;
    }
  }

  lemma IdsStep(pol: Policy, s: State, e: Event)
    requires !e.Accepted?
    ensures var r := Step(pol, s, e); r.nextConnId == s.nextConnId && r.byId <= s.byId
  {
    OpenStep(pol, s, e);
    if e.Removed? {
      var s1 := s.(byId := s.byId - {e.conn}, all := EraseFirst(s.all, e.conn));
      assert s1.byId <= s.byId;
    }
  }

  lemma {:induction false} OpenOnlyShrinks(pol: Policy, s: State, es: seq<Event>)
    requires PolicyOk(pol)
    ensures var r := Exec(pol, s, es);
            && s.nextConnId <= r.nextConnId
            && (forall c :: c in r.open && c <= s.nextConnId ==> c in s.open)
  {
    if es != [] {
      OpenOnlyShrinks(pol, s, es[..|es| - 1]);
      OpenStep(pol, Exec(pol, s, es[..|es| - 1]), es[|es| - 1]);
    }
  }

  /** Whatever the server does while a sweep is under way, compaction included: each member of
      the copy is kicked exactly if it is open, logged in and overdue when it is examined, at
      most once; and a registered session that is not in the copy is at no moment of the sweep
      open, so none that is overdue is missed. */
  lemma SweepKicksExactlyTheOverdue(pol: Policy, before: seq<Event>, during: seq<Event>, at: seq<nat>, now: int)
    requires PolicyOk(pol)
    requires |at| == |Exec(pol, Init(), before).all| && forall i :: 0 <= i < |at| ==> at[i] <= |during|
    ensures var s := Exec(pol, Init(), before);
            var seen := seq(|at|, i requires 0 <= i < |at| => Exec(pol, s, during[..at[i]]));
            var kicked := Sweep(pol, s.all, seen, now);
            && NoDup(kicked) && Elems(kicked) <= s.byId
            && (forall i :: 0 <= i < |at| ==> (s.all[i] in kicked <==> s.all[i] in Stale(pol, seen[i], now)))
            && (forall c, k ::
                  c in s.byId && 0 <= k <= |during| && c in Stale(pol, Exec(pol, s, during[..k]), now)
                  ==> c in s.all)
  {
    ReachableInv(pol, before);
    var s := Exec(pol, Init(), before);
    var seen := seq(|at|, i requires 0 <= i < |at| => Exec(pol, s, during[..at[i]]));
    SweepMembers(pol, s.all, seen, now);
    forall c, k | c in s.byId && 0 <= k <= |during| && c in Stale(pol, Exec(pol, s, during[..k]), now)
      ensures c in s.all
    {
      OpenOnlyShrinks(pol, s, during[..k]);
    }
  }

  // ---------------------------------------------------------------- routing

  /** Recipients are distinct open connections of the user; broadcast reaches all of them up
      to the cap, oldest first; round robin reaches exactly one. */
  lemma RecipientsSound(pol: Policy, s: State, uid: Uid)
    requires PolicyOk(pol) && Inv(pol, s)
    ensures var rs := Recipients(pol, s, uid);
            && NoDup(rs)
            && (forall c :: c in rs ==> c in s.open && c in s.byId && c in s.uidOf && s.uidOf[c] == uid)
            && (rs == [] <==> OpenConns(s, uid) == [])
            && (ModeOf(s, uid) == RoundRobin && rs != [] ==> |rs| == 1)
            && (ModeOf(s, uid) == Broadcast ==> rs <= OpenConns(s, uid))
            && (ModeOf(s, uid) == Broadcast && pol.maxConns <= pol.cap ==> rs == OpenConns(s, uid))
  {
    assert Deque(s, uid) == Surviving(s, uid);
    DequeMembers(s, uid);
    SelNoDup(Deque(s, uid), s.open);
  }

  lemma RouteKeepsInv(pol: Policy, s: State, uid: Uid)
    requires PolicyOk(pol) && Inv(pol, s)
    ensures Inv(pol, Route(s, uid)) && Route(s, uid).nextConnId == s.nextConnId
    ensures forall c :: c in Recipients(pol, s, uid) ==> c <= s.nextConnId
  {
    StepKeepsInv(pol, s, Routed(uid));
    RecipientsSound(pol, s, uid);
  }

  lemma CloseKeepsInv(pol: Policy, s: State, c: ConnId)
    requires PolicyOk(pol) && Inv(pol, s)
    ensures Inv(pol, Close(s, c)) && Close(s, c).nextConnId == s.nextConnId
  {
    StepKeepsInv(pol, s, Closed(c));
  }
}
