/** The relay server's registry object: each method is one region that holds the mutex,
    with the source's loops, proved to take the registry's steps. */
module RelayServers {
  import opened Seqs
  import opened Registry

  lemma EraseUnfolds(xs: seq<ConnId>, i: nat, c: ConnId)
    requires i < |xs|
    ensures xs[i] == c ==> EraseFirst(xs[i..], c) == xs[i + 1..]
    ensures xs[i] != c ==> xs[..i] + EraseFirst(xs[i..], c) == xs[..i + 1] + EraseFirst(xs[i + 1..], c)
  {
    assert xs[i..][1..] == xs[i + 1..];
    assert xs[..i] + [xs[i]] == xs[..i + 1];
  }

  /** The search loop that erases one element and stops. */
  method EraseSession(xs: seq<ConnId>, c: ConnId) returns (ys: seq<ConnId>)
    ensures ys == EraseFirst(xs, c)
  {
    var i := 0;
    while i < |xs|
      invariant 0 <= i <= |xs|
      invariant EraseFirst(xs, c) == xs[..i] + EraseFirst(xs[i..], c)
    {
      EraseUnfolds(xs, i, c);
      if xs[i] == c {
        ys := xs[..i] + xs[i + 1..];
        return;
      }
      i := i + 1;
    }
    ys := xs;
  }

  /** The loop that collects the open sessions of a list. */
  method CollectOpen(xs: seq<ConnId>, open: set<ConnId>) returns (out: seq<ConnId>)
    ensures out == Sel(xs, open)
  {
    out := [];
    for i := 0 to |xs|
      invariant out == Sel(xs[..i], open)
    {
      SelSnoc(xs[..i], xs[i], open);
      assert xs[..i + 1] == xs[..i] + [xs[i]];
      if xs[i] in open { out := out + [xs[i]]; }
    }
    assert xs[..|xs|] == xs;
  }

  /** The broadcast loop: the first sessions, up to the cap. */
  method UpToCap(conns: seq<ConnId>, cap: nat) returns (sent: seq<ConnId>)
    ensures sent == if |conns| <= cap then conns else conns[..cap]
  {
    sent := [];
    var i := 0;
    while i < |conns| && |sent| < cap
      invariant 0 <= i <= |conns| && sent == conns[..i] && i <= cap
    {
      sent := sent + [conns[i]];
      i := i + 1;
    }
    assert conns[..|conns|] == conns;
  }

  /** The eviction loop: pop the oldest until the limit holds. */
  method EvictOverflow(pol: Policy, full: seq<ConnId>) returns (victims: seq<ConnId>, dq: seq<ConnId>)
    ensures victims == full[..Overflow(pol, full)] && dq == full[Overflow(pol, full)..]
  {
    victims, dq := [], full;
    while |dq| > pol.maxConns
      invariant full == victims + dq
      invariant |victims| <= Overflow(pol, full)
    {
      victims := victims + [dq[0]];
      dq := dq[1..];
    }
  }

  lemma NextSurvivor(was: seq<ConnId>, i: nat, all: seq<ConnId>, alive: nat, open: set<ConnId>)
    requires alive <= i < |was| == |all| && all[..alive] == Sel(was[..i], open) && all[i..] == was[i..]
    ensures all[i] == was[i] && all[alive := was[i]][i + 1..] == was[i + 1..] == all[i + 1..]
    ensures was[i] in open ==> all[alive := was[i]][..alive + 1] == Sel(was[..i + 1], open)
    ensures was[i] !in open ==> all[..alive] == Sel(was[..i + 1], open)
  {
    assert was[..i + 1] == was[..i] + [was[i]];
    SelSnoc(was[..i], was[i], open);
    assert all[alive := was[i]][..alive + 1] == all[..alive] + [was[i]];
    assert all[i..][0] == was[i..][0] && all[i + 1..] == all[i..][1..] && was[i + 1..] == was[i..][1..];
  }

  /** The totals that the snapshot reports beside the number of open sessions. */
  datatype Totals = Totals(loggedIn: nat, users: set<Uid>, pendingBytes: nat)

  function UsersOf(xs: seq<ConnId>, uidOf: map<ConnId, Uid>): set<Uid> {
    set c | c in xs && c in uidOf :: uidOf[c]
  }

  function PendingOf(xs: seq<ConnId>, pending: map<ConnId, nat>): nat {
    if xs == [] then 0
    else
      var c := xs[|xs| - 1];
      PendingOf(xs[..|xs| - 1], pending) + (if c in pending then pending[c] else 0)
  }

  function TotalsOf(xs: seq<ConnId>, uidOf: map<ConnId, Uid>, pending: map<ConnId, nat>): Totals {
    Totals(|Sel(xs, uidOf.Keys)|, UsersOf(xs, uidOf), PendingOf(xs, pending))
  }

  function Counted(t: Totals, c: ConnId, uidOf: map<ConnId, Uid>, pending: map<ConnId, nat>): Totals {
    var bytes := t.pendingBytes + (if c in pending then pending[c] else 0);
    if c in uidOf then Totals(t.loggedIn + 1, t.users + {uidOf[c]}, bytes) else t.(pendingBytes := bytes)
  }

  lemma CountOne(xs: seq<ConnId>, c: ConnId, uidOf: map<ConnId, Uid>, pending: map<ConnId, nat>)
    ensures TotalsOf(xs + [c], uidOf, pending) == Counted(TotalsOf(xs, uidOf, pending), c, uidOf, pending)
  {
    SelSnoc(xs, c, uidOf.Keys);
    assert (xs + [c])[..|xs|] == xs;
    assert forall d :: d in xs + [c] <==> d in xs || d == c;
    assert UsersOf(xs + [c], uidOf) == UsersOf(xs, uidOf) + (if c in uidOf then {uidOf[c]} else {});
  }

  /** After `i` members of `was`: the `alive` found open stand at the left of `all`, counted, and
      the rest of it is as it was. */
  ghost predicate Compacted(was: seq<ConnId>, i: nat, all: seq<ConnId>, alive: nat, totals: Totals,
                            open: set<ConnId>, uidOf: map<ConnId, Uid>, pending: map<ConnId, nat>)
  {
    && alive <= i <= |was| == |all| && all[..alive] == Sel(was[..i], open) && all[i..] == was[i..]
    && totals == TotalsOf(all[..alive], uidOf, pending)
  }

  lemma CompactOne(was: seq<ConnId>, i: nat, all: seq<ConnId>, alive: nat, totals: Totals,
                   open: set<ConnId>, uidOf: map<ConnId, Uid>, pending: map<ConnId, nat>)
    requires i < |was| && Compacted(was, i, all, alive, totals, open, uidOf, pending)
    ensures all[i] == was[i]
    ensures was[i] in open ==>
              Compacted(was, i + 1, all[alive := was[i]], alive + 1, Counted(totals, was[i], uidOf, pending),
                        open, uidOf, pending)
    ensures was[i] !in open ==> Compacted(was, i + 1, all, alive, totals, open, uidOf, pending)
  {
    NextSurvivor(was, i, all, alive, open);
    CountOne(all[..alive], was[i], uidOf, pending);
    assert all[alive := was[i]][..alive + 1] == all[..alive] + [was[i]];
  }

  /** The in-place compaction loop of the statistics snapshot: `all` is overwritten from the
      left while it is read, then cut to the sessions found alive, which are counted on the
      way. */
  method CompactOpen(was: seq<ConnId>, open: set<ConnId>, uidOf: map<ConnId, Uid>, pending: map<ConnId, nat>)
    returns (all: seq<ConnId>, alive: nat, totals: Totals)
    ensures all == Sel(was, open) && alive == |all| && totals == TotalsOf(all, uidOf, pending)
  {
    all, alive := was, 0;
    totals := Totals(0, {}, 0);
    assert Sel([], uidOf.Keys) == [] && PendingOf([], pending) == 0;
    for i := 0 to |was|
      invariant Compacted(was, i, all, alive, totals, open, uidOf, pending)
    {
      var sess := all[i];
      CompactOne(was, i, all, alive, totals, open, uidOf, pending);
      if sess in open {
        totals := Counted(totals, sess, uidOf, pending);
        all := all[alive := sess];
        alive := alive + 1;
      }
    }
    assert was[..|was|] == was;
    all := all[..alive];
  }

  class RelayServer {
    const pol: Policy

    var nextConnId: nat
    var all: seq<ConnId>
    var byId: set<ConnId>
    var userDeque: map<Uid, seq<ConnId>>
    var userRecvMode: map<Uid, RecvMode>
    var rrNextIndex: map<Uid, nat>

    // fields of the session objects
    var uidOf: map<ConnId, Uid>
    var open: set<ConnId>
    var lastHb: map<ConnId, int>

    ghost var logins: seq<LoginRecord>
    ghost var evicted: set<ConnId>

    ghost function View(): State
      reads this
    {
      State(nextConnId, all, byId, userDeque, userRecvMode, rrNextIndex, uidOf, open, lastHb, logins, evicted)
    }

    constructor (pol: Policy)
      ensures this.pol == pol && View() == Init()
    {
      this.pol := pol;
      nextConnId, all, byId := 0, [], {};
      userDeque, userRecvMode, rrNextIndex := map[], map[], map[];
      uidOf, open, lastHb := map[], {}, map[];
      logins, evicted := [], {};
    }

    method AcceptClient() returns (id: ConnId)
      modifies this
      ensures View() == Accept(old(View())) && id == nextConnId
    {
      nextConnId := nextConnId + 1;
      id := nextConnId;
      byId := byId + {id};
      open := open + {id};
      all := all + [id];
    }

    /** The locked part of `try_authenticate`: who must be told to leave, the mode in force,
        and whether it differs from the one asked for. */
    method RegisterLogin(self: ConnId, uid: Uid, wanted: RecvMode, now: int)
      returns (effective: RecvMode, notice: bool, victims: seq<ConnId>)
      requires MayLogin(View(), self)
      modifies this
      ensures View() == Login(pol, old(View()), self, uid, wanted, now)
      ensures logins[|old(logins)|] == LoginRecord(self, uid, wanted, effective, notice, victims)
    {
      var noOther := uid !in userDeque || userDeque[uid] == [];
      if noOther {
        effective := wanted;
        notice := false;
      } else {
        effective := if uid in userRecvMode then userRecvMode[uid] else Broadcast;
        notice := effective != wanted;
      }
      userRecvMode := userRecvMode[uid := effective];
      var dq := if uid in userDeque then userDeque[uid] else [];
      victims, dq := EvictOverflow(pol, dq + [self]);
      userDeque := userDeque[uid := dq];
      uidOf := uidOf[self := uid];
      lastHb := lastHb[self := now];
      logins := logins + [LoginRecord(self, uid, wanted, effective, notice, victims)];
      evicted := evicted + Elems(victims);
    }

    method RemoveSession(s: ConnId)
      modifies this
      ensures View() == Remove(old(View()), s)
    {
      byId := byId - {s};
      all := EraseSession(all, s);
      if s in uidOf {
        var uid := uidOf[s];
        if uid in userDeque {
          var dq := EraseSession(userDeque[uid], s);
          if dq == [] {
            userDeque := userDeque - {uid};
            userRecvMode := userRecvMode - {uid};
            rrNextIndex := rrNextIndex - {uid};
          } else {
            userDeque := userDeque[uid := dq];
          }
        }
      }
    }

    /** Counts the open sessions and compacts `all`; `pending` holds what the sessions report. */
    method SnapshotStats(pending: map<ConnId, nat>)
      returns (alive: nat, loggedIn: nat, uniqueUsers: nat, pendingBytes: nat)
      modifies this`all
      ensures View() == Compact(old(View())) && alive == |all|
      ensures loggedIn == |Sel(all, uidOf.Keys)| && uniqueUsers == |UsersOf(all, uidOf)|
      ensures pendingBytes == PendingOf(all, pending)
    {
      var totals;
      all, alive, totals := CompactOpen(all, open, uidOf, pending);
      return alive, totals.loggedIn, |totals.users|, totals.pendingBytes;
    }

    /** The routing part of `deliver_to_user_by_recv_mode`: the sessions a frame is posted to,
        in posting order. */
    method DeliverToUser(uid: Uid) returns (sent: seq<ConnId>)
      modifies this`rrNextIndex
      ensures View() == Route(old(View()), uid)
      ensures sent == Recipients(pol, old(View()), uid)
    {
      sent := [];
      if uid !in userDeque || userDeque[uid] == [] { return; }
      var mode := if uid in userRecvMode then userRecvMode[uid] else Broadcast;
      var conns := CollectOpen(userDeque[uid], open);
      if conns == [] { return; }
      if mode == Broadcast {
        sent := UpToCap(conns, pol.cap);
      } else {
        var cur := if uid in rrNextIndex then rrNextIndex[uid] else 0;
        var pick := cur % |conns|;
        rrNextIndex := rrNextIndex[uid := (cur + 1) % WRAP];
        sent := [conns[pick]];
      }
    }

    /** One sweep over a copy of `all`: the sessions that get a kick, in order.  `seen[i]` is the
        state in which the fields of the i-th are read. */
    method CheckHeartbeats(snap: seq<ConnId>, seen: seq<State>, now: int) returns (kicked: seq<ConnId>)
      requires |seen| == |snap|
      ensures kicked == Sweep(pol, snap, seen, now)
    {
      kicked := [];
      for i := 0 to |snap|
        invariant kicked == Sweep(pol, snap[..i], seen[..i], now)
      {
        var s, fields := snap[i], seen[i];
        assert snap[..i + 1][..i] == snap[..i] && seen[..i + 1][..i] == seen[..i];
        if s in fields.uidOf && s in fields.open && s in fields.lastHb && now - fields.lastHb[s] > pol.hbTimeout {
          kicked := kicked + [s];
        }
      }
      assert snap[..|snap|] == snap && seen[..|snap|] == seen;
    }
  }
}
