/** Fairness of the round-robin picker, whose counter wraps at 2^64.

    The j-th delivery of a window that starts with counter `c0` goes to position
    `((c0 + j) mod WRAP) mod n` of the `n` open connections.
 */
module RoundRobin {
  import opened Arithmetic
  import opened Seqs
  import opened Registry

  function Pick(c0: nat, j: nat, n: nat): nat
    requires n > 0
  {
    ((c0 + j) % WRAP) % n
  }

  /** How many of the first `k` deliveries of the window go to position `p`. */
  function Share(c0: nat, k: nat, n: nat, p: nat): nat
    requires n > 0
  {
    if k == 0 then 0
    else Share(c0, k - 1, n, p) + (if Pick(c0, k - 1, n) == p then 1 else 0)
  }

  predicate Fair(k: nat, n: nat, share: nat)
    requires n > 0
  {
    k / n <= share <= (k + n - 1) / n
  }

  // ---------------------------------------------------------------- arithmetic

  lemma ModOfMultiple(x: nat, m: nat, n: nat)
    requires n > 0 && m > 0 && m % n == 0
    ensures (x % m) % n == x % n
  {
    var t, zero := Split(m, n);
    var q, r := Split(x, m);
    var u, v := Split(r, n);
    calc {
      x;
      q * (t * n) + (u * n + v);
      { assert q * (t * n) == (q * t) * n; Distribute(q * t, u, n); }
      (q * t + u) * n + v;
    }
    DivModUnique(x, n, q * t + u, v);
  }

  /** Residues `p` among 0, 1, .., m - 1. */
  function UpTo(m: nat, n: nat, p: nat): nat
    requires n > 0 && p < n
  {
    (m + (n - 1 - p)) / n
  }

  lemma UpToStep(m: nat, n: nat, p: nat)
    requires n > 0 && p < n
    ensures UpTo(m + 1, n, p) == UpTo(m, n, p) + (if m % n == p then 1 else 0)
  {
    var q, r := Split(m, n);
    Distribute(q, 1, n);
    if r < p {
      DivModUnique(m + (n - 1 - p), n, q, r + (n - 1 - p));
      DivModUnique(m + 1 + (n - 1 - p), n, q, r + (n - p));
    } else if r == p {
      DivModUnique(m + (n - 1 - p), n, q, n - 1);
      DivModUnique(m + 1 + (n - 1 - p), n, q + 1, 0);
    } else {
      DivModUnique(m + (n - 1 - p), n, q + 1, r - 1 - p);
      DivModUnique(m + 1 + (n - 1 - p), n, q + 1, r - p);
    }
  }

  /** Rounding up: k/n, plus one unless the division is exact. */
  lemma CeilDiv(k: nat, n: nat)
    requires n > 0
    ensures (k + n - 1) / n == k / n + (if k % n == 0 then 0 else 1)
  {
    var q, r := Split(k, n);
    Distribute(q, 1, n);
    if r == 0 {
      DivModUnique(k + n - 1, n, q, n - 1);
    } else {
      DivModUnique(k + n - 1, n, q + 1, r - 1);
    }
  }

  lemma WindowOfQuotients(a: nat, k: nat, n: nat)
    requires n > 0
    ensures k / n <= (a + k) / n - a / n <= (k + n - 1) / n
  {
    CeilDiv(k, n);
    var qa, ra := Split(a, n);
    var qk, rk := Split(k, n);
    Distribute(qa, qk, n);
    Distribute(qa + qk, 1, n);
    if ra + rk < n {
      DivModUnique(a + k, n, qa + qk, ra + rk);
    } else {
      DivModUnique(a + k, n, qa + qk + 1, ra + rk - n);
    }
  }

  // ---------------------------------------------------------------- fairness

  /** The window reads the counter as if it did not wrap. */
  predicate Regular(c0: nat, k: nat, n: nat)
    requires n > 0
  {
    c0 + k <= WRAP || WRAP % n == 0
  }

  lemma RegularPick(c0: nat, j: nat, k: nat, n: nat)
    requires n > 0 && j < k && Regular(c0, k, n)
    ensures Pick(c0, j, n) == (c0 + j) % n
  {
    if c0 + k > WRAP {
      ModOfMultiple(c0 + j, WRAP, n);
    }
  }

  lemma {:induction false} ShareIsCount(c0: nat, k: nat, k': nat, n: nat, p: nat)
    requires n > 0 && p < n && k <= k' && Regular(c0, k', n)
    ensures Share(c0, k, n, p) == UpTo(c0 + k, n, p) - UpTo(c0, n, p)
  {
    if k > 0 {
      ShareIsCount(c0, k - 1, k', n, p);
      RegularPick(c0, k - 1, k', n);
      UpToStep(c0 + (k - 1), n, p);
    }
  }

  /** Each position's share of any `k` consecutive deliveries is k/n rounded down or up,
      if the counter does not wrap inside the window or `n` divides 2^64. */
  lemma FairWindow(c0: nat, k: nat, n: nat, p: nat)
    requires n > 0 && p < n && Regular(c0, k, n)
    ensures Fair(k, n, Share(c0, k, n, p))
  {
    ShareIsCount(c0, k, k, n, p);
    WindowOfQuotients(c0 + (n - 1 - p), k, n);
    assert c0 + k + (n - 1 - p) == c0 + (n - 1 - p) + k;
  }

  lemma {:induction false} ShareMonotone(c0: nat, k: nat, k': nat, n: nat, p: nat)
    requires n > 0 && k <= k'
    ensures Share(c0, k, n, p) <= Share(c0, k', n, p)
    decreases k'
  {
    if k < k' { ShareMonotone(c0, k, k' - 1, n, p); }
  }

  /** If `n` does not divide 2^64, the window that ends just past the wrap serves the first
      position twice within `n` deliveries. */
  lemma UnfairAcrossWrap(n: nat)
    requires n > 0 && WRAP % n != 0
    ensures var r := WRAP % n; r <= WRAP && !Fair(r + 1, n, Share(WRAP - r, r + 1, n, 0))
  {
    var q, r := Split(WRAP, n);
    MulBound(q, n);
    var c0 := WRAP - r;
    DivModUnique(c0, n, q, 0);
    assert Pick(c0, 0, n) == 0 by { assert c0 % WRAP == c0; }
    assert Pick(c0, r, n) == 0 by { assert (c0 + r) % WRAP == 0; DivModUnique(0, n, 0, 0); }
    assert Share(c0, 1, n, 0) == Share(c0, 0, n, 0) + 1;
    ShareMonotone(c0, 1, r, n, 0);
    CeilDiv(r + 1, n);
    if r + 1 == n { DivModUnique(r + 1, n, 1, 0); } else { DivModUnique(r + 1, n, 0, r + 1); }
  }

  /** The picker is fair on every window, wrapping ones included, exactly when the number of
      open connections divides 2^64. */
  lemma FairOnEveryWindowIff(n: nat)
    requires n > 0
    ensures (forall c0: nat, k: nat, p: nat :: c0 < WRAP && p < n ==> Fair(k, n, Share(c0, k, n, p))) <==> WRAP % n == 0
  {
    if WRAP % n == 0 {
      forall c0: nat, k: nat, p: nat | c0 < WRAP && p < n ensures Fair(k, n, Share(c0, k, n, p)) {
        FairWindow(c0, k, n, p);
      }
    } else {
      UnfairAcrossWrap(n);
      var r := WRAP % n;
      assert !Fair(r + 1, n, Share(WRAP - r, r + 1, n, 0));
    }
  }

  lemma WrapIsPow2()
    ensures Pow2(64) == WRAP
  {
    assert Pow2(8) == 256 by { assert Pow2(4) == 16; }
    Pow2Add(8, 8);
    Pow2Add(16, 16);
    Pow2Add(32, 32);
  }

  lemma PowersOfTwoDivideWrap(e: nat)
    requires e <= 64
    ensures Pow2(e) > 0 && WRAP % Pow2(e) == 0
  {
    WrapIsPow2();
    Pow2Add(e, 64 - e);
    Pow2Add(64 - e, e);
    DivModUnique(WRAP, Pow2(e), Pow2(64 - e), 0);
  }

  // ---------------------------------------------------------------- in the registry

  lemma NextCounter(c: nat)
    ensures (c % WRAP + 1) % WRAP == (c + 1) % WRAP
  {
    SuccMod(c, WRAP);
    assert c % WRAP == WRAP - 1 ==> WRAP % WRAP == 0;
  }

  function CounterAt(c: nat, j: nat): nat {
    if j == 0 then c else (CounterAt(c, j - 1) + 1) % WRAP
  }

  lemma {:induction false} CounterAtClosedForm(c: nat, j: nat)
    requires c < WRAP
    ensures CounterAt(c, j) == (c + j) % WRAP
  {
    if j > 0 {
      CounterAtClosedForm(c, j - 1);
      NextCounter(c + (j - 1));
    }
  }

  lemma PickOfCounter(c: nat, j: nat, n: nat)
    requires c < WRAP && n > 0
    ensures Pick(c, j, n) == CounterAt(c, j) % n && Pick(c, j, n) < n
  {
    CounterAtClosedForm(c, j);
  }

  /** Throughout a run the open connections of `uid` are `conns`. */
  ghost predicate Steady(pol: Policy, s: State, es: seq<Event>, uid: Uid, conns: seq<ConnId>) {
    forall i :: 0 <= i <= |es| ==> OpenConns(Exec(pol, s, es[..i]), uid) == conns
  }

  /** The deliveries to `uid` in a run, whatever else happens between them. */
  function DeliveriesTo(es: seq<Event>, uid: Uid): nat {
    if es == [] then 0
    else DeliveriesTo(es[..|es| - 1], uid) + (if es[|es| - 1] == Routed(uid) then 1 else 0)
  }

  /** Those of them that went to connection `c`. */
  function Received(pol: Policy, s: State, es: seq<Event>, uid: Uid, c: ConnId): nat {
    if es == [] then 0
    else
      var init := es[..|es| - 1];
      Received(pol, s, init, uid, c)
      + (if es[|es| - 1] == Routed(uid) && c in Recipients(pol, Exec(pol, s, init), uid) then 1 else 0)
  }

  /** A step that leaves a user's open connections as they are leaves the mode, and moves the
      counter only if it is a delivery to that user. */
  lemma SteadyStep(pol: Policy, s: State, e: Event, uid: Uid)
    requires OpenConns(s, uid) != [] && OpenConns(Step(pol, s, e), uid) == OpenConns(s, uid)
    ensures var r := Step(pol, s, e);
            && ModeOf(r, uid) == ModeOf(s, uid)
            && Counter(r, uid) == if e == Routed(uid) && ModeOf(s, uid) == RoundRobin
                                  then (Counter(s, uid) + 1) % WRAP else Counter(s, uid)
  {
    match e {
      case LoggedIn(c, u, wanted, now) => LoginKeepsOnline(pol, s, c, u, wanted, now, uid);
      case Removed(c) => RemovalKeepsOnline(s, c, uid);
      case _ =>
    }
  }

  lemma LoginKeepsOnline(pol: Policy, s: State, c: ConnId, u: Uid, wanted: RecvMode, now: int, uid: Uid)
    requires Deque(s, uid) != []
    ensures var r := Login(pol, s, c, u, wanted, now);
            ModeOf(r, uid) == ModeOf(s, uid) && Counter(r, uid) == Counter(s, uid)
  {
  }

  lemma RemovalKeepsOnline(s: State, c: ConnId, uid: Uid)
    requires Deque(Remove(s, c), uid) != []
    ensures var r := Remove(s, c); ModeOf(r, uid) == ModeOf(s, uid) && Counter(r, uid) == Counter(s, uid)
  {
  }

  lemma SteadyPrefix(pol: Policy, s: State, es: seq<Event>, uid: Uid, conns: seq<ConnId>)
    requires es != [] && Steady(pol, s, es, uid, conns)
    ensures Steady(pol, s, es[..|es| - 1], uid, conns)
    ensures OpenConns(Exec(pol, s, es[..|es| - 1]), uid) == OpenConns(Exec(pol, s, es), uid) == conns
  {
    var init := es[..|es| - 1];
    assert forall i :: 0 <= i <= |init| ==> init[..i] == es[..i];
    assert es[..|es|] == es && es[..|init|] == init;
  }

  /** Every interleaving: the mode stays, and the counter has moved by the deliveries to the
      user and nothing else. */
  lemma CounterInWindow(pol: Policy, s: State, es: seq<Event>, uid: Uid, conns: seq<ConnId>)
    requires conns != [] && Steady(pol, s, es, uid, conns) && ModeOf(s, uid) == RoundRobin
    ensures var t := Exec(pol, s, es);
            && ModeOf(t, uid) == RoundRobin && OpenConns(t, uid) == conns
            && Counter(t, uid) == CounterAt(Counter(s, uid), DeliveriesTo(es, uid))
  {
    CounterMoves(pol, s, es, uid, conns);
    assert es[..|es|] == es;
    assert OpenConns(Exec(pol, s, es[..|es|]), uid) == conns;
  }

  lemma {:induction false} CounterMoves(pol: Policy, s: State, es: seq<Event>, uid: Uid, conns: seq<ConnId>)
    requires conns != [] && Steady(pol, s, es, uid, conns) && ModeOf(s, uid) == RoundRobin
    ensures ModeOf(Exec(pol, s, es), uid) == RoundRobin
    ensures Counter(Exec(pol, s, es), uid) == CounterAt(Counter(s, uid), DeliveriesTo(es, uid))
  {
    if es != [] {
      var init := es[..|es| - 1];
      SteadyPrefix(pol, s, es, uid, conns);
      CounterMoves(pol, s, init, uid, conns);
      CounterFollows(pol, s, es, uid, Counter(s, uid));
    }
  }

  lemma CounterFollows(pol: Policy, s: State, es: seq<Event>, uid: Uid, c0: nat)
    requires es != []
    requires var t := Exec(pol, s, es[..|es| - 1]);
             && OpenConns(t, uid) != [] && ModeOf(t, uid) == RoundRobin
             && OpenConns(Exec(pol, s, es), uid) == OpenConns(t, uid)
             && Counter(t, uid) == CounterAt(c0, DeliveriesTo(es[..|es| - 1], uid))
    ensures ModeOf(Exec(pol, s, es), uid) == RoundRobin
    ensures Counter(Exec(pol, s, es), uid) == CounterAt(c0, DeliveriesTo(es, uid))
  {
    var init := es[..|es| - 1];
    LastMove(pol, s, es, uid);
    MoveOnce(c0, DeliveriesTo(init, uid), DeliveriesTo(es, uid), Counter(Exec(pol, s, es), uid));
  }

  lemma MoveOnce(c0: nat, k: nat, k': nat, c: nat)
    requires if k' == k then c == CounterAt(c0, k) else k' == k + 1 && c == (CounterAt(c0, k) + 1) % WRAP
    ensures c == CounterAt(c0, k')
  {
  }

  lemma LastMove(pol: Policy, s: State, es: seq<Event>, uid: Uid)
    requires es != []
    requires var t := Exec(pol, s, es[..|es| - 1]);
             OpenConns(t, uid) != [] && ModeOf(t, uid) == RoundRobin
             && OpenConns(Exec(pol, s, es), uid) == OpenConns(t, uid)
    ensures var init := es[..|es| - 1]; var t, r := Exec(pol, s, init), Exec(pol, s, es);
            && ModeOf(r, uid) == RoundRobin
            && (if DeliveriesTo(es, uid) == DeliveriesTo(init, uid) then Counter(r, uid) == Counter(t, uid)
                else DeliveriesTo(es, uid) == DeliveriesTo(init, uid) + 1
                     && Counter(r, uid) == (Counter(t, uid) + 1) % WRAP)
  {
    SteadyStep(pol, Exec(pol, s, es[..|es| - 1]), es[|es| - 1], uid);
  }

  lemma RoundRobinRecipient(pol: Policy, s: State, uid: Uid, conns: seq<ConnId>)
    requires conns != [] && OpenConns(s, uid) == conns && ModeOf(s, uid) == RoundRobin
    ensures Recipients(pol, s, uid) == [conns[Counter(s, uid) % |conns|]]
  {
  }

  /** After any run in which a round-robin user's open connections stay the same, the next
      delivery goes where the wrapped counter, moved by the deliveries so far, points. */
  lemma DeliveryFollowsPick(pol: Policy, s: State, es: seq<Event>, uid: Uid, conns: seq<ConnId>)
    requires conns != [] && Steady(pol, s, es, uid, conns) && ModeOf(s, uid) == RoundRobin && Counter(s, uid) < WRAP
    ensures var q := Pick(Counter(s, uid), DeliveriesTo(es, uid), |conns|);
            q < |conns| && Recipients(pol, Exec(pol, s, es), uid) == [conns[q]]
  {
    PickOfCounter(Counter(s, uid), DeliveriesTo(es, uid), |conns|);
    CounterInWindow(pol, s, es, uid, conns);
    RoundRobinRecipient(pol, Exec(pol, s, es), uid, conns);
  }

  lemma OneMoreShare(c0: nat, k: nat, n: nat, p: nat)
    requires n > 0
    ensures Share(c0, k + 1, n, p) == Share(c0, k, n, p) + (if Pick(c0, k, n) == p then 1 else 0)
  {
  }

  lemma OneMoreEvent(pol: Policy, s: State, es: seq<Event>, uid: Uid, conns: seq<ConnId>, p: nat) returns (inc: nat)
    requires es != [] && ModeOf(s, uid) == RoundRobin && Counter(s, uid) < WRAP
    requires NoDup(conns) && p < |conns| && Steady(pol, s, es[..|es| - 1], uid, conns)
    ensures var init := es[..|es| - 1];
            var c0, n := Counter(s, uid), |conns|;
            && Received(pol, s, es, uid, conns[p]) == Received(pol, s, init, uid, conns[p]) + inc
            && Share(c0, DeliveriesTo(es, uid), n, p) == Share(c0, DeliveriesTo(init, uid), n, p) + inc
  {
    var init := es[..|es| - 1];
    inc := 0;
    if es[|es| - 1] == Routed(uid) {
      var q := Pick(Counter(s, uid), DeliveriesTo(init, uid), |conns|);
      DeliveryFollowsPick(pol, s, init, uid, conns);
      OneMoreShare(Counter(s, uid), DeliveriesTo(init, uid), |conns|, p);
      assert conns[p] in [conns[q]] <==> p == q;
      inc := if p == q then 1 else 0;
    }
  }

  lemma {:induction false} ReceivedIsShare(pol: Policy, s: State, es: seq<Event>, uid: Uid, conns: seq<ConnId>, p: nat)
    requires ModeOf(s, uid) == RoundRobin && Counter(s, uid) < WRAP
    requires NoDup(conns) && p < |conns| && Steady(pol, s, es, uid, conns)
    ensures Received(pol, s, es, uid, conns[p]) == Share(Counter(s, uid), DeliveriesTo(es, uid), |conns|, p)
  {
    if es != [] {
      SteadyPrefix(pol, s, es, uid, conns);
      ReceivedIsShare(pol, s, es[..|es| - 1], uid, conns, p);
      var inc := OneMoreEvent(pol, s, es, uid, conns, p);
    }
  }

  /** Round-robin fairness over runs.  After any run, over any further run in which a user's
      `n` open connections stay the same, whatever else the server does meanwhile: of the `k`
      deliveries to the user each of them receives k/n rounded down or up, unless the counter
      wraps in between and `n` does not divide 2^64. */
  lemma RoundRobinFair(pol: Policy, before: seq<Event>, during: seq<Event>, uid: Uid, c: ConnId)
    requires PolicyOk(pol)
    requires var s := Exec(pol, Init(), before);
             && ModeOf(s, uid) == RoundRobin && c in OpenConns(s, uid)
             && Steady(pol, s, during, uid, OpenConns(s, uid))
             && Regular(Counter(s, uid), DeliveriesTo(during, uid), |OpenConns(s, uid)|)
    ensures var s := Exec(pol, Init(), before);
            Fair(DeliveriesTo(during, uid), |OpenConns(s, uid)|, Received(pol, s, during, uid, c))
  {
    var s := Exec(pol, Init(), before);
    var conns := DistinctOpenConns(pol, before, uid);
    var p :| 0 <= p < |conns| && conns[p] == c;
    ReceivedIsShare(pol, s, during, uid, conns, p);
    FairWindow(Counter(s, uid), DeliveriesTo(during, uid), |conns|, p);
  }

  lemma DistinctOpenConns(pol: Policy, es: seq<Event>, uid: Uid) returns (conns: seq<ConnId>)
    requires PolicyOk(pol)
    ensures var s := Exec(pol, Init(), es); conns == OpenConns(s, uid) && NoDup(conns) && Counter(s, uid) < WRAP
  {
    var s := Exec(pol, Init(), es);
    ReachableInv(pol, es);
    assert Deque(s, uid) == Surviving(s, uid);
    DequeMembers(s, uid);
    SelNoDup(Deque(s, uid), s.open);
    conns := OpenConns(s, uid);
  }

  // ---------------------------------------------------------------- unfair runs

  /** `k` deliveries to `uid` and nothing else. */
  function Deliveries(uid: Uid, k: nat): (es: seq<Event>)
    ensures |es| == k
  {
    if k == 0 then [] else Deliveries(uid, k - 1) + [Routed(uid)]
  }

  lemma {:induction false} DeliveriesPrefix(uid: Uid, k: nat, i: nat)
    requires i <= k
    ensures Deliveries(uid, k)[..i] == Deliveries(uid, i)
  {
    if i < k {
      DeliveriesPrefix(uid, k - 1, i);
      assert Deliveries(uid, k)[..i] == Deliveries(uid, k - 1)[..i];
    }
  }

  lemma DeliveryKeepsConns(s: State, uid: Uid)
    ensures OpenConns(Route(s, uid), uid) == OpenConns(s, uid)
  {
  }

  /** The state after `k` of them. */
  function Served(s: State, uid: Uid, k: nat): State {
    if k == 0 then s else Route(Served(s, uid, k - 1), uid)
  }

  lemma {:induction false} ServedKeepsConns(s: State, uid: Uid, k: nat)
    ensures OpenConns(Served(s, uid, k), uid) == OpenConns(s, uid)
  {
    if k > 0 {
      ServedKeepsConns(s, uid, k - 1);
      DeliveryKeepsConns(Served(s, uid, k - 1), uid);
    }
  }

  lemma {:induction false} DeliveriesServe(pol: Policy, s: State, uid: Uid, k: nat)
    ensures Exec(pol, s, Deliveries(uid, k)) == Served(s, uid, k)
  {
    if k > 0 {
      DeliveriesPrefix(uid, k, k - 1);
      DeliveriesServe(pol, s, uid, k - 1);
      assert Deliveries(uid, k)[k - 1] == Routed(uid);
    }
  }

  lemma DeliveriesKeepConns(pol: Policy, s: State, uid: Uid, k: nat)
    ensures OpenConns(Exec(pol, s, Deliveries(uid, k)), uid) == OpenConns(s, uid)
  {
    DeliveriesServe(pol, s, uid, k);
    ServedKeepsConns(s, uid, k);
  }

  lemma {:induction false} DeliveriesCounted(uid: Uid, k: nat)
    ensures DeliveriesTo(Deliveries(uid, k), uid) == k
  {
    if k > 0 {
      DeliveriesPrefix(uid, k, k - 1);
      DeliveriesCounted(uid, k - 1);
    }
  }

  lemma DeliveriesSteady(pol: Policy, s: State, uid: Uid, k: nat)
    ensures Steady(pol, s, Deliveries(uid, k), uid, OpenConns(s, uid))
    ensures DeliveriesTo(Deliveries(uid, k), uid) == k
  {
    forall i | 0 <= i <= k ensures OpenConns(Exec(pol, s, Deliveries(uid, k)[..i]), uid) == OpenConns(s, uid) {
      DeliveriesPrefix(uid, k, i);
      DeliveriesKeepConns(pol, s, uid, i);
    }
    DeliveriesCounted(uid, k);
  }

  /** The number of deliveries that bring the counter from `c0` to `c`. */
  lemma Gap(c0: nat, c: nat) returns (k: nat)
    requires c0 < WRAP && c < WRAP
    ensures CounterAt(c0, k) == c
  {
    k := if c0 <= c then c - c0 else WRAP - c0 + c;
    CounterAtClosedForm(c0, k);
    DivModUnique(c0 + k, WRAP, if c0 <= c then 0 else 1, c);
  }

  /** From any state with a round-robin user online there is a run of deliveries after which a
      further one of `r` + 1, over the wrap, is unfair. */
  lemma UnfairFrom(pol: Policy, s: State, uid: Uid) returns (further: seq<Event>, during: seq<Event>)
    requires ModeOf(s, uid) == RoundRobin && OpenConns(s, uid) != [] && Counter(s, uid) < WRAP
    requires NoDup(OpenConns(s, uid)) && WRAP % |OpenConns(s, uid)| != 0
    ensures var conns := OpenConns(s, uid); var t := Exec(pol, s, further);
            && Steady(pol, s, further, uid, conns) && Steady(pol, t, during, uid, conns)
            && !Fair(DeliveriesTo(during, uid), |conns|, Received(pol, t, during, uid, conns[0]))
  {
    var conns := OpenConns(s, uid);
    var n := |conns|;
    var r := WRAP % n;
    UnfairAcrossWrap(n);
    var k := Gap(Counter(s, uid), WRAP - r);
    further, during := Deliveries(uid, k), Deliveries(uid, r + 1);
    DeliveriesSteady(pol, s, uid, k);
    CounterInWindow(pol, s, further, uid, conns);
    var t := Exec(pol, s, further);
    DeliveriesSteady(pol, t, uid, r + 1);
    ReceivedIsShare(pol, t, during, uid, conns, 0);
  }

  lemma {:induction false} ExecConcat(pol: Policy, s: State, a: seq<Event>, b: seq<Event>)
    ensures Exec(pol, s, a + b) == Exec(pol, Exec(pol, s, a), b)
  {
    if b == [] {
      assert a + b == a;
    } else {
      var n := |b| - 1;
      ExecConcat(pol, s, a, b[..n]);
      assert (a + b)[..|a + b| - 1] == a + b[..n];
    }
  }

  /** Whatever the server did before, a round-robin user with `n` open connections is served
      fairly over every further stretch of every run in which they stay the same, if and only
      if `n` divides 2^64. */
  lemma RoundRobinFairOnEveryRunIff(pol: Policy, before: seq<Event>, uid: Uid)
    requires PolicyOk(pol)
    requires var s := Exec(pol, Init(), before); ModeOf(s, uid) == RoundRobin && OpenConns(s, uid) != []
    ensures var s := Exec(pol, Init(), before); var conns := OpenConns(s, uid);
            (forall further, during, c ::
               && c in conns && Steady(pol, s, further, uid, conns)
               && Steady(pol, Exec(pol, s, further), during, uid, conns) ==>
                 Fair(DeliveriesTo(during, uid), |conns|, Received(pol, Exec(pol, s, further), during, uid, c)))
            <==> WRAP % |conns| == 0
  {
    var s := Exec(pol, Init(), before);
    var conns := DistinctOpenConns(pol, before, uid);
    if WRAP % |conns| == 0 {
      forall further, during, c |
        && c in conns && Steady(pol, s, further, uid, conns)
        && Steady(pol, Exec(pol, s, further), during, uid, conns)
        ensures Fair(DeliveriesTo(during, uid), |conns|, Received(pol, Exec(pol, s, further), during, uid, c))
      {
        ExecConcat(pol, Init(), before, further);
        CounterInWindow(pol, s, further, uid, conns);
        RoundRobinFair(pol, before + further, during, uid, c);
      }
    } else {
      var further, during := UnfairFrom(pol, s, uid);
      assert conns[0] in conns;
    }
  }
}
