/** The relay and the user table together: the table and the name caches answer the handler's
    questions, and the handler's effects change the table.
 */
module Accounts {
  import opened Options
  import opened Wire
  import R = Registry
  import W = Routing
  import H = Handler
  import N = NameCache
  import Relay

  /** `tables`: the user table at each routing decision.  `seen`: the table as the handling of
      each frame began, after its login if it was one. */
  datatype State = State(relay: Relay.State, names: N.State, tables: seq<N.Table>, seen: seq<N.Table>)

  /** What remains open: the allowlist and other answers of the database in `answers`, the clock
      and messages in `given`, and at which statement the database fails, if at all. */
  datatype Event =
    | FrameRead(conn: R.ConnId, request: H.Request, answers: H.Answers)
    | Worked(conn: R.ConnId, given: Relay.Input, dbError: Option<N.Statement>, refused: bool)
    | Elsewhere(event: Relay.Event)

  function Init(names: N.State): State {
    State(Relay.Init(), names, [], [])
  }

  // ---------------------------------------------------------------- questions to the table

  function TextOr(m: seq<H.Entry>, key: string): string {
    match H.GetStr(m, key)
    case Some(s) => s
    case None => ""
  }

  /** The account that a LOGIN body claims. */
  function Claimed(m: seq<H.Entry>): N.Row {
    N.Row(TextOr(m, "username"), TextOr(m, "password"), H.GetStr(m, "peer_role") == Some("admin"))
  }

  /** Whether handling the frame asks the table to accept a login. */
  predicate AsksLogin(s: State, c: R.ConnId, q: H.Request, a: H.Answers) {
    && Relay.MayBegin(s.relay, c) && c !in s.relay.logins
    && q.msgType == H.LOGIN && q.body.Map? && H.LoginComplete(q.body.entries) && a.ipAllowed
  }

  /** The fields that an update asks for. */
  function ChangeOf(m: seq<H.Entry>): N.Change {
    N.Change(if H.HasKey(m, "username") then H.GetStr(m, "username") else None,
             if H.HasKey(m, "password") then H.GetStr(m, "password") else None,
             if H.HasKey(m, "is_admin") then Some(H.GetBool(m, "is_admin", false)) else None)
  }

  predicate Acts(s: State, c: R.ConnId) {
    Relay.Busy(s.relay, c) && s.relay.work[c].kicks == []
  }

  function BodyOf(s: State, c: R.ConnId): seq<H.Entry>
    requires Acts(s, c)
  {
    var body := s.relay.handled[s.relay.work[c].frame].request.body;
    if body.Map? then body.entries else []
  }

  /** The table's part in an effect. */
  function TableEvent(s: State, c: R.ConnId, dbError: Option<N.Statement>, refused: bool): Option<N.Event>
    requires Acts(s, c)
  {
    var m := BodyOf(s, c);
    match Relay.NextEffect(s.relay, c)
    case Route(dst, _, _) => Some(N.Resolved(dst))
    case AddUser(name) =>
      Some(N.Added(N.Row(name, TextOr(m, "password"), H.GetBool(m, "is_admin", false))))
    case UpdateUser(id) => Some(N.Updated(id, ChangeOf(m), dbError))
    case DeleteUser(id) => Some(N.Deleted(id, refused))
    case _ => None
  }

  /** The handler of the user table or the caches that an event runs. */
  function Asked(s: State, e: Event): Option<N.Event> {
    match e
    case FrameRead(c, q, a) => if AsksLogin(s, c, q, a) then Some(N.LoggedIn(Claimed(q.body.entries))) else None
    case Worked(c, _, dbError, refused) => if Acts(s, c) then TableEvent(s, c, dbError, refused) else None
    case Elsewhere(_) => None
  }

  ghost function AuthFor(names: N.State, login: N.Row): H.Auth {
    match N.Authenticate(names.table, names.nextId, login).2
    case Some(uid) => H.Granted(uid, login.isAdmin)
    case None => H.Refused
  }

  /** The relay's event, with the table's answers filled in. */
  ghost function Told(s: State, e: Event): Option<Relay.Event> {
    match e
    case FrameRead(c, q, a) =>
      Some(Relay.FrameRead(c, q, if AsksLogin(s, c, q, a) then a.(auth := AuthFor(s.names, Claimed(q.body.entries)))
                                 else a))
    case Worked(c, given, _, _) =>
      Some(Relay.Worked(c, if Acts(s, c) && Relay.NextEffect(s.relay, c).Route?
                           then given.(resolved := N.EnsureUid(s.names, Relay.NextEffect(s.relay, c).dst).1)
                           else given))
    case Elsewhere(ev) => if ev.FrameRead? || ev.Worked? then None else Some(ev)
  }

  ghost function RelayAfter(cfg: W.Config, s: State, e: Event): Relay.State {
    match Told(s, e)
    case None => s.relay
    case Some(ev) => Relay.Step(cfg, s.relay, ev)
  }

  ghost function NamesAfter(s: State, e: Event): N.State {
    match Asked(s, e)
    case None => s.names
    case Some(ev) => N.Step(s.names, ev)
  }

  ghost function Step(cfg: W.Config, s: State, e: Event): State {
    var relay, names := RelayAfter(cfg, s, e), NamesAfter(s, e);
    State(relay, names,
          if |relay.world.routed| > |s.relay.world.routed| then s.tables + [s.names.table] else s.tables,
          if |relay.handled| > |s.relay.handled| then s.seen + [names.table] else s.seen)
  }

  ghost function Exec(cfg: W.Config, names: N.State, es: seq<Event>): State {
    if es == [] then Init(names)
    else Step(cfg, Exec(cfg, names, es[..|es| - 1]), es[|es| - 1])
  }

  // ---------------------------------------------------------------- both parts go through their own runs

  lemma {:induction false} RelayHasItsRun(cfg: W.Config, names: N.State, es: seq<Event>) returns (rs: seq<Relay.Event>)
    ensures Relay.Exec(cfg, rs) == Exec(cfg, names, es).relay
    decreases |es|
  {
    if es == [] {
      rs := [];
    } else {
      var init := es[..|es| - 1];
      rs := RelayHasItsRun(cfg, names, init);
      var ev := Told(Exec(cfg, names, init), es[|es| - 1]);
      if ev.Some? {
        assert (rs + [ev.value])[..|rs|] == rs;
        rs := rs + [ev.value];
      }
    }
  }

  /** No update of the kind that breaks the caches has happened. */
  ghost predicate NeverStale(cfg: W.Config, names: N.State, es: seq<Event>) {
    forall k :: 0 <= k < |es| ==>
      var s := Exec(cfg, names, es[..k]);
      Asked(s, es[k]).Some? ==> !N.LeavesStale(s.names, Asked(s, es[k]).value)
  }

  lemma NeverStaleBefore(cfg: W.Config, names: N.State, es: seq<Event>)
    requires es != [] && NeverStale(cfg, names, es)
    ensures NeverStale(cfg, names, es[..|es| - 1])
    ensures var s := Exec(cfg, names, es[..|es| - 1]);
            Asked(s, es[|es| - 1]).Some? ==> !N.LeavesStale(s.names, Asked(s, es[|es| - 1]).value)
  {
    var init := es[..|es| - 1];
    assert forall k :: 0 <= k < |init| ==> init[..k] == es[..k] && init[k] == es[k];
  }

  lemma {:induction false} NamesCoherent(cfg: W.Config, names: N.State, es: seq<Event>)
    requires N.TableOk(names) && N.Coherent(names) && NeverStale(cfg, names, es)
    ensures var s := Exec(cfg, names, es); N.TableOk(s.names) && N.Coherent(s.names)
  {
    if es != [] {
      var init := es[..|es| - 1];
      NeverStaleBefore(cfg, names, es);
      NamesCoherent(cfg, names, init);
      var s := Exec(cfg, names, init);
      var ev := Asked(s, es[|es| - 1]);
      if ev.Some? {
        N.StepCoherentIff(s.names, ev.value);
        N.StepKeepsTable(s.names, ev.value);
      }
    }
  }

  // ---------------------------------------------------------------- routing by name

  /** Each decision went to the account that the table had under the name at that moment. */
  ghost predicate ByName(tables: seq<N.Table>, routed: seq<W.Decision>) {
    && |tables| == |routed|
    && forall t :: 0 <= t < |tables| ==> N.Lookup(tables[t], routed[t].dstName) == Some(routed[t].uid)
  }

  /** One step later: the same decisions, or one more, made by the table as it is. */
  ghost predicate OneMoreByName(table: N.Table, before: seq<W.Decision>, after: seq<W.Decision>) {
    || after == before
    || (&& |after| == |before| + 1 && after[..|before|] == before
        && N.Lookup(table, after[|before|].dstName) == Some(after[|before|].uid))
  }

  lemma ByNameGrows(tables: seq<N.Table>, table: N.Table, before: seq<W.Decision>, after: seq<W.Decision>)
    requires ByName(tables, before) && OneMoreByName(table, before, after)
    ensures ByName(if |after| > |before| then tables + [table] else tables, after)
  {
    if |after| > |before| {
      assert forall t :: 0 <= t < |before| ==> after[t] == after[..|before|][t];
    }
  }

  lemma DecisionsOfStep(cfg: W.Config, s: State, e: Event)
    requires N.TableOk(s.names) && N.Coherent(s.names)
    ensures OneMoreByName(s.names.table, s.relay.world.routed, RelayAfter(cfg, s, e).world.routed)
  {
    match e {
      case FrameRead(c, q, a) =>
      case Worked(c, given, _, _) =>
        if Acts(s, c) {
          var ev := Told(s, e).value;
          var effect := Relay.NextEffect(s.relay, c);
          Relay.OnlyRoutesDecide(cfg, s.relay.world, Relay.Carried(s.relay, c, effect, ev.given));
          if effect.Route? { N.CachedRoutingAgrees(s.names, effect.dst); }
        } else {
          Relay.OthersDecideNothing(cfg, s.relay, Told(s, e).value);
        }
      case Elsewhere(ev) =>
        if Told(s, e).Some? { Relay.OthersDecideNothing(cfg, s.relay, ev); }
    }
  }

  lemma {:induction false} ReachableByName(cfg: W.Config, names: N.State, es: seq<Event>)
    requires N.TableOk(names) && N.Coherent(names) && NeverStale(cfg, names, es)
    ensures var s := Exec(cfg, names, es); ByName(s.tables, s.relay.world.routed)
  {
    if es != [] {
      var init := es[..|es| - 1];
      NeverStaleBefore(cfg, names, es);
      ReachableByName(cfg, names, init);
      NamesCoherent(cfg, names, init);
      var s, e := Exec(cfg, names, init), es[|es| - 1];
      DecisionsOfStep(cfg, s, e);
      ByNameGrows(s.tables, s.names.table, s.relay.world.routed, RelayAfter(cfg, s, e).world.routed);
    }
  }

  // ---------------------------------------------------------------- signing on

  /** A LOGIN frame that was granted an account: the table then had that account, with exactly
      the name, password and role that the frame claims. */
  ghost predicate GrantedByTable(h: Relay.Handled, table: N.Table) {
    && h.request.body.Map? && h.answers.auth.Granted?
    && h.answers.auth.uid in table && table[h.answers.auth.uid] == Claimed(h.request.body.entries)
  }

  predicate LoginFrame(h: Relay.Handled) {
    && !h.view.loggedIn && h.request.msgType == H.LOGIN && h.request.body.Map?
    && H.LoginComplete(h.request.body.entries) && h.answers.ipAllowed && h.answers.auth.Granted?
  }

  ghost predicate ByTable(seen: seq<N.Table>, handled: seq<Relay.Handled>) {
    && |seen| == |handled|
    && forall i :: 0 <= i < |seen| && LoginFrame(handled[i]) ==> GrantedByTable(handled[i], seen[i])
  }

  ghost predicate OneMoreByTable(table: N.Table, before: seq<Relay.Handled>, after: seq<Relay.Handled>) {
    || after == before
    || (&& |after| == |before| + 1 && after[..|before|] == before
        && (LoginFrame(after[|before|]) ==> GrantedByTable(after[|before|], table)))
  }

  lemma ByTableGrows(seen: seq<N.Table>, table: N.Table, before: seq<Relay.Handled>, after: seq<Relay.Handled>)
    requires ByTable(seen, before) && OneMoreByTable(table, before, after)
    ensures ByTable(if |after| > |before| then seen + [table] else seen, after)
  {
    if |after| > |before| {
      assert forall i :: 0 <= i < |before| ==> after[i] == after[..|before|][i];
    }
  }

  lemma LoginIsGranted(names: N.State, login: N.Row)
    requires AuthFor(names, login).Granted?
    ensures var after := N.Login(names, login).table;
            AuthFor(names, login).uid in after && after[AuthFor(names, login).uid] == login
  {
  }

  lemma HandledOfStep(cfg: W.Config, s: State, e: Event)
    ensures OneMoreByTable(NamesAfter(s, e).table, s.relay.handled, RelayAfter(cfg, s, e).handled)
  {
    if Told(s, e).Some? { Relay.StepGrows(cfg, s.relay, Told(s, e).value); }
    if e.FrameRead? && AsksLogin(s, e.conn, e.request, e.answers) {
      var login := Claimed(e.request.body.entries);
      if AuthFor(s.names, login).Granted? { LoginIsGranted(s.names, login); }
    }
  }

  lemma {:induction false} ReachableByTable(cfg: W.Config, names: N.State, es: seq<Event>)
    ensures var s := Exec(cfg, names, es); ByTable(s.seen, s.relay.handled)
  {
    if es != [] {
      var init := es[..|es| - 1];
      ReachableByTable(cfg, names, init);
      var s, e := Exec(cfg, names, init), es[|es| - 1];
      HandledOfStep(cfg, s, e);
      ByTableGrows(s.seen, NamesAfter(s, e).table, s.relay.handled, RelayAfter(cfg, s, e).handled);
    }
  }

  // ---------------------------------------------------------------- theorem over every run

  lemma RecipientOf(cfg: W.Config, rs: seq<Relay.Event>, c: R.ConnId, k: nat) returns (t: nat)
    requires W.ConfigOk(cfg)
    requires var s := Relay.Exec(cfg, rs); c in s.world.sess && k < |Relay.Written(s, c)|
    ensures var s := Relay.Exec(cfg, rs); var f := Relay.Written(s, c)[k].content;
            && f.Deliver? && t == f.ticket && t < |s.world.routed| && f.env.dstName == s.world.routed[t].dstName
            && c in s.world.reg.uidOf && s.world.reg.uidOf[c] == s.world.routed[t].uid
  {
    Relay.WrittenIsCopy(cfg, rs, c);
    Relay.RecipientsOfAccount(cfg, rs);
    t := Relay.Written(Relay.Exec(cfg, rs), c)[k].content.ticket;
  }

  /** To whom a payload for a name is written.  In every run in which no update of the failing
      kind happens: a DELIVER for `dstName` is written to a connection only if that connection
      was signed on, by a LOGIN frame with the password and role that the table then had, to the
      very account that the table had under `dstName` when the payload was routed. */
  lemma DeliveredToNamedAccount(cfg: W.Config, names: N.State, es: seq<Event>, c: R.ConnId, k: nat)
    returns (t: nat, l: nat)
    requires W.ConfigOk(cfg) && N.TableOk(names) && N.Coherent(names) && NeverStale(cfg, names, es)
    requires var s := Exec(cfg, names, es).relay; c in s.world.sess && k < |Relay.Written(s, c)|
    ensures var s := Exec(cfg, names, es); var f := Relay.Written(s.relay, c)[k].content;
            && f.Deliver? && t == f.ticket && t < |s.tables|
            && l < |s.relay.handled| && l < |s.seen| && s.relay.handled[l].conn == c
            && GrantedByTable(s.relay.handled[l], s.seen[l])
            && N.Lookup(s.tables[t], f.env.dstName) == Some(s.relay.handled[l].answers.auth.uid)
  {
    var s := Exec(cfg, names, es);
    var rs := RelayHasItsRun(cfg, names, es);
    t := RecipientOf(cfg, rs, c, k);
    ReachableByName(cfg, names, es);
    ReachableByTable(cfg, names, es);
    l := Relay.SignedOnTo(cfg, rs, c);
  }
}
