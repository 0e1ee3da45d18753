/** What the server does with one frame from a client: `handle_client_frame` as the list of
    effects it has, in order.  The database and the registry answer through `Answers`.
 */
module Handler {
  import opened Options

  // ---------------------------------------------------------------- msgpack bodies

  datatype Val = Nil | Bool(b: bool) | Pos(n: nat) | Neg | Str(s: string) | Bin(bytes: string) | Other
  datatype Entry = Entry(key: Val, val: Val)
  datatype Body = Malformed | NotMap | Map(entries: seq<Entry>)

  /** First string value under `key`; values of other types are passed over. */
  function GetStr(m: seq<Entry>, key: string): (r: Option<string>)
    ensures r.Some? ==> Entry(Str(key), Str(r.value)) in m
    ensures r.None? ==> forall e :: e in m && e.key == Str(key) ==> !e.val.Str?
  {
    if m == [] then None
    else if m[0].key == Str(key) && m[0].val.Str? then Some(m[0].val.s)
    else GetStr(m[1..], key)
  }

  function HasKey(m: seq<Entry>, key: string): (r: bool)
    ensures r <==> exists e :: e in m && e.key == Str(key)
  {
    if m == [] then false
    else if m[0].key == Str(key) then true
    else HasKey(m[1..], key)
  }

  /** First non-negative integer under `key`, unless a negative one comes before it. */
  function GetU64(m: seq<Entry>, key: string): (r: Option<nat>)
    ensures r.Some? ==> Entry(Str(key), Pos(r.value)) in m
  {
    if m == [] then None
    else if m[0].key == Str(key) && m[0].val.Pos? then Some(m[0].val.n)
    else if m[0].key == Str(key) && m[0].val.Neg? then None
    else GetU64(m[1..], key)
  }

  /** First truth value under `key`, or `byDefault`. */
  function GetBool(m: seq<Entry>, key: string, byDefault: bool): bool {
    if m == [] then byDefault
    else if m[0].key == Str(key) && m[0].val.Bool? then m[0].val.b
    else GetBool(m[1..], key, byDefault)
  }

  /** First value of any type under `key`. */
  function GetObj(m: seq<Entry>, key: string): (r: Option<Val>)
    ensures r.Some? ==> Entry(Str(key), r.value) in m
    ensures r.None? <==> !HasKey(m, key)
  {
    if m == [] then None
    else if m[0].key == Str(key) then Some(m[0].val)
    else GetObj(m[1..], key)
  }

  // What each lookup looks for under a key.

  function StringAt(key: string): Entry -> bool { (e: Entry) => e.key == Str(key) && e.val.Str? }

  function IntegerAt(key: string): Entry -> bool { (e: Entry) => e.key == Str(key) && (e.val.Pos? || e.val.Neg?) }

  function AnyAt(key: string): Entry -> bool { (e: Entry) => e.key == Str(key) }

  /** `e` is the first entry that `wanted` accepts. */
  ghost predicate FirstIn(m: seq<Entry>, wanted: Entry -> bool, e: Entry) {
    exists i :: 0 <= i < |m| && m[i] == e && wanted(e) && forall j :: 0 <= j < i ==> !wanted(m[j])
  }

  lemma FirstInTail(m: seq<Entry>, wanted: Entry -> bool, e: Entry)
    requires m != []
    ensures FirstIn(m, wanted, e) <==> if wanted(m[0]) then e == m[0] else FirstIn(m[1..], wanted, e)
  {
    var rest := m[1..];
    if FirstIn(m, wanted, e) && !wanted(m[0]) {
      var i :| 0 <= i < |m| && m[i] == e && wanted(e) && forall j :: 0 <= j < i ==> !wanted(m[j]);
      assert rest[i - 1] == e && forall j :: 0 <= j < i - 1 ==> rest[j] == m[j + 1];
    }
    if FirstIn(rest, wanted, e) && !wanted(m[0]) {
      var i :| 0 <= i < |rest| && rest[i] == e && wanted(e) && forall j :: 0 <= j < i ==> !wanted(rest[j]);
      assert m[i + 1] == e && forall j :: 0 < j < i + 1 ==> m[j] == rest[j - 1];
    }
    if wanted(m[0]) && e == m[0] { assert FirstIn(m, wanted, e); }
  }

  /** The lookups find the first entry of their kind, and nothing else. */
  lemma {:induction false} GetStrIsFirst(m: seq<Entry>, key: string, s: string)
    ensures GetStr(m, key) == Some(s) <==> FirstIn(m, StringAt(key), Entry(Str(key), Str(s)))
  {
    if m != [] {
      FirstInTail(m, StringAt(key), Entry(Str(key), Str(s)));
      GetStrIsFirst(m[1..], key, s);
    }
  }

  lemma {:induction false} GetU64IsFirst(m: seq<Entry>, key: string, n: nat)
    ensures GetU64(m, key) == Some(n) <==> FirstIn(m, IntegerAt(key), Entry(Str(key), Pos(n)))
  {
    if m != [] {
      FirstInTail(m, IntegerAt(key), Entry(Str(key), Pos(n)));
      GetU64IsFirst(m[1..], key, n);
    }
  }

  lemma {:induction false} GetObjIsFirst(m: seq<Entry>, key: string, v: Val)
    ensures GetObj(m, key) == Some(v) <==> FirstIn(m, AnyAt(key), Entry(Str(key), v))
  {
    if m != [] {
      FirstInTail(m, AnyAt(key), Entry(Str(key), v));
      GetObjIsFirst(m[1..], key, v);
    }
  }

  function ExtractPayload(o: Option<Val>): (r: Option<string>) {
    match o
    case Some(Bin(s)) => Some(s)
    case Some(Str(s)) => Some(s)
    case _ => None
  }

  // ---------------------------------------------------------------- frames and effects

  const LOGIN: nat := 1
  const HEARTBEAT: nat := 2
  const CONTROL: nat := 3
  const DATA: nat := 4

  const IP_NOT_ALLOWED: int := 1001
  const AUTH_FAILED: int := 1002
  const INVALID_LOGIN_BODY: int := 1003
  const PROTOCOL: int := 1005

  datatype Request = Request(msgType: nat, seqNo: nat, body: Body)

  datatype View = View(loggedIn: bool, isAdmin: bool)

  datatype Auth = Refused | Granted(uid: nat, isAdmin: bool)

  /** How the allowlist, the user table and the registry would answer if asked. */
  datatype Answers = Answers(ipAllowed: bool, auth: Auth, idKnown: bool, dbOk: bool)

  datatype Effect =
    | Stop
    | Answer(seqNo: nat, ok: bool, op: string, code: int)
    | Register(username: string, uid: nat, isAdmin: bool, mode: string)
    | Touch
    | Route(dst: string, payload: string, routeSeq: nat)
    | KickUser(target: nat)
    | AddUser(username: string)
    | UpdateUser(id: nat)
    | DeleteUser(id: nat)
    | Allowlist

  function Err(seqNo: nat, code: int): Effect { Answer(seqNo, false, "", code) }

  predicate RecvModeKnown(s: string) {
    s == "broadcast" || s == "round_robin" || s == "roundrobin"
  }

  function HandleLogin(q: Request, m: seq<Entry>, a: Answers): seq<Effect> {
    var un, pw := GetStr(m, "username"), GetStr(m, "password");
    var pr, rm := GetStr(m, "peer_role"), GetStr(m, "recv_mode");
    if un.None? || un.value == "" || pw.None? || pr.None? || rm.None? then [Err(q.seqNo, INVALID_LOGIN_BODY)]
    else if pr.value != "admin" && pr.value != "user" then [Err(q.seqNo, INVALID_LOGIN_BODY)]
    else if !RecvModeKnown(rm.value) then [Err(q.seqNo, INVALID_LOGIN_BODY)]
    else if !a.ipAllowed then [Err(q.seqNo, IP_NOT_ALLOWED)]
    else match a.auth
         case Refused => [Err(q.seqNo, AUTH_FAILED)]
         case Granted(uid, isAdmin) =>
           [Register(un.value, uid, isAdmin, rm.value), Answer(q.seqNo, true, "LOGIN", 0)]
  }

  function HandleData(q: Request, m: seq<Entry>): seq<Effect> {
    var payload := ExtractPayload(GetObj(m, "payload"));
    var dst := GetStr(m, "dst_username");
    if payload.None? || dst.None? || dst.value == "" then [Touch, Err(q.seqNo, PROTOCOL)]
    else [Touch, Route(dst.value, payload.value, q.seqNo), Answer(q.seqNo, true, "DATA", 0)]
  }

  /** The tail of an action that asked the database: its error, or success. */
  function DbAnswer(q: Request, a: Answers): Effect {
    if a.dbOk then Answer(q.seqNo, true, "CONTROL", 0) else Err(q.seqNo, PROTOCOL)
  }

  function HandleUserTable(q: Request, m: seq<Entry>, a: Answers, action: string): seq<Effect> {
    var refused := [Touch, Err(q.seqNo, PROTOCOL)];
    if action == "user_table_add" then
      var un, pw := GetStr(m, "username"), GetStr(m, "password");
      if un.None? || pw.None? || un.value == "" || pw.value == "" then refused
      else [Touch, AddUser(un.value), DbAnswer(q, a)]
    else if action == "user_table_update" then
      var id := GetU64(m, "id");
      if id.None? || !a.idKnown then refused
      else if (HasKey(m, "username") && GetStr(m, "username").None?)
              || (HasKey(m, "password") && GetStr(m, "password").None?) then refused
      else [Touch, UpdateUser(id.value), DbAnswer(q, a)]
    else if action == "user_table_delete" then
      var id := GetU64(m, "id");
      if id.None? || !a.idKnown then refused
      else [Touch, KickUser(id.value), DeleteUser(id.value), DbAnswer(q, a)]
    else refused
  }

  function HandleControl(v: View, q: Request, m: seq<Entry>, a: Answers): seq<Effect> {
    if !v.isAdmin then [Touch, Err(q.seqNo, PROTOCOL)]
    else
      var action := match GetStr(m, "action") case Some(s) => s case None => "";
      var refused, done := [Touch, Err(q.seqNo, PROTOCOL)], Answer(q.seqNo, true, "CONTROL", 0);
      if action == "list_users" then [Touch, done]
      else if action == "kick_user" then
        match GetU64(m, "target_user_id")
        case None => refused
        case Some(target) => [Touch, KickUser(target), done]
      else if action == "allowlist_list" || action == "user_table_list" then [Touch, DbAnswer(q, a)]
      else if action == "allowlist_add" then
        var ip := GetStr(m, "ip");
        if ip.None? || ip.value == "" then refused else [Touch, Allowlist, DbAnswer(q, a)]
      else if action == "allowlist_update" then
        if GetU64(m, "id").None? || GetStr(m, "ip").None? then refused else [Touch, Allowlist, DbAnswer(q, a)]
      else if action == "allowlist_delete" then
        if GetU64(m, "id").None? then refused else [Touch, Allowlist, DbAnswer(q, a)]
      else HandleUserTable(q, m, a, action)
  }

  function Handle(v: View, q: Request, a: Answers): seq<Effect> {
    if !v.loggedIn then
      if q.msgType != LOGIN || !q.body.Map? then [Stop] else HandleLogin(q, q.body.entries, a)
    else if !q.body.Map? then [Stop]
    else if q.msgType == HEARTBEAT then [Touch, Answer(q.seqNo, true, "HEARTBEAT", 0)]
    else if q.msgType == DATA then HandleData(q, q.body.entries)
    else if q.msgType == CONTROL then HandleControl(v, q, q.body.entries, a)
    else [Touch, Err(q.seqNo, PROTOCOL)]
  }

  // ---------------------------------------------------------------- properties

  /** The reply or stop that a frame ends in. */
  function Ending(v: View, q: Request, a: Answers): Effect
  {
    var es := Handle(v, q, a); es[|es| - 1]
  }

  /** One answer, numbered `n`, as the last effect, and no stop. */
  ghost predicate Answered(es: seq<Effect>, n: nat) {
    && es != []
    && es[|es| - 1].Answer? && es[|es| - 1].seqNo == n
    && (forall i :: 0 <= i < |es| - 1 ==> !es[i].Stop? && !es[i].Answer?)
  }

  lemma LoginAnswered(q: Request, m: seq<Entry>, a: Answers)
    ensures Answered(HandleLogin(q, m, a), q.seqNo)
  {
  }

  lemma ControlAnswered(v: View, q: Request, m: seq<Entry>, a: Answers)
    ensures Answered(HandleControl(v, q, m, a), q.seqNo)
  {
    forall action { UserTableAnswered(q, m, a, action); }
  }

  lemma UserTableAnswered(q: Request, m: seq<Entry>, a: Answers, action: string)
    ensures Answered(HandleUserTable(q, m, a, action), q.seqNo)
  {
  }

  /** Every frame gets exactly one answer bearing its sequence number, or exactly one stop,
      as the last thing done for it; a frame whose body is not a map is never answered. */
  lemma OneAnswerOrStop(v: View, q: Request, a: Answers)
    ensures var es := Handle(v, q, a);
            if !q.body.Map? || (!v.loggedIn && q.msgType != LOGIN) then es == [Stop] else Answered(es, q.seqNo)
  {
    if q.body.Map? {
      LoginAnswered(q, q.body.entries, a);
      ControlAnswered(v, q, q.body.entries, a);
    }
  }

  /** A positive answer names the operation that the frame asked for, a negative one names none. */
  lemma AnswerNamesOperation(v: View, q: Request, a: Answers)
    requires v.loggedIn && Ending(v, q, a).Answer?
    ensures var r := Ending(v, q, a);
            && (q.msgType == HEARTBEAT ==> r.ok && r.op == "HEARTBEAT")
            && (q.msgType != HEARTBEAT && r.ok ==>
                  (q.msgType == DATA && r.op == "DATA") || (q.msgType == CONTROL && r.op == "CONTROL"))
            && (!r.ok ==> r.op == "")
  {
  }

  /** A payload is routed exactly for a logged-in DATA frame with a payload and a destination,
      and then exactly that payload, to that destination, under the frame's number. */
  lemma RoutedExactlyWhen(v: View, q: Request, a: Answers, dst: string, payload: string, n: nat)
    ensures Route(dst, payload, n) in Handle(v, q, a) <==>
            && v.loggedIn && q.msgType == DATA && q.body.Map? && n == q.seqNo
            && ExtractPayload(GetObj(q.body.entries, "payload")) == Some(payload)
            && GetStr(q.body.entries, "dst_username") == Some(dst) && dst != ""
  {
    if q.body.Map? {
      DataRoutesExactlyWhen(q, q.body.entries, dst, payload, n);
      OthersNeverRoute(v, q, q.body.entries, a);
    }
  }

  lemma DataRoutesExactlyWhen(q: Request, m: seq<Entry>, dst: string, payload: string, n: nat)
    ensures Route(dst, payload, n) in HandleData(q, m) <==>
            && n == q.seqNo && ExtractPayload(GetObj(m, "payload")) == Some(payload)
            && GetStr(m, "dst_username") == Some(dst) && dst != ""
  {
    var es := HandleData(q, m);
    assert |es| == 3 ==> es[1] in es;
  }

  lemma OthersNeverRoute(v: View, q: Request, m: seq<Entry>, a: Answers)
    ensures forall e :: e in HandleControl(v, q, m, a) || e in HandleLogin(q, m, a) ==> !e.Route?
  {
  }

  /** The checks of a login, in one condition. */
  predicate LoginComplete(m: seq<Entry>) {
    && GetStr(m, "username").Some? && GetStr(m, "username").value != ""
    && GetStr(m, "password").Some?
    && GetStr(m, "peer_role") in {Some("admin"), Some("user")}
    && GetStr(m, "recv_mode").Some? && RecvModeKnown(GetStr(m, "recv_mode").value)
  }

  lemma LoginRegisters(q: Request, m: seq<Entry>, a: Answers)
    ensures var es := HandleLogin(q, m, a);
            if LoginComplete(m) && a.ipAllowed && a.auth.Granted? then |es| == 2 && es[0].Register? && es[1].ok
            else |es| == 1 && es[0].Answer? && !es[0].ok
  {
  }

  lemma ControlNeverRegisters(v: View, q: Request, m: seq<Entry>, a: Answers)
    ensures forall e :: e in HandleControl(v, q, m, a) ==> !e.Register?
  {
  }

  /** Before login the only effect beside an answer or a stop is registration, which happens
      exactly when the body is complete, the address is allowed and the account accepted. */
  lemma RegisteredExactlyWhen(v: View, q: Request, a: Answers)
    ensures (exists e :: e in Handle(v, q, a) && e.Register?) <==>
            && !v.loggedIn && q.msgType == LOGIN && q.body.Map?
            && LoginComplete(q.body.entries) && a.ipAllowed && a.auth.Granted?
    ensures !v.loggedIn ==> forall e :: e in Handle(v, q, a) ==> e.Register? || e.Answer? || e.Stop?
  {
    var es := Handle(v, q, a);
    if q.body.Map? {
      LoginRegisters(q, q.body.entries, a);
      ControlNeverRegisters(v, q, q.body.entries, a);
    }
    assert es != [] && es[0].Register? ==> es[0] in es;
  }

  /** What a registration records, and which of the three refusals a login gets. */
  lemma LoginOutcome(q: Request, m: seq<Entry>, a: Answers)
    ensures var es := HandleLogin(q, m, a);
            && (forall e :: e in es && e.Register? ==>
                  && GetStr(m, "username") == Some(e.username) && GetStr(m, "recv_mode") == Some(e.mode)
                  && a.auth == Granted(e.uid, e.isAdmin))
            && (forall e :: e in es && e.Answer? && !e.ok ==>
                  && (e.code == INVALID_LOGIN_BODY <==> !LoginComplete(m))
                  && (e.code == IP_NOT_ALLOWED <==> LoginComplete(m) && !a.ipAllowed)
                  && (e.code == AUTH_FAILED <==> LoginComplete(m) && a.ipAllowed && a.auth.Refused?))
  {
    LoginRegisters(q, m, a);
  }

  predicate Asks(m: seq<Entry>, action: string) {
    GetStr(m, "action") == Some(action)
  }

  /** The accounts that a user-table action touches, each exactly when asked to. */
  lemma UserTableExactlyWhen(q: Request, m: seq<Entry>, a: Answers, action: string, id: nat)
    ensures var es := HandleUserTable(q, m, a, action);
            && (KickUser(id) in es <==> action == "user_table_delete" && GetU64(m, "id") == Some(id) && a.idKnown)
            && (DeleteUser(id) in es <==> action == "user_table_delete" && GetU64(m, "id") == Some(id) && a.idKnown)
            && (UpdateUser(id) in es ==> action == "user_table_update" && GetU64(m, "id") == Some(id) && a.idKnown)
  {
    var es := HandleUserTable(q, m, a, action);
    assert |es| == 4 ==> es[1] in es && es[2] in es;
  }

  lemma ControlExactlyWhen(v: View, q: Request, m: seq<Entry>, a: Answers, id: nat)
    requires v.isAdmin
    ensures var es := HandleControl(v, q, m, a);
            && (KickUser(id) in es <==>
                  || (Asks(m, "kick_user") && GetU64(m, "target_user_id") == Some(id))
                  || (Asks(m, "user_table_delete") && GetU64(m, "id") == Some(id) && a.idKnown))
            && (DeleteUser(id) in es <==> Asks(m, "user_table_delete") && GetU64(m, "id") == Some(id) && a.idKnown)
  {
    var action := match GetStr(m, "action") case Some(s) => s case None => "";
    UserTableExactlyWhen(q, m, a, action, id);
    var es := HandleControl(v, q, m, a);
    assert action == "kick_user" && |es| == 3 ==> es[1] in es;
  }

  /** An account is kicked, and deleted, exactly when an administrator asks for that account. */
  lemma KickedAndDeletedExactlyWhen(v: View, q: Request, a: Answers, id: nat)
    ensures var es := Handle(v, q, a);
            var asked := v.loggedIn && v.isAdmin && q.msgType == CONTROL && q.body.Map?;
            && (KickUser(id) in es <==>
                  && asked
                  && (|| (Asks(q.body.entries, "kick_user") && GetU64(q.body.entries, "target_user_id") == Some(id))
                      || (Asks(q.body.entries, "user_table_delete")
                          && GetU64(q.body.entries, "id") == Some(id) && a.idKnown)))
            && (DeleteUser(id) in es <==>
                  asked && Asks(q.body.entries, "user_table_delete")
                  && GetU64(q.body.entries, "id") == Some(id) && a.idKnown)
  {
    if v.isAdmin && q.body.Map? { ControlExactlyWhen(v, q, q.body.entries, a, id); }
  }

  /** Kicks and changes to the tables come only from an administrator's CONTROL frames. */
  lemma AdminEffectsNeedAdmin(v: View, q: Request, a: Answers, e: Effect)
    requires e in Handle(v, q, a)
    requires e.KickUser? || e.AddUser? || e.UpdateUser? || e.DeleteUser? || e.Allowlist?
    ensures v.loggedIn && v.isAdmin && q.msgType == CONTROL
  {
  }

  /** Every deletion in a list of effects directly follows the kick of the same account. */
  ghost predicate KickedFirst(es: seq<Effect>) {
    forall i :: 0 <= i < |es| && es[i].DeleteUser? ==> i > 0 && es[i - 1] == KickUser(es[i].id)
  }

  lemma ControlKicksFirst(v: View, q: Request, m: seq<Entry>, a: Answers)
    ensures KickedFirst(HandleControl(v, q, m, a))
  {
    forall action { UserTableKicksFirst(q, m, a, action); }
  }

  lemma UserTableKicksFirst(q: Request, m: seq<Entry>, a: Answers, action: string)
    ensures KickedFirst(HandleUserTable(q, m, a, action))
  {
  }

  /** An account is deleted only after its connections were told to leave. */
  lemma DeleteKicksFirst(v: View, q: Request, a: Answers)
    ensures KickedFirst(Handle(v, q, a))
  {
    if q.body.Map? { ControlKicksFirst(v, q, q.body.entries, a); }
  }
}
