/** The user table and the two name caches in front of it.

    Handlers are atomic here unless a lemma splits them.  Names and passwords are compared
    exactly and fit their columns; ids are never reused.
 */
module NameCache {
  import opened Options

  type Uid = nat

  datatype Row = Row(name: string, password: string, isAdmin: bool)

  type Table = map<Uid, Row>

  datatype State = State(
    table: Table,                  // the rows of `users` by id
    nextId: nat,
    nameToUid: map<string, Uid>,
    uidToName: map<Uid, string>)

  /** `SELECT id FROM users WHERE username = ?`. */
  ghost function Lookup(table: Table, name: string): (r: Option<Uid>)
    ensures r.Some? ==> r.value in table && table[r.value].name == name
    ensures r.None? ==> forall u :: u in table ==> table[u].name != name
  {
    if exists u :: u in table && table[u].name == name then
      var u :| u in table && table[u].name == name; Some(u)
    else None
  }

  ghost predicate UniqueNames(table: Table) {
    forall u, v :: u in table && v in table && table[u].name == table[v].name ==> u == v
  }

  ghost predicate TableOk(s: State) {
    UniqueNames(s.table) && (forall u :: u in s.table ==> u < s.nextId)
  }

  /** Every cached pair is a row of the table. */
  ghost predicate Coherent(s: State) {
    && (forall n :: n in s.nameToUid ==> s.nameToUid[n] in s.table && s.table[s.nameToUid[n]].name == n)
    && (forall u :: u in s.uidToName ==> u in s.table && s.table[u].name == s.uidToName[u])
  }

  // ---------------------------------------------------------------- the table

  /** `authenticate_or_register`: the account, if the login is accepted, and the table after it. */
  ghost function Authenticate(table: Table, nextId: nat, login: Row): (r: (Table, nat, Option<Uid>)) {
    match Lookup(table, login.name)
    case Some(u) => (table, nextId, if table[u] == login then Some(u) else None)
    case None => (table[nextId := login], nextId + 1, Some(nextId))
  }

  datatype Statement = SetName | SetPassword | SetAdmin

  /** The fields that an update asks for. */
  datatype Change = Change(name: Option<string>, password: Option<string>, isAdmin: Option<bool>)

  predicate Requested(c: Change, st: Statement) {
    match st
    case SetName => c.name.Some?
    case SetPassword => c.password.Some?
    case SetAdmin => c.isAdmin.Some?
  }

  function Changed(row: Row, c: Change, st: Statement): Row
    requires Requested(c, st)
  {
    match st
    case SetName => row.(name := c.name.value)
    case SetPassword => row.(password := c.password.value)
    case SetAdmin => row.(isAdmin := c.isAdmin.value)
  }

  ghost predicate NameTaken(table: Table, uid: Uid, name: string) {
    exists v :: v in table && v != uid && table[v].name == name
  }

  /** One statement, skipped if not asked for.  It is an error if the name is taken, if no row
      changes (`affected_rows` is 0), or if the database fails at it for a reason of its own. */
  ghost function RunOne(table: Table, uid: Uid, c: Change, st: Statement,
                        dbError: Option<Statement>): (r: Option<Table>) {
    if !Requested(c, st) then Some(table)
    else if uid !in table || dbError == Some(st) then None
    else
      var row := Changed(table[uid], c, st);
      if NameTaken(table, uid, row.name) || row == table[uid] then None else Some(table[uid := row])
  }

  /** `UPDATE users SET password` and `SET is_admin`, after the rename. */
  ghost function RunLater(table: Table, uid: Uid, c: Change, dbError: Option<Statement>): (r: (Table, bool)) {
    match RunOne(table, uid, c, SetPassword, dbError)
    case None => (table, false)
    case Some(t2) =>
      match RunOne(t2, uid, c, SetAdmin, dbError)
      case None => (t2, false)
      case Some(t3) => (t3, true)
  }

  /** `admin_update_user`: up to three statements in order, each kept even if a later one fails. */
  ghost function AdminUpdate(table: Table, uid: Uid, c: Change, dbError: Option<Statement>): (r: (Table, bool)) {
    if c == Change(None, None, None) then (table, false)
    else match RunOne(table, uid, c, SetName, dbError)
         case None => (table, false)
         case Some(t1) => RunLater(t1, uid, c, dbError)
  }

  // ---------------------------------------------------------------- handlers

  /** A login; one that is accepted is remembered. */
  ghost function Login(s: State, login: Row): State {
    var (table, nextId, uid) := Authenticate(s.table, s.nextId, login);
    match uid
    case None => s.(table := table, nextId := nextId)
    case Some(u) => State(table, nextId, s.nameToUid[login.name := u], s.uidToName[u := login.name])
  }

  /** `ensure_uid_for_username`: the cache, else the table. */
  ghost function EnsureUid(s: State, name: string): (r: (State, Option<Uid>)) {
    if name in s.nameToUid then (s, Some(s.nameToUid[name]))
    else match Lookup(s.table, name)
         case Some(u) => (s.(nameToUid := s.nameToUid[name := u]), Some(u))
         case None => (s, None)
  }

  ghost function AddUser(s: State, row: Row): State {
    if Lookup(s.table, row.name).Some? then s
    else s.(table := s.table[s.nextId := row], nextId := s.nextId + 1)
  }

  /** `user_table_update`: the caches follow a rename only if every statement succeeded. */
  ghost function Update(s: State, uid: Uid, c: Change, dbError: Option<Statement>): State {
    if uid !in s.table then s
    else
      var (table, ok) := AdminUpdate(s.table, uid, c, dbError);
      if !ok || c.name.None? then s.(table := table)
      else State(table, s.nextId, (s.nameToUid - {s.table[uid].name})[c.name.value := uid],
                 s.uidToName[uid := c.name.value])
  }

  function ClearCaches(s: State, uid: Uid): State {
    if uid !in s.table then s
    else s.(nameToUid := s.nameToUid - {s.table[uid].name}, uidToName := s.uidToName - {uid})
  }

  function DeleteRow(s: State, uid: Uid): State {
    s.(table := s.table - {uid})
  }

  /** `user_table_delete`: the caches first, then the row, which the database may refuse. */
  function Delete(s: State, uid: Uid, refused: bool): State {
    if refused then ClearCaches(s, uid) else DeleteRow(ClearCaches(s, uid), uid)
  }

  datatype Event =
    | LoggedIn(login: Row)
    | Resolved(name: string)
    | Added(row: Row)
    | Updated(uid: Uid, change: Change, dbError: Option<Statement>)
    | Deleted(uid: Uid, refused: bool)

  ghost function Step(s: State, e: Event): State {
    match e
    case LoggedIn(login) => Login(s, login)
    case Resolved(name) => EnsureUid(s, name).0
    case Added(row) => AddUser(s, row)
    case Updated(uid, change, dbError) => Update(s, uid, change, dbError)
    case Deleted(uid, refused) => Delete(s, uid, refused)
  }

  ghost function Exec(s: State, es: seq<Event>): State {
    if es == [] then s else Step(Exec(s, es[..|es| - 1]), es[|es| - 1])
  }

  // ---------------------------------------------------------------- updates

  /** The rename is a change, to a free name. */
  ghost predicate Renames(table: Table, uid: Uid, c: Change, dbError: Option<Statement>) {
    && uid in table && c.name.Some? && c.name.value != table[uid].name
    && !NameTaken(table, uid, c.name.value) && dbError != Some(SetName)
  }

  /** A later statement sets a field to the value it has, or meets a database error. */
  predicate LaterFails(row: Row, c: Change, dbError: Option<Statement>) {
    || (c.password.Some? && (c.password.value == row.password || dbError == Some(SetPassword)))
    || (c.isAdmin.Some? && (c.isAdmin.value == row.isAdmin || dbError == Some(SetAdmin)))
  }

  /** An update succeeds exactly when it asks for something, every field it asks for differs
      from the row's, a new name is free, and the database does not fail. */
  lemma UpdateSucceedsIff(s: State, uid: Uid, c: Change, dbError: Option<Statement>)
    requires TableOk(s) && uid in s.table
    ensures AdminUpdate(s.table, uid, c, dbError).1 <==>
            && c != Change(None, None, None)
            && (c.name.Some? ==> Renames(s.table, uid, c, dbError))
            && !LaterFails(s.table[uid], c, dbError)
  {
    UpdateOutcome(s, uid, c, dbError);
  }

  /** The row afterwards bears the new name exactly if the rename went through; no other row
      changes. */
  lemma UpdateOutcome(s: State, uid: Uid, c: Change, dbError: Option<Statement>)
    requires TableOk(s) && uid in s.table
    ensures var (table, ok) := AdminUpdate(s.table, uid, c, dbError);
            && SameOthers(s.table, table, uid)
            && table[uid].name == (if Renames(s.table, uid, c, dbError) then c.name.value else s.table[uid].name)
            && (ok <==>
                  && c != Change(None, None, None)
                  && (c.name.Some? ==> Renames(s.table, uid, c, dbError))
                  && !LaterFails(s.table[uid], c, dbError))
  {
    OneStatement(s.table, uid, c, SetName, dbError);
    var r1 := RunOne(s.table, uid, c, SetName, dbError);
    if r1.Some? { LaterStatements(r1.value, uid, c, dbError); }
  }

  lemma LaterStatements(table: Table, uid: Uid, c: Change, dbError: Option<Statement>)
    requires uid in table && UniqueNames(table)
    ensures var (t, ok) := RunLater(table, uid, c, dbError);
            SameOthers(table, t, uid) && t[uid].name == table[uid].name && (ok <==> !LaterFails(table[uid], c, dbError))
  {
    OneStatement(table, uid, c, SetPassword, dbError);
    var r2 := RunOne(table, uid, c, SetPassword, dbError);
    if r2.Some? { OneStatement(r2.value, uid, c, SetAdmin, dbError); }
  }

  ghost predicate SameOthers(before: Table, after: Table, uid: Uid)
    requires uid in before
  {
    uid in after && after == before[uid := after[uid]]
  }

  predicate SameValue(row: Row, c: Change, st: Statement) {
    Requested(c, st) && Changed(row, c, st) == row
  }

  lemma OneStatement(table: Table, uid: Uid, c: Change, st: Statement, dbError: Option<Statement>)
    requires uid in table && UniqueNames(table)
    ensures var r := RunOne(table, uid, c, st, dbError);
            && (r.None? <==> Requested(c, st) && (|| dbError == Some(st) || SameValue(table[uid], c, st)
                                                  || (st == SetName && NameTaken(table, uid, c.name.value))))
            && (r.Some? ==> SameOthers(table, r.value, uid) && UniqueNames(r.value)
                            && r.value[uid] == if Requested(c, st) then Changed(table[uid], c, st) else table[uid])
  {
  }

  // ---------------------------------------------------------------- coherence

  /** What breaks coherence, read off the request and the row before the call: the rename goes
      through, a later statement does not, and the old name or the id is cached. */
  ghost predicate LeavesStale(s: State, e: Event) {
    && e.Updated? && Renames(s.table, e.uid, e.change, e.dbError)
    && LaterFails(s.table[e.uid], e.change, e.dbError)
    && (s.table[e.uid].name in s.nameToUid || e.uid in s.uidToName)
  }

  lemma StepKeepsTable(s: State, e: Event)
    requires TableOk(s)
    ensures TableOk(Step(s, e))
  {
    if e.Updated? && e.uid in s.table {
      UpdateOutcome(s, e.uid, e.change, e.dbError);
    }
  }

  /** One handler keeps the caches coherent exactly when it is not that update. */
  lemma StepCoherentIff(s: State, e: Event)
    requires TableOk(s) && Coherent(s)
    ensures Coherent(Step(s, e)) <==> !LeavesStale(s, e)
  {
    if e.Updated? {
      if e.uid in s.table { UpdateCoherentIff(s, e.uid, e.change, e.dbError); }
    } else {
      OtherStepsCoherent(s, e);
    }
  }

  lemma OtherStepsCoherent(s: State, e: Event)
    requires TableOk(s) && Coherent(s) && !e.Updated?
    ensures Coherent(Step(s, e))
  {
    match e {
      case LoggedIn(login) => LoginCoherent(s, login);
      case Resolved(name) => CachedRoutingAgrees(s, name);
      case Added(row) =>
      case Deleted(uid, refused) => DeleteCoherent(s, uid, refused);
    }
  }

  lemma LoginCoherent(s: State, login: Row)
    requires TableOk(s) && Coherent(s)
    ensures Coherent(Login(s, login))
  {
  }

  lemma DeleteCoherent(s: State, uid: Uid, refused: bool)
    requires TableOk(s) && Coherent(s)
    ensures Coherent(Delete(s, uid, refused))
  {
  }

  lemma UpdateCoherentIff(s: State, uid: Uid, c: Change, dbError: Option<Statement>)
    requires TableOk(s) && Coherent(s) && uid in s.table
    ensures Coherent(Update(s, uid, c, dbError)) <==> !LeavesStale(s, Updated(uid, c, dbError))
  {
    UpdateOutcome(s, uid, c, dbError);
    var (table, ok) := AdminUpdate(s.table, uid, c, dbError);
    if ok && c.name.Some? {
      RenameCoherent(s, uid, table);
    } else {
      NoRenameCoherentIff(s, uid, table);
    }
  }

  lemma RenameCoherent(s: State, uid: Uid, table: Table)
    requires TableOk(s) && Coherent(s) && uid in s.table && SameOthers(s.table, table, uid)
    ensures var oldName, newName := s.table[uid].name, table[uid].name;
            Coherent(State(table, s.nextId, (s.nameToUid - {oldName})[newName := uid], s.uidToName[uid := newName]))
  {
    assert forall n :: n in s.nameToUid && s.nameToUid[n] == uid ==> n == s.table[uid].name;
  }

  lemma NoRenameCoherentIff(s: State, uid: Uid, table: Table)
    requires TableOk(s) && Coherent(s) && uid in s.table && SameOthers(s.table, table, uid)
    ensures var oldName := s.table[uid].name;
            Coherent(s.(table := table)) <==>
            table[uid].name == oldName || (oldName !in s.nameToUid && uid !in s.uidToName)
  {
    var r, oldName := s.(table := table), s.table[uid].name;
    assert forall n :: n in s.nameToUid && s.nameToUid[n] == uid ==> n == oldName;
    if oldName in s.nameToUid {
      assert s.nameToUid[oldName] == uid;
      assert oldName in r.nameToUid;
    }
    if uid in s.uidToName { assert uid in r.uidToName; }
  }

  ghost predicate NeverStale(s: State, es: seq<Event>) {
    forall k :: 0 <= k < |es| ==> !LeavesStale(Exec(s, es[..k]), es[k])
  }

  lemma {:induction false} ExecKeepsTable(s: State, es: seq<Event>)
    requires TableOk(s)
    ensures TableOk(Exec(s, es))
  {
    if es != [] {
      ExecKeepsTable(s, es[..|es| - 1]);
      StepKeepsTable(Exec(s, es[..|es| - 1]), es[|es| - 1]);
    }
  }

  /** In every run of atomic handlers from an empty cache, both caches agree with the table as
      long as no such update comes. */
  lemma {:induction false} CachesCoherent(table: Table, nextId: nat, es: seq<Event>)
    requires TableOk(State(table, nextId, map[], map[]))
    requires NeverStale(State(table, nextId, map[], map[]), es)
    ensures var s := Exec(State(table, nextId, map[], map[]), es); TableOk(s) && Coherent(s)
  {
    var s0 := State(table, nextId, map[], map[]);
    if es != [] {
      var init := es[..|es| - 1];
      assert forall k :: 0 <= k < |init| ==> init[..k] == es[..k] && init[k] == es[k];
      CachesCoherent(table, nextId, init);
      ExecKeepsTable(s0, es);
      assert !LeavesStale(Exec(s0, es[..|es| - 1]), es[|es| - 1]);
      StepCoherentIff(Exec(s0, init), es[|es| - 1]);
    }
  }

  /** Routing by the cache is routing by the table. */
  lemma CachedRoutingAgrees(s: State, name: string)
    requires TableOk(s) && Coherent(s)
    ensures EnsureUid(s, name).1 == Lookup(s.table, name)
    ensures Coherent(EnsureUid(s, name).0)
  {
  }

  // ---------------------------------------------------------------- accounts

  ghost predicate LeavesAlone(e: Event, uid: Uid) {
    (e.Updated? || e.Deleted?) ==> e.uid != uid
  }

  lemma StepKeepsRow(s: State, e: Event, uid: Uid)
    requires TableOk(s) && uid in s.table && LeavesAlone(e, uid)
    ensures uid in Step(s, e).table && Step(s, e).table[uid] == s.table[uid]
  {
    if e.Updated? && e.uid in s.table { UpdateOutcome(s, e.uid, e.change, e.dbError); }
  }

  lemma {:induction false} RowStays(s: State, es: seq<Event>, uid: Uid)
    requires TableOk(s) && uid in s.table && forall k :: 0 <= k < |es| ==> LeavesAlone(es[k], uid)
    ensures uid in Exec(s, es).table && Exec(s, es).table[uid] == s.table[uid]
  {
    if es != [] {
      var init := es[..|es| - 1];
      assert forall k :: 0 <= k < |init| ==> init[k] == es[k];
      RowStays(s, init, uid);
      ExecKeepsTable(s, init);
      StepKeepsRow(Exec(s, init), es[|es| - 1], uid);
    }
  }

  /** The first login under a name makes the account: whatever else happens to other accounts,
      later logins under that name get the same id, and exactly those with the same password
      and role. */
  lemma FirstLoginMakesAccount(s: State, first: Row, es: seq<Event>, later: Row)
    requires TableOk(s) && Lookup(s.table, first.name).None? && later.name == first.name
    requires forall k :: 0 <= k < |es| ==> LeavesAlone(es[k], s.nextId)
    ensures Authenticate(s.table, s.nextId, first).2 == Some(s.nextId)
    ensures var t := Exec(Login(s, first), es);
            Authenticate(t.table, t.nextId, later).2 == if later == first then Some(s.nextId) else None
  {
    var s1 := Login(s, first);
    StepKeepsTable(s, LoggedIn(first));
    RowStays(s1, es, s.nextId);
    ExecKeepsTable(s1, es);
  }

  // ---------------------------------------------------------------- handlers that interleave

  /** Between the two halves of a delete anything may refill a cache: removing the row keeps
      the caches coherent exactly when neither holds the account by then. */
  lemma DeleteRowCoherentIff(s: State, uid: Uid)
    requires TableOk(s) && Coherent(s) && uid in s.table
    ensures Coherent(DeleteRow(s, uid)) <==> s.table[uid].name !in s.nameToUid && uid !in s.uidToName
  {
    var r := DeleteRow(s, uid);
    if s.table[uid].name in s.nameToUid { assert s.table[uid].name in r.nameToUid; }
    if uid in s.uidToName { assert uid in r.uidToName; }
  }

  /** So one lookup of the name between clearing and deleting leaves a dead entry behind, from
      any coherent state. */
  lemma LookupDuringDeleteLeavesDeadEntry(s: State, uid: Uid)
    requires TableOk(s) && Coherent(s) && uid in s.table
    ensures var name := s.table[uid].name;
            var cleared := ClearCaches(s, uid);
            var refilled := EnsureUid(cleared, name).0;
            var r := DeleteRow(refilled, uid);
            && Coherent(cleared) && Coherent(refilled) && !Coherent(r)
            && EnsureUid(r, name).1 == Some(uid) && Lookup(r.table, name) == None
  {
    var name := s.table[uid].name;
    var cleared := ClearCaches(s, uid);
    CachedRoutingAgrees(cleared, name);
    var refilled := EnsureUid(cleared, name).0;
    assert Lookup(cleared.table, name) == Some(uid);
    DeleteRowCoherentIff(refilled, uid);
    var r := DeleteRow(refilled, uid);
    assert forall u :: u in r.table ==> r.table[u].name != name;
  }

  /** The failing request: a new name together with the role that the account already has.
      From any coherent state with the name cached, it is answered with an error, the rename
      stays, and payloads for the old name go to the account that no longer bears it. */
  lemma RenameWithSameRoleMisroutes(s: State, uid: Uid, newName: string)
    requires TableOk(s) && Coherent(s) && uid in s.table && s.table[uid].name in s.nameToUid
    requires Lookup(s.table, newName).None?
    ensures var c := Change(Some(newName), None, Some(s.table[uid].isAdmin));
            var oldName := s.table[uid].name;
            var r := Update(s, uid, c, None);
            && !AdminUpdate(s.table, uid, c, None).1
            && uid in r.table && r.table[uid].name == newName
            && EnsureUid(r, oldName).1 == Some(uid) && Lookup(r.table, oldName) == None
  {
    var c := Change(Some(newName), None, Some(s.table[uid].isAdmin));
    UpdateOutcome(s, uid, c, None);
    var r := Update(s, uid, c, None);
    assert !NameTaken(s.table, uid, newName);
    assert forall u :: u in r.table ==> r.table[u].name != s.table[uid].name;
  }
}

/** The regions of the handlers that touch the caches, as they stand in the server. */
module NameCaches {
  import opened Options
  import opened NameCache

  class Caches {
    var nameToUid: map<string, Uid>
    var uidToName: map<Uid, string>

    /** The caches in front of a given table. */
    ghost function Over(table: Table, nextId: nat): State
      reads this
    {
      State(table, nextId, nameToUid, uidToName)
    }

    constructor ()
      ensures nameToUid == map[] && uidToName == map[]
    {
      nameToUid, uidToName := map[], map[];
    }

    /** After the table accepted a login as account `uid`. */
    method RememberLogin(name: string, uid: Uid, ghost login: Row, ghost table: Table, ghost nextId: nat)
      requires login.name == name && Authenticate(table, nextId, login).2 == Some(uid)
      modifies this
      ensures var (table', nextId', _) := Authenticate(table, nextId, login);
              Over(table', nextId') == Login(old(Over(table, nextId)), login)
    {
      uidToName := uidToName[uid := name];
      nameToUid := nameToUid[name := uid];
    }

    /** `row` is the table's answer, asked for only when the cache has none. */
    method ResolveName(name: string, row: Option<Uid>, ghost table: Table, ghost nextId: nat)
      returns (r: Option<Uid>)
      requires name !in nameToUid ==> row == Lookup(table, name)
      modifies this`nameToUid
      ensures (Over(table, nextId), r) == EnsureUid(old(Over(table, nextId)), name)
    {
      if name in nameToUid { return Some(nameToUid[name]); }
      if row.None? { return None; }
      nameToUid := nameToUid[name := row.value];
      return row;
    }

    /** After an update whose statements all succeeded. */
    method RememberRename(uid: Uid, oldName: string, newName: string,
                          ghost c: Change, ghost table: Table, ghost nextId: nat)
      requires uid in table && table[uid].name == oldName && c.name == Some(newName)
      requires AdminUpdate(table, uid, c, None).1
      modifies this
      ensures Over(AdminUpdate(table, uid, c, None).0, nextId) == Update(old(Over(table, nextId)), uid, c, None)
    {
      nameToUid := nameToUid - {oldName};
      nameToUid := nameToUid[newName := uid];
      uidToName := uidToName[uid := newName];
    }

    /** Before the row is deleted. */
    method Forget(uid: Uid, name: string, ghost table: Table, ghost nextId: nat)
      requires uid in table && table[uid].name == name
      modifies this
      ensures Over(table, nextId) == ClearCaches(old(Over(table, nextId)), uid)
    {
      nameToUid := nameToUid - {name};
      uidToName := uidToName - {uid};
    }
  }
}
