/** Administration of users: the guard against locking everybody out, and how far it
    reaches when updates interleave. */
module Admin {
  import opened Values
  import opened Accounts
  import opened Database
  import opened AuthFlow
  import opened AdminEmails
  import H = History

  /** An Update request. An empty repeated field arrives as nil and is stored as NULL. */
  datatype Request = Request(email: string, name: string, avatar: string, roles: seq<string>, disabled: bool)

  function PatchOf(q: Request): Patch {
    Patch(q.email, q.name, q.avatar, if q.roles == [] then None else Some(q.roles), !q.disabled)
  }

  datatype AdminError = AdminRequired | UserNotFound | InvalidInput | SelfDemotion | Internal

  const MIN_NAME_LENGTH := 2
  const MIN_EMAIL_LENGTH := 5

  predicate ValidInput(name: string, email: string) {
    |TrimSpace(name)| >= MIN_NAME_LENGTH && |TrimSpace(email)| >= MIN_EMAIL_LENGTH && '@' in email
  }

  // ---- Caller ids ----

  const INT32_MAX := 0x7fff_ffff

  /** The int64 to int32 to int64 path of a caller id through the request context. */
  function Narrow(id: int): int {
    var low := id % 0x1_0000_0000;
    if low > INT32_MAX then low - 0x1_0000_0000 else low
  }

  /** Narrowing gives the one 32-bit number congruent to the id; it is the identity exactly
      on the 32-bit range. */
  lemma {:induction false} NarrowExact(id: int)
    ensures -0x8000_0000 <= Narrow(id) <= 0x7fff_ffff && (Narrow(id) - id) % 0x1_0000_0000 == 0
    ensures Narrow(id) == id <==> -0x8000_0000 <= id <= 0x7fff_ffff
  {
  }

  /** requireSelfOrAdmin. */
  predicate SelfOrAdmin(caller: Claims, appId: int) {
    caller.isAdmin || (Narrow(caller.userId) > 0 && Narrow(caller.userId) == appId)
  }

  /** Where the check is right. For records with an id drawn from the sequence it errs, against
      a caller without admin whose id does not fit 32 bits, on exactly two: the caller's own,
      which it refuses, and that of whoever has the narrowed id, which it opens. Callers whose
      own id could be from the sequence are all judged right iff admin or of 32 bits. */
  lemma {:induction false} SelfOrAdminExact(caller: Claims)
    ensures forall appId :: appId >= 1 ==>
      ((SelfOrAdmin(caller, appId) <==> caller.isAdmin || caller.userId == appId) <==>
        || caller.isAdmin || -0x8000_0000 <= caller.userId <= 0x7fff_ffff
        || (appId != caller.userId && appId != Narrow(caller.userId)))
    ensures caller.userId >= 1 ==>
      (caller.isAdmin || caller.userId <= 0x7fff_ffff <==>
        forall appId :: appId >= 1 ==> (SelfOrAdmin(caller, appId) <==> caller.isAdmin || caller.userId == appId))
  {
    NarrowExact(caller.userId);
    assert !caller.isAdmin && caller.userId > INT32_MAX ==> !SelfOrAdmin(caller, caller.userId);
  }

  // ---- Update: first the guard, later the write ----

  /** requireAdmin, then ensureNotSelfDemotion, which reads the target row. */
  function CheckUpdate(db: Db, caller: Claims, id: UserId, q: Request): Result<(), AdminError> {
    if !caller.isAdmin then Err(AdminRequired)
    else if ADMIN_ROLE in q.roles then Ok(())
    else if id !in db.Users() then Err(UserNotFound)
    else if db.Users()[id].appId == Narrow(caller.userId) && db.Users()[id].Holds(ADMIN_ROLE) then Err(SelfDemotion)
    else Ok(())
  }

  datatype Updated = Updated(db: Db, outcome: Result<User, AdminError>)

  ghost function WriteUpdate(db: Db, id: UserId, q: Request, now: Time): Updated {
    if !ValidInput(q.name, q.email) then Updated(db, Err(InvalidInput))
    else if id !in db.Users() then Updated(db, Err(UserNotFound))
    else
      var o := Exec(db, UpdateUser(id, PatchOf(q)), now);
      Updated(o.db, if o.reply.UserRow? then Ok(o.reply.user) else Err(Internal))
  }

  /** The whole handler, run without interruption. */
  ghost function CheckedUpdate(db: Db, caller: Claims, id: UserId, q: Request, now: Time): Updated {
    match CheckUpdate(db, caller, id, q)
    case Err(e) => Updated(db, Err(e))
    case Ok(_) => WriteUpdate(db, id, q, now)
  }

  // ---- What an update needs, and what it answers ----

  /** At least `n` characters between white space at both ends. */
  ghost predicate LongEnough(s: string, n: nat) {
    exists i: nat, j: nat :: i + n <= j <= |s| && (i < j ==> !Space(s[i]) && !Space(s[j - 1])) && Outside(s, i, j)
  }

  /** All of s outside s[i..j] is white space. */
  predicate Outside(s: string, i: nat, j: nat) {
    forall k :: 0 <= k < |s| && (k < i || j <= k) ==> Space(s[k])
  }

  lemma {:induction false} LongEnoughExactly(s: string, n: nat)
    requires n > 0
    ensures |TrimSpace(s)| >= n <==> LongEnough(s, n)
  {
    var i, j := TrimExactly(s);
    hide TrimSpace, Space;
    assert Outside(s, i, j);
    if i': nat, j': nat :|
      i' + n <= j' <= |s| && (i' < j' ==> !Space(s[i']) && !Space(s[j' - 1])) && Outside(s, i', j')
    {
      assert i <= i' && j' <= j;
    }
  }

  /** Names need two characters and e-mails five, white space around them aside, and an at
      sign. */
  lemma {:induction false} ValidInputExactly(name: string, email: string)
    ensures ValidInput(name, email) <==>
      LongEnough(name, 2) && LongEnough(email, 5) && exists k :: 0 <= k < |email| && email[k] == '@'
  {
    LongEnoughExactly(name, 2);
    LongEnoughExactly(email, 5);
    hide TrimSpace, LongEnough;
  }

  /** Who may update, and which refusal the others get. Only administrators pass at all; they
      pass unless the request drops admin from an account that is missing, or that is their
      own (by the narrowed id) and holds it. */
  lemma {:induction false} GuardExactly(db: Db, caller: Claims, id: UserId, q: Request, now: Time)
    ensures var r := CheckUpdate(db, caller, id, q);
      var drops := forall k :: 0 <= k < |q.roles| ==> q.roles[k] != "admin";
      var own := && id in db.Users() && db.Users()[id].appId == Narrow(caller.userId)
                 && db.Users()[id].roles.Some? && "admin" in db.Users()[id].roles.value;
      && (r == Err(AdminRequired) <==> !caller.isAdmin)
      && (r == Err(UserNotFound) <==> caller.isAdmin && drops && id !in db.Users())
      && (r == Err(SelfDemotion) <==> caller.isAdmin && drops && own)
      && (r == Ok(()) <==> caller.isAdmin && (!drops || (id in db.Users() && !own)))
      && (r.Err? ==> CheckedUpdate(db, caller, id, q, now) == Updated(db, Err(r.error)))
  {
    assert ADMIN_ROLE in q.roles <==> exists k :: 0 <= k < |q.roles| && q.roles[k] == "admin";
  }

  /** An update let through by the guard: which refusals are left, and that success writes
      the request's columns, empty roles as NULL, and no other column and no other row. */
  lemma {:induction false} WriteExactly(db: Db, caller: Claims, id: UserId, q: Request, now: Time)
    requires CheckUpdate(db, caller, id, q).Ok?
    ensures var o := CheckedUpdate(db, caller, id, q, now);
      var taken := exists other :: other in db.Users() && other != id && db.Users()[other].email == q.email;
      && (o.outcome == Err(InvalidInput) <==> !ValidInput(q.name, q.email))
      && (o.outcome == Err(UserNotFound) <==> ValidInput(q.name, q.email) && id !in db.Users())
      && (o.outcome == Err(Internal) <==> ValidInput(q.name, q.email) && id in db.Users() && taken)
      && (o.outcome.Ok? <==> ValidInput(q.name, q.email) && id in db.Users() && !taken)
      && (o.outcome.Err? ==> o.db == db)
      && (o.outcome.Ok? ==>
        var was, row := db.Users()[id], o.outcome.value;
        && o.db == db.(accounts := db.accounts.(rows := db.Users()[id := row]))
        && row == User(was.id, was.appId, q.email, q.name, q.avatar, was.identity,
                       if |q.roles| == 0 then None else Some(q.roles), !q.disabled, was.createdAt, was.lastLogin))
  {
    assert EmailHeldByOther(db.Users(), q.email, Some(id)) <==>
      exists other :: other in db.Users() && other != id && db.Users()[other].email == q.email;
    hide ValidInput, CheckUpdate, EmailHeldByOther;
  }

  // ---- Losing the last administrator ----

  /** Two ways to count administrators: all rows that hold the role, or of these only the
      active ones, who alone can sign in. */
  datatype Count = Holders | ActiveHolders

  ghost predicate AdminRow(w: Count, db: Db, id: UserId) {
    id in db.Users() && db.Users()[id].Holds(ADMIN_ROLE) && (w.ActiveHolders? ==> db.Users()[id].active)
  }

  ghost predicate SomeAdmin(w: Count, db: Db) {
    exists id :: AdminRow(w, db, id)
  }

  ghost predicate OnlyAdmin(w: Count, db: Db, id: UserId) {
    AdminRow(w, db, id) && forall x :: AdminRow(w, db, x) ==> x == id
  }

  /** The request leaves its target an administrator. */
  predicate Keeps(w: Count, q: Request) {
    ADMIN_ROLE in q.roles && (w.ActiveHolders? ==> !q.disabled)
  }

  /** The caller's own row, found by its unique app id, is an administrator's. */
  ghost predicate CallerIsAdmin(w: Count, db: Db, caller: Claims) {
    exists id :: AdminRow(w, db, id) && db.Users()[id].appId == caller.userId
  }

  /** Without an active holder the service issues no administrator's JWT from any cookie. */
  lemma {:induction false} NobodyMintsAdmin(first: Db, second: Db, cookie: string, now: Time)
    requires !SomeAdmin(ActiveHolders, second)
    ensures Mint(first, second, cookie, now).Some? ==> !Mint(first, second, cookie, now).value.isAdmin
  {
    if Mint(first, second, cookie, now).Some? {
      assert !AdminRow(ActiveHolders, second, BumpSession(first, cookie, now).reply.session.userId);
    }
  }

  /** The guard refuses every self-demotion exactly when the caller's id survives the
      narrowing. */
  lemma {:induction false} GuardRefusesSelfDemotion(db: Db, caller: Claims, id: UserId, q: Request)
    requires caller.isAdmin && ADMIN_ROLE !in q.roles
    requires AdminRow(Holders, db, id) && db.Users()[id].appId == caller.userId && 1 <= caller.userId
    ensures CheckUpdate(db, caller, id, q) == Err(SelfDemotion) <==> caller.userId <= INT32_MAX
  {
  }

  /** One write loses the last administrator exactly when it takes the role from the only
      holder; or, counting active ones, disables the only active one or takes its role. */
  lemma {:induction false} WriteLosesLastAdmin(w: Count, db: Db, id: UserId, q: Request, now: Time)
    requires SomeAdmin(w, db) && WriteUpdate(db, id, q, now).outcome.Ok?
    ensures !SomeAdmin(w, WriteUpdate(db, id, q, now).db) <==> !Keeps(w, q) && OnlyAdmin(w, db, id)
  {
    var db' := WriteUpdate(db, id, q, now).db;
    assert forall x :: x != id ==> (AdminRow(w, db', x) <==> AdminRow(w, db, x));
    assert AdminRow(w, db', id) <==> Keeps(w, q);
  }

  /** How a single update, nothing coming in between, can leave nobody administering: it is
      let through with a JWT that says admin, is valid and its e-mail free, and it takes the
      last administrator away, either keeping the role and disabling the account, which the
      guard never looks at, or from an account whose app id is not the caller's as narrowed. */
  lemma {:induction false} UpdateLosesLastAdminExactly(
      w: Count, db: Db, caller: Claims, id: UserId, q: Request, now: Time)
    requires SomeAdmin(w, db)
    ensures !SomeAdmin(w, CheckedUpdate(db, caller, id, q, now).db) <==>
      && caller.isAdmin && ValidInput(q.name, q.email) && OnlyAdmin(w, db, id)
      && (if ADMIN_ROLE in q.roles then w.ActiveHolders? && q.disabled
          else db.Users()[id].appId != Narrow(caller.userId))
      && forall other :: other in db.Users() && db.Users()[other].email == q.email ==> other == id
  {
    var o := WriteUpdate(db, id, q, now);
    assert o.outcome.Err? ==> o.db == db;
    if o.outcome.Ok? {
      WriteLosesLastAdmin(w, db, id, q, now);
    }
    hide ValidInput, Narrow;
  }

  /** The guard's other gap: the only active administrator, under any id, disables its own
      account while keeping the role. The update succeeds and nobody is left to sign in. */
  lemma {:induction false} SelfDisablingLocksOut(db: Db, id: UserId, q: Request, now: Time)
    requires Consistent(db) && OnlyAdmin(ActiveHolders, db, id)
    requires ADMIN_ROLE in q.roles && q.disabled && ValidInput(q.name, q.email)
    requires q.email == db.Users()[id].email
    ensures var o := CheckedUpdate(db, ClaimsOf(db.Users()[id]), id, q, now);
      o.outcome.Ok? && SomeAdmin(Holders, o.db) && !SomeAdmin(ActiveHolders, o.db)
  {
    var caller := ClaimsOf(db.Users()[id]);
    var o := CheckedUpdate(db, caller, id, q, now);
    assert EmailsUnique(db.Users());
    UpdateLosesLastAdminExactly(ActiveHolders, db, caller, id, q, now);
    assert AdminRow(Holders, db, id);
    WriteLosesLastAdmin(Holders, db, id, q, now);
    hide ValidInput, Consistent;
  }

  /** Deletion has no such guard: it leaves nobody administering exactly when it removes the
      only administrator, who owns no group. */
  lemma {:induction false} DeleteLosesLastAdminExactly(w: Count, db: Db, id: UserId)
    requires SomeAdmin(w, db)
    ensures !SomeAdmin(w, Delete(db, id).db) <==>
      OnlyAdmin(w, db, id) && forall g :: g in db.groups ==> db.groups[g] != id
  {
    var db' := Delete(db, id).db;
    assert id in db.groups.Values <==> exists g :: g in db.groups && db.groups[g] == id;
    assert db' != db ==> forall x :: AdminRow(w, db', x) <==> AdminRow(w, db, x) && x != id;
  }

  /** An update that names no roles writes NULL, and NULL roles defeat the bootstrap grant:
      the account's next login, listed and successful, leaves it without admin. */
  lemma {:induction false} RolelessUpdateDefeatsGrant(
      cfg: Config, db: Db, id: UserId, q: Request, now: Time,
      provider: string, fetched: Fetched, newId: UserId, later: Time)
    requires Consistent(db) && q.roles == [] && WriteUpdate(db, id, q, now).outcome.Ok?
    requires var db' := WriteUpdate(db, id, q, now).db;
      && newId !in db'.Users() && ToLower(fetched.email) in cfg.admins
      && Target(db'.Users(), ProfileOf(provider, fetched)) == Some(id)
      && Authenticate(cfg, db', provider, Some(fetched), newId, later).outcome.Ok?
    ensures var a := Authenticate(cfg, WriteUpdate(db, id, q, now).db, provider, Some(fetched), newId, later);
      && a.outcome.value.id == id && id in a.db.Users()
      && !a.outcome.value.Holds(ADMIN_ROLE) && !a.db.Users()[id].Holds(ADMIN_ROLE)
  {
    var db' := WriteUpdate(db, id, q, now).db;
    WriteConsistent(db, id, q, now);
    UpdateRule(db.accounts, id, PatchOf(q));
    ListedLoginEndsAdmin(cfg, db', provider, fetched, newId, later);
    assert db'.Users()[id].roles.None?;
    hide Authenticate, Consistent, Target, ToLower;
  }

  // ---- Runs of interleaved updates ----

  /** An update between its guard and its write. */
  datatype Pending = Pending(caller: Claims, id: UserId, request: Request)

  datatype Sys = Sys(db: Db, pending: map<nat, Pending>)

  datatype Action =
    | Check(k: nat, caller: Claims, id: UserId, request: Request)
    | Commit(k: nat, now: Time)
    | Remove(caller: Claims, id: UserId)
    | Other(cmd: Cmd, now: Time)

  ghost function Step(s: Sys, a: Action): Sys {
    match a
    case Check(k, caller, id, q) =>
      if k !in s.pending && CheckUpdate(s.db, caller, id, q).Ok?
      then s.(pending := s.pending[k := Pending(caller, id, q)])
      else s
    case Commit(k, now) =>
      if k !in s.pending then s
      else Sys(WriteUpdate(s.db, s.pending[k].id, s.pending[k].request, now).db, s.pending - {k})
    case Remove(caller, id) => if caller.isAdmin then s.(db := Delete(s.db, id).db) else s
    case Other(cmd, now) => s.(db := Exec(s.db, cmd, now).db)
  }

  ghost function Run(s: Sys, acts: seq<Action>): Sys {
    if acts == [] then s else Step(Run(s, acts[..|acts| - 1]), acts[|acts| - 1])
  }

  /** The update of an account by itself that takes it out of the administrators counted. */
  ghost predicate OwnLoss(w: Count, db: Db, caller: Claims, id: UserId, q: Request) {
    !Keeps(w, q) && id in db.Users() && db.Users()[id].appId == caller.userId
  }

  /** What retention asks of a step: users change only through checked updates, logins,
      creations, grants and deletions; an update's caller is an administrator in the table,
      under an id of 32 bits, when it is checked and again when it writes, and does not
      disable itself where active ones are counted; and a deletion's caller is one at the
      deletion, of somebody else. Self-demotion is left to the guard. */
  ghost predicate Fair(w: Count, s: Sys, a: Action) {
    match a
    case Check(_, caller, id, q) =>
      CheckUpdate(s.db, caller, id, q).Ok? ==>
        && CallerIsAdmin(w, s.db, caller) && 1 <= caller.userId <= INT32_MAX
        && (ADMIN_ROLE in q.roles ==> !OwnLoss(w, s.db, caller, id, q))
    case Commit(k, _) => k in s.pending ==> CallerIsAdmin(w, s.db, s.pending[k].caller)
    case Remove(caller, id) =>
      caller.isAdmin && id in s.db.Users() ==>
        CallerIsAdmin(w, s.db, caller) && s.db.Users()[id].appId != caller.userId
    case Other(cmd, _) => !cmd.UpdateUser? && !cmd.DeleteUser?
  }

  /** No pending update would take its own caller away, not even from a row created again
      under the target's key: the sequence is past the caller's id. */
  ghost predicate PendingSpareCaller(w: Count, s: Sys) {
    forall k :: k in s.pending && !Keeps(w, s.pending[k].request) ==>
      && s.pending[k].caller.userId < s.db.accounts.nextAppId
      && !OwnLoss(w, s.db, s.pending[k].caller, s.pending[k].id, s.pending[k].request)
  }

  ghost predicate Inv(w: Count, s: Sys) {
    Consistent(s.db) && SomeAdmin(w, s.db) && PendingSpareCaller(w, s)
  }

  lemma {:induction false} OthersSpareAdmins(w: Count, db: Db, cmd: Cmd, now: Time, id: UserId)
    requires RowsNumbered(db.accounts) && id in db.Users() && !cmd.UpdateUser? && !cmd.DeleteUser?
    ensures var db' := Exec(db, cmd, now).db;
      && id in db'.Users() && db'.Users()[id].appId == db.Users()[id].appId
      && (AdminRow(w, db, id) ==> AdminRow(w, db', id))
  {
    if !WritesAccounts(cmd) {
      OthersKeepAccounts(db, cmd, now);
    }
  }

  lemma {:induction false} UpdateEffect(w: Count, db: Db, id: UserId, q: Request, now: Time, x: UserId)
    requires x in db.Users()
    ensures var db' := WriteUpdate(db, id, q, now).db;
      && db'.accounts.nextAppId == db.accounts.nextAppId && db'.Users().Keys == db.Users().Keys
      && db'.Users()[x].appId == db.Users()[x].appId
      && (AdminRow(w, db, x) && (x != id || Keeps(w, q)) ==> AdminRow(w, db', x))
  {
  }

  lemma {:induction false} WriteConsistent(db: Db, id: UserId, q: Request, now: Time)
    requires Consistent(db)
    ensures Consistent(WriteUpdate(db, id, q, now).db)
  {
    ExecConsistent(db, UpdateUser(id, PatchOf(q)), now);
    hide Exec, Consistent, ValidInput;
  }

  lemma {:induction false} CheckKeepsInv(w: Count, s: Sys, a: Action)
    requires Inv(w, s) && a.Check? && Fair(w, s, a)
    ensures Inv(w, Step(s, a))
  {
    NarrowExact(a.caller.userId);
    assert AppIdsUnique(s.db.Users()) && RowsNumbered(s.db.accounts);
    hide Exec, WriteUpdate, Consistent, Narrow;
    if CheckUpdate(s.db, a.caller, a.id, a.request).Ok? {
      var x :| AdminRow(w, s.db, x) && s.db.Users()[x].appId == a.caller.userId;
    }
  }

  lemma {:induction false} WriteKeepsInv(w: Count, s: Sys, k: nat, now: Time)
    requires Inv(w, s) && k in s.pending && Fair(w, s, Commit(k, now))
    ensures Inv(w, Step(s, Commit(k, now)))
  {
    var p, s' := s.pending[k], Step(s, Commit(k, now));
    WriteConsistent(s.db, p.id, p.request, now);
    forall x | x in s.db.Users()
      ensures s'.db.Users().Keys == s.db.Users().Keys && s'.db.Users()[x].appId == s.db.Users()[x].appId
      ensures s'.db.accounts.nextAppId == s.db.accounts.nextAppId
      ensures AdminRow(w, s.db, x) && (x != p.id || Keeps(w, p.request)) ==> AdminRow(w, s'.db, x)
    {
      UpdateEffect(w, s.db, p.id, p.request, now, x);
    }
    hide Exec, WriteUpdate, Consistent;
    var c :| AdminRow(w, s.db, c) && s.db.Users()[c].appId == p.caller.userId;
    assert AdminRow(w, s'.db, c);
  }

  lemma {:induction false} DeleteEffect(db: Db, id: UserId)
    ensures var db' := Delete(db, id).db;
      && db'.accounts.nextAppId == db.accounts.nextAppId
      && (forall x :: x in db'.Users() ==> x in db.Users() && db'.Users()[x] == db.Users()[x])
      && (forall x :: x in db.Users() && x != id ==> x in db'.Users())
  {
  }

  lemma {:induction false} RemoveKeepsInv(w: Count, s: Sys, caller: Claims, id: UserId)
    requires Inv(w, s) && Fair(w, s, Remove(caller, id)) && caller.isAdmin && id in s.db.Users()
    ensures Inv(w, Step(s, Remove(caller, id)))
  {
    hide Delete, Consistent;
    var s' := Step(s, Remove(caller, id));
    assert Exec(s.db, DeleteUser(id), 0) == Delete(s.db, id);
    ExecConsistent(s.db, DeleteUser(id), 0);
    hide Exec;
    DeleteEffect(s.db, id);
    var c :| AdminRow(w, s.db, c) && s.db.Users()[c].appId == caller.userId;
    assert AdminRow(w, s'.db, c);
  }

  /** Pending updates keep sparing their callers while accounts keep their app ids and new
      ones draw from the sequence. */
  lemma {:induction false} SequenceSparesCallers(w: Count, s: Sys, db: Db)
    requires PendingSpareCaller(w, s) && s.db.accounts.nextAppId <= db.accounts.nextAppId
    requires forall x :: x in db.Users() ==>
      || (x in s.db.Users() && db.Users()[x].appId == s.db.Users()[x].appId)
      || db.Users()[x].appId == s.db.accounts.nextAppId
    ensures PendingSpareCaller(w, s.(db := db))
  {
    hide Keeps;
  }

  lemma {:induction false} OtherKeepsInv(w: Count, s: Sys, cmd: Cmd, now: Time)
    requires Inv(w, s) && Fair(w, s, Other(cmd, now))
    ensures Inv(w, Step(s, Other(cmd, now)))
  {
    var db' := Exec(s.db, cmd, now).db;
    assert RowsNumbered(s.db.accounts);
    var c :| AdminRow(w, s.db, c);
    hide Exec, Consistent, RowsNumbered, PendingSpareCaller, AdminRow;
    ExecConsistent(s.db, cmd, now);
    OthersSpareAdmins(w, s.db, cmd, now, c);
    forall x | x in db'.Users()
      ensures x in s.db.Users() ==> db'.Users()[x].appId == s.db.Users()[x].appId
      ensures x !in s.db.Users() ==> db'.Users()[x].appId == s.db.accounts.nextAppId
    {
      H.AppIdStep(s.db, cmd, now, x);
    }
    H.AppIdStep(s.db, cmd, now, c);
    SequenceSparesCallers(w, s, db');
  }

  ghost predicate FairRun(w: Count, s: Sys, acts: seq<Action>) {
    forall i :: 0 <= i < |acts| ==> Fair(w, Run(s, acts[..i]), acts[i])
  }

  /** Admin retention: along every fair run, checks and writes of different updates and
      deletions interleaved in any way, some admin always remains. */
  lemma {:induction false} SomeAdminRemains(w: Count, s: Sys, acts: seq<Action>)
    requires Consistent(s.db) && SomeAdmin(w, s.db) && s.pending == map[]
    requires FairRun(w, s, acts)
    ensures SomeAdmin(w, Run(s, acts).db)
  {
    RetentionInv(w, s, acts, |acts|);
    assert acts[..|acts|] == acts;
  }

  lemma {:induction false} RetentionInv(w: Count, s: Sys, acts: seq<Action>, n: nat)
    requires Inv(w, s) && FairRun(w, s, acts) && n <= |acts|
    ensures Inv(w, Run(s, acts[..n]))
  {
    hide Step, Inv, Fair;
    if n == 0 {
    } else {
      var a := acts[n - 1];
      var pre := Run(s, acts[..n - 1]);
      RetentionInv(w, s, acts, n - 1);
      assert acts[..n][..n - 1] == acts[..n - 1];
      assert Fair(w, pre, a);
      StepKeepsInv(w, pre, a);
    }
  }

  lemma {:induction false} StepKeepsInv(w: Count, s: Sys, a: Action)
    requires Inv(w, s) && Fair(w, s, a)
    ensures Inv(w, Step(s, a))
  {
    match a
    case Check(_, _, _, _) => CheckKeepsInv(w, s, a);
    case Commit(k, now) =>
      if k in s.pending {
        WriteKeepsInv(w, s, k, now);
      }
    case Remove(caller, id) =>
      if caller.isAdmin && id in s.db.Users() {
        RemoveKeepsInv(w, s, caller, id);
      }
    case Other(cmd, now) => OtherKeepsInv(w, s, cmd, now);
  }

  // ---- No write without an administrator's check ----

  /** A check or a deletion by a caller without admin changes nothing, nor does a commit
      that no check went before. */
  lemma {:induction false} OthersChecksStop(s: Sys, k: nat, caller: Claims, id: UserId, q: Request, now: Time)
    ensures !caller.isAdmin ==> Step(s, Check(k, caller, id, q)) == s && Step(s, Remove(caller, id)) == s
    ensures k !in s.pending ==> Step(s, Commit(k, now)) == s
  {
  }

  /** In every run, whatever an update writes was let through before by its own check, by a
      caller with admin, of that account and with that request. */
  lemma {:induction false} WritesWereChecked(s: Sys, acts: seq<Action>, n: nat, k: nat) returns (i: nat)
    requires s.pending == map[] && n <= |acts| && k in Run(s, acts[..n]).pending
    ensures var p := Run(s, acts[..n]).pending[k];
      && i < n && acts[i] == Check(k, p.caller, p.id, p.request) && p.caller.isAdmin
      && CheckUpdate(Run(s, acts[..i]).db, p.caller, p.id, p.request).Ok?
  {
    hide Exec, WriteUpdate;
    if n > 0 {
      var a, pre := acts[n - 1], Run(s, acts[..n - 1]);
      assert acts[..n][..n - 1] == acts[..n - 1];
      if k in pre.pending {
        i := WritesWereChecked(s, acts, n - 1, k);
      } else {
        i := n - 1;
        GuardExactly(pre.db, a.caller, a.id, a.request, 0);
      }
    }
  }

  // ---- Why the callers must still be administrators when they write ----

  /** x and y are the only two administrators, under 32-bit ids; each of the two requests
      is valid and drops admin, keeping its target's e-mail. */
  ghost predicate TwoAdminsAtOdds(w: Count, db: Db, x: UserId, y: UserId, toY: Request, toX: Request) {
    && AdminRow(w, db, x) && AdminRow(w, db, y) && x != y && (forall z :: AdminRow(w, db, z) ==> z == x || z == y)
    && db.Users()[x].appId <= INT32_MAX && db.Users()[y].appId <= INT32_MAX
    && ADMIN_ROLE !in toY.roles && ADMIN_ROLE !in toX.roles
    && ValidInput(toY.name, toY.email) && ValidInput(toX.name, toX.email)
    && toY.email == db.Users()[y].email && toX.email == db.Users()[x].email
  }

  /** Two administrators, each demoting the other: both guards pass, both writes land, and
      nobody administers. Interleaved or one after the other, since the guard asks the JWT
      and not the table whether the caller is an administrator. */
  lemma {:induction false} MutualDemotion(w: Count, s: Sys, x: UserId, y: UserId, q: Request, q': Request)
    requires Consistent(s.db) && s.pending == map[] && TwoAdminsAtOdds(w, s.db, x, y, q, q')
    ensures var byX, byY := ClaimsOf(s.db.Users()[x]), ClaimsOf(s.db.Users()[y]);
      && !SomeAdmin(w, Run(s, [Check(0, byX, y, q), Check(1, byY, x, q'), Commit(0, 0), Commit(1, 0)]).db)
      && !SomeAdmin(w, Run(s, [Check(0, byX, y, q), Commit(0, 0), Check(1, byY, x, q'), Commit(1, 0)]).db)
  {
    var byX, byY := ClaimsOf(s.db.Users()[x]), ClaimsOf(s.db.Users()[y]);
    var a0, a1, a2, a3 := Check(0, byX, y, q), Check(1, byY, x, q'), Commit(0, 0), Commit(1, 0);
    var first := WriteUpdate(s.db, y, q, 0).db;
    var second := WriteUpdate(first, x, q', 0).db;
    DemotionsLeaveNobody(w, s.db, x, y, q, q', 0);
    RunFour(s, a0, a1, a2, a3);
    RunFour(s, a0, a2, a1, a3);
    hide CheckUpdate, WriteUpdate, SomeAdmin, Run, TwoAdminsAtOdds, Consistent;
    assert Step(Step(s, a0), a1).pending == map[0 := Pending(byX, y, q), 1 := Pending(byY, x, q')];
    assert Step(Step(s, a0), a2) == Sys(first, map[]);
    assert Step(Step(Step(Step(s, a0), a1), a2), a3).db == second;
    assert Step(Step(Step(Step(s, a0), a2), a1), a3).db == second;
  }

  /** Both guards pass before either write and also after the first, and the two writes
      leave no administrator. */
  lemma {:induction false} DemotionsLeaveNobody(
      w: Count, db: Db, x: UserId, y: UserId, q: Request, q': Request, now: Time)
    requires Consistent(db) && TwoAdminsAtOdds(w, db, x, y, q, q')
    ensures var byX, byY := ClaimsOf(db.Users()[x]), ClaimsOf(db.Users()[y]);
      var first := WriteUpdate(db, y, q, now).db;
      && CheckUpdate(db, byX, y, q).Ok? && CheckUpdate(db, byY, x, q').Ok? && CheckUpdate(first, byY, x, q').Ok?
      && !SomeAdmin(w, WriteUpdate(first, x, q', now).db)
  {
    var first := WriteUpdate(db, y, q, now).db;
    NarrowExact(db.Users()[x].appId);
    NarrowExact(db.Users()[y].appId);
    assert !EmailHeldByOther(db.Users(), q.email, Some(y));
    assert first.Users() == db.Users()[y := Patched(db.Users()[y], PatchOf(q))];
    assert !EmailHeldByOther(first.Users(), q'.email, Some(x));
    var second := WriteUpdate(first, x, q', now).db;
    assert second.Users() == first.Users()[x := Patched(first.Users()[x], PatchOf(q'))];
    hide Narrow, ValidInput, WriteUpdate;
    forall z ensures !AdminRow(w, second, z) {
      assert AdminRow(w, second, z) && z != x && z != y ==> AdminRow(w, db, z);
    }
  }

  lemma {:induction false} RunFour(s: Sys, a0: Action, a1: Action, a2: Action, a3: Action)
    ensures Run(s, [a0, a1, a2, a3]) == Step(Step(Step(Step(s, a0), a1), a2), a3)
  {
    hide Step;
    var one, two, three, four := [a0], [a0, a1], [a0, a1, a2], [a0, a1, a2, a3];
    assert one[..0] == [] && two[..1] == one && three[..2] == two && four[..3] == three;
    assert Run(s, one) == Step(s, a0);
    assert Run(s, two) == Step(Step(s, a0), a1);
    assert Run(s, three) == Step(Step(Step(s, a0), a1), a2);
  }
}
