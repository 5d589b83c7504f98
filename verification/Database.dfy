/** The whole go_auth schema as one value. Each SQL statement of the service is one
    atomic command; Exec says what it does to the tables and what it answers. */
module Database {
  import opened Values
  import opened Accounts

  datatype Session = Session(
    userId: UserId,
    createdAt: Time,
    expiresAt: Time,
    lastSeen: Option<Time>,
    revokedAt: Option<Time>)

  datatype Pat = Pat(
    userId: UserId,
    digest: Digest,
    prefix: string,
    name: string,
    scopes: seq<string>,
    createdAt: Time,
    expiresAt: Option<Time>,
    lastUsed: Option<Time>,
    revokedAt: Option<Time>)

  datatype Membership = Membership(user: UserId, group: GroupId)

  datatype Db = Db(
    accounts: Accounts,
    groups: map<GroupId, UserId>, // group to owner
    members: set<Membership>,
    sessions: map<Digest, Session>,
    pats: map<PatId, Pat>)
  {
    function Users(): map<UserId, User> { accounts.rows }
  }

  const EMPTY := Db(NO_ACCOUNTS, map[], {}, map[], map[])

  datatype Cmd =
    | Login(profile: Profile, newId: UserId)
    | CreateUser(draft: Draft, newId: UserId)
    | UpdateUser(id: UserId, patch: Patch)
    | GrantRole(id: UserId, role: string)
    | DeleteUser(id: UserId)
    | CreateGroup(group: GroupId, owner: UserId)
    | DeleteGroup(group: GroupId)
    | Join(user: UserId, group: GroupId)
    | CreateSession(token: string, user: UserId, ttl: Time)
    | GetValid(token: string)
    | RevokeSession(token: string)
    | RevokeAllSessions(user: UserId)
    | CreatePat(pat: PatId, user: UserId, token: string, prefix: string, name: string, scopes: seq<string>,
                expiresAt: Option<Time>)
    | RevokePat(pat: PatId, user: UserId)
    | TouchPat(pat: PatId)

  datatype Reply =
    | UserRow(user: User)
    | SessionRow(session: Session)
    | PatRow(row: Pat)
    | Affected(rows: nat)
    | Failed(error: DbError)
  {
    /** The statement changed or returned at least one row. */
    predicate Hit() { !Failed? && (Affected? ==> rows > 0) }
  }

  datatype Outcome = Outcome(db: Db, reply: Reply)

  ghost function OfWrite(db: Db, w: Write): Outcome {
    Outcome(db.(accounts := w.table),
            match w.result
            case Ok(u) => UserRow(u)
            case Err(e) => Failed(e))
  }

  // ---- Users, groups ----

  /** ON DELETE CASCADE from sessions, tokens and memberships; groups.owner_id has
      no ON DELETE action, so owning a group blocks the delete. */
  ghost function Delete(db: Db, id: UserId): Outcome {
    if id !in db.Users() then Outcome(db, Affected(0))
    else if id in db.groups.Values then Outcome(db, Failed(ForeignKey))
    else Outcome(
      db.(accounts := db.accounts.(rows := db.Users() - {id}),
          members := (set m | m in db.members && m.user != id),
          sessions := (map d | d in db.sessions && db.sessions[d].userId != id :: db.sessions[d]),
          pats := (map p | p in db.pats && db.pats[p].userId != id :: db.pats[p])),
      Affected(1))
  }

  function AddGroup(db: Db, group: GroupId, owner: UserId): Outcome {
    if group in db.groups then Outcome(db, Failed(Violates(PrimaryKey)))
    else if owner !in db.Users() then Outcome(db, Failed(ForeignKey))
    else Outcome(db.(groups := db.groups[group := owner]), Affected(1))
  }

  function DropGroup(db: Db, group: GroupId): Outcome {
    if group !in db.groups then Outcome(db, Affected(0))
    else Outcome(
      db.(groups := db.groups - {group}, members := (set m | m in db.members && m.group != group)),
      Affected(1))
  }

  function AddMember(db: Db, user: UserId, group: GroupId): Outcome {
    if Membership(user, group) in db.members then Outcome(db, Failed(Violates(MembershipKey)))
    else if user !in db.Users() || group !in db.groups then Outcome(db, Failed(ForeignKey))
    else Outcome(db.(members := db.members + {Membership(user, group)}), Affected(1))
  }

  // ---- Sessions ----

  /** Good strictly before expires_at. */
  predicate SessionGood(s: Session, now: Time) {
    s.revokedAt.None? && now < s.expiresAt
  }

  function OpenSession(db: Db, token: string, user: UserId, ttl: Time, now: Time): Outcome {
    if Sha256(token) in db.sessions then Outcome(db, Failed(Violates(TokenKey)))
    else if user !in db.Users() then Outcome(db, Failed(ForeignKey))
    else Outcome(db.(sessions := db.sessions[Sha256(token) := Session(user, now, now + ttl, None, None)]), Affected(1))
  }

  function BumpSession(db: Db, token: string, now: Time): Outcome {
    var d := Sha256(token);
    if d in db.sessions && SessionGood(db.sessions[d], now) then
      var s := db.sessions[d].(lastSeen := Some(now));
      Outcome(db.(sessions := db.sessions[d := s]), SessionRow(s))
    else Outcome(db, Failed(NoRows))
  }

  function CloseSession(db: Db, token: string, now: Time): Outcome {
    var d := Sha256(token);
    if d in db.sessions && db.sessions[d].revokedAt.None? then
      Outcome(db.(sessions := db.sessions[d := db.sessions[d].(revokedAt := Some(now))]), Affected(1))
    else Outcome(db, Affected(0))
  }

  predicate OpenFor(s: Session, user: UserId) {
    s.userId == user && s.revokedAt.None?
  }

  function CloseAll(db: Db, user: UserId, now: Time): Outcome {
    Outcome(
      db.(sessions := (map d | d in db.sessions ::
        if OpenFor(db.sessions[d], user) then db.sessions[d].(revokedAt := Some(now)) else db.sessions[d])),
      Affected(|set d | d in db.sessions && OpenFor(db.sessions[d], user)|))
  }

  // ---- Personal access tokens ----

  predicate DigestTaken(db: Db, d: Digest) {
    exists p :: p in db.pats && db.pats[p].digest == d
  }

  /** CHECK (length(btrim(name)) > 0 AND char_length(name) <= 100). */
  predicate PatNameChecked(name: string) {
    (exists i :: 0 <= i < |name| && name[i] != ' ') && |name| <= 100
  }

  function AddPat(db: Db, c: Cmd, now: Time): Outcome
    requires c.CreatePat?
  {
    if !PatNameChecked(c.name) then Outcome(db, Failed(Violates(NameCheck)))
    else if c.pat in db.pats then Outcome(db, Failed(Violates(PrimaryKey)))
    else if DigestTaken(db, Sha256(c.token)) then Outcome(db, Failed(Violates(TokenKey)))
    else if c.user !in db.Users() then Outcome(db, Failed(ForeignKey))
    else
      var row := Pat(c.user, Sha256(c.token), c.prefix, c.name, c.scopes, now, c.expiresAt, None, None);
      Outcome(db.(pats := db.pats[c.pat := row]), PatRow(row))
  }

  /** Guarded by the owner. */
  function DropPat(db: Db, pat: PatId, user: UserId, now: Time): Outcome {
    if pat in db.pats && db.pats[pat].userId == user && db.pats[pat].revokedAt.None? then
      Outcome(db.(pats := db.pats[pat := db.pats[pat].(revokedAt := Some(now))]), Affected(1))
    else Outcome(db, Affected(0))
  }

  function MarkUsed(db: Db, pat: PatId, now: Time): Outcome {
    if pat in db.pats then Outcome(db.(pats := db.pats[pat := db.pats[pat].(lastUsed := Some(now))]), Affected(1))
    else Outcome(db, Affected(0))
  }

  /** SELECT by digest, whatever the row's status. */
  ghost function FindPat(db: Db, d: Digest): (found: Option<PatId>)
    ensures found.Some? ==> found.value in db.pats && db.pats[found.value].digest == d
    ensures found.None? ==> forall p :: p in db.pats ==> db.pats[p].digest != d
  {
    if p :| p in db.pats && db.pats[p].digest == d then Some(p) else None
  }

  ghost function FindByAppId(db: Db, appId: int): (found: Option<UserId>)
    ensures found.Some? ==> found.value in db.Users() && db.Users()[found.value].appId == appId
    ensures found.None? ==> forall id :: id in db.Users() ==> db.Users()[id].appId != appId
  {
    if id :| id in db.Users() && db.Users()[id].appId == appId then Some(id) else None
  }

  // ---- All statements ----

  ghost function Exec(db: Db, cmd: Cmd, now: Time): Outcome {
    match cmd
    case Login(profile, newId) => OfWrite(db, Upsert(db.accounts, profile, newId, now))
    case CreateUser(draft, newId) => OfWrite(db, Create(db.accounts, draft, newId, now))
    case UpdateUser(id, patch) => OfWrite(db, Update(db.accounts, id, patch))
    case GrantRole(id, role) => OfWrite(db, AddRole(db.accounts, id, role))
    case DeleteUser(id) => Delete(db, id)
    case CreateGroup(group, owner) => AddGroup(db, group, owner)
    case DeleteGroup(group) => DropGroup(db, group)
    case Join(user, group) => AddMember(db, user, group)
    case CreateSession(token, user, ttl) => OpenSession(db, token, user, ttl, now)
    case GetValid(token) => BumpSession(db, token, now)
    case RevokeSession(token) => CloseSession(db, token, now)
    case RevokeAllSessions(user) => CloseAll(db, user, now)
    case CreatePat(_, _, _, _, _, _, _) => AddPat(db, cmd, now)
    case RevokePat(pat, user) => DropPat(db, pat, user, now)
    case TouchPat(pat) => MarkUsed(db, pat, now)
  }

  // ---- What the statements on sessions, tokens and groups come to, exactly ----

  /** A session is opened iff its token is not stored and its user exists; the user's other
      sessions have no say. */
  lemma {:induction false} OpenSessionExactly(db: Db, token: string, user: UserId, ttl: Time, now: Time)
    ensures var o := Exec(db, CreateSession(token, user, ttl), now);
      var stored := Sha256(token) in db.sessions;
      && (o.reply.Hit() <==> !stored && user in db.Users())
      && (o.reply == Failed(Violates(TokenKey)) <==> stored)
      && (o.reply == Failed(ForeignKey) <==> !stored && user !in db.Users())
      && (o.reply.Hit() ==>
            o.db == db.(sessions := db.sessions[Sha256(token) := Session(user, now, now + ttl, None, None)]))
      && (!o.reply.Hit() ==> o.db == db)
  {
  }

  /** The session statements' effect on a row and what they answer: GetValid leaves its mark
      on the row it returns; a revocation counts the rows it stamps. */
  lemma {:induction false} SessionAnswers(db: Db, token: string, user: UserId, now: Time)
    ensures var got, closed := Exec(db, GetValid(token), now), Exec(db, RevokeSession(token), now);
      var all := Exec(db, RevokeAllSessions(user), now);
      var d := Sha256(token);
      var unrevoked := d in db.sessions && db.sessions[d].revokedAt.None?;
      && got.reply == (if unrevoked && now < db.sessions[d].expiresAt
                       then SessionRow(db.sessions[d].(lastSeen := Some(now))) else Failed(NoRows))
      && (got.reply.SessionRow? ==> got.db.sessions == db.sessions[d := got.reply.session])
      && closed.reply == Affected(if unrevoked then 1 else 0)
      && (unrevoked ==> closed.db.sessions == db.sessions[d := db.sessions[d].(revokedAt := Some(now))])
      && all.db.sessions.Keys == db.sessions.Keys
      && forall e :: e in db.sessions ==>
           all.db.sessions[e] ==
             if db.sessions[e].userId == user && db.sessions[e].revokedAt.None?
             then db.sessions[e].(revokedAt := Some(now)) else db.sessions[e]
  {
  }

  /** A token is stored iff its name has a character other than a space and at most 100 of
      them, and its id, its digest and its user are as the keys ask; else the first of these
      that is not decides the error. */
  lemma {:induction false} AddPatExactly(db: Db, c: Cmd, now: Time)
    requires c.CreatePat?
    ensures var o := Exec(db, c, now);
      var named := |c.name| <= 100 && exists i :: 0 <= i < |c.name| && c.name[i] != ' ';
      var drawn := exists p :: p in db.pats && db.pats[p].digest == Sha256(c.token);
      var row := Pat(c.user, Sha256(c.token), c.prefix, c.name, c.scopes, now, c.expiresAt, None, None);
      && o.reply == (if !named then Failed(Violates(NameCheck))
                     else if c.pat in db.pats then Failed(Violates(PrimaryKey))
                     else if drawn then Failed(Violates(TokenKey))
                     else if c.user !in db.Users() then Failed(ForeignKey)
                     else PatRow(row))
      && o.db == if o.reply.PatRow? then db.(pats := db.pats[c.pat := row]) else db
  {
  }

  /** Revoking and touching a token answer with the number of rows changed. */
  lemma {:induction false} PatAnswers(db: Db, pat: PatId, user: UserId, now: Time)
    ensures var dropped, touched := Exec(db, RevokePat(pat, user), now), Exec(db, TouchPat(pat), now);
      && dropped.reply == Affected(
           if pat in db.pats && db.pats[pat].userId == user && db.pats[pat].revokedAt.None? then 1 else 0)
      && touched.reply == Affected(if pat in db.pats then 1 else 0)
      && (pat in db.pats ==> touched.db.pats == db.pats[pat := db.pats[pat].(lastUsed := Some(now))])
  {
  }

  /** A group needs a free id and an existing owner, a membership both its ends; a group goes
      with its memberships. */
  lemma {:induction false} GroupAnswers(db: Db, group: GroupId, user: UserId, now: Time)
    ensures var made, joined := Exec(db, CreateGroup(group, user), now), Exec(db, Join(user, group), now);
      var gone := Exec(db, DeleteGroup(group), now);
      var member := Membership(user, group);
      && (made.reply.Hit() <==> group !in db.groups && user in db.Users())
      && made.db == (if made.reply.Hit() then db.(groups := db.groups[group := user]) else db)
      && (joined.reply.Hit() <==> member !in db.members && user in db.Users() && group in db.groups)
      && joined.db == (if joined.reply.Hit() then db.(members := db.members + {member}) else db)
      && (gone.reply.Hit() <==> group in db.groups)
      && gone.db.groups == db.groups - {group}
      && (forall m :: m in gone.db.members <==> m in db.members && (m.group != group || group !in db.groups))
  {
    assert group !in db.groups ==> db.groups - {group} == db.groups;
  }

  // ---- Constraints of the whole schema ----

  ghost predicate References(db: Db) {
    && (forall g :: g in db.groups ==> db.groups[g] in db.Users())
    && (forall m :: m in db.members ==> m.user in db.Users() && m.group in db.groups)
    && (forall d :: d in db.sessions ==> db.sessions[d].userId in db.Users())
    && (forall p :: p in db.pats ==> db.pats[p].userId in db.Users())
  }

  ghost predicate DigestsUnique(db: Db) {
    forall p, q :: p in db.pats && q in db.pats && db.pats[p].digest == db.pats[q].digest ==> p == q
  }

  ghost predicate Consistent(db: Db) {
    Valid(db.accounts) && References(db) && DigestsUnique(db)
  }

  /** The statements on go_auth.users. */
  predicate WritesAccounts(cmd: Cmd) {
    cmd.Login? || cmd.CreateUser? || cmd.UpdateUser? || cmd.GrantRole? || cmd.DeleteUser?
  }

  lemma {:induction false} OthersKeepAccounts(db: Db, cmd: Cmd, now: Time)
    requires !WritesAccounts(cmd)
    ensures Exec(db, cmd, now).db.accounts == db.accounts
  {
  }

  lemma {:induction false} OthersKeepSessions(db: Db, cmd: Cmd, now: Time)
    requires !cmd.CreateSession? && !cmd.GetValid? && !cmd.RevokeSession? && !cmd.RevokeAllSessions? && !cmd.DeleteUser?
    ensures Exec(db, cmd, now).db.sessions == db.sessions
  {
  }

  lemma {:induction false} OthersKeepPats(db: Db, cmd: Cmd, now: Time)
    requires !cmd.CreatePat? && !cmd.RevokePat? && !cmd.TouchPat? && !cmd.DeleteUser?
    ensures Exec(db, cmd, now).db.pats == db.pats
  {
  }

  lemma {:induction false} ExecKeepsKeys(db: Db, cmd: Cmd, now: Time)
    requires Valid(db.accounts)
    ensures Valid(Exec(db, cmd, now).db.accounts)
  {
    match cmd
    case Login(profile, newId) => UpsertKeepsKeys(db.accounts, profile, newId, now);
    case CreateUser(draft, newId) => InsertKeepsKeys(db.accounts, Drafted(draft, newId, db.accounts.nextAppId, now));
    case UpdateUser(id, patch) => UpdateKeepsKeys(db.accounts, id, patch);
    case GrantRole(id, role) => AddRoleKeepsKeys(db.accounts, id, role);
    case DeleteUser(_) =>
    case _ => OthersKeepAccounts(db, cmd, now);
  }

  /** Statements on the accounts table only grow its key set, and touch nothing else. */
  lemma {:induction false} AccountWritesKeepRows(db: Db, cmd: Cmd, now: Time)
    requires WritesAccounts(cmd) && !cmd.DeleteUser?
    ensures var db' := Exec(db, cmd, now).db;
      && db' == db.(accounts := db'.accounts)
      && db.Users().Keys <= db'.Users().Keys
  {
  }

  lemma {:induction false} ExecKeepsReferences(db: Db, cmd: Cmd, now: Time)
    requires References(db)
    ensures References(Exec(db, cmd, now).db)
  {
    if WritesAccounts(cmd) && !cmd.DeleteUser? {
      AccountWritesKeepRows(db, cmd, now);
    }
  }

  lemma {:induction false} ExecKeepsDigests(db: Db, cmd: Cmd, now: Time)
    requires DigestsUnique(db)
    ensures DigestsUnique(Exec(db, cmd, now).db)
  {
  }

  /** Every statement keeps every key and every foreign key. */
  lemma {:induction false} ExecConsistent(db: Db, cmd: Cmd, now: Time)
    requires Consistent(db)
    ensures Consistent(Exec(db, cmd, now).db)
  {
    ExecKeepsKeys(db, cmd, now);
    ExecKeepsReferences(db, cmd, now);
    ExecKeepsDigests(db, cmd, now);
  }

  /** A delete either finds no user, or fails and changes nothing because the user
      owns a group, or removes that user with precisely its sessions, tokens and
      memberships, leaving every other row as it was. */
  lemma {:induction false} DeleteIsExact(db: Db, id: UserId, now: Time)
    requires Consistent(db)
    ensures var o := Exec(db, DeleteUser(id), now);
      var owns := exists g :: g in db.groups && db.groups[g] == id;
      && (o.reply == Failed(ForeignKey) <==> owns)
      && (o.reply.Hit() <==> id in db.Users() && !owns)
      && (o.reply == Affected(1) <==> o.reply.Hit())
      && (o.reply == Affected(0) <==> id !in db.Users())
      && (!o.reply.Hit() ==> o.db == db)
      && (o.reply.Hit() ==>
        && o.db.groups == db.groups
        && o.db.accounts.nextAppId == db.accounts.nextAppId
        && (forall u :: u in o.db.Users() <==> u in db.Users() && u != id)
        && (forall u :: u in o.db.Users() ==> o.db.Users()[u] == db.Users()[u])
        && (forall d :: d in o.db.sessions <==> d in db.sessions && db.sessions[d].userId != id)
        && (forall d :: d in o.db.sessions ==> o.db.sessions[d] == db.sessions[d])
        && (forall p :: p in o.db.pats <==> p in db.pats && db.pats[p].userId != id)
        && (forall p :: p in o.db.pats ==> o.db.pats[p] == db.pats[p])
        && (forall m :: m in o.db.members <==> m in db.members && m.user != id))
  {
  }

  /** Revocations and usage marks: a revocation, once stamped, keeps its instant for as
      long as the row exists; every new stamp, and every usage mark, is the instant of
      the statement that made it. */
  lemma {:induction false} SessionStamps(db: Db, cmd: Cmd, now: Time, d: Digest)
    requires d in db.sessions && d in Exec(db, cmd, now).db.sessions
    ensures var was, row := db.sessions[d], Exec(db, cmd, now).db.sessions[d];
      && (was.revokedAt.Some? ==> row == was)
      && (row.revokedAt != was.revokedAt ==> row == was.(revokedAt := Some(now)))
      && (row.lastSeen != was.lastSeen ==> row == was.(lastSeen := Some(now)) && cmd == GetValid(d.preimage))
      && row == was.(revokedAt := row.revokedAt, lastSeen := row.lastSeen)
  {
  }

  lemma {:induction false} PatStamps(db: Db, cmd: Cmd, now: Time, p: PatId)
    requires p in db.pats && p in Exec(db, cmd, now).db.pats
    ensures var was, row := db.pats[p], Exec(db, cmd, now).db.pats[p];
      && (was.revokedAt.Some? ==> row.revokedAt == was.revokedAt)
      && (row.revokedAt != was.revokedAt ==> row == was.(revokedAt := Some(now)) && cmd == RevokePat(p, was.userId))
      && (row.lastUsed != was.lastUsed ==> row == was.(lastUsed := Some(now)))
      && (cmd == TouchPat(p) ==> row.lastUsed == Some(now))
      && row == was.(revokedAt := row.revokedAt, lastUsed := row.lastUsed)
  {
  }
}
