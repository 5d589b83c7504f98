/** The go_auth.users table as a value, and the statements that change it. */
module Accounts {
  import opened Values

  datatype Identity = Identity(provider: string, providerId: string)

  /** One row of go_auth.users. `roles` is nullable, as in the schema. */
  datatype User = User(
    id: UserId,
    appId: int,
    email: string,
    name: string,
    avatar: string,
    identity: Identity,
    roles: Option<seq<string>>,
    active: bool,
    createdAt: Time,
    lastLogin: Option<Time>)
  {
    predicate Holds(role: string) {
      roles.Some? && role in roles.value
    }
  }

  const ADMIN_ROLE := "admin"
  const DEFAULT_ROLES := ["user"]

  /** What an OAuth provider says about the person who just signed in. */
  datatype Profile = Profile(identity: Identity, email: string, name: string, avatar: string, emailVerified: bool)

  /** The columns an administrator chooses when creating a user. */
  datatype Draft = Draft(
    email: string, name: string, avatar: string, identity: Identity, roles: seq<string>, active: bool)

  /** The columns an administrator overwrites. `roles == None` writes SQL NULL. */
  datatype Patch = Patch(email: string, name: string, avatar: string, roles: Option<seq<string>>, active: bool)

  /** The table with the BIGSERIAL sequence behind alternate_app_id. */
  datatype Accounts = Accounts(rows: map<UserId, User>, nextAppId: int)

  datatype Write = Write(table: Accounts, result: Result<User, DbError>)

  const NO_ACCOUNTS := Accounts(map[], 1)

  // ---- Constraints of the schema ----

  ghost predicate EmailsUnique(rows: map<UserId, User>) {
    forall a, b :: a in rows && b in rows && rows[a].email == rows[b].email ==> a == b
  }

  ghost predicate IdentitiesUnique(rows: map<UserId, User>) {
    forall a, b :: a in rows && b in rows && rows[a].identity == rows[b].identity ==> a == b
  }

  ghost predicate AppIdsUnique(rows: map<UserId, User>) {
    forall a, b :: a in rows && b in rows && rows[a].appId == rows[b].appId ==> a == b
  }

  /** Rows sit under their primary key and draw their app id from the sequence. */
  ghost predicate RowsNumbered(t: Accounts) {
    && 1 <= t.nextAppId
    && forall id :: id in t.rows ==> t.rows[id].id == id && 1 <= t.rows[id].appId < t.nextAppId
  }

  ghost predicate Valid(t: Accounts) {
    EmailsUnique(t.rows) && IdentitiesUnique(t.rows) && AppIdsUnique(t.rows) && RowsNumbered(t)
  }

  // ---- Lookups ----

  ghost function FindByEmail(rows: map<UserId, User>, email: string): (found: Option<UserId>)
    ensures found.Some? ==> found.value in rows && rows[found.value].email == email
    ensures found.None? ==> forall id :: id in rows ==> rows[id].email != email
  {
    if id :| id in rows && rows[id].email == email then Some(id) else None
  }

  ghost function FindByIdentity(rows: map<UserId, User>, identity: Identity): (found: Option<UserId>)
    ensures found.Some? ==> found.value in rows && rows[found.value].identity == identity
    ensures found.None? ==> forall id :: id in rows ==> rows[id].identity != identity
  {
    if id :| id in rows && rows[id].identity == identity then Some(id) else None
  }

  /** The account a login is about: the one with its identity, else the one with
      its e-mail when that is verified. */
  ghost function Target(rows: map<UserId, User>, p: Profile): Option<UserId> {
    var own := FindByIdentity(rows, p.identity);
    if own.Some? then own
    else if p.emailVerified then FindByEmail(rows, p.email)
    else None
  }

  /** Some row other than `id` holds the e-mail. */
  ghost predicate EmailHeldByOther(rows: map<UserId, User>, email: string, id: Option<UserId>) {
    exists other :: other in rows && rows[other].email == email && id != Some(other)
  }

  // ---- Row values ----

  function Relinked(u: User, p: Profile, now: Time): User {
    u.(email := p.email,
       name := if p.name == "" then u.name else p.name,
       avatar := if p.avatar == "" then u.avatar else p.avatar,
       identity := p.identity,
       lastLogin := Some(now))
  }

  function FirstLogin(p: Profile, id: UserId, appId: int, now: Time): User {
    User(id, appId, p.email, p.name, p.avatar, p.identity, Some(DEFAULT_ROLES), true, now, Some(now))
  }

  function Drafted(d: Draft, id: UserId, appId: int, now: Time): User {
    User(id, appId, d.email, d.name, d.avatar, d.identity,
         Some(if d.roles == [] then DEFAULT_ROLES else d.roles), d.active, now, None)
  }

  function Patched(u: User, patch: Patch): User {
    u.(email := patch.email, name := patch.name, avatar := patch.avatar, roles := patch.roles, active := patch.active)
  }

  // ---- Statements ----

  /** INSERT: the sequence advances even when a constraint then refuses the row. */
  ghost function Insert(t: Accounts, row: User): Write {
    var t' := t.(nextAppId := t.nextAppId + 1);
    if row.id in t.rows then Write(t', Err(Violates(PrimaryKey)))
    else if FindByEmail(t.rows, row.email).Some? then Write(t', Err(Violates(EmailKey)))
    else if FindByIdentity(t.rows, row.identity).Some? then Write(t', Err(Violates(ProviderKey)))
    else Write(t'.(rows := t.rows[row.id := row]), Ok(row))
  }

  /** The login upsert, read as a lookup by identity and then by verified e-mail. */
  ghost function Upsert(t: Accounts, p: Profile, newId: UserId, now: Time): Write {
    match Target(t.rows, p)
    case Some(id) =>
      if EmailHeldByOther(t.rows, p.email, Some(id)) then Write(t, Err(Violates(EmailKey)))
      else
        var row := Relinked(t.rows[id], p, now);
        Write(t.(rows := t.rows[id := row]), Ok(row))
    case None => Insert(t, FirstLogin(p, newId, t.nextAppId, now))
  }

  ghost function Create(t: Accounts, d: Draft, newId: UserId, now: Time): Write {
    Insert(t, Drafted(d, newId, t.nextAppId, now))
  }

  ghost function Update(t: Accounts, id: UserId, patch: Patch): Write {
    if id !in t.rows then Write(t, Err(NoRows))
    else if EmailHeldByOther(t.rows, patch.email, Some(id)) then Write(t, Err(Violates(EmailKey)))
    else
      var row := Patched(t.rows[id], patch);
      Write(t.(rows := t.rows[id := row]), Ok(row))
  }

  /** `$2 = ANY(NULL)` is NULL, so a row with NULL roles is never selected. */
  function AddRole(t: Accounts, id: UserId, role: string): Write {
    if id in t.rows && t.rows[id].roles.Some? && role !in t.rows[id].roles.value then
      var row := t.rows[id].(roles := Some(t.rows[id].roles.value + [role]));
      Write(t.(rows := t.rows[id := row]), Ok(row))
    else Write(t, Err(NoRows))
  }

  // ---- What the statements keep ----

  lemma {:induction false} InsertKeepsKeys(t: Accounts, row: User)
    requires Valid(t) && row.appId == t.nextAppId
    ensures Valid(Insert(t, row).table)
  {
    var rows' := Insert(t, row).table.rows;
    if rows' != t.rows {
      assert rows' == t.rows[row.id := row];
      assert forall id :: id in t.rows ==> t.rows[id].email != row.email && t.rows[id].identity != row.identity;
      assert EmailsUnique(rows') && IdentitiesUnique(rows');
    }
  }

  lemma {:induction false} UpsertKeepsKeys(t: Accounts, p: Profile, newId: UserId, now: Time)
    requires Valid(t)
    ensures Valid(Upsert(t, p, newId, now).table)
  {
    match Target(t.rows, p)
    case Some(id) =>
      var rows' := Upsert(t, p, newId, now).table.rows;
      forall a, b | a in rows' && b in rows' && rows'[a].identity == rows'[b].identity
        ensures a == b
      {
        // a row with p's identity can only be the target
        var own := FindByIdentity(t.rows, p.identity);
        assert own.Some? ==> own.value == id;
      }
    case None => InsertKeepsKeys(t, FirstLogin(p, newId, t.nextAppId, now));
  }

  lemma {:induction false} UpdateKeepsKeys(t: Accounts, id: UserId, patch: Patch)
    requires Valid(t)
    ensures Valid(Update(t, id, patch).table)
  {
  }

  lemma {:induction false} AddRoleKeepsKeys(t: Accounts, id: UserId, role: string)
    requires Valid(t)
    ensures Valid(AddRole(t, id, role).table)
  {
  }

  lemma {:induction false} DeleteKeepsKeys(t: Accounts, id: UserId)
    requires Valid(t)
    ensures Valid(t.(rows := t.rows - {id}))
  {
  }

  /** The rule of the login upsert: with a fresh id it can only be refused for its
      e-mail, exactly when a row other than the chosen target holds it; then no row
      changes. Otherwise one row is returned, it carries the login's identity and
      e-mail, and it is the target or a new row. */
  lemma {:induction false} UpsertRule(t: Accounts, p: Profile, newId: UserId, now: Time)
    requires Valid(t) && newId !in t.rows
    ensures var w := Upsert(t, p, newId, now);
      var target := Target(t.rows, p);
      && (w.result.Err? <==> EmailHeldByOther(t.rows, p.email, target))
      && (w.result.Err? ==> w.result.error == Violates(EmailKey) && w.table.rows == t.rows)
      && w.table.nextAppId == (if target.Some? then t.nextAppId else t.nextAppId + 1)
      && (w.result.Ok? ==>
        var row := w.result.value;
        && row.id == (if target.Some? then target.value else newId)
        && row.identity == p.identity && row.email == p.email
        && w.table.rows == t.rows[row.id := row]
        && row.lastLogin == Some(now)
        && (p.name != "" ==> row.name == p.name) && (p.avatar != "" ==> row.avatar == p.avatar)
        && (target.Some? ==>
          var was := t.rows[row.id];
          && row.roles == was.roles && row.active == was.active
          && row.appId == was.appId && row.createdAt == was.createdAt
          && (p.name == "" ==> row.name == was.name) && (p.avatar == "" ==> row.avatar == was.avatar))
        && (target.None? ==>
          && row.roles == Some(["user"]) && row.active && row.appId == t.nextAppId && row.createdAt == now
          && row.name == p.name && row.avatar == p.avatar))
  {
  }

  /** An administrator's update succeeds exactly when the user exists and nobody else
      holds the new e-mail; it overwrites five columns of one row and nothing more. */
  lemma {:induction false} UpdateRule(t: Accounts, id: UserId, patch: Patch)
    requires Valid(t)
    ensures var w := Update(t, id, patch);
      && (w.result.Ok? <==>
            (id in t.rows && forall other :: other in t.rows && t.rows[other].email == patch.email ==> other == id))
      && (w.result.Err? ==> w.table == t && w.result.error == if id in t.rows then Violates(EmailKey) else NoRows)
      && (w.result.Ok? ==>
        var was, row := t.rows[id], w.result.value;
        && w.table == t.(rows := t.rows[id := row])
        && row.email == patch.email && row.name == patch.name && row.avatar == patch.avatar
        && row.roles == patch.roles && row.active == patch.active
        && row.id == was.id && row.appId == was.appId && row.identity == was.identity
        && row.createdAt == was.createdAt && row.lastLogin == was.lastLogin)
  {
  }

  /** Creating a user by hand succeeds exactly when its id, its e-mail and its identity
      pair are all free. Administrators choose no provider id, so each provider name has
      room for one such user: a second one collides on `unique_provider`. The sequence value
      is spent even when the row is refused. */
  lemma {:induction false} CreateRule(t: Accounts, d: Draft, newId: UserId, now: Time)
    requires Valid(t)
    ensures var w := Create(t, d, newId, now);
      && (w.result.Ok? <==>
            (newId !in t.rows && forall other :: other in t.rows ==>
              t.rows[other].email != d.email && t.rows[other].identity != d.identity))
      && w.table.nextAppId == t.nextAppId + 1
      && (w.result.Err? ==>
        && w.table.rows == t.rows
        && w.result.error == Violates(
             if newId in t.rows then PrimaryKey
             else if exists other :: other in t.rows && t.rows[other].email == d.email then EmailKey
             else ProviderKey))
      && (w.result.Ok? ==>
        var row := w.result.value;
        && w.table.rows == t.rows[newId := row]
        && row.id == newId && row.appId == t.nextAppId && row.email == d.email && row.identity == d.identity
        && row.name == d.name && row.avatar == d.avatar && row.active == d.active
        && row.roles == Some(if d.roles == [] then ["user"] else d.roles)
        && row.createdAt == now && row.lastLogin == None)
  {
  }

  /** A login leaves everyone's roles, activity and app id as they were, and answers
      with the row it wrote. */
  lemma {:induction false} UpsertRows(t: Accounts, p: Profile, newId: UserId, now: Time)
    requires RowsNumbered(t)
    ensures var w := Upsert(t, p, newId, now);
      && (forall id :: id in t.rows ==> id in w.table.rows)
      && (forall id :: id in t.rows ==>
        && w.table.rows[id].roles == t.rows[id].roles
        && w.table.rows[id].active == t.rows[id].active
        && w.table.rows[id].appId == t.rows[id].appId)
      && (w.result.Ok? ==>
        var row := w.result.value;
        row.id in w.table.rows && w.table.rows[row.id] == row && row.identity == p.identity)
  {
  }

  /** The same rule without the target. A verified login is refused exactly when one
      account has its identity and a different one its e-mail; an unverified login
      exactly when an account of another identity has its e-mail. */
  lemma {:induction false} RefusedLogins(t: Accounts, p: Profile, newId: UserId, now: Time)
    requires Valid(t) && newId !in t.rows
    ensures Upsert(t, p, newId, now).result.Err? <==>
      exists other :: && other in t.rows && t.rows[other].email == p.email && t.rows[other].identity != p.identity
                      && (p.emailVerified ==> exists own :: own in t.rows && t.rows[own].identity == p.identity)
  {
  }
}
