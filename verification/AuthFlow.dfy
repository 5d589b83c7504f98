/** The decisions of the login flows, one per atomic stretch of the handlers. */
module AuthFlow {
  import opened Values
  import opened Accounts
  import opened Database
  import opened StateStores
  import opened Redirects

  /** Configured providers, bootstrap administrators (parsed), redirect allowlist, lifetimes. */
  datatype Config = Config(
    providers: set<string>, admins: set<string>, allow: Allowlist, stateTtl: Time, sessionTtl: Time)

  datatype AuthError = ProviderFailure | EmailTaken | Disabled | StoreFailure(error: DbError)

  /** The answers of the browser endpoints and of the RPC callback. */
  datatype Answer =
    | UnknownProvider
    | RedirectNotAllowed
    | ToProvider(state: string)
    | ProviderRefused
    | BadState
    | MissingCode
    | LoginFailed(error: AuthError)
    | SessionFailed
    | SignedIn(redirectURI: string)
    | Token(claims: Claims)

  /** Signed JWT claims; signing and parsing are inverse to each other. */
  datatype Claims = Claims(userId: int, email: string, isAdmin: bool)

  function ClaimsOf(u: User): Claims {
    Claims(u.appId, u.email, u.Holds(ADMIN_ROLE))
  }

  /** What a provider's fetcher reports; the provider name is the fetcher's own. */
  datatype Fetched = Fetched(providerId: string, email: string, name: string, avatar: string, emailVerified: bool)

  function ProfileOf(provider: string, f: Fetched): Profile {
    Profile(Identity(provider, f.providerId), f.email, f.name, f.avatar, f.emailVerified)
  }

  // ---- Start ----

  /** Browser start: the redirect to store, or a refusal. */
  function BrowserStart(cfg: Config, provider: string, redirectURI: string): Result<string, Answer> {
    if provider !in cfg.providers then Err(UnknownProvider)
    else if !Allowed(cfg.allow, OrHome(redirectURI)) then Err(RedirectNotAllowed)
    else Ok(OrHome(redirectURI))
  }

  // ---- Callback, up to the consumed state ----

  datatype Begun = Begun(states: States, outcome: Result<string, Answer>)

  function BrowserBegin(
      cfg: Config, states: States, provider: string, providerError: string, state: string, code: string,
      now: Time): Begun
  {
    if providerError != "" then Begun(states, Err(ProviderRefused))
    else Begun(
      states - {state},
      match Verdict(states, state, provider, now)
      case None => Err(BadState)
      case Some(uri) =>
        if !Allowed(cfg.allow, OrHome(uri)) then Err(RedirectNotAllowed)
        else if code == "" then Err(MissingCode)
        else Ok(OrHome(uri)))
  }

  function RpcBegin(states: States, provider: string, state: string, now: Time): Begun {
    Begun(states - {state}, if Verdict(states, state, provider, now).Some? then Ok("") else Err(BadState))
  }

  // ---- Authentication ----

  datatype Admitted = Admitted(db: Db, outcome: Result<User, AuthError>)

  /** Exchange and fetch, then the upsert, then the active check on its row. A disabled
      user's row has been updated by then. */
  ghost function Admit(
      cfg: Config, db: Db, provider: string, fetched: Option<Fetched>, newId: UserId, now: Time): Admitted
  {
    if provider !in cfg.providers || fetched.None? || fetched.value.email == "" then Admitted(db, Err(ProviderFailure))
    else
      var o := Exec(db, Login(ProfileOf(provider, fetched.value), newId), now);
      Admitted(o.db,
        match o.reply
        case UserRow(u) => if u.active then Ok(u) else Err(Disabled)
        case Failed(e) => Err(if e == Violates(EmailKey) then EmailTaken else StoreFailure(e))
        case _ => Err(ProviderFailure))
  }

  datatype Granted = Granted(db: Db, user: User)

  /** The bootstrap grant: only for listed e-mails, only when the role is missing. */
  ghost function Bootstrap(cfg: Config, db: Db, user: User, now: Time): Granted {
    if ToLower(user.email) !in cfg.admins then Granted(db, user)
    else
      var o := Exec(db, GrantRole(user.id, ADMIN_ROLE), now);
      if o.reply.UserRow? then Granted(o.db, o.reply.user) else Granted(o.db, user)
  }

  ghost function Authenticate(
      cfg: Config, db: Db, provider: string, fetched: Option<Fetched>, newId: UserId, now: Time): Admitted
  {
    var a := Admit(cfg, db, provider, fetched, newId, now);
    if a.outcome.Err? then a
    else
      var g := Bootstrap(cfg, a.db, a.outcome.value, now);
      Admitted(g.db, Ok(g.user))
  }

  // ---- Whole callbacks, run without interruption ----

  datatype Callback = Callback(db: Db, states: States, answer: Answer)

  /** From an accepted state on: the login, then a session for its account. */
  ghost function BrowserRest(
      cfg: Config, db: Db, states: States, provider: string, redirectURI: string,
      fetched: Option<Fetched>, newId: UserId, sessionToken: string, now: Time): Callback
  {
    var a := Authenticate(cfg, db, provider, fetched, newId, now);
    match a.outcome
    case Err(e) => Callback(a.db, states, LoginFailed(e))
    case Ok(user) =>
      var o := Exec(a.db, CreateSession(sessionToken, user.id, cfg.sessionTtl), now);
      Callback(o.db, states, if o.reply.Hit() then SignedIn(redirectURI) else SessionFailed)
  }

  ghost function BrowserCallback(
      cfg: Config, db: Db, states: States, provider: string, providerError: string, state: string, code: string,
      fetched: Option<Fetched>, newId: UserId, sessionToken: string, now: Time): Callback
  {
    var b := BrowserBegin(cfg, states, provider, providerError, state, code, now);
    match b.outcome
    case Err(answer) => Callback(db, b.states, answer)
    case Ok(redirectURI) =>
      BrowserRest(cfg, db, b.states, provider, redirectURI, fetched, newId, sessionToken, now)
  }

  /** From an accepted state on: the login, then a JWT for its account. */
  ghost function RpcRest(
      cfg: Config, db: Db, states: States, provider: string,
      fetched: Option<Fetched>, newId: UserId, now: Time): Callback
  {
    var a := Authenticate(cfg, db, provider, fetched, newId, now);
    Callback(a.db, states, match a.outcome case Err(e) => LoginFailed(e) case Ok(user) => Token(ClaimsOf(user)))
  }

  ghost function RpcCallback(
      cfg: Config, db: Db, states: States, provider: string, state: string,
      fetched: Option<Fetched>, newId: UserId, now: Time): Callback
  {
    var b := RpcBegin(states, provider, state, now);
    if b.outcome.Err? then Callback(db, b.states, b.outcome.error)
    else RpcRest(cfg, db, b.states, provider, fetched, newId, now)
  }

  // ---- Using credentials ----

  /** The claims a session cookie is worth, in two statements: a good session as of `first`,
      whose user is active as of `second`. */
  ghost function Mint(first: Db, second: Db, cookie: string, now: Time): Option<Claims> {
    var o := BumpSession(first, cookie, now);
    if cookie == "" || !o.reply.SessionRow? || o.reply.session.userId !in second.Users() then None
    else
      var u := second.Users()[o.reply.session.userId];
      if u.active then Some(ClaimsOf(u)) else None
  }

  /** The account a presented JWT stands for, if that is active. */
  ghost function ValidateToken(db: Db, claims: Claims): Option<User> {
    var id := FindByAppId(db, claims.userId);
    if id.Some? && db.Users()[id.value].active then Some(db.Users()[id.value]) else None
  }

  // ---- What authentication grants ----

  /** Roles seen as a bag; NULL is the empty one. */
  function RoleBag(roles: Option<seq<string>>): multiset<string> {
    if roles.Some? then multiset(roles.value) else multiset{}
  }

  /** AddRole adds a missing role once, to one row, and to nothing else; doing it again
      does nothing. Rows with NULL roles are left alone. */
  lemma {:induction false} AddRoleExactly(t: Accounts, id: UserId, role: string)
    requires id in t.rows
    ensures var w := AddRole(t, id, role);
      var before, after := t.rows[id].roles, w.table.rows[id].roles;
      && w.table.rows.Keys == t.rows.Keys && w.table.nextAppId == t.nextAppId
      && (forall u :: u in t.rows && u != id ==> w.table.rows[u] == t.rows[u])
      && w.table.rows[id] == t.rows[id].(roles := after)
      && (before.None? ==> after.None?)
      && (before.Some? ==> after.Some? && role in after.value)
      && (forall r :: r != role ==> RoleBag(after)[r] == RoleBag(before)[r])
      && (before.Some? && role !in before.value ==> after == Some(before.value + [role]) && RoleBag(after)[role] == 1)
      && (before.Some? && role in before.value ==> RoleBag(after)[role] == RoleBag(before)[role])
      && w.result == (if before.Some? && role !in before.value then Ok(w.table.rows[id]) else Err(NoRows))
      && AddRole(w.table, id, role).table == w.table
  {
  }

  lemma {:induction false} AdmitRow(
      cfg: Config, db: Db, provider: string, fetched: Option<Fetched>, newId: UserId, now: Time)
    requires Consistent(db)
    ensures var a := Admit(cfg, db, provider, fetched, newId, now);
      && (forall id :: id in db.Users() ==> id in a.db.Users() && a.db.Users()[id].roles == db.Users()[id].roles
                                            && a.db.Users()[id].active == db.Users()[id].active)
      && (a.outcome.Ok? ==> a.outcome.value.active && a.outcome.value.identity.provider == provider
                            && a.outcome.value.id in a.db.Users()
                            && a.db.Users()[a.outcome.value.id] == a.outcome.value)
  {
    if provider in cfg.providers && fetched.Some? && fetched.value.email != "" {
      var p := ProfileOf(provider, fetched.value);
      assert RowsNumbered(db.accounts);
      hide Consistent;
      UpsertRows(db.accounts, p, newId, now);
      assert Exec(db, Login(p, newId), now) == OfWrite(db, Upsert(db.accounts, p, newId, now));
      hide Upsert, Exec;
    }
  }

  /** Admission, case by case: a login is refused as a taken e-mail exactly when the
      upsert is, and then changes no row; as disabled exactly when it found an inactive
      account, whose row it has brought up to date all the same. */
  lemma {:induction false} AdmitCases(cfg: Config, db: Db, provider: string, fetched: Fetched, newId: UserId, now: Time)
    requires Consistent(db) && newId !in db.Users()
    requires provider in cfg.providers && fetched.email != ""
    ensures var p := Profile(Identity(provider, fetched.providerId), fetched.email, fetched.name, fetched.avatar,
                        fetched.emailVerified);
      var a := Admit(cfg, db, provider, Some(fetched), newId, now);
      var target := Target(db.Users(), p);
      var refused := EmailHeldByOther(db.Users(), p.email, target);
      var sleeping := !refused && target.Some? && !db.Users()[target.value].active;
      && (a.outcome == Err(EmailTaken) <==> refused)
      && (a.outcome == Err(Disabled) <==> sleeping)
      && (a.outcome.Ok? <==> !refused && !sleeping)
      && (refused ==> a.db.Users() == db.Users())
      && (sleeping ==> a.db.Users()[target.value].identity == p.identity && a.db.Users()[target.value].email == p.email
                       && a.db.Users()[target.value].lastLogin == Some(now))
      && (a.outcome.Ok? ==> a.outcome.value.identity == p.identity
                            && a.outcome.value.id == if target.Some? then target.value else newId)
  {
    var p := ProfileOf(provider, fetched);
    UpsertRule(db.accounts, p, newId, now);
    assert Exec(db, Login(p, newId), now) == OfWrite(db, Upsert(db.accounts, p, newId, now));
    hide Exec, Upsert, Consistent, Target, EmailHeldByOther;
  }

  /** A login goes past the provider exactly when that is configured, a profile was fetched,
      and it has an e-mail; otherwise nothing is written. */
  lemma {:induction false} ProviderFails(
      cfg: Config, db: Db, provider: string, fetched: Option<Fetched>, newId: UserId, now: Time)
    ensures var a := Admit(cfg, db, provider, fetched, newId, now);
      var failed := provider !in cfg.providers || fetched.None? || fetched.value.email == "";
      && (a.outcome == Err(ProviderFailure) <==> failed)
      && (failed ==> a.db == db)
  {
  }

  /** A login that has an account: by its identity, whatever its e-mail; or, when nobody has
      that identity, by an e-mail the provider reports as verified. The account takes the
      identity and the e-mail reported, and name and avatar unless blank; it signs in if it
      is active, and is refused, unchanged, if another account has that e-mail. */
  lemma {:induction false} KnownLogin(
      cfg: Config, db: Db, provider: string, fetched: Fetched, newId: UserId, now: Time, x: UserId)
    requires Consistent(db) && newId !in db.Users() && x in db.Users()
    requires provider in cfg.providers && fetched.email != ""
    requires
      || db.Users()[x].identity == Identity(provider, fetched.providerId)
      || (&& fetched.emailVerified && db.Users()[x].email == fetched.email
          && forall id :: id in db.Users() ==> db.Users()[id].identity != Identity(provider, fetched.providerId))
    ensures var a := Admit(cfg, db, provider, Some(fetched), newId, now);
      var was := db.Users()[x];
      var row := User(x, was.appId, fetched.email,
                      if fetched.name == "" then was.name else fetched.name,
                      if fetched.avatar == "" then was.avatar else fetched.avatar,
                      Identity(provider, fetched.providerId), was.roles, was.active, was.createdAt, Some(now));
      if exists other :: other in db.Users() && other != x && db.Users()[other].email == fetched.email
      then a.db.Users() == db.Users() && a.outcome == Err(EmailTaken)
      else a.db.Users() == db.Users()[x := row] && a.outcome == if was.active then Ok(row) else Err(Disabled)
  {
    var p := ProfileOf(provider, fetched);
    assert Target(db.Users(), p) == Some(x) && RowsNumbered(db.accounts);
    assert EmailHeldByOther(db.Users(), p.email, Some(x)) <==>
      exists other :: other in db.Users() && other != x && db.Users()[other].email == fetched.email;
    UpsertRule(db.accounts, p, newId, now);
    assert Exec(db, Login(p, newId), now) == OfWrite(db, Upsert(db.accounts, p, newId, now));
    hide Exec, Upsert, Consistent, Target, EmailHeldByOther;
  }

  /** A login that has none opens an account as reported, active and with role "user", or is
      refused, unchanged, if some account has the e-mail. */
  lemma {:induction false} NewcomerLogin(
      cfg: Config, db: Db, provider: string, fetched: Fetched, newId: UserId, now: Time)
    requires Consistent(db) && newId !in db.Users()
    requires provider in cfg.providers && fetched.email != ""
    requires forall id :: id in db.Users() ==>
      && db.Users()[id].identity != Identity(provider, fetched.providerId)
      && !(fetched.emailVerified && db.Users()[id].email == fetched.email)
    ensures var a := Admit(cfg, db, provider, Some(fetched), newId, now);
      var row := User(newId, db.accounts.nextAppId, fetched.email, fetched.name, fetched.avatar,
                      Identity(provider, fetched.providerId), Some(["user"]), true, now, Some(now));
      if exists other :: other in db.Users() && db.Users()[other].email == fetched.email
      then a.db.Users() == db.Users() && a.outcome == Err(EmailTaken)
      else a.db.Users() == db.Users()[newId := row] && a.outcome == Ok(row)
  {
    var p := ProfileOf(provider, fetched);
    assert Target(db.Users(), p) == None;
    hide Consistent, Target;
  }

  /** Bootstrap in terms of the accounts alone. */
  lemma {:induction false} BootstrapWrites(cfg: Config, db: Db, user: User, now: Time)
    ensures var g := Bootstrap(cfg, db, user, now);
      var w := AddRole(db.accounts, user.id, ADMIN_ROLE);
      if ToLower(user.email) in cfg.admins && w.result.Ok?
      then g == Granted(db.(accounts := w.table), w.result.value)
      else g == Granted(db, user)
  {
  }

  /** An admitted row has the e-mail presented, and the roles of its target or the default. */
  lemma {:induction false} AdmittedRoles(
      cfg: Config, db: Db, provider: string, fetched: Fetched, newId: UserId, now: Time)
    requires Consistent(db) && newId !in db.Users()
    requires Admit(cfg, db, provider, Some(fetched), newId, now).outcome.Ok?
    ensures var user := Admit(cfg, db, provider, Some(fetched), newId, now).outcome.value;
      var p := Profile(Identity(provider, fetched.providerId), fetched.email, fetched.name, fetched.avatar,
                        fetched.emailVerified);
      var target := Target(db.Users(), p);
      && user.email == fetched.email
      && user.roles == if target.Some? then db.Users()[target.value].roles else Some(DEFAULT_ROLES)
  {
    var p := ProfileOf(provider, fetched);
    UpsertRule(db.accounts, p, newId, now);
    assert Exec(db, Login(p, newId), now) == OfWrite(db, Upsert(db.accounts, p, newId, now));
    hide Exec, Upsert, Consistent, Target, EmailHeldByOther;
  }

  /** The bootstrap grant: a successful login with a listed e-mail ends with admin held, in
      the answer as in the table, exactly when it opens an account or finds one whose roles
      are not NULL. */
  lemma {:induction false} ListedLoginEndsAdmin(
      cfg: Config, db: Db, provider: string, fetched: Fetched, newId: UserId, now: Time)
    requires Consistent(db) && newId !in db.Users()
    requires ToLower(fetched.email) in cfg.admins
    requires Authenticate(cfg, db, provider, Some(fetched), newId, now).outcome.Ok?
    ensures var a := Authenticate(cfg, db, provider, Some(fetched), newId, now);
      var p := Profile(Identity(provider, fetched.providerId), fetched.email, fetched.name, fetched.avatar,
                        fetched.emailVerified);
      var target := Target(db.Users(), p);
      var user := a.outcome.value;
      && (user.Holds(ADMIN_ROLE) <==> (target.Some? ==> db.Users()[target.value].roles.Some?))
      && user.id == (if target.Some? then target.value else newId)
      && user.id in a.db.Users() && a.db.Users()[user.id] == user
  {
    var a := Admit(cfg, db, provider, Some(fetched), newId, now);
    AdmitRow(cfg, db, provider, Some(fetched), newId, now);
    AdmitCases(cfg, db, provider, fetched, newId, now);
    AdmittedRoles(cfg, db, provider, fetched, newId, now);
    hide Admit, Consistent, ToLower, Target, EmailHeldByOther;
    BootstrapWrites(cfg, a.db, a.outcome.value, now);
    hide Bootstrap;
  }

  /** Who ends a login as an administrator: with the e-mail free but for the login's target,
      an active target that holds admin, or is granted it as listed with non-NULL roles; or,
      when the login has no target, a new account of any listed e-mail. */
  lemma {:induction false} EndsAdminExactly(
      cfg: Config, db: Db, provider: string, fetched: Fetched, newId: UserId, now: Time)
    requires Consistent(db) && newId !in db.Users()
    requires provider in cfg.providers && fetched.email != ""
    ensures var a := Authenticate(cfg, db, provider, Some(fetched), newId, now);
      var p := Profile(Identity(provider, fetched.providerId), fetched.email, fetched.name, fetched.avatar,
                        fetched.emailVerified);
      var target := Target(db.Users(), p);
      var listed := ToLower(fetched.email) in cfg.admins;
      a.outcome.Ok? && a.outcome.value.Holds(ADMIN_ROLE) <==>
        && !EmailHeldByOther(db.Users(), fetched.email, target)
        && match target
           case Some(id) =>
             var row := db.Users()[id];
             row.active && (row.Holds(ADMIN_ROLE) || (listed && row.roles.Some?))
           case None => listed
  {
    var p := ProfileOf(provider, fetched);
    var a := Admit(cfg, db, provider, Some(fetched), newId, now);
    AdmitCases(cfg, db, provider, fetched, newId, now);
    if ToLower(fetched.email) in cfg.admins {
      if a.outcome.Ok? {
        ListedLoginEndsAdmin(cfg, db, provider, fetched, newId, now);
      }
    } else if a.outcome.Ok? {
      AdmittedRoles(cfg, db, provider, fetched, newId, now);
    }
    hide Admit, Upsert, Consistent, ToLower, Target, EmailHeldByOther;
  }

  /** Without a verified e-mail: an identity that has no account signs in as an administrator
      exactly when the list, which ignores case, has the e-mail it presents and no row, by
      the table's exact comparison, does. */
  lemma {:induction false} UnverifiedNewcomerAdmin(
      cfg: Config, db: Db, provider: string, fetched: Fetched, newId: UserId, now: Time)
    requires Consistent(db) && newId !in db.Users()
    requires provider in cfg.providers && fetched.email != "" && !fetched.emailVerified
    requires forall id :: id in db.Users() ==> db.Users()[id].identity != Identity(provider, fetched.providerId)
    ensures var a := Authenticate(cfg, db, provider, Some(fetched), newId, now);
      a.outcome.Ok? && a.outcome.value.Holds(ADMIN_ROLE) <==>
        && ToLower(fetched.email) in cfg.admins
        && forall id :: id in db.Users() ==> db.Users()[id].email != fetched.email
  {
    EndsAdminExactly(cfg, db, provider, fetched, newId, now);
    hide Authenticate, Consistent, ToLower;
  }

  /** So beside a listed administrator, a stranger presenting that address in other letter
      case, unverified, becomes a second one. */
  lemma {:induction false} CaseVariantBecomesAdmin(
      cfg: Config, db: Db, x: UserId, provider: string, fetched: Fetched, newId: UserId, now: Time)
    requires Consistent(db) && newId !in db.Users() && x in db.Users()
    requires provider in cfg.providers && fetched.email != "" && !fetched.emailVerified
    requires forall id :: id in db.Users() ==> db.Users()[id].identity != Identity(provider, fetched.providerId)
    requires ToLower(db.Users()[x].email) in cfg.admins && ToLower(fetched.email) == ToLower(db.Users()[x].email)
    requires forall id :: id in db.Users() ==> db.Users()[id].email != fetched.email
    ensures var a := Authenticate(cfg, db, provider, Some(fetched), newId, now);
      && a.outcome.Ok? && a.outcome.value.id == newId && a.outcome.value.Holds(ADMIN_ROLE)
      && newId in a.db.Users() && a.db.Users()[newId] == a.outcome.value
  {
    UnverifiedNewcomerAdmin(cfg, db, provider, fetched, newId, now);
    ListedLoginEndsAdmin(cfg, db, provider, fetched, newId, now);
    hide Authenticate, Consistent, ToLower;
  }

  /** No login removes a role from anyone, and the only role one adds is admin, to the
      active listed user who just signed in. */
  lemma {:induction false} LoginsOnlyGrant(
      cfg: Config, db: Db, provider: string, fetched: Option<Fetched>, newId: UserId, now: Time, id: UserId)
    requires Consistent(db) && id in db.Users()
    ensures var a := Authenticate(cfg, db, provider, fetched, newId, now);
      && id in a.db.Users()
      && (forall r :: RoleBag(a.db.Users()[id].roles)[r] >= RoleBag(db.Users()[id].roles)[r])
      && (a.db.Users()[id].roles != db.Users()[id].roles ==>
        && a.outcome.Ok? && a.outcome.value.id == id
        && a.db.Users()[id].active
        && ToLower(a.db.Users()[id].email) in cfg.admins
        && RoleBag(a.db.Users()[id].roles) == RoleBag(db.Users()[id].roles) + multiset{ADMIN_ROLE})
  {
    hide Admit, Bootstrap, Consistent, ToLower;
    var a := Admit(cfg, db, provider, fetched, newId, now);
    AdmitRow(cfg, db, provider, fetched, newId, now);
    if a.outcome.Ok? {
      var u := a.outcome.value;
      BootstrapWrites(cfg, a.db, u, now);
      var w := AddRole(a.db.accounts, u.id, ADMIN_ROLE);
      if w.table != a.db.accounts {
        assert RoleBag(w.table.rows[u.id].roles) == RoleBag(u.roles) + multiset{ADMIN_ROLE};
      }
    }
  }
}
