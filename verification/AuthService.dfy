/** The login handlers as the service runs them, over the shared state store and
    database. Each is proved equal to its value-level description in AuthFlow. */
module AuthServices {
  import opened Values
  import opened Accounts
  import opened Database
  import opened StateStores
  import opened Redirects
  import opened AuthFlow
  import opened AuthDatabases

  class AuthService {
    const cfg: Config
    const states: StateStore
    const db: AuthDatabase

    constructor (cfg: Config, db: AuthDatabase, states: StateStore)
      ensures this.cfg == cfg && this.db == db && this.states == states
    {
      this.cfg, this.db, this.states := cfg, db, states;
    }

    ghost predicate Valid()
      reads this, db, db.users, states
    {
      db.Valid() && states.ttl == cfg.stateTtl
    }

    method EnsureBootstrapAdmin(user: User, now: Time) returns (r: User)
      requires Valid()
      modifies db.users
      ensures Valid()
      ensures Granted(db.Snapshot(), r) == Bootstrap(cfg, old(db.Snapshot()), user, now)
    {
      BootstrapWrites(cfg, db.Snapshot(), user, now);
      hide Bootstrap, ToLower;
      if ToLower(user.email) !in cfg.admins {
        return user;
      }
      var updated := db.AddRole(user.id, ADMIN_ROLE);
      match updated
      case None => r := user;
      case Some(u) => r := u;
    }

    /** `fetched` is what the code exchange and the profile fetch come to. */
    method AuthenticateOAuthUser(provider: string, fetched: Option<Fetched>, newId: UserId, now: Time)
      returns (r: Result<User, AuthError>)
      requires Valid()
      modifies db.users
      ensures Valid()
      ensures Admitted(db.Snapshot(), r) == Authenticate(cfg, old(db.Snapshot()), provider, fetched, newId, now)
    {
      hide Bootstrap;
      if provider !in cfg.providers {
        return Err(ProviderFailure);
      }
      if fetched.None? || fetched.value.email == "" {
        return Err(ProviderFailure);
      }
      ghost var before := db.Snapshot();
      var info := ProfileOf(provider, fetched.value);
      var upserted := db.UpsertByProvider(info, newId, now);
      assert Exec(before, Login(info, newId), now) == OfWrite(before, Upsert(before.accounts, info, newId, now));
      hide Exec, Upsert;
      match upserted
      case Err(EmailInUse) => return Err(EmailTaken);
      case Err(Sql(e)) => return Err(StoreFailure(e));
      case Ok(user) =>
        if !user.active {
          return Err(Disabled);
        }
        var granted := EnsureBootstrapAdmin(user, now);
        r := Ok(granted);
    }

    method HandleOAuthStart(provider: string, redirectURI: string, state: string, now: Time) returns (answer: Answer)
      requires Valid()
      modifies states
      ensures Valid()
      ensures match BrowserStart(cfg, provider, redirectURI)
        case Err(refusal) => answer == refusal && states.states == old(states.states)
        case Ok(uri) => && answer == ToProvider(state)
                        && states.states == old(states.states)[state := StateEntry(provider, uri, now + cfg.stateTtl)]
    {
      if provider !in cfg.providers {
        return UnknownProvider;
      }
      var uri := if redirectURI == "" then "/" else redirectURI;
      if !Allowed(cfg.allow, uri) {
        return RedirectNotAllowed;
      }
      states.GenerateWithRedirect(state, provider, uri, now);
      answer := ToProvider(state);
    }

    method HandleOAuthCallback(provider: string, providerError: string, state: string, code: string,
                               fetched: Option<Fetched>, newId: UserId, sessionToken: string, now: Time)
      returns (answer: Answer)
      requires Valid()
      modifies states, db, db.users
      ensures Valid()
      ensures Callback(db.Snapshot(), states.states, answer) ==
        BrowserCallback(cfg, old(db.Snapshot()), old(states.states), provider, providerError, state, code,
                        fetched, newId, sessionToken, now)
    {
      hide Authenticate, Allowed, OpenSession, AuthDatabase.Valid;
      if providerError != "" {
        return ProviderRefused;
      }
      var redirectURI, ok := states.ValidateAndConsume(state, provider, now);
      if !ok {
        return BadState;
      }
      if redirectURI == "" {
        redirectURI := "/";
      }
      if !Allowed(cfg.allow, redirectURI) {
        return RedirectNotAllowed;
      }
      if code == "" {
        return MissingCode;
      }
      var user := AuthenticateOAuthUser(provider, fetched, newId, now);
      if user.Err? {
        return LoginFailed(user.error);
      }
      ghost var before := db.Snapshot();
      var session := db.CreateSession(user.value.id, sessionToken, cfg.sessionTtl, now);
      assert Exec(before, CreateSession(sessionToken, user.value.id, cfg.sessionTtl), now)
          == OpenSession(before, sessionToken, user.value.id, cfg.sessionTtl, now);
      hide Exec;
      if session.Err? {
        return SessionFailed;
      }
      answer := SignedIn(redirectURI);
    }

    /** The RPC flow: same store, same authentication, a JWT at the end. */
    method HandleCallback(provider: string, state: string, fetched: Option<Fetched>, newId: UserId, now: Time)
      returns (answer: Answer)
      requires Valid()
      modifies states, db.users
      ensures Valid()
      ensures Callback(db.Snapshot(), states.states, answer) ==
        RpcCallback(cfg, old(db.Snapshot()), old(states.states), provider, state, fetched, newId, now)
    {
      hide Authenticate;
      var ok := states.Validate(state, provider, now);
      if !ok {
        return BadState;
      }
      var user := AuthenticateOAuthUser(provider, fetched, newId, now);
      match user
      case Err(e) => answer := LoginFailed(e);
      case Ok(u) => answer := Token(ClaimsOf(u));
    }

    /** Silent token mint. None is the 401 answer, whatever its cause. */
    method HandleToken(cookie: string, now: Time) returns (token: Option<Claims>)
      requires Valid()
      modifies db`sessions
      ensures Valid()
      ensures token == Mint(old(db.Snapshot()), old(db.Snapshot()), cookie, now)
      ensures db.Snapshot() ==
        if cookie == "" then old(db.Snapshot()) else BumpSession(old(db.Snapshot()), cookie, now).db
    {
      if cookie == "" {
        return None;
      }
      var session := db.GetValid(cookie, now);
      if session.None? || session.value.userId !in db.users.rows {
        return None;
      }
      var user := db.users.rows[session.value.userId];
      if !user.active {
        return None;
      }
      token := Some(ClaimsOf(user));
    }

    method HandleLogout(cookie: string, now: Time)
      requires Valid()
      modifies db`sessions
      ensures Valid()
      ensures db.Snapshot() ==
        if cookie == "" then old(db.Snapshot()) else CloseSession(old(db.Snapshot()), cookie, now).db
    {
      if cookie != "" {
        db.RevokeSession(cookie, now);
      }
    }
  }
}
