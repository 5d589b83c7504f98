/** The database as the stores drive it: the users table with its indexes, and the
    session, token and group tables that refer to it. Every method refines one statement. */
module AuthDatabases {
  import opened Values
  import opened Accounts
  import opened Database
  import opened UserStores
  import A = Accounts
  import D = Database

  // ---- Consistency, statement by statement ----

  /** A write to the users table that keeps its keys and loses no row keeps everything. */
  lemma {:induction false} WriteConsistent(db: Db, w: Write)
    requires Consistent(db) && A.Valid(w.table) && db.Users().Keys <= w.table.rows.Keys
    ensures Consistent(OfWrite(db, w).db)
  {
    hide A.Valid;
  }

  lemma {:induction false} DeleteConsistent(db: Db, id: UserId)
    requires Consistent(db)
    ensures Consistent(D.Delete(db, id).db)
  {
    hide Consistent, D.Delete;
    ExecConsistent(db, DeleteUser(id), 0);
  }

  lemma {:induction false} SessionStatementsConsistent(db: Db, token: string, user: UserId, ttl: Time, now: Time)
    requires Consistent(db)
    ensures Consistent(OpenSession(db, token, user, ttl, now).db)
    ensures Consistent(BumpSession(db, token, now).db)
    ensures Consistent(CloseSession(db, token, now).db)
  {
    hide Consistent, OpenSession, BumpSession, CloseSession;
    ExecConsistent(db, CreateSession(token, user, ttl), now);
    ExecConsistent(db, GetValid(token), now);
    ExecConsistent(db, RevokeSession(token), now);
  }

  lemma {:induction false} CloseAllConsistent(db: Db, user: UserId, now: Time)
    requires Consistent(db)
    ensures Consistent(CloseAll(db, user, now).db)
  {
    hide Consistent, CloseAll;
    ExecConsistent(db, RevokeAllSessions(user), now);
  }

  lemma {:induction false} PatInsertConsistent(db: Db, c: Cmd, now: Time)
    requires Consistent(db) && c.CreatePat?
    ensures Consistent(AddPat(db, c, now).db)
  {
    hide Consistent, AddPat;
    ExecConsistent(db, c, now);
  }

  lemma {:induction false} PatMarksConsistent(db: Db, pat: PatId, user: UserId, now: Time)
    requires Consistent(db)
    ensures Consistent(DropPat(db, pat, user, now).db)
    ensures Consistent(MarkUsed(db, pat, now).db)
  {
    hide Consistent, DropPat, MarkUsed;
    ExecConsistent(db, RevokePat(pat, user), now);
    ExecConsistent(db, TouchPat(pat), now);
  }

  class AuthDatabase {
    const users: UserStore
    var groups: map<GroupId, UserId>
    var members: set<Membership>
    var sessions: map<Digest, Session>
    var pats: map<PatId, Pat>

    ghost function Snapshot(): Db
      reads this, users
    {
      Db(users.Table(), groups, members, sessions, pats)
    }

    /** The users table and its indexes agree, and every key and reference of the schema
        holds. */
    ghost predicate Valid()
      reads this, users
    {
      users.Valid() && Consistent(Snapshot())
    }

    constructor ()
      ensures Valid() && Snapshot() == EMPTY && fresh(users)
    {
      users := new UserStore();
      groups, members, sessions, pats := map[], {}, map[], map[];
    }

    // ---- Users ----

    method UpsertByProvider(info: Profile, newId: UserId, now: Time) returns (r: Result<User, StoreError>)
      requires Valid()
      modifies users
      ensures Valid()
      ensures var o := OfWrite(old(Snapshot()), Upsert(old(Snapshot()).accounts, info, newId, now));
        && Snapshot() == o.db
        && r == (if o.reply.UserRow? then Ok(o.reply.user) else Err(MapUpsertError(o.reply.error)))
    {
      hide Consistent, UserStore.IndexesAgree;
      ghost var before := Snapshot();
      r := users.UpsertByProvider(info, newId, now);
      WriteConsistent(before, Upsert(before.accounts, info, newId, now));
    }

    method Create(d: Draft, newId: UserId, now: Time) returns (r: Result<User, DbError>)
      requires Valid()
      modifies users
      ensures Valid()
      ensures var o := OfWrite(old(Snapshot()), A.Create(old(Snapshot()).accounts, d, newId, now));
        && Snapshot() == o.db
        && r == (if o.reply.UserRow? then Ok(o.reply.user) else Err(o.reply.error))
    {
      hide Consistent, UserStore.IndexesAgree;
      ghost var before := Snapshot();
      r := users.Create(d, newId, now);
      WriteConsistent(before, A.Create(before.accounts, d, newId, now));
    }

    method Update(id: UserId, patch: Patch) returns (r: Result<User, DbError>)
      requires Valid()
      modifies users
      ensures Valid()
      ensures var o := OfWrite(old(Snapshot()), A.Update(old(Snapshot()).accounts, id, patch));
        && Snapshot() == o.db
        && r == (if o.reply.UserRow? then Ok(o.reply.user) else Err(o.reply.error))
    {
      hide Consistent, UserStore.IndexesAgree;
      ghost var before := Snapshot();
      r := users.Update(id, patch);
      WriteConsistent(before, A.Update(before.accounts, id, patch));
    }

    method AddRole(id: UserId, role: string) returns (r: Option<User>)
      requires Valid()
      modifies users
      ensures Valid()
      ensures var o := OfWrite(old(Snapshot()), A.AddRole(old(Snapshot()).accounts, id, role));
        && Snapshot() == o.db
        && r == if o.reply.UserRow? then Some(o.reply.user) else None
    {
      hide Consistent, UserStore.IndexesAgree;
      ghost var before := Snapshot();
      r := users.AddRole(id, role);
      WriteConsistent(before, A.AddRole(before.accounts, id, role));
    }

    /** The cascade: sessions, tokens and memberships go with their user; owning a group
        blocks the delete. */
    method Delete(id: UserId) returns (r: Result<(), DbError>)
      requires Valid()
      modifies this`sessions, this`pats, this`members, users
      ensures Valid()
      ensures var o := D.Delete(old(Snapshot()), id);
        && Snapshot() == o.db
        && r == (if o.reply.Hit() then Ok(()) else Err(if o.reply.Failed? then o.reply.error else NoRows))
    {
      hide Consistent, UserStore.Valid;
      ghost var before := Snapshot();
      DeleteConsistent(before, id);
      if id !in users.rows {
        return Err(NoRows);
      }
      if id in groups.Values {
        return Err(ForeignKey);
      }
      var deleted := users.Delete(id);
      members := set m | m in members && m.user != id;
      sessions := map d | d in sessions && sessions[d].userId != id :: sessions[d];
      pats := map p | p in pats && pats[p].userId != id :: pats[p];
      assert Snapshot() == D.Delete(before, id).db;
      r := Ok(());
    }

    /** The account of an app id, if any. */
    method GetByAlternateAppID(appId: int) returns (r: Option<UserId>)
      requires Valid()
      ensures r == FindByAppId(Snapshot(), appId)
    {
      assert AppIdsUnique(Snapshot().Users());
      if id :| id in users.rows && users.rows[id].appId == appId {
        r := Some(id);
      } else {
        r := None;
      }
    }

    // ---- Sessions ----

    /** `rawToken` is the random cookie value just drawn; only its digest is stored. */
    method CreateSession(userId: UserId, rawToken: string, ttl: Time, now: Time) returns (r: Result<string, DbError>)
      requires Valid()
      modifies this`sessions
      ensures Valid()
      ensures var o := OpenSession(old(Snapshot()), rawToken, userId, ttl, now);
        && Snapshot() == o.db
        && r == (if o.reply.Hit() then Ok(rawToken) else Err(o.reply.error))
    {
      hide Consistent, UserStore.Valid;
      SessionStatementsConsistent(Snapshot(), rawToken, userId, ttl, now);
      var digest := Sha256(rawToken);
      if digest in sessions {
        return Err(Violates(TokenKey));
      }
      if userId !in users.rows {
        return Err(ForeignKey);
      }
      sessions := sessions[digest := Session(userId, now, now + ttl, None, None)];
      r := Ok(rawToken);
    }

    method GetValid(rawToken: string, now: Time) returns (r: Option<Session>)
      requires Valid()
      modifies this`sessions
      ensures Valid()
      ensures var o := BumpSession(old(Snapshot()), rawToken, now);
        Snapshot() == o.db && r == if o.reply.SessionRow? then Some(o.reply.session) else None
    {
      hide Consistent, UserStore.Valid;
      SessionStatementsConsistent(Snapshot(), rawToken, 0, 0, now);
      var digest := Sha256(rawToken);
      if digest !in sessions || sessions[digest].revokedAt.Some? || sessions[digest].expiresAt <= now {
        return None;
      }
      sessions := sessions[digest := sessions[digest].(lastSeen := Some(now))];
      r := Some(sessions[digest]);
    }

    /** Revoking an unknown token is not an error. */
    method RevokeSession(rawToken: string, now: Time)
      requires Valid()
      modifies this`sessions
      ensures Valid()
      ensures Snapshot() == CloseSession(old(Snapshot()), rawToken, now).db
    {
      hide Consistent, UserStore.Valid;
      SessionStatementsConsistent(Snapshot(), rawToken, 0, 0, now);
      var digest := Sha256(rawToken);
      if digest in sessions && sessions[digest].revokedAt.None? {
        sessions := sessions[digest := sessions[digest].(revokedAt := Some(now))];
      }
    }

    method RevokeAllForUser(userId: UserId, now: Time)
      requires Valid()
      modifies this`sessions
      ensures Valid()
      ensures Snapshot() == CloseAll(old(Snapshot()), userId, now).db
    {
      hide Consistent, UserStore.Valid;
      ghost var before := Snapshot();
      CloseAllConsistent(before, userId, now);
      sessions := map d | d in sessions ::
        if sessions[d].userId == userId && sessions[d].revokedAt.None?
        then sessions[d].(revokedAt := Some(now))
        else sessions[d];
      assert Snapshot() == CloseAll(before, userId, now).db;
    }

    // ---- Personal access tokens ----

    method CreatePat(pat: PatId, userId: UserId, token: string, prefix: string, name: string, scopes: seq<string>,
                     expiresAt: Option<Time>, now: Time)
      returns (r: Result<Pat, DbError>)
      requires Valid()
      modifies this`pats
      ensures Valid()
      ensures var o := AddPat(old(Snapshot()), Cmd.CreatePat(pat, userId, token, prefix, name, scopes, expiresAt), now);
        && Snapshot() == o.db
        && r == (if o.reply.PatRow? then Ok(o.reply.row) else Err(o.reply.error))
    {
      hide Consistent, UserStore.Valid;
      ghost var c := Cmd.CreatePat(pat, userId, token, prefix, name, scopes, expiresAt);
      PatInsertConsistent(Snapshot(), c, now);
      if !PatNameChecked(name) {
        return Err(Violates(NameCheck));
      }
      if pat in pats {
        return Err(Violates(PrimaryKey));
      }
      if exists p :: p in pats && pats[p].digest == Sha256(token) {
        return Err(Violates(TokenKey));
      }
      if userId !in users.rows {
        return Err(ForeignKey);
      }
      ghost var before := Snapshot();
      var row := Pat(userId, Sha256(token), prefix, name, scopes, now, expiresAt, None, None);
      pats := pats[pat := row];
      assert !DigestTaken(before, Sha256(token));
      r := Ok(row);
    }

    /** The row of a digest, whatever its status. */
    method GetByHash(digest: Digest) returns (r: Option<PatId>)
      requires Valid()
      ensures r == FindPat(Snapshot(), digest)
    {
      if p :| p in pats && pats[p].digest == digest {
        r := Some(p);
      } else {
        r := None;
      }
    }

    /** false is ErrPatNotFound: no such token, another owner's, or revoked already. */
    method RevokePat(pat: PatId, userId: UserId, now: Time) returns (revoked: bool)
      requires Valid()
      modifies this`pats
      ensures Valid()
      ensures var o := DropPat(old(Snapshot()), pat, userId, now);
        Snapshot() == o.db && revoked == o.reply.Hit()
    {
      hide Consistent, UserStore.Valid;
      PatMarksConsistent(Snapshot(), pat, userId, now);
      revoked := pat in pats && pats[pat].userId == userId && pats[pat].revokedAt.None?;
      if revoked {
        pats := pats[pat := pats[pat].(revokedAt := Some(now))];
      }
    }

    method TouchLastUsed(pat: PatId, now: Time)
      requires Valid()
      modifies this`pats
      ensures Valid()
      ensures Snapshot() == MarkUsed(old(Snapshot()), pat, now).db
    {
      hide Consistent, UserStore.Valid;
      PatMarksConsistent(Snapshot(), pat, 0, now);
      if pat in pats {
        pats := pats[pat := pats[pat].(lastUsed := Some(now))];
      }
    }
  }
}
